/** The server's HTTP layer (`server/file_receiver.py`): the client
    allow-list, the token check, the `/upload` decision chain with its
    temporary file, and the token gates of `/stats`, `/` and `/cleanup`.
    A request is reduced to the parts the handlers look at. */
module FileReceiving {
  import opened Common
  import opened Dates
  import opened ServerTree
  import opened Extraction
  import opened Retention
  import opened Inventory
  import opened StorageHandling

  // ------------------------------------------------------------------
  // Requests

  /** The multipart part named `file`: its client-side file name, and its
      bytes as the archive reader sees them. */
  datatype FilePart = FilePart(filename: string, content: Upload)

  /** `request.remote_addr`, the `X-API-Token` header, `request.files['file']`
      and the form field `computer_id`, each absent or present. */
  datatype Request = Request(remoteAddr: string, token: Option<string>, file: Option<FilePart>, computerId: Option<string>)

  /** `verify_token`: a missing header is `None`, which never equals the
      configured token. */
  predicate VerifyToken(header: Option<string>, apiToken: string)
  {
    header == Some(apiToken)
  }

  /** The text before the first `/` of an allow-list entry. */
  function EntryPrefix(entry: string): string
  {
    Split(entry, '/')[0]
  }

  /** Some entry's prefix is a text prefix of the address. */
  function AnyPrefix(allowed: seq<string>, addr: string): (ok: bool)
    ensures ok <==> exists i :: 0 <= i < |allowed| && StartsWith(addr, EntryPrefix(allowed[i]))
    decreases |allowed|
  {
    if |allowed| == 0 then false
    else StartsWith(addr, EntryPrefix(allowed[0])) || AnyPrefix(allowed[1..], addr)
  }

  /** `check_ip_whitelist`: an empty allow-list admits every client; else
      a client is admitted when its address text starts with the part
      before `/` of some entry. No address arithmetic is done. */
  function CheckIpWhitelist(allowed: seq<string>, addr: string): (ok: bool)
    ensures |allowed| == 0 ==> ok
    ensures |allowed| > 0 ==> (ok <==> exists i :: 0 <= i < |allowed| && StartsWith(addr, EntryPrefix(allowed[i])))
  {
    |allowed| == 0 || AnyPrefix(allowed, addr)
  }

  /** A CIDR entry does not admit an address inside its network unless
      the address text happens to start with the network's text. */
  lemma CidrEntryRejectsMember()
    ensures !CheckIpWhitelist(["192.168.1.0/24"], "192.168.1.5")
  {
    assert "192.168.1.0/24" == "192.168.1.0" + ['/'] + "24";
    SplitAtSep("192.168.1.0", '/', "24");
    assert EntryPrefix("192.168.1.0/24") == "192.168.1.0";
    assert "192.168.1.5"[10] != "192.168.1.0"[10];
  }

  /** An entry for one address admits every address that extends its text. */
  lemma PrefixAdmitsOther()
    ensures CheckIpWhitelist(["10.0.0.1"], "10.0.0.100")
  {
    SplitNoSep("10.0.0.1", '/');
    assert "10.0.0.100"[..8] == "10.0.0.1";
  }

  /** The checks `/upload` makes before it touches anything, in order: the
      allow-list (403), the token (401), a `file` part (400) with a
      non-empty name (400). `None` lets the request through. */
  function Gate(allowed: seq<string>, apiToken: string, req: Request): (status: Option<int>)
    ensures status == Some(403) <==> !CheckIpWhitelist(allowed, req.remoteAddr)
    ensures status == Some(401) <==> CheckIpWhitelist(allowed, req.remoteAddr) && !VerifyToken(req.token, apiToken)
    ensures status == Some(400) <==> CheckIpWhitelist(allowed, req.remoteAddr) && VerifyToken(req.token, apiToken) &&
                                     (req.file.None? || req.file.value.filename == "")
    ensures status.None? ==> req.file.Some? && req.file.value.filename != ""
  {
    if !CheckIpWhitelist(allowed, req.remoteAddr) then Some(403)
    else if !VerifyToken(req.token, apiToken) then Some(401)
    else if req.file.None? then Some(400)
    else if req.file.value.filename == "" then Some(400)
    else None
  }

  /** `request.form.get('computer_id', 'unknown')` */
  function ComputerIdOf(req: Request): (id: string)
    ensures req.computerId.None? ==> id == "unknown"
    ensures req.computerId.Some? ==> id == req.computerId.value
  {
    match req.computerId
    case Some(id) => id
    case None => "unknown"
  }

  /** What `/upload` answers and what the storage root becomes.
      `saveFails` says whether writing the received bytes to the
      temporary file raised. */
  function HandleUpload(allowed: seq<string>, apiToken: string, req: Request, fs: Tree, today: Date, saveFails: bool): (r: (int, Tree))
    requires Valid(today)
  {
    match Gate(allowed, apiToken, req)
    case Some(status) => (status, fs)
    case None =>
      if saveFails then (500, fs)
      else
        var out := Extraction.SaveUpload(fs, req.file.value.content, ComputerIdOf(req), today);
        (if out.ok then 200 else 500, out.fs)
  }

  // ------------------------------------------------------------------
  // Properties of `/upload`

  /** The response is one of the five codes, and a rejected request
      leaves storage as it was. */
  lemma RejectedLeavesStorage(allowed: seq<string>, apiToken: string, req: Request, fs: Tree, today: Date, saveFails: bool)
    requires Valid(today)
    ensures var r := HandleUpload(allowed, apiToken, req, fs, today, saveFails);
      r.0 in {200, 400, 401, 403, 500} &&
      (r.0 in {400, 401, 403} ==> r.1 == fs)
  {
    var g := Gate(allowed, apiToken, req);
    if g.Some? {
      assert g.value in {400, 401, 403};
    }
  }

  /** The response is 200 exactly when every check passes, the bytes are
      saved, and the extraction reports success. */
  lemma SuccessIff(allowed: seq<string>, apiToken: string, req: Request, fs: Tree, today: Date, saveFails: bool)
    requires Valid(today)
    ensures HandleUpload(allowed, apiToken, req, fs, today, saveFails).0 == 200 <==>
      Gate(allowed, apiToken, req).None? && !saveFails &&
      Extraction.SaveUpload(fs, req.file.value.content, ComputerIdOf(req), today).ok
  {
    var g := Gate(allowed, apiToken, req);
    if g.Some? {
      assert g.value in {400, 401, 403};
    }
  }

  /** Sending the same accepted archive again, the same day, answers 200
      and changes nothing: a client that repeats an upload whose answer
      it lost does no harm. */
  lemma RetryHarmless(allowed: seq<string>, apiToken: string, req: Request, fs: Tree, today: Date)
    requires Valid(today)
    requires HandleUpload(allowed, apiToken, req, fs, today, false).0 == 200
    ensures var after := HandleUpload(allowed, apiToken, req, fs, today, false).1;
      HandleUpload(allowed, apiToken, req, after, today, false) == (200, after)
  {
    SuccessIff(allowed, apiToken, req, fs, today, false);
    SaveUploadIdempotent(fs, req.file.value.content, ComputerIdOf(req), today);
  }

  /** Whatever the member names, an upload only changes entries inside
      the date folder of its sanitized computer id, apart from creating
      that folder and its parent. */
  lemma UploadConfined(allowed: seq<string>, apiToken: string, req: Request, fs: Tree, today: Date, saveFails: bool)
    requires Valid(today)
    ensures var after := HandleUpload(allowed, apiToken, req, fs, today, saveFails).1;
      var df := DateFolder(ComputerIdOf(req), today);
      fs.Keys <= after.Keys &&
      forall q :: q in after && (q !in fs || after[q] != fs[q]) ==>
        (Under(q, df) && SegPath(q)) || (q in Prefixes(df) && q !in fs && after[q] == Dir)
  {
    if Gate(allowed, apiToken, req).None? && !saveFails {
      SaveUploadConfined(fs, req.file.value.content, ComputerIdOf(req), today);
    }
  }

  // ------------------------------------------------------------------
  // The server

  class FileReceiver {
    /** The module-level `storage_handler`. */
    const storage: StorageHandler
    /** `ServerConfig.ALLOWED_IPS` */
    const allowedIps: seq<string>
    /** `ServerConfig.API_TOKEN` */
    const apiToken: string
    /** The temporary files left in the temporary directory. */
    var tempFiles: set<string>

    constructor(storage: StorageHandler, allowedIps: seq<string>, apiToken: string)
      ensures this.storage == storage && this.allowedIps == allowedIps && this.apiToken == apiToken
      ensures tempFiles == {}
    {
      this.storage := storage;
      this.allowedIps := allowedIps;
      this.apiToken := apiToken;
      tempFiles := {};
    }

    /** `upload_file`. `tempPath` is the fresh name `mkstemp` picks,
        `saveFails` whether writing the received bytes to it raised, and
        `removeFails` whether removing it afterwards raised (the error is
        swallowed and the file stays behind). */
    method UploadFile(req: Request, today: Date, tempPath: string, saveFails: bool, removeFails: bool) returns (status: int)
      requires Valid(today) && tempPath !in tempFiles
      modifies this, storage
      ensures (status, storage.fs) == HandleUpload(allowedIps, apiToken, req, old(storage.fs), today, saveFails)
      ensures tempFiles == if Gate(allowedIps, apiToken, req).None? && removeFails then old(tempFiles) + {tempPath} else old(tempFiles)
    {
      var gate := Gate(allowedIps, apiToken, req);
      if gate.Some? {
        return gate.value;
      }
      var computerId := ComputerIdOf(req);
      tempFiles := tempFiles + {tempPath};
      if saveFails {
        status := 500;
      } else {
        var ok := storage.SaveUpload(req.file.value.content, computerId, today);
        status := if ok then 200 else 500;
      }
      if !removeFails {
        tempFiles := tempFiles - {tempPath};
      }
    }

    /** `get_stats`: 401 without reading storage on a bad token. */
    method GetStats(token: Option<string>) returns (status: int, stats: Option<Stats>)
      ensures !VerifyToken(token, apiToken) ==> status == 401 && stats.None?
      ensures VerifyToken(token, apiToken) ==> status == 200 && stats == Some(Statistics(storage.fs))
    {
      if !VerifyToken(token, apiToken) {
        return 401, None;
      }
      var s := storage.GetStatistics();
      return 200, Some(s);
    }

    /** `dashboard`: the same gate and the same statistics as `/stats`,
        rendered as a page instead of JSON. */
    method Dashboard(token: Option<string>) returns (status: int, shown: Option<Stats>)
      ensures !VerifyToken(token, apiToken) ==> status == 401 && shown.None?
      ensures VerifyToken(token, apiToken) ==> status == 200 && shown == Some(Statistics(storage.fs))
    {
      status, shown := GetStats(token);
    }

    /** `cleanup`: 401 without touching storage on a bad token; otherwise
        the sweep runs and the answer is 200 (the sweep reports its own
        failures and never raises). */
    method Cleanup(token: Option<string>, now: int) returns (status: int)
      modifies storage
      ensures !VerifyToken(token, apiToken) ==> status == 401 && storage.fs == old(storage.fs)
      ensures VerifyToken(token, apiToken) ==> status == 200 && storage.fs == Sweep(old(storage.fs), Cutoff(now))
    {
      if !VerifyToken(token, apiToken) {
        return 401;
      }
      storage.CleanupOldData(now);
      return 200;
    }
  }
}
