/**
 * `GET /get_dp` of the container deployment: errors as small JSON
 * documents, pictures as the raw JPEG file.
 */
module DockerApi {
  import opened Wrappers
  import opened Base64
  import opened DataUri
  import opened History
  import opened Storage
  import opened Normalize
  import opened Acquisition
  import opened Dedup

  const MissingNumberMessage: string := "Falta parámetro 'number' (formato: +51987654321 o 51987654321)"
  const InvalidNumberMessage: string := "Número inválido. Use formato internacional: +51987654321"
  const NegativeMessage: string := "Privado o inexistente"
  const FailureMessage: string := "Fallo en el proceso"

  /** The `last_attempt` and `attempts` fields of a reply taken from the log. */
  datatype LastAttempt = LastAttempt(timestamp: string, attempts: nat)

  datatype Response =
    | Json(code: nat, status: string, message: string, history: Option<LastAttempt>)
    | File(path: string, content: Bytes)   // `send_file(path, mimetype='image/jpeg')`, status 200
    | Uncaught                             // an exception escaping the handler: the framework answers 500

  function Code(r: Response): nat {
    match r
    case Json(code, _, _, _) => code
    case File(_, _) => 200
    case Uncaught => 500
  }

  /**
   * `send_file(path)`: sends exactly the chosen file, and raises when the
   * path is `None` or the file does not exist; it never answers with JSON.
   */
  function SendFile(f: Sent): (r: Response)
    ensures r.File? || r == Uncaught
    ensures r.File? <==> f.path.Some? && f.content.Some?
    ensures r.File? ==> Some(r.path) == f.path && Some(r.content) == f.content
  {
    if f.path.Some? && f.content.Some? then File(f.path.value, f.content.value) else Uncaught
  }

  /**
   * The reply for each branch of the policy. It is never a 400; a sticky
   * entry is echoed with its history; a file is sent only from the cache or
   * after a saved scrape, and it is the file the policy chose.
   */
  function Reply(served: Served): (r: Response)
    ensures Code(r) != 400
    ensures served.Remembered? ==>
      r.Json? && r.message == served.record.message
      && r.history == Some(LastAttempt(served.record.timestamp, served.record.attempts))
    ensures r.File? ==> (served.FromCache? || (served.Fetched? && served.result.SavedAt?))
                        && Some(r.content) == served.file.content
    ensures r == Uncaught ==> served.file.path.None? || served.file.content.None?
  {
    match served
    case Remembered(rec) =>
      Json(if rec.status == Private then 404 else 500, rec.status.Tag(), rec.message,
           Some(LastAttempt(rec.timestamp, rec.attempts)))
    case FromCache(file) => SendFile(file)
    case Fetched(r, file) =>
      match r
      case PrivateResult => Json(404, "negative", NegativeMessage, None)
      case ErrorResult => Json(500, "error", FailureMessage, None)
      case NoResult => Json(500, "error", FailureMessage, None)
      case SavedAt(_) => SendFile(file)
  }

  /**
   * `api_get_dp`: the reply and the stores afterwards. The reply is a 400
   * exactly when the number is missing, empty or rejected by the parser, and
   * then nothing is written.
   */
  function Handle(st: Stores, req: Request, env: Env): (r: (Response, Stores))
    ensures Code(r.0) == 400 <==>
      req.number.None? || req.number.value == "" || env.parse(WithPlus(req.number.value)).None?
    ensures Code(r.0) == 400 ==> r.1 == st
  {
    if req.number.None? || req.number.value == "" then
      (Json(400, "error", MissingNumberMessage, None), st)
    else
      match Separate(req.number.value, env.parse)
      case None => (Json(400, "error", InvalidNumberMessage, None), st)
      case Some(key) =>
        var (served, after) := Step(st, key, IconRequested(req.icon), env.session, env.now, env.derive);
        (Reply(served), after)
  }

  /** `api_get_dp` on the live log and folders. */
  method GetDp(log: RequestLog, folders: ImageFolders, req: Request, env: Env) returns (resp: Response)
    modifies log, folders
    ensures (resp, Stores(log.entries, folders.originals, folders.icons))
         == Handle(Stores(old(log.entries), old(folders.originals), old(folders.icons)), req, env)
  {
    if req.number.None? || req.number.value == "" {
      return Json(400, "error", MissingNumberMessage, None);
    }
    var key := Separate(req.number.value, env.parse);
    var isIcon := IconRequested(req.icon);
    if key.None? {
      return Json(400, "error", InvalidNumberMessage, None);
    }
    var served := Serve(log, folders, key.value, isIcon, env.session, env.now, env.derive);
    resp := Reply(served);
  }

  // ---------------------------------------------------------------------
  // Properties of the endpoint
  // ---------------------------------------------------------------------

  /** A missing, empty or unparsable number is a 400 that reads and writes nothing. */
  lemma BadNumber(st: Stores, req: Request, env: Env)
    requires req.number.None? || req.number.value == "" || env.parse(WithPlus(req.number.value)).None?
    ensures Code(Handle(st, req, env).0) == 400
    ensures Handle(st, req, env).1 == st
    ensures forall other: Stores :: Handle(other, req, env).0 == Handle(st, req, env).0
  {
  }

  /** A sticky entry is answered 404 ("private") or 500 ("error") with its own message, timestamp and attempts. */
  lemma StickyReply(st: Stores, req: Request, env: Env, key: Key)
    requires req.number.Some? && req.number.value != "" && Separate(req.number.value, env.parse) == Some(key)
    requires StickyIn(st.log, key.Joined())
    ensures var rec := st.log[key.Joined()];
      Handle(st, req, env) ==
        (Json(if rec.status == Private then 404 else 500, rec.status.Tag(), rec.message,
              Some(LastAttempt(rec.timestamp, rec.attempts))), st)
  {
  }

  /**
   * Every `send_file` finds its file: each branch that sends a picture has
   * its path and its bytes, so `send_file` itself never raises.
   */
  lemma NeverUncaught(st: Stores, req: Request, env: Env)
    ensures Handle(st, req, env).0 != Uncaught
  {
    if req.number.Some? && req.number.value != "" && Separate(req.number.value, env.parse).Some? {
      var key := Separate(req.number.value, env.parse).value;
      var served := Step(st, key, IconRequested(req.icon), env.session, env.now, env.derive).0;
      FileFound(st, key, IconRequested(req.icon), env.session, env.now, env.derive);
      assert Handle(st, req, env).0 == Reply(served);
    }
  }

  /**
   * How a fresh lookup (no sticky entry, no stored original) is answered:
   * 404 for a negative marker, 500 for an exception, an exhausted poll or an
   * unsaved image, and the new original (or its icon) otherwise.
   */
  lemma FreshReply(st: Stores, req: Request, env: Env, key: Key)
    requires req.number.Some? && req.number.value != "" && Separate(req.number.value, env.parse) == Some(key)
    requires !StickyIn(st.log, key.Joined()) && key.Joined() !in st.originals
    ensures var resp := Handle(st, req, env).0;
      var t := Observe(env.session);
      && (t == Negative ==> resp == Json(404, "negative", NegativeMessage, None))
      && (t.Faulted? || t == Exhausted || SaveFails(env.session) ==> resp == Json(500, "error", FailureMessage, None))
      && (t.Seen? && !SaveFails(env.session) ==>
            var bytes := DecodeDataUri(t.src).value;
            resp == if IconRequested(req.icon) then File(IconPath(key.Joined()), env.derive(bytes))
                    else File(OriginalPath(key.Joined()), bytes))
  {
    ScrapeOutcomes(st, env.session, key.national, key.country, env.now);
  }
}
