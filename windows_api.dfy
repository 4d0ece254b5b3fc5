/**
 * `GET /get_dp` of the Windows deployment: every reply is a JSON document;
 * a picture travels inside it as a JPEG data URI.
 */
module WindowsApi {
  import opened Wrappers
  import opened Base64
  import opened DataUri
  import opened History
  import opened Storage
  import opened Normalize
  import opened Acquisition
  import opened Dedup
  import DockerApi

  const MissingNumberMessage: string := "Falta parámetro 'number' (formato: +51987654321 o 51987654321)"
  const InvalidNumberMessage: string := "Número inválido. Use formato internacional: +51987654321"
  const CachedMessage: string := "Imagen encontrada en caché"
  const EncodeFailureMessage: string := "Error al codificar imagen"
  const ScrapeFailureMessage: string := "Fallo en el proceso de scraping"

  /** The fields a reply carries beyond status, message, phone_number and image. */
  datatype Extra =
    | NoExtra
    | Format(format: string)                        // "icon" or "original"
    | LastAttempt(timestamp: string, attempts: nat) // `last_attempt`, `attempts`

  /** A JSON reply and its HTTP status; `None` is JSON `null`. */
  datatype Response = Response(code: nat, status: string, message: string,
                               phoneNumber: Option<string>, image: Option<string>, extra: Extra)

  /** `"negative" if status == "private" else "error"`. */
  function StickyTag(s: Status): (r: string)
    ensures r == "negative" <==> s.Tag() == "private"
    ensures r != "negative" ==> r == "error"
  {
    if s == Private then "negative" else "error"
  }

  /**
   * The picture reply: a 200 carrying the chosen file as a data URI that
   * decodes back to its bytes, exactly when the file exists; otherwise the
   * 500 "Error al codificar imagen" with no image.
   */
  function ImageReply(file: Sent, phone: string, message: string, isIcon: bool): (r: Response)
    ensures r.image.Some? <==> file.path.Some? && file.content.Some?
    ensures r.image.Some? ==> r.code == 200 && DecodeDataUri(r.image.value) == file.content
    ensures r.image.None? ==> r.code == 500 && r.message == EncodeFailureMessage
  {
    match ImageToBase64(if file.path.Some? then file.content else None)
    case Some(uri) => Response(200, "success", message, Some(phone), Some(uri), Format(if isIcon then "icon" else "original"))
    case None => Response(500, "error", EncodeFailureMessage, Some(phone), None, NoExtra)
  }

  /**
   * The reply for each branch of the policy, for a key written `+` followed
   * by `k`. It always names the number and is never a 400; an image is
   * carried only with a 200, from the cache or after a saved scrape, and it
   * decodes to the file the policy chose.
   */
  function Reply(served: Served, k: string, isIcon: bool): (r: Response)
    ensures r.phoneNumber == Some("+" + k)
    ensures r.code != 400
    ensures r.image.Some? ==> r.code == 200 && (served.FromCache? || (served.Fetched? && served.result.SavedAt?))
                              && DecodeDataUri(r.image.value) == served.file.content
  {
    var phone := "+" + k;
    match served
    case Remembered(rec) =>
      Response(if rec.status == Private then 404 else 500, StickyTag(rec.status), rec.message,
               Some(phone), None, LastAttempt(rec.timestamp, rec.attempts))
    case FromCache(file) => ImageReply(file, phone, CachedMessage, isIcon)
    case Fetched(r, file) =>
      match r
      case PrivateResult => Response(404, "negative", PrivateMessage, Some(phone), None, NoExtra)
      case ErrorResult => Response(500, "error", ScrapeFailureMessage, Some(phone), None, NoExtra)
      case NoResult => Response(500, "error", ScrapeFailureMessage, Some(phone), None, NoExtra)
      case SavedAt(_) => ImageReply(file, phone, DownloadedMessage, isIcon)
  }

  /**
   * `api_get_dp`: the reply and the stores afterwards. The reply is a 400
   * exactly when the number is missing, empty or rejected by the parser, and
   * then it carries no image and nothing is written.
   */
  function Handle(st: Stores, req: Request, env: Env): (r: (Response, Stores))
    ensures r.0.code == 400 <==>
      req.number.None? || req.number.value == "" || env.parse(WithPlus(req.number.value)).None?
    ensures r.0.code == 400 ==> r.1 == st && r.0.image == None
  {
    if req.number.None? || req.number.value == "" then
      (Response(400, "error", MissingNumberMessage, None, None, NoExtra), st)
    else
      var raw := req.number.value;
      match Separate(raw, env.parse)
      case None => (Response(400, "error", InvalidNumberMessage, Some(raw), None, NoExtra), st)
      case Some(key) =>
        var isIcon := IconRequested(req.icon);
        var (served, after) := Step(st, key, isIcon, env.session, env.now, env.derive);
        (Reply(served, key.Joined(), isIcon), after)
  }

  /** `api_get_dp` on the live log and folders. */
  method GetDp(log: RequestLog, folders: ImageFolders, req: Request, env: Env) returns (resp: Response)
    modifies log, folders
    ensures (resp, Stores(log.entries, folders.originals, folders.icons))
         == Handle(Stores(old(log.entries), old(folders.originals), old(folders.icons)), req, env)
  {
    if req.number.None? || req.number.value == "" {
      return Response(400, "error", MissingNumberMessage, None, None, NoExtra);
    }
    var raw := req.number.value;
    var key := Separate(raw, env.parse);
    var isIcon := IconRequested(req.icon);
    if key.None? {
      return Response(400, "error", InvalidNumberMessage, Some(raw), None, NoExtra);
    }
    var served := Serve(log, folders, key.value, isIcon, env.session, env.now, env.derive);
    resp := Reply(served, key.value.Joined(), isIcon);
  }

  // ---------------------------------------------------------------------
  // Properties of the endpoint
  // ---------------------------------------------------------------------

  /** A missing, empty or unparsable number is a 400 that reads and writes nothing. */
  lemma BadNumber(st: Stores, req: Request, env: Env)
    requires req.number.None? || req.number.value == "" || env.parse(WithPlus(req.number.value)).None?
    ensures Handle(st, req, env).0.code == 400 && Handle(st, req, env).0.image == None
    ensures Handle(st, req, env).1 == st
    ensures forall other: Stores :: Handle(other, req, env).0 == Handle(st, req, env).0
  {
  }

  /**
   * A sticky entry is answered from the log: "private" becomes 404
   * "negative", "error" 500 "error"; message, timestamp and attempts are the
   * stored ones and nothing is written.
   */
  lemma StickyReply(st: Stores, req: Request, env: Env, key: Key)
    requires req.number.Some? && req.number.value != "" && Separate(req.number.value, env.parse) == Some(key)
    requires StickyIn(st.log, key.Joined())
    ensures var rec := st.log[key.Joined()];
      var (resp, after) := Handle(st, req, env);
      && after == st
      && (rec.status == Private ==> resp.code == 404 && resp.status == "negative")
      && (rec.status == Error ==> resp.code == 500 && resp.status == "error")
      && resp.message == rec.message && resp.extra == LastAttempt(rec.timestamp, rec.attempts)
      && resp.phoneNumber == Some("+" + key.Joined()) && resp.image == None
  {
  }

  /** The two envelopes of the same served outcome, when every picture sent is found. */
  lemma ReplyAgrees(served: Served, k: string, isIcon: bool)
    requires served.FromCache? || (served.Fetched? && served.result.SavedAt?) ==>
      served.file.path.Some? && served.file.content.Some?
    ensures Reply(served, k, isIcon).code == DockerApi.Code(DockerApi.Reply(served))
    ensures Reply(served, k, isIcon).image.Some? <==> DockerApi.Reply(served).File?
    ensures DockerApi.Reply(served).File? ==>
      Reply(served, k, isIcon).image == ImageToBase64(Some(DockerApi.Reply(served).content))
  {
  }

  /**
   * The two deployments differ only in their envelope: the same request on
   * the same stores writes the same stores, answers with the same status
   * code, and where one sends a picture file the other embeds exactly those
   * bytes as a JPEG data URI. In particular a picture is always read back,
   * so the "Error al codificar imagen" branch is never taken.
   */
  lemma AgreesWithDocker(st: Stores, req: Request, env: Env)
    ensures Handle(st, req, env).1 == DockerApi.Handle(st, req, env).1
    ensures Handle(st, req, env).0.code == DockerApi.Code(DockerApi.Handle(st, req, env).0)
    ensures Handle(st, req, env).0.image.Some? <==> DockerApi.Handle(st, req, env).0.File?
    ensures DockerApi.Handle(st, req, env).0.File? ==>
      var bytes := DockerApi.Handle(st, req, env).0.content;
      && Handle(st, req, env).0.image == ImageToBase64(Some(bytes))
      && DecodeDataUri(Handle(st, req, env).0.image.value) == Some(bytes)
  {
    if req.number.Some? && req.number.value != "" && Separate(req.number.value, env.parse).Some? {
      var key := Separate(req.number.value, env.parse).value;
      var isIcon := IconRequested(req.icon);
      FileFound(st, key, isIcon, env.session, env.now, env.derive);
      ReplyAgrees(Step(st, key, isIcon, env.session, env.now, env.derive).0, key.Joined(), isIcon);
    }
  }
}
