# WhatsApp profile-picture lookup service, modelled in Dafny

The service answers one request: `GET /get_dp?number=<phone>&icon=<bool>`.
It gives back the WhatsApp profile picture of a phone number. To get it, it
drives a headless browser against a third-party "DP downloader" page. Every
scrape and every cache hit is recorded in a JSON request log keyed by the
normalised number (country code followed by the national number), except a
scrape that sees an image but cannot save it; a sticky "private" or "error"
answer and an invalid number write nothing. Downloaded pictures are kept
in `downloads/originals`, and 256x256 icons derived from them in
`downloads/icons`.

The service ships in two deployments with the same logic:

- `api.py`, for a container, answers errors as small JSON documents and
  pictures as raw JPEG files;
- `api_local_win.py`, for Windows, answers everything as JSON and embeds the
  picture as a `data:image/jpeg;base64,…` URI.

The model has eleven modules:

- `Wrappers`: `Option`, the model's Python `None`.
- `Text`: Python's `startswith`, `in` (each characterised by position),
  `split(",")`, ASCII `lower()` and
  `str()` of a non-negative integer, each with its partner (`Join`,
  `DigitsValue`).
- `Base64`: `b64encode` and strict `b64decode`, with the round trip proved.
- `DataUri`: `split(",")[1]` followed by decoding (`process_and_save_image`),
  and `image_to_base64`.
- `History`: the request log as a `RequestLog` object holding a map, with
  `register_request` and `check_request_history`.
- `Storage`: the two image folders as an `ImageFolders` object, with
  `process_and_save_image` and `create_icon`, plus a `Stores` snapshot of
  all persistent state.
- `Normalize`: `separar_numero`, with the phone-number library as a parser
  parameter, and the `icon` flag.
- `Acquisition`: `scrape_whatsapp_image` over an abstract browser `Session`.
  The session says where a driver call raises, the result HTML, and the
  `src` read at each of the twenty polls.
- `Dedup`: the policy `api_get_dp` shares between both deployments. A sticky
  "private" or "error" entry answers from the log; a stored original answers
  from the cache; otherwise the scraper runs.
- `DockerApi`: the container deployment's replies.
- `WindowsApi`: the Windows deployment's replies, proved to agree with
  `DockerApi` except for the envelope.

Each state-changing operation is an imperative method. Its `ensures` ties the
new state of the log and folders to a pure function of the old state
(`Registered`, `SaveSpec`, `IconSpec`, `ScrapeSpec`, `Step`, `Handle`). The
properties are then proved as lemmas about those functions.

The image payload of a data URI is taken with `split(",")[1]`: the text
between the first comma and the second one (or the end), not everything after
the first comma. `DataUri.PayloadIsSecondField` states this.

## Model

| member | source | states |
|---|---|---|
| `History.Registered` | api.py:53-62 | the entry for the key gets the new status, message and timestamp and one more attempt than before (1 for a new key); the key set grows by that key only; every other entry is unchanged; every entry keeps counting at least one attempt |
| `History.RequestLog.constructor` | api.py:31-34 | the log starts empty |
| `History.RequestLog.Register` | api_local_win.py:53-62 | the log afterwards is exactly `Registered` of the log before |
| `History.RequestLog.Lookup` | api.py:64-67 | the stored entry when the key is present and `None` otherwise; reads the log without changing it |
| `History.Attempts` | api.py:60 | a key absent from the log counts 0 attempts; in a well-formed log the count is 0 exactly when the key is absent |
| `Text.SplitOn` | api.py:90 | `split` on one character yields one more field than there are separators, and no field contains the separator |
| `Text.JoinSplit` | api.py:90 | joining the fields of `split` with the separator gives back the input |
| `Text.StartsWith` | api.py:146 | `s.startswith(p)` holds exactly when `p` fits in `s` and `s` is `p` followed by the rest |
| `Text.Contains` | api.py:137 | `needle in s` holds exactly when `needle` starts at some position of `s` |
| `Text.Lower` | api.py:193 | `lower()` keeps the length and lowercases exactly the ASCII capitals, position by position |
| `Text.Decimal` | api.py:171-172 | `str(n)` is a non-empty run of digits with no leading zero |
| `Text.DecimalRoundTrip` | api.py:171-172 | reading back the decimal rendering of `n` gives `n` |
| `Text.DecimalInjective` | api.py:171-172 | distinct integers have distinct renderings, so each part's rendering determines its integer |
| `Base64.Encode` | api_local_win.py:127 | `b64encode` output is `4*ceil(n/3)` characters, each in the alphabet or `=`, with no comma |
| `Base64.EncodeVectors` | api_local_win.py:127 | `b64encode` gives the test vectors of section 10 of RFC 4648: "Zg==", "Zm8=", "Zm9v", "Zm9vYmFy" |
| `Base64.SextetOf` | api.py:91 | each alphabet character decodes to the 6-bit value that encodes back to it |
| `Base64.Decode` | api.py:91 | a decodable string has a length that is a multiple of four |
| `Base64.DecodeLength` | api.py:91 | a decodable string of `4n` characters gives between `3n-2` and `3n` bytes |
| `Base64.DecodeEncode` | api_local_win.py:122-128 | decoding the encoding of any byte string gives that byte string back |
| `DataUri.Payload` | api.py:90 | `split(",")[1]` exists exactly when the URI has a comma, and it contains no comma |
| `DataUri.DecodeDataUri` | api.py:90-91 | the bytes exist only when the URI has a comma and its payload has a length that is a multiple of four; there are `3n-2` to `3n` of them for a payload of `4n` characters |
| `DataUri.PayloadIsSecondField` | api_local_win.py:97 | the payload is the second comma-separated field: a later comma cuts it short |
| `DataUri.PayloadRoundTrip` | api_local_win.py:122-128 | a URI built by `image_to_base64` starts with "data:image", its payload is the base64 text, and it decodes back to the file's bytes |
| `DataUri.AnyHeaderRoundTrip` | api.py:145-147 | whatever media type precedes the comma, the scraper's split and decode give back exactly the bytes embedded after it |
| `DataUri.ImageToBase64` | api_local_win.py:122-131 | gives a URI exactly when the file can be read; the URI is exactly `data:image/jpeg;base64,` followed by the base64 encoding of the file's bytes (prefix, payload and length pinned), passes the scraper's "data:image" test and decodes back to those bytes |
| `Storage.SaveSpec` | api.py:87-99 | a path is returned exactly when the payload decodes; the path is `downloads/originals/<country><number>.jpg` and the decoded bytes are stored under that key; otherwise nothing is written |
| `Storage.IconSpec` | api.py:101-113 | an icon is made exactly when the original exists; it is the derivation of the original, stored at `downloads/icons/<key>_icon.jpg`; otherwise the result is `None` and nothing changes |
| `Storage.OriginalPath` | api.py:93 | the original's path is `downloads/originals/` followed by the key and `.jpg`: its file name is the key itself |
| `Storage.IconPath` | api.py:104 | the icon's path is `downloads/icons/` followed by the key and `_icon.jpg` |
| `Storage.PathsKeyed` | api.py:201-226 | the history key and the two file names determine each other: equal paths mean equal keys, and no original's path is an icon's path |
| `Storage.ImageFolders.constructor` | api.py:27-29 | both folders start empty |
| `Storage.ImageFolders.ProcessAndSave` | api_local_win.py:94-106 | writes the originals exactly as `SaveSpec` says and leaves the icons alone |
| `Storage.ImageFolders.CreateIcon` | api_local_win.py:108-120 | writes the icons exactly as `IconSpec` says and leaves the originals alone |
| `Normalize.WithPlus` | api.py:164-165 | the text handed to the parser always starts with `+`, which is added only when missing |
| `Normalize.Separate` | api.py:161-177 | the pair exists exactly when the parser accepts the `+`-prefixed number; both parts are non-empty digit strings whose values are the parser's country code and national number |
| `Normalize.SameKeySameNumber` | api.py:171-174 | two inputs that normalise to the same pair were read by the parser as the same country code and national number |
| `Normalize.JoinedInjective` | api.py:201 | the joined lookup key `f"{country}{number}"` determines the pair, given that no country code is a proper prefix of another (country calling codes form a prefix code in ITU-T E.164); without that condition ("1","23") and ("12","3") collide |
| `Normalize.PlusIsOptional` | api_local_win.py:179-195 | a number with and without its leading `+` normalises to the same key |
| `Normalize.DocumentedExample` | api.py:171-172 | given a parser that reads `+51987654321` as (51, 987654321), both `51987654321` and `+51987654321` give ("51", "987654321") |
| `Normalize.IconRequested` | api.py:193 | the icon is asked for exactly when `icon` is present and spells "true" in any mix of case |
| `Acquisition.Scrape` | api.py:115-159 | one run writes the log and the originals exactly as `ScrapeSpec` says, polling at most twenty times |
| `Acquisition.ScrapeSpec` | api.py:115-159 | one run never touches the icons, may add only its own key to the log, and changes the originals only when it returns a path, which is then `downloads/originals/<key>.jpg` and present in the folder |
| `Acquisition.Observe` | api.py:121-156 | the run is negative exactly when no driver call raised before the result and the HTML holds a negative marker; a fault carries the exception's text; an image or an exhausted poll comes only after the poll was reached, and an image is a `src` starting with "data:image" read at one of the twenty polls |
| `Acquisition.PollFrom` | api.py:144-150 | polling from read `i` never reports a negative; an image or a fault is at a read between `i` and the twentieth; an image is the `src` of that read, it starts with "data:image" and that read raised nothing |
| `Acquisition.SrcAt` | api.py:145-146 | the `src` read at a poll is the session's value for it; a missing attribute never passes the "data:image" test |
| `Acquisition.HasNegativeMarker` | api.py:137 | the result is negative exactly when "DP is unavailable" or "☹️" (U+2639 U+FE0F) starts at some position of the HTML |
| `Acquisition.NegativeMarkerFirst` | api.py:137-139 | a negative marker in the result gives the private outcome, whatever the picture element and the polls would have done |
| `Acquisition.UnavailableAnywhere` | api_local_win.py:155-157 | "DP is unavailable" at any position of the result HTML makes the run negative |
| `Acquisition.FirstDataImage` | api.py:144-150 | a run yields an image exactly at the first of the twenty polls whose `src` starts with "data:image", provided no exception came first (both directions) |
| `Acquisition.ExhaustedAfterTwenty` | api.py:144-159 | the poll gives up exactly when twenty reads raised nothing and saw no embedded image (both directions) |
| `Acquisition.AtMostTwentyReads` | api_local_win.py:162-169 | values of `src` after the twentieth read never change the run's outcome |
| `Acquisition.RecordsAtMostOnce` | api.py:138-158 | a run records at most one attempt, for its own key; it records nothing exactly when an image was seen but not saved; other keys and the icons are untouched |
| `Acquisition.ScrapeOutcomes` | api_local_win.py:133-177 | "private" iff a negative marker; "error" iff an exception, recording its text; `None` iff the poll is exhausted or the save fails; a path iff the image was saved; with the matching status and message recorded for each |
| `Dedup.Serve` | api.py:201-245 | the live log and folders change exactly as `Step` says |
| `Dedup.Step` | api.py:201-245 | a sticky entry is remembered exactly when present, returning its record and writing nothing; the cache is used exactly when there is no sticky entry and the original is stored; a scrape that saved nothing sends no file |
| `Dedup.StickyIn` | api.py:206-208 | an entry is sticky exactly when the key is in the log and its stored status string is "private" or "error" |
| `Dedup.StickyIsFinal` | api.py:206-215 | a sticky "private" or "error" entry is answered verbatim: no scrape, no write, whatever the browser would do |
| `Dedup.CacheHit` | api.py:218-230 | a stored original is served without a scrape; a success is registered with one more attempt; the icon is derived only when it is asked for and missing |
| `Dedup.FreshSuccess` | api_local_win.py:274-297 | a first successful lookup stores the decoded original, registers a success (attempts 1 for a new key), and derives the icon once, from the new original, exactly when asked |
| `Dedup.MissRunsScraper` | api.py:232-239 | without a sticky entry or a stored original, the result and the writes are those of one scraper run |
| `Dedup.FileFound` | api.py:225-245 | every branch that sends a picture has its path and its bytes: the cache original, the icon just derived, or the original just saved |
| `Dedup.StepInvariants` | api_local_win.py:225-297 | every request keeps originals immutable, sticky entries frozen, attempt counts non-decreasing and at least one, other keys untouched, and icons derived from their originals |
| `DockerApi.GetDp` | api.py:180-245 | the reply and the new stores are those of `Handle` |
| `DockerApi.Handle` | api.py:180-245 | the reply is a 400 exactly when the number is missing, empty or unparsable, and then nothing is written |
| `DockerApi.Reply` | api.py:206-245 | never a 400; a sticky entry is echoed with its message, timestamp and attempts; a file is sent only from the cache or after a saved scrape, holding the chosen bytes; the framework's 500 arises only when the chosen file is missing |
| `DockerApi.SendFile` | api.py:229-230 | `send_file` sends exactly the file at the path when it exists, and raises when the path is `None` or the file is missing |
| `DockerApi.BadNumber` | api.py:183-199 | a missing, empty or unparsable number is a 400 that depends on no stored state and writes nothing |
| `DockerApi.StickyReply` | api.py:206-215 | a sticky entry is answered 404 (private) or 500 (error) with its status, message, timestamp and attempts |
| `DockerApi.NeverUncaught` | api.py:225-245 | every `send_file` finds its file: each branch that sends a picture has its path and its bytes, so `send_file` itself never raises |
| `DockerApi.FreshReply` | api.py:234-245 | a fresh lookup answers 404 "Privado o inexistente" on a negative marker, 500 "Fallo en el proceso" on an exception, an exhausted poll or an unsaved image, and otherwise the new original or its icon |
| `WindowsApi.GetDp` | api_local_win.py:198-315 | the reply and the new stores are those of `Handle` |
| `WindowsApi.Handle` | api_local_win.py:198-315 | the reply is a 400 exactly when the number is missing, empty or unparsable, and then it carries no image and nothing is written |
| `WindowsApi.Reply` | api_local_win.py:228-315 | every reply names the `+`-prefixed number and is never a 400; an image comes only with a 200, from the cache or a saved scrape, and decodes to the chosen file's bytes |
| `WindowsApi.ImageReply` | api_local_win.py:256-272 | a 200 with a data URI that decodes to the file's bytes exactly when the file exists; otherwise the 500 "Error al codificar imagen" with no image |
| `WindowsApi.StickyTag` | api_local_win.py:233 | the reply's status is "negative" exactly for a stored "private", and "error" otherwise |
| `WindowsApi.BadNumber` | api_local_win.py:201-221 | a missing, empty or unparsable number is a 400 with no image that depends on no stored state and writes nothing |
| `WindowsApi.StickyReply` | api_local_win.py:228-239 | a sticky entry is answered 404 "negative" (private) or 500 "error", with the stored message, timestamp and attempts, the `+`-prefixed number and no image |
| `WindowsApi.ReplyAgrees` | api_local_win.py:256-315 | for the same served outcome, both envelopes give the same status code, and the JSON carries an image exactly where the file reply sends one, as the data URI of its bytes |
| `WindowsApi.AgreesWithDocker` | api_local_win.py:241-315 | against the container deployment: the same writes and the same status code; an image exactly where a file is sent, holding those bytes as a JPEG data URI, so "Error al codificar imagen" never occurs |

## Left out

- The HTTP layer (Flask routing, CORS, `jsonify`) is not modelled. A reply is a value: a status code plus the JSON fields or the file sent.
- The browser is not modelled: Selenium, the page at toolzin.com, the driver's creation and `quit`. A `Session` value stands for one run. It gives the point where a driver call raises and its text, the result HTML, and the `src` read at each poll. The 15-second wait for the AJAX result is folded into the `BeforeResult` fault point.
- `time.sleep(0.5)` between polls is not modelled: timing does not affect any outcome.
- The image library (PIL open, RGB conversion, LANCZOS resize to 256x256, JPEG quality 90) is not modelled. It is the `derive` parameter, a function from the original's bytes to the icon's bytes.
- The `phonenumbers` library is not modelled. It is the `parse` parameter: the country code and national number, or `None` where it raises.
- `datetime.now().isoformat()` is not modelled. It is the `now` parameter.
- File and JSON I/O is not modelled: the log file and the folders are maps. A failure to load the log, where the source falls back to `{}`, and a failure to save it are not modelled. A log edited by hand to hold other status strings or missing fields is not modelled.
- Storage.ImageFolders.ProcessAndSave: a failure to write the file is not modelled; only a missing comma and undecodable base64 give `None`.
- Storage.OriginalPath and Storage.IconPath join with `/`; the Windows separator `\` that `os.path.join` uses there is not modelled.
- Base64.Decode: is stricter than Python's default `b64decode`. Python discards characters off the alphabet and ignores the data after a complete pad; the model rejects both.
- DockerApi.NeverUncaught: covers `send_file` only. An original that decodes from base64 but that the image library cannot open makes `create_icon` raise outside any handler (api.py:228 and api.py:243), which the framework answers with a 500; `derive` is total here, so that failure is not modelled.
- WindowsApi.AgreesWithDocker: inherits the same gap; a `create_icon` failure (api_local_win.py:253 and api_local_win.py:296) is not modelled, in either deployment.
- Normalize.IconRequested: folds case for ASCII only; Python's `lower()` also maps non-ASCII capitals, none of which can turn a string into "true".
- The `/health` endpoint of the Windows deployment is not modelled, and neither are the console messages.
- `test_api.py`, a stand-alone manual script, is not part of this model.
