/**
 * The dedup policy of `api_get_dp`, the same in both deployments: for a
 * normalised key, a sticky negative history entry is answered from the log;
 * otherwise a stored original is served from the cache (re-registering a
 * success); otherwise the scraper runs. Only the reply envelope differs
 * between the deployments (see DockerApi and WindowsApi).
 */
module Dedup {
  import opened Wrappers
  import opened Base64
  import opened DataUri
  import opened History
  import opened Storage
  import opened Normalize
  import opened Acquisition

  const CacheMessage: string := "Servido desde caché"

  /** The query parameters `number` and `icon` (absent: `None`). */
  datatype Request = Request(number: Option<string>, icon: Option<string>)

  /**
   * Everything outside the handler: the phone-number parser, the browser
   * run the scraper would observe, the clock, and the image codec's
   * resize-to-256x256 step.
   */
  datatype Env = Env(parse: Parser, session: Session, now: string, derive: Bytes -> Bytes)

  /** The file chosen to send: its path (`None` when `create_icon` returned `None`) and its bytes (`None` when missing). */
  datatype Sent = Sent(path: Option<string>, content: Option<Bytes>)

  /** Which branch of the policy answered, with what it hands to the reply. */
  datatype Served =
    | Remembered(record: Record)                // sticky "private" or "error" entry
    | FromCache(file: Sent)                     // original already stored
    | Fetched(result: ScrapeResult, file: Sent) // scraper run

  /** `history and history["status"] in ["private", "error"]`. */
  predicate StickyIn(log: Log, k: string)
    ensures StickyIn(log, k) <==> k in log && log[k].status.Tag() in ["private", "error"]
  {
    k in log && log[k].status.Sticky()
  }

  /**
   * The policy for a valid key: what is served and the stores afterwards.
   * The log answers exactly for a sticky entry, and then nothing is written;
   * the cache answers exactly when there is no sticky entry and the original
   * is stored; otherwise the scraper answers, and a file is handed on only
   * when it saved one.
   */
  function Step(st: Stores, key: Key, isIcon: bool, session: Session, now: string, derive: Bytes -> Bytes): (r: (Served, Stores))
    ensures r.0.Remembered? <==> StickyIn(st.log, key.Joined())
    ensures r.0.Remembered? ==> r.0.record == st.log[key.Joined()] && r.1 == st
    ensures r.0.FromCache? <==> !StickyIn(st.log, key.Joined()) && key.Joined() in st.originals
    ensures r.0.Fetched? && !r.0.result.SavedAt? ==> r.0.file == Sent(None, None)
  {
    var k := key.Joined();
    if StickyIn(st.log, k) then (Remembered(st.log[k]), st)
    else if k in st.originals then
      var st1 := st.(log := Registered(st.log, k, Success, CacheMessage, now));
      if isIcon then
        var icons := if k in st1.icons then st1.icons else IconSpec(st1.originals, st1.icons, k, derive).1;
        (FromCache(Sent(Some(IconPath(k)), Read(icons, k))), st1.(icons := icons))
      else (FromCache(Sent(Some(OriginalPath(k)), Read(st1.originals, k))), st1)
    else
      var (r, st1) := ScrapeSpec(st, session, key.national, key.country, now);
      if r.SavedAt? then
        if isIcon then
          var (path, icons) := IconSpec(st1.originals, st1.icons, k, derive);
          (Fetched(r, Sent(path, if path.Some? then Read(icons, k) else None)), st1.(icons := icons))
        else (Fetched(r, Sent(Some(r.path), Read(st1.originals, k))), st1)
      else (Fetched(r, Sent(None, None)), st1)
  }

  /** Steps 1 to 3 of `api_get_dp` once the key is known, on the live stores. */
  method Serve(log: RequestLog, folders: ImageFolders, key: Key, isIcon: bool, session: Session, now: string, derive: Bytes -> Bytes)
    returns (served: Served)
    modifies log, folders
    ensures (served, Stores(log.entries, folders.originals, folders.icons))
         == Step(Stores(old(log.entries), old(folders.originals), old(folders.icons)), key, isIcon, session, now, derive)
  {
    var k := key.Joined();
    var history := log.Lookup(k);
    if history.Some? && history.value.status.Sticky() {
      return Remembered(history.value);
    }
    if k in folders.originals {
      log.Register(k, Success, CacheMessage, now);
      if isIcon {
        if k !in folders.icons {
          var _ := folders.CreateIcon(k, derive);
        }
        return FromCache(Sent(Some(IconPath(k)), Read(folders.icons, k)));
      }
      return FromCache(Sent(Some(OriginalPath(k)), Read(folders.originals, k)));
    }
    var r := Scrape(log, folders, session, key.national, key.country, now);
    if r.SavedAt? {
      if isIcon {
        var path := folders.CreateIcon(k, derive);
        return Fetched(r, Sent(path, if path.Some? then Read(folders.icons, k) else None));
      }
      return Fetched(r, Sent(Some(r.path), Read(folders.originals, k)));
    }
    return Fetched(r, Sent(None, None));
  }

  // ---------------------------------------------------------------------
  // Properties of the policy
  // ---------------------------------------------------------------------

  /**
   * A sticky "private" or "error" entry is answered verbatim, whatever the
   * browser would have done: no scrape, no write, attempts stay frozen.
   */
  lemma StickyIsFinal(st: Stores, key: Key, isIcon: bool, s1: Session, s2: Session, now: string, derive: Bytes -> Bytes)
    requires StickyIn(st.log, key.Joined())
    ensures Step(st, key, isIcon, s1, now, derive) == (Remembered(st.log[key.Joined()]), st)
    ensures Step(st, key, isIcon, s1, now, derive) == Step(st, key, isIcon, s2, now, derive)
  {
  }

  /**
   * A stored original is served without a scrape: a success is registered
   * with one more attempt, the originals are unchanged, and the icon is
   * derived only when it is asked for and missing.
   */
  lemma CacheHit(st: Stores, key: Key, isIcon: bool, s1: Session, s2: Session, now: string, derive: Bytes -> Bytes)
    requires !StickyIn(st.log, key.Joined()) && key.Joined() in st.originals
    ensures var k := key.Joined();
      var (served, after) := Step(st, key, isIcon, s1, now, derive);
      && served.FromCache?
      && after.log[k] == Record(Success, CacheMessage, now, Attempts(st.log, k) + 1)
      && (forall j :: j != k && j in st.log ==> j in after.log && after.log[j] == st.log[j])
      && after.originals == st.originals
      && after.icons == (if isIcon && k !in st.icons then st.icons[k := derive(st.originals[k])] else st.icons)
      && served.file.content == Some(if isIcon then after.icons[k] else st.originals[k])
      && served.file.path == Some(if isIcon then IconPath(k) else OriginalPath(k))
    ensures Step(st, key, isIcon, s1, now, derive) == Step(st, key, isIcon, s2, now, derive)
  {
  }

  /**
   * A first successful lookup: the original is stored under the key, a
   * success is registered (attempts 1 for a key never seen), and the icon is
   * derived once, from the new original, exactly when it is asked for.
   */
  lemma FreshSuccess(st: Stores, key: Key, isIcon: bool, s: Session, now: string, derive: Bytes -> Bytes, bytes: Bytes)
    requires !StickyIn(st.log, key.Joined()) && key.Joined() !in st.originals
    requires Observe(s).Seen? && DecodeDataUri(Observe(s).src) == Some(bytes)
    ensures var k := key.Joined();
      var (served, after) := Step(st, key, isIcon, s, now, derive);
      && served == Fetched(SavedAt(OriginalPath(k)), served.file)
      && after.originals == st.originals[k := bytes]
      && after.log[k] == Record(Success, DownloadedMessage, now, Attempts(st.log, k) + 1)
      && (k !in st.log ==> after.log[k].attempts == 1)
      && after.icons == (if isIcon then st.icons[k := derive(bytes)] else st.icons)
      && served.file.content == Some(if isIcon then derive(bytes) else bytes)
  {
    ScrapeOutcomes(st, s, key.national, key.country, now);
  }

  /**
   * Without a stored original and a sticky entry, the scraper decides: its
   * result and its writes are those of one run.
   */
  lemma MissRunsScraper(st: Stores, key: Key, isIcon: bool, s: Session, now: string, derive: Bytes -> Bytes)
    requires !StickyIn(st.log, key.Joined()) && key.Joined() !in st.originals
    ensures var (served, after) := Step(st, key, isIcon, s, now, derive);
      var (r, scraped) := ScrapeSpec(st, s, key.national, key.country, now);
      && served.Fetched? && served.result == r
      && after.log == scraped.log && after.originals == scraped.originals
      && (!r.SavedAt? ==> after == scraped && served.file == Sent(None, None))
  {
  }

  /**
   * Every branch that sends a picture has both its path and its bytes:
   * the cache serves an existing original or the icon just derived from it,
   * and a saved scrape has just stored the original it sends.
   */
  lemma FileFound(st: Stores, key: Key, isIcon: bool, s: Session, now: string, derive: Bytes -> Bytes)
    ensures var served := Step(st, key, isIcon, s, now, derive).0;
      (served.FromCache? || (served.Fetched? && served.result.SavedAt?)) ==>
        served.file.path.Some? && served.file.content.Some?
  {
    var k := key.Joined();
    if !StickyIn(st.log, k) && k !in st.originals {
      ScrapeOutcomes(st, s, key.national, key.country, now);
    }
  }

  /** Every icon is the derivation of the stored original for its key. */
  ghost predicate IconsCoherent(st: Stores, derive: Bytes -> Bytes) {
    forall k :: k in st.icons ==> k in st.originals && st.icons[k] == derive(st.originals[k])
  }

  /** Originals are never changed or removed once written. */
  ghost predicate KeepsOriginals(st: Stores, after: Stores) {
    forall k :: k in st.originals ==> k in after.originals && after.originals[k] == st.originals[k]
  }

  /** Sticky entries are never touched; no attempt count goes down; every entry counts at least one. */
  ghost predicate KeepsHistory(st: Stores, after: Stores) {
    && (forall k :: StickyIn(st.log, k) ==> k in after.log && after.log[k] == st.log[k])
    && (forall k :: k in st.log ==> k in after.log && after.log[k].attempts >= st.log[k].attempts)
    && (WellFormed(st.log) ==> WellFormed(after.log))
  }

  /** An icon, once derived, is never changed or removed. */
  ghost predicate KeepsIcons(st: Stores, after: Stores) {
    forall k :: k in st.icons ==> k in after.icons && after.icons[k] == st.icons[k]
  }

  /** Nothing is written under any key but `key`. */
  ghost predicate OnlyTouches(st: Stores, after: Stores, key: string) {
    forall k :: k != key ==>
      && Read(after.originals, k) == Read(st.originals, k) && Read(after.icons, k) == Read(st.icons, k)
      && (k in after.log <==> k in st.log) && (k in st.log ==> after.log[k] == st.log[k])
  }

  /** The cache branch keeps every invariant. */
  lemma CacheInvariants(st: Stores, key: Key, isIcon: bool, s: Session, now: string, derive: Bytes -> Bytes)
    requires !StickyIn(st.log, key.Joined()) && key.Joined() in st.originals
    ensures var after := Step(st, key, isIcon, s, now, derive).1;
      && KeepsOriginals(st, after) && KeepsHistory(st, after) && OnlyTouches(st, after, key.Joined())
      && (IconsCoherent(st, derive) ==> IconsCoherent(after, derive) && KeepsIcons(st, after))
  {
  }

  /** The scrape branch keeps every invariant. */
  lemma ScrapeInvariants(st: Stores, key: Key, isIcon: bool, s: Session, now: string, derive: Bytes -> Bytes)
    requires !StickyIn(st.log, key.Joined()) && key.Joined() !in st.originals
    ensures var after := Step(st, key, isIcon, s, now, derive).1;
      && KeepsOriginals(st, after) && KeepsHistory(st, after) && OnlyTouches(st, after, key.Joined())
      && (IconsCoherent(st, derive) ==> IconsCoherent(after, derive) && KeepsIcons(st, after))
  {
    RecordsAtMostOnce(st, s, key.national, key.country, now);
    ScrapeOutcomes(st, s, key.national, key.country, now);
  }

  /**
   * What every request keeps true of the stores: originals are never
   * changed or removed once written; a sticky entry is never touched; no
   * attempt count goes down and every entry counts at least one; keys other
   * than the request's are untouched; icons stay derived from their originals
   * and, once derived, are never rewritten.
   */
  lemma StepInvariants(st: Stores, key: Key, isIcon: bool, s: Session, now: string, derive: Bytes -> Bytes)
    ensures var after := Step(st, key, isIcon, s, now, derive).1;
      && KeepsOriginals(st, after) && KeepsHistory(st, after) && OnlyTouches(st, after, key.Joined())
      && (IconsCoherent(st, derive) ==> IconsCoherent(after, derive) && KeepsIcons(st, after))
  {
    var k := key.Joined();
    if StickyIn(st.log, k) {
    } else if k in st.originals {
      CacheInvariants(st, key, isIcon, s, now, derive);
    } else {
      ScrapeInvariants(st, key, isIcon, s, now, derive);
    }
  }
}
