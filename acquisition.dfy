/**
 * `scrape_whatsapp_image`: one run of the browser session against the
 * third-party page (navigate, pick the country, type the number, submit,
 * wait for the result container), then classification of the result and a
 * bounded poll of the picture's `src` attribute for an embedded image.
 *
 * The browser is not modelled. A `Session` gives what it would report:
 * where (if anywhere) a driver call raises, the result container's HTML once
 * the wait has returned, and the `src` value read at each poll.
 */
module Acquisition {
  import opened Wrappers
  import opened Text
  import opened Base64
  import opened DataUri
  import opened History
  import opened Storage

  /** `for _ in range(20)`. */
  const MaxPolls: nat := 20

  /** The two negative markers looked for in the result container. */
  const UnavailablePhrase: string := "DP is unavailable"
  const SadFace: string := "\U{2639}\U{FE0F}"

  const PrivateMessage: string := "Foto de perfil privada o no disponible"
  const DownloadedMessage: string := "Imagen descargada exitosamente"
  const NoImageMessage: string := "No se pudo obtener la imagen Base64"

  /**
   * Where a driver call raises. `BeforeResult` covers every step up to reading
   * the result container: loading the page, the two clicks that pick the
   * country (the dial code may be missing from the list), typing, submitting
   * and the 15-second wait for the container to fill. `ImageLookup` is the
   * search for the picture element; `Poll(i)` the read of `src` at poll `i`.
   */
  datatype FaultPoint = BeforeResult | ImageLookup | Poll(iteration: nat)

  /** An exception and its text (`str(e)`). */
  datatype Fault = Fault(point: FaultPoint, text: string)

  /** What one browser run reports. */
  datatype Session = Session(fault: Option<Fault>, html: string, srcs: seq<string>)

  predicate FaultsAt(s: Session, p: FaultPoint) {
    s.fault.Some? && s.fault.value.point == p
  }

  /**
   * The `src` value read at poll `i`; a missing attribute (`None` in Python)
   * reads as "", which fails the `data:image` test in the same way.
   */
  function SrcAt(s: Session, i: nat): (r: string)
    ensures i < |s.srcs| ==> r == s.srcs[i]
    ensures i >= |s.srcs| ==> !StartsWith(r, DataImagePrefix)
  {
    if i < |s.srcs| then s.srcs[i] else ""
  }

  /**
   * `"DP is unavailable" in res_html or "☹️" in res_html`: one of the two
   * markers starts at some position of the result HTML.
   */
  predicate HasNegativeMarker(html: string)
    ensures HasNegativeMarker(html) <==>
      exists i :: 0 <= i <= |html| && (StartsWith(html[i..], UnavailablePhrase) || StartsWith(html[i..], SadFace))
  {
    Contains(html, UnavailablePhrase) || Contains(html, SadFace)
  }

  /** How a run ends, before anything is stored. */
  datatype Trace =
    | Faulted(text: string)                // an exception, caught at the top
    | Negative                             // a negative marker in the result
    | Seen(iteration: nat, src: string)    // the first poll that saw an embedded image
    | Exhausted                            // twenty polls without one

  /**
   * The poll loop from iteration `i` on: it never reports a negative marker;
   * an image it reports was read at a poll from `i` to 19 that raised nothing
   * and starts with "data:image"; an exception it reports is one raised by a
   * poll from `i` to 19, with that exception's text.
   */
  function PollFrom(s: Session, i: nat): (t: Trace)
    requires i <= MaxPolls
    ensures t != Negative
    ensures t.Seen? ==> i <= t.iteration < MaxPolls && t.src == SrcAt(s, t.iteration)
                        && StartsWith(t.src, DataImagePrefix) && !FaultsAt(s, Poll(t.iteration))
    ensures t.Faulted? ==> s.fault.Some? && s.fault.value.point.Poll? && t.text == s.fault.value.text
                           && i <= s.fault.value.point.iteration < MaxPolls
    decreases MaxPolls - i
  {
    if i == MaxPolls then Exhausted
    else if FaultsAt(s, Poll(i)) then Faulted(s.fault.value.text)
    else if StartsWith(SrcAt(s, i), DataImagePrefix) then Seen(i, SrcAt(s, i))
    else PollFrom(s, i + 1)
  }

  /**
   * The control flow of one run, step by step: the run is negative exactly
   * when the page loaded and the result shows a marker; an exception reported
   * is the session's own, with its text; an image is reported only when the
   * run reached the poll loop, at one of its twenty reads.
   */
  function Observe(s: Session): (t: Trace)
    ensures t == Negative <==> !FaultsAt(s, BeforeResult) && HasNegativeMarker(s.html)
    ensures t.Faulted? ==> s.fault.Some? && t.text == s.fault.value.text
    ensures t.Seen? ==> ReachesPoll(s) && t.iteration < MaxPolls && StartsWith(t.src, DataImagePrefix)
    ensures t == Exhausted ==> ReachesPoll(s)
  {
    if FaultsAt(s, BeforeResult) then Faulted(s.fault.value.text)
    else if HasNegativeMarker(s.html) then Negative
    else if FaultsAt(s, ImageLookup) then Faulted(s.fault.value.text)
    else PollFrom(s, 0)
  }

  /** The run reached the poll loop: no early exception and no negative marker. */
  predicate ReachesPoll(s: Session) {
    !FaultsAt(s, BeforeResult) && !HasNegativeMarker(s.html) && !FaultsAt(s, ImageLookup)
  }

  /** What `scrape_whatsapp_image` returns: "private", "error", `None` or the saved file's path. */
  datatype ScrapeResult = PrivateResult | ErrorResult | NoResult | SavedAt(path: string)

  /** An embedded image was seen but its payload could not be decoded, so nothing was saved. */
  predicate SaveFails(s: Session) {
    Observe(s).Seen? && DecodeDataUri(Observe(s).src).None?
  }

  /**
   * The result of a run and the stores after it. A run never touches the
   * icons, writes the log under its own key only, and returns a path only
   * when it has stored the original there, under its own key.
   */
  function ScrapeSpec(st: Stores, s: Session, number: string, country: string, now: string): (r: (ScrapeResult, Stores))
    ensures r.1.icons == st.icons
    ensures r.1.log.Keys <= st.log.Keys + {country + number}
    ensures r.0.SavedAt? ==> r.0.path == OriginalPath(country + number) && country + number in r.1.originals
    ensures !r.0.SavedAt? ==> r.1.originals == st.originals
  {
    var key := country + number;
    match Observe(s)
    case Faulted(text) => (ErrorResult, st.(log := Registered(st.log, key, Error, text, now)))
    case Negative => (PrivateResult, st.(log := Registered(st.log, key, Private, PrivateMessage, now)))
    case Seen(_, src) =>
      var (path, originals) := SaveSpec(st.originals, src, number, country);
      if path.Some? then
        (SavedAt(path.value), st.(originals := originals, log := Registered(st.log, key, Success, DownloadedMessage, now)))
      else (NoResult, st)
    case Exhausted => (NoResult, st.(log := Registered(st.log, key, Error, NoImageMessage, now)))
  }

  /** One run of `scrape_whatsapp_image`, writing the log and the originals folder. */
  method Scrape(log: RequestLog, folders: ImageFolders, s: Session, number: string, country: string, now: string)
    returns (r: ScrapeResult)
    modifies log, folders
    ensures (r, Stores(log.entries, folders.originals, folders.icons))
         == ScrapeSpec(Stores(old(log.entries), old(folders.originals), old(folders.icons)), s, number, country, now)
  {
    var key := country + number;
    if FaultsAt(s, BeforeResult) {
      log.Register(key, Error, s.fault.value.text, now);
      return ErrorResult;
    }
    if HasNegativeMarker(s.html) {
      log.Register(key, Private, PrivateMessage, now);
      return PrivateResult;
    }
    if FaultsAt(s, ImageLookup) {
      log.Register(key, Error, s.fault.value.text, now);
      return ErrorResult;
    }
    for i := 0 to MaxPolls
      invariant PollFrom(s, i) == Observe(s)
      invariant log.entries == old(log.entries)
      invariant folders.originals == old(folders.originals) && folders.icons == old(folders.icons)
    {
      if FaultsAt(s, Poll(i)) {
        log.Register(key, Error, s.fault.value.text, now);
        return ErrorResult;
      }
      var src := SrcAt(s, i);
      if StartsWith(src, DataImagePrefix) {
        var path := folders.ProcessAndSave(src, number, country);
        if path.Some? {
          log.Register(key, Success, DownloadedMessage, now);
          return SavedAt(path.value);
        }
        return NoResult;
      }
    }
    log.Register(key, Error, NoImageMessage, now);
    return NoResult;
  }

  // ---------------------------------------------------------------------
  // Properties of a run
  // ---------------------------------------------------------------------

  /**
   * The negative markers are looked for before the picture element: a
   * marker gives `Negative` whatever the later steps would have done.
   */
  lemma NegativeMarkerFirst(s: Session, t: Session)
    requires !FaultsAt(s, BeforeResult) && HasNegativeMarker(s.html)
    requires !FaultsAt(t, BeforeResult) && t.html == s.html
    ensures Observe(s) == Observe(t) == Negative
  {
  }

  /** "DP is unavailable" anywhere in the result container makes the run negative. */
  lemma UnavailableAnywhere(s: Session, i: nat)
    requires !FaultsAt(s, BeforeResult)
    requires i + |UnavailablePhrase| <= |s.html| && s.html[i..i + |UnavailablePhrase|] == UnavailablePhrase
    ensures Observe(s) == Negative
  {
    assert StartsWith(s.html[i..], UnavailablePhrase) by {
      assert s.html[i..][..|UnavailablePhrase|] == s.html[i..i + |UnavailablePhrase|];
    }
  }

  lemma {:induction false} PollFromSeen(s: Session, k: nat, i: nat, src: string)
    requires k <= MaxPolls && PollFrom(s, k) == Seen(i, src)
    ensures k <= i < MaxPolls && src == SrcAt(s, i) && StartsWith(src, DataImagePrefix) && !FaultsAt(s, Poll(i))
    ensures forall j :: k <= j < i ==> !FaultsAt(s, Poll(j)) && !StartsWith(SrcAt(s, j), DataImagePrefix)
    decreases MaxPolls - k
  {
    if k < MaxPolls && !FaultsAt(s, Poll(k)) && !StartsWith(SrcAt(s, k), DataImagePrefix) {
      PollFromSeen(s, k + 1, i, src);
    }
  }

  lemma {:induction false} PollFromReaches(s: Session, k: nat, i: nat)
    requires k <= i < MaxPolls && StartsWith(SrcAt(s, i), DataImagePrefix) && !FaultsAt(s, Poll(i))
    requires forall j :: k <= j < i ==> !FaultsAt(s, Poll(j)) && !StartsWith(SrcAt(s, j), DataImagePrefix)
    ensures PollFrom(s, k) == Seen(i, SrcAt(s, i))
    decreases i - k
  {
    if k < i {
      PollFromReaches(s, k + 1, i);
    }
  }

  /**
   * A run yields an image exactly at the first of at most twenty polls whose
   * `src` starts with "data:image", provided no exception came first.
   */
  lemma FirstDataImage(s: Session, i: nat, src: string)
    ensures Observe(s) == Seen(i, src) <==>
      (ReachesPoll(s) && i < MaxPolls && src == SrcAt(s, i) && StartsWith(src, DataImagePrefix) && !FaultsAt(s, Poll(i))
       && forall j :: 0 <= j < i ==> !FaultsAt(s, Poll(j)) && !StartsWith(SrcAt(s, j), DataImagePrefix))
  {
    if Observe(s) == Seen(i, src) {
      PollFromSeen(s, 0, i, src);
    }
    if ReachesPoll(s) && i < MaxPolls && src == SrcAt(s, i) && StartsWith(src, DataImagePrefix) && !FaultsAt(s, Poll(i))
       && forall j :: 0 <= j < i ==> !FaultsAt(s, Poll(j)) && !StartsWith(SrcAt(s, j), DataImagePrefix) {
      PollFromReaches(s, 0, i);
    }
  }

  lemma {:induction false} PollFromExhausted(s: Session, k: nat)
    requires k <= MaxPolls
    ensures PollFrom(s, k) == Exhausted <==>
      forall j :: k <= j < MaxPolls ==> !FaultsAt(s, Poll(j)) && !StartsWith(SrcAt(s, j), DataImagePrefix)
    decreases MaxPolls - k
  {
    if k < MaxPolls {
      PollFromExhausted(s, k + 1);
    }
  }

  /** The poll gives up after exactly twenty reads, none of which saw an embedded image. */
  lemma ExhaustedAfterTwenty(s: Session)
    ensures Observe(s) == Exhausted <==>
      (ReachesPoll(s) && forall j :: 0 <= j < MaxPolls ==> !FaultsAt(s, Poll(j)) && !StartsWith(SrcAt(s, j), DataImagePrefix))
  {
    PollFromExhausted(s, 0);
  }

  lemma {:induction false} PollFromPrefix(s: Session, t: Session, k: nat)
    requires k <= MaxPolls && s.fault == t.fault
    requires forall j :: k <= j < MaxPolls ==> SrcAt(s, j) == SrcAt(t, j)
    ensures PollFrom(s, k) == PollFrom(t, k)
    decreases MaxPolls - k
  {
    if k < MaxPolls {
      PollFromPrefix(s, t, k + 1);
    }
  }

  /** `src` is read at most twenty times: later values never matter. */
  lemma AtMostTwentyReads(s: Session, t: Session)
    requires s.fault == t.fault && s.html == t.html
    requires forall j :: 0 <= j < MaxPolls ==> SrcAt(s, j) == SrcAt(t, j)
    ensures Observe(s) == Observe(t)
  {
    PollFromPrefix(s, t, 0);
  }

  /**
   * A run writes the log at most once, for its own key, and leaves every
   * other key and the icons alone. It writes nothing exactly when an image
   * was seen but could not be saved.
   */
  lemma RecordsAtMostOnce(st: Stores, s: Session, number: string, country: string, now: string)
    ensures var (_, after) := ScrapeSpec(st, s, number, country, now);
      var key := country + number;
      && Attempts(after.log, key) == Attempts(st.log, key) + (if SaveFails(s) then 0 else 1)
      && (after.log == st.log <==> SaveFails(s))
      && (forall k :: k != key ==> (k in after.log <==> k in st.log))
      && (forall k :: k != key && k in st.log ==> after.log[k] == st.log[k])
      && (forall k :: k != key ==> Read(after.originals, k) == Read(st.originals, k))
      && after.icons == st.icons
  {
    var key := country + number;
    var after := ScrapeSpec(st, s, number, country, now).1;
    if !SaveFails(s) {
      assert Attempts(after.log, key) != Attempts(st.log, key);
    }
  }

  /** The four ways a run ends, what each returns and what each records. */
  lemma ScrapeOutcomes(st: Stores, s: Session, number: string, country: string, now: string)
    ensures var (r, after) := ScrapeSpec(st, s, number, country, now);
      var key := country + number;
      && (r == PrivateResult <==> Observe(s) == Negative)
      && (r == ErrorResult <==> Observe(s).Faulted?)
      && (r == NoResult <==> Observe(s) == Exhausted || SaveFails(s))
      && (r.SavedAt? <==> Observe(s).Seen? && !SaveFails(s))
      && (Observe(s) == Negative ==> after.log[key].status == Private && after.log[key].message == PrivateMessage)
      && (Observe(s).Faulted? ==> after.log[key].status == Error && after.log[key].message == Observe(s).text)
      && (Observe(s) == Exhausted ==> after.log[key].status == Error && after.log[key].message == NoImageMessage)
      && (r.SavedAt? ==> r.path == OriginalPath(key) && after.log[key].status == Success
                         && Read(after.originals, key) == DecodeDataUri(Observe(s).src))
  {
  }
}
