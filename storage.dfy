/**
 * The image folders (originals and 256x256 icons, both keyed by the lookup
 * key) and the snapshot of all persistent state the request handler works on.
 */
module Storage {
  import opened Wrappers
  import opened Text
  import opened Base64
  import opened DataUri
  import opened History

  const OriginalsFolder: string := "downloads/originals"
  const IconsFolder: string := "downloads/icons"

  /** Where the original picture for `key` is stored: the file name is the key itself. */
  function OriginalPath(key: string): (p: string)
    ensures StartsWith(p, OriginalsFolder + "/") && |p| == |OriginalsFolder| + |key| + 5
    ensures p[|OriginalsFolder| + 1..|p| - 4] == key && p[|p| - 4..] == ".jpg"
  {
    OriginalsFolder + "/" + key + ".jpg"
  }

  /** Where the icon for `key` is stored: the key followed by `_icon`. */
  function IconPath(key: string): (p: string)
    ensures StartsWith(p, IconsFolder + "/") && |p| == |IconsFolder| + |key| + 10
    ensures p[|IconsFolder| + 1..|p| - 9] == key && p[|p| - 9..] == "_icon.jpg"
  {
    IconsFolder + "/" + key + "_icon.jpg"
  }

  /**
   * One key names one file in each folder and no file in both: the history
   * key and the names of its original and its icon are interchangeable.
   */
  lemma PathsKeyed(k1: string, k2: string)
    ensures OriginalPath(k1) == OriginalPath(k2) <==> k1 == k2
    ensures IconPath(k1) == IconPath(k2) <==> k1 == k2
    ensures OriginalPath(k1) != IconPath(k2)
  {
    assert OriginalPath(k1)[10] == 'o' && IconPath(k2)[10] == 'i';
  }

  /** The contents of the request log and of both image folders at one moment. */
  datatype Stores = Stores(log: Log, originals: map<string, Bytes>, icons: map<string, Bytes>)

  /** Reading a stored file: its bytes, or `None` when it does not exist. */
  function Read(folder: map<string, Bytes>, key: string): Option<Bytes> {
    if key in folder then Some(folder[key]) else None
  }

  /**
   * `process_and_save_image(src, number, country)`: the payload of the data
   * URI decoded and written as the original for `country + number`, with the
   * path written; `None` and nothing written when the URI has no payload or
   * it is not valid base64.
   */
  function SaveSpec(originals: map<string, Bytes>, src: string, number: string, country: string)
    : (r: (Option<string>, map<string, Bytes>))
    ensures r.0.Some? <==> DecodeDataUri(src).Some?
    ensures r.0.Some? ==> r.0.value == OriginalPath(country + number)
    ensures r.0.Some? ==> r.1 == originals[country + number := DecodeDataUri(src).value]
    ensures r.0.None? ==> r.1 == originals
  {
    match DecodeDataUri(src)
    case None => (None, originals)
    case Some(bytes) =>
      var key := country + number;
      (Some(OriginalPath(key)), originals[key := bytes])
  }

  /**
   * `create_icon(key)`: when the original exists, the icon is derived from it
   * (the resampling to 256x256 is the `derive` parameter) and written, and its
   * path returned; otherwise nothing happens and the result is `None`.
   */
  function IconSpec(originals: map<string, Bytes>, icons: map<string, Bytes>, key: string, derive: Bytes -> Bytes)
    : (r: (Option<string>, map<string, Bytes>))
    ensures r.0.Some? <==> key in originals
    ensures r.0.Some? ==> r.0.value == IconPath(key) && r.1 == icons[key := derive(originals[key])]
    ensures r.0.None? ==> r.1 == icons
  {
    if key in originals then (Some(IconPath(key)), icons[key := derive(originals[key])])
    else (None, icons)
  }

  /** The two image folders. */
  class ImageFolders {
    var originals: map<string, Bytes>
    var icons: map<string, Bytes>

    /** The folders created empty at start-up when they do not exist. */
    constructor ()
      ensures originals == map[] && icons == map[]
    {
      originals := map[];
      icons := map[];
    }

    /** `process_and_save_image`: writes only the originals folder. */
    method ProcessAndSave(src: string, number: string, country: string) returns (path: Option<string>)
      modifies this
      ensures (path, originals) == SaveSpec(old(originals), src, number, country)
      ensures icons == old(icons)
    {
      var payload := Payload(src);
      if payload.None? {
        return None;
      }
      var bytes := Decode(payload.value);
      if bytes.None? {
        return None;
      }
      var key := country + number;
      originals := originals[key := bytes.value];
      path := Some(OriginalPath(key));
    }

    /** `create_icon`: writes only the icons folder. */
    method CreateIcon(key: string, derive: Bytes -> Bytes) returns (path: Option<string>)
      modifies this
      ensures (path, icons) == IconSpec(old(originals), old(icons), key, derive)
      ensures originals == old(originals)
    {
      if key !in originals {
        return None;
      }
      icons := icons[key := derive(originals[key])];
      path := Some(IconPath(key));
    }
  }
}
