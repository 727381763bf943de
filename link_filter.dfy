/** `valid_link`: which link descriptors of a page are kept as image/alt-text pairs. */
module LinkFilter {
  import opened Results
  import opened PyValue

  const ImagePath := "IMG@/src"
  const ImageSuffixes := [".png", ".jpg", ".jpeg"]

  /** The value `link.get(key, "")` reads, for a dict. */
  function Field(link: Json, key: string): Json
    requires link.Obj?
  {
    if key in link.fields then link.fields[key] else Str("")
  }

  /** A value Python can take `len` of. */
  predicate Sized(v: Json)
  {
    v.Str? || v.Arr? || v.Obj?
  }

  function Size(v: Json): nat
    requires Sized(v)
  {
    match v
    case Str(s) => |s|
    case Arr(items) => |items|
    case Obj(f) => |f|
  }

  /** The link can be examined without raising: it is a dict, its `url` (or the default)
      is a string and its `alt` (or the default) has a length. */
  predicate WellFormed(link: Json)
  {
    link.Obj? && Field(link, "url").Str? && Sized(Field(link, "alt"))
  }

  /** The effective acceptance rule: image-source attribute, http(s) url, non-empty alt. */
  predicate Accepted(link: Json)
    requires WellFormed(link)
  {
    && Field(link, "path") == Str(ImagePath)
    && "http" <= Field(link, "url").s
    && Size(Field(link, "alt")) > 0
  }

  /** `valid_link(link)`, evaluated in the order of its four assignments. The extension
      test is computed (and can raise) but never decides the answer, because
      `(valid_path or valid_img) and valid_path` is `valid_path`. */
  function ValidLink(link: Json): (r: Result<bool>)
    ensures r.Err? <==> !WellFormed(link)
    ensures r.Ok? ==> (r.value <==> Accepted(link))
  {
    if !link.Obj? then Err(AttributeError)  // `link.get` on a value that is not a dict
    else
      var validPath := Field(link, "path") == Str(ImagePath);
      var validImg :- EndsWithAny(Field(link, "url"), ImageSuffixes);
      var altLen :- Len(Field(link, "alt"));
      var validAlt := altLen > 0;
      // `startswith` reads the same value `endswith` accepted, so it cannot raise here
      var validHttp := match Field(link, "url") case Str(u) => "http" <= u case _ => false;
      Ok((validPath || validImg) && validPath && validHttp && validAlt)
  }

  /** A link whose `url` and `alt` are strings (or absent) is judged without raising, and a
      missing key reads as "" and so rejects. */
  lemma ValidLinkOnStrings(link: Json)
    requires link.Obj?
    requires forall k :: k in link.fields ==> link.fields[k].Str?
    ensures ValidLink(link).Ok?
    ensures ("path" !in link.fields || "url" !in link.fields || "alt" !in link.fields)
      ==> ValidLink(link) == Ok(false)
  {
  }
}
