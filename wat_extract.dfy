/** `extract_imgs`: the image/alt-text candidates of one WAT archive, in stream order.
    The archive is given as the sequence of its metadata records, already split by the
    archive reader; each record either failed to decode, decoded to a JSON value, or is
    the point where the archive reader itself failed. md5 is the parameter `hash`. */
module WatExtract {
  import opened Results
  import opened PyValue
  import opened LinkFilter

  /** One step of the archive's metadata-record iterator. */
  datatype Item =
    | Decoded(body: Json)  // `simdjson.load(record.reader)` succeeded
    | Undecodable          // `simdjson.load` raised for this record
    | Corrupt              // the iterator raised: the archive container is broken here

  /** One extracted pair with its identity `uid = md5hex(alt + url)`. */
  datatype Candidate = Candidate(url: string, alt: string, uid: string)

  type Hasher = string -> string

  /** The dict path from a record to its page's link list. */
  const LinksPath: seq<string> :=
    ["Envelope", "Payload-Metadata", "HTTP-Response-Metadata", "HTML-Metadata", "Links"]

  /** The dict at depth `depth` of the links path exists and lacks the next key. */
  predicate StopsBefore(body: Json, depth: nat)
    requires depth < |LinksPath|
  {
    match At(body, LinksPath[..depth])
    case Some(v) => ObjWithout(v, LinksPath[depth])
    case None => false
  }

  /** The navigation from a decoded record to its `Links` value: `Ok(None)` when the record
      is skipped, an error when a mandatory level is missing. */
  function LinksOf(body: Json): (r: Result<Option<Json>>)
    ensures !body.Obj? ==> r == Err(TypeError)
    ensures r.Err? ==> r.fault in {TypeError, KeyError("Envelope"), KeyError("Payload-Metadata")}
  {
    var envelope :- Index(body, "Envelope");
    var payload :- Index(envelope, "Payload-Metadata");
    var hasHttp :- Contains(payload, "HTTP-Response-Metadata");
    if !hasHttp then Ok(None) else
    var httpResp :- Index(payload, "HTTP-Response-Metadata");
    var hasHtml :- Contains(httpResp, "HTML-Metadata");
    if !hasHtml then Ok(None) else
    var metadata :- Index(httpResp, "HTML-Metadata");
    var hasLinks :- Contains(metadata, "Links");
    if !hasLinks then Ok(None) else
    var links :- Index(metadata, "Links");
    Ok(Some(links))
  }

  /** Following one more key after `path`. */
  lemma {:induction false} AtSnoc(v: Json, path: seq<string>, key: string)
    ensures At(v, path + [key]) ==
      match At(v, path)
      case Some(w) => (if w.Obj? && key in w.fields then Some(w.fields[key]) else None)
      case None => None
  {
    if path != [] {
      assert (path + [key])[0] == path[0];
      assert (path + [key])[1..] == path[1..] + [key];
      if v.Obj? && path[0] in v.fields {
        AtSnoc(v.fields[path[0]], path[1..], key);
      }
    }
  }

  /** The navigation in dict terms: when all five levels are dicts holding the next key
      the record's links are found; a missing `Envelope` or `Payload-Metadata` is an error;
      a dict lacking `HTTP-Response-Metadata`, `HTML-Metadata` or `Links` skips the record. */
  lemma LinksOfNavigation(body: Json)
    ensures At(body, LinksPath).Some? ==> LinksOf(body) == Ok(At(body, LinksPath))
    ensures LinksOf(body).Ok? && LinksOf(body).value.Some? ==> At(body, LinksPath) == LinksOf(body).value
    ensures At(body, LinksPath[..2]).None? ==> LinksOf(body).Err?
    ensures StopsBefore(body, 2) || StopsBefore(body, 3) || StopsBefore(body, 4) ==>
      LinksOf(body) == Ok(None)
  {
    var e, p, h, m, l := LinksPath[0], LinksPath[1], LinksPath[2], LinksPath[3], LinksPath[4];
    assert LinksPath[..0] == [];
    assert LinksPath[..1] == [] + [e];
    assert LinksPath[..2] == LinksPath[..1] + [p];
    assert LinksPath[..3] == LinksPath[..2] + [h];
    assert LinksPath[..4] == LinksPath[..3] + [m];
    assert LinksPath == LinksPath[..4] + [l];
    AtSnoc(body, [], e);
    AtSnoc(body, LinksPath[..1], p);
    AtSnoc(body, LinksPath[..2], h);
    AtSnoc(body, LinksPath[..3], m);
    AtSnoc(body, LinksPath[..4], l);
  }

  /** The list comprehension over `links` that keeps the links `valid_link` accepts. */
  function FilterValid(items: seq<Json>): (r: Result<seq<Json>>)
    ensures r.Ok? <==> forall i :: 0 <= i < |items| ==> WellFormed(items[i])
    ensures r.Ok? ==> forall l :: l in r.value <==> l in items && WellFormed(l) && Accepted(l)
  {
    if items == [] then Ok([])
    else
      var kept :- FilterValid(items[..|items| - 1]);
      var last := items[|items| - 1];
      var valid :- ValidLink(last);
      assert items == items[..|items| - 1] + [last];
      Ok(if valid then kept + [last] else kept)
  }

  /** One link on its own: the comprehension keeps it exactly when `valid_link` accepts it. */
  lemma FilterSingleton(l: Json)
    ensures WellFormed(l) ==> FilterValid([l]) == Ok(if Accepted(l) then [l] else [])
    ensures !WellFormed(l) ==> FilterValid([l]).Err?
  {
    assert [l][..0] == [];
    assert FilterValid([l][..0]) == Ok([]);
    assert [l][0] == l;
    if WellFormed(l) {
      var r := FilterValid([l]);
      assert r.Ok?;
      if Accepted(l) {
        assert r.value[0] == l;
        assert r.value == [l];
      } else {
        assert r.value == [];
      }
      assert r == Ok(r.value);
    }
  }

  /** The comprehension over two pieces of a list is the comprehension over the whole: the
      kept links stay in list order and keep their multiplicity. */
  lemma {:induction false} FilterAppend(a: seq<Json>, b: seq<Json>)
    ensures FilterValid(a + b).Ok? <==> FilterValid(a).Ok? && FilterValid(b).Ok?
    ensures FilterValid(a + b).Ok? ==>
      FilterValid(a + b).value == FilterValid(a).value + FilterValid(b).value
  {
    if b == [] {
      assert a + b == a;
    } else {
      var b', last := b[..|b| - 1], b[|b| - 1];
      assert (a + b)[..|a + b| - 1] == a + b';
      assert (a + b)[|a + b| - 1] == last;
      FilterAppend(a, b');
      if FilterValid(a + b).Ok? {
        var x, y := FilterValid(a).value, FilterValid(b').value;
        var z := if ValidLink(last).value then [last] else [];
        assert FilterValid(a + b).value == (x + y) + z;
        assert FilterValid(b).value == y + z;
        assert (x + y) + z == x + (y + z);
      }
    }
  }

  /** `len(links)` (the `total` counter) followed by the filtering comprehension. Iterating
      a non-empty dict or string yields strings, which have no `get`. */
  function KeptLinks(links: Json): (r: Result<seq<Json>>)
    ensures links.Arr? ==> r == FilterValid(links.items)
    ensures !Sized(links) ==> r == Err(TypeError)
    ensures (links.Obj? || links.Str?) ==> (r.Ok? <==> Size(links) == 0)
    ensures (links.Obj? || links.Str?) && r.Ok? ==> r.value == []
    ensures r.Ok? ==> forall l :: l in r.value ==>
      links.Arr? && l in links.items && WellFormed(l) && Accepted(l)
  {
    var count :- Len(links);
    match links
    case Arr(items) => FilterValid(items)
    case _ => if count == 0 then Ok([]) else Err(AttributeError)
  }

  /** `{"url": link["url"], "alt": link["alt"]}` with `uid` set to `md5(alt + url)`. */
  function Tag(link: Json, hash: Hasher): (r: Result<Candidate>)
    ensures r.Ok? <==>
      && link.Obj? && "url" in link.fields && "alt" in link.fields
      && link.fields["url"].Str? && link.fields["alt"].Str?
    ensures r.Ok? ==>
      && link.fields["url"] == Str(r.value.url) && link.fields["alt"] == Str(r.value.alt)
      && WellTagged(r.value, hash)
  {
    var url :- Index(link, "url");
    var alt :- Index(link, "alt");
    match (alt, url)
    case (Str(a), Str(u)) => Ok(Candidate(u, a, hash(a + u)))
    case _ => Err(TypeError)  // `+` between a string and a list or dict
  }

  /** The candidate's identity is the hash of its alt text followed by its url. */
  predicate WellTagged(c: Candidate, hash: Hasher)
  {
    c.uid == hash(c.alt + c.url)
  }

  /** `l` is an accepted link whose url and alt the candidate copies. */
  predicate Source(l: Json, c: Candidate)
  {
    && WellFormed(l) && Accepted(l)
    && "url" in l.fields && "alt" in l.fields
    && l.fields["url"] == Str(c.url) && l.fields["alt"] == Str(c.alt)
  }

  /** Tagging every kept link, in order. */
  function TagAll(kept: seq<Json>, hash: Hasher): (r: Result<seq<Candidate>>)
    ensures r.Ok? <==> forall i :: 0 <= i < |kept| ==> Tag(kept[i], hash).Ok?
    ensures r.Ok? ==> |r.value| == |kept|
    ensures r.Ok? ==> forall i :: 0 <= i < |kept| ==> Tag(kept[i], hash) == Ok(r.value[i])
  {
    if kept == [] then Ok([])
    else
      var prefix := kept[..|kept| - 1];
      var tagged :- TagAll(prefix, hash);
      var c :- Tag(kept[|kept| - 1], hash);
      assert forall i :: 0 <= i < |prefix| ==> kept[i] == prefix[i];
      Ok(tagged + [c])
  }

  /** What one decoded record contributes. */
  function RecordCandidates(body: Json, hash: Hasher): Result<seq<Candidate>>
  {
    var links :- LinksOf(body);
    match links
    case None => Ok([])
    case Some(l) =>
      var kept :- KeptLinks(l);
      TagAll(kept, hash)
  }

  /** What one step of the record iterator contributes. */
  function ItemCandidates(item: Item, hash: Hasher): Result<seq<Candidate>>
  {
    match item
    case Decoded(body) => RecordCandidates(body, hash)
    case Undecodable => Ok([])
    case Corrupt => Err(StreamError)
  }

  /** The outputs of `step` over `xs`, concatenated; the first fault ends the run. */
  function Collect<X>(xs: seq<X>, step: X -> Result<seq<Candidate>>): Result<seq<Candidate>>
  {
    if xs == [] then Ok([])
    else
      var done :- Collect(xs[..|xs| - 1], step);
      var more :- step(xs[|xs| - 1]);
      Ok(done + more)
  }

  function Step(hash: Hasher): Item -> Result<seq<Candidate>>
  {
    (item: Item) => ItemCandidates(item, hash)
  }

  /** The body of the outer `try`: the records in order, the first fault ends the scan. */
  function Scan(items: seq<Item>, hash: Hasher): Result<seq<Candidate>>
  {
    Collect(items, Step(hash))
  }

  /** `extract_imgs(stream)`: a fault reaching the outer handler yields `[]`. The result is
      never part of a file: with any fault it is empty, and otherwise it is every record's
      contribution. */
  function Extraction(items: seq<Item>, hash: Hasher): (r: seq<Candidate>)
    ensures (exists i :: 0 <= i < |items| && ItemCandidates(items[i], hash).Err?) ==> r == []
    ensures (forall i :: 0 <= i < |items| ==> ItemCandidates(items[i], hash).Ok?) ==>
      Scan(items, hash) == Ok(r)
  {
    ScanFaults(items, hash);
    match Scan(items, hash)
    case Ok(links) => links
    case Err(_) => []
  }

  /** The loop of `extract_imgs`, accumulating into `allLinks`. */
  method ExtractImgs(stream: seq<Item>, hash: Hasher) returns (allLinks: seq<Candidate>)
    ensures allLinks == Extraction(stream, hash)
  {
    allLinks := [];
    var i := 0;
    while i < |stream|
      invariant 0 <= i <= |stream|
      invariant Scan(stream[..i], hash) == Ok(allLinks)
    {
      assert stream[..i + 1][..i] == stream[..i];
      assert stream[..i + 1][i] == stream[i];
      var more: seq<Candidate> := [];
      match stream[i] {
        case Corrupt =>
          ScanFaultAt(stream, i, hash);
          return [];
        case Undecodable =>
        case Decoded(body) =>
          var links := LinksOf(body);
          if links.Err? {
            ScanFaultAt(stream, i, hash);
            return [];
          }
          if links.value.Some? {
            var kept := KeptLinks(links.value.value);
            if kept.Err? {
              ScanFaultAt(stream, i, hash);
              return [];
            }
            var filtered := kept.value;
            var j := 0;
            while j < |filtered|
              invariant 0 <= j <= |filtered|
              invariant TagAll(filtered[..j], hash) == Ok(more)
            {
              assert filtered[..j + 1][..j] == filtered[..j];
              assert filtered[..j + 1][j] == filtered[j];
              var c := Tag(filtered[j], hash);
              if c.Err? {
                ScanFaultAt(stream, i, hash);
                return [];
              }
              more := more + [c.value];
              j := j + 1;
            }
            assert filtered[..j] == filtered;
          }
      }
      assert ItemCandidates(stream[i], hash) == Ok(more);
      allLinks := allLinks + more;
      i := i + 1;
    }
    assert stream[..i] == stream;
  }

  // ---------------------------------------------------------------------------
  // Properties of the extraction

  /** One more step. */
  lemma CollectSnoc<X>(s: seq<X>, x: X, step: X -> Result<seq<Candidate>>)
    ensures Collect(s + [x], step).Ok? <==> Collect(s, step).Ok? && step(x).Ok?
    ensures Collect(s + [x], step).Ok? ==>
      Collect(s + [x], step).value == Collect(s, step).value + step(x).value
  {
    assert (s + [x])[..|s|] == s;
    assert (s + [x])[|s|] == x;
  }

  /** The run fails exactly when some step faults. */
  lemma {:induction false} CollectFaults<X>(xs: seq<X>, step: X -> Result<seq<Candidate>>)
    ensures Collect(xs, step).Err? <==> exists i :: 0 <= i < |xs| && step(xs[i]).Err?
  {
    if xs != [] {
      var prefix := xs[..|xs| - 1];
      CollectFaults(prefix, step);
      assert forall i :: 0 <= i < |prefix| ==> prefix[i] == xs[i];
    }
  }

  /** Running over two pieces one after the other is running over the whole. */
  lemma {:induction false} CollectAppend<X>(a: seq<X>, b: seq<X>, step: X -> Result<seq<Candidate>>)
    ensures Collect(a + b, step).Ok? <==> Collect(a, step).Ok? && Collect(b, step).Ok?
    ensures Collect(a + b, step).Ok? ==>
      Collect(a + b, step).value == Collect(a, step).value + Collect(b, step).value
  {
    if b == [] {
      assert a + b == a;
    } else {
      var b', last := b[..|b| - 1], b[|b| - 1];
      assert b == b' + [last];
      assert a + b == (a + b') + [last];
      CollectAppend(a, b', step);
      CollectSnoc(a + b', last, step);
      CollectSnoc(b', last, step);
      if Collect(a + b, step).Ok? {
        var x, y, z := Collect(a, step).value, Collect(b', step).value, step(last).value;
        assert (x + y) + z == x + (y + z);
      }
    }
  }

  /** The scan fails exactly when some step of the iterator faults. */
  lemma ScanFaults(items: seq<Item>, hash: Hasher)
    ensures Scan(items, hash).Err? <==>
      exists i :: 0 <= i < |items| && ItemCandidates(items[i], hash).Err?
  {
    CollectFaults(items, Step(hash));
  }

  lemma ScanFaultAt(items: seq<Item>, i: nat, hash: Hasher)
    requires i < |items| && ItemCandidates(items[i], hash).Err?
    ensures Scan(items, hash).Err? && Extraction(items, hash) == []
  {
    ScanFaults(items, hash);
  }

  /** Scanning two pieces of a stream one after the other is scanning the whole: the
      candidates of earlier records come first. */
  lemma ScanAppend(a: seq<Item>, b: seq<Item>, hash: Hasher)
    ensures Scan(a + b, hash).Ok? <==> Scan(a, hash).Ok? && Scan(b, hash).Ok?
    ensures Scan(a + b, hash).Ok? ==>
      Scan(a + b, hash).value == Scan(a, hash).value + Scan(b, hash).value
  {
    CollectAppend(a, b, Step(hash));
  }

  /** A one-record stream yields that record's contribution. */
  lemma ScanSingle(x: Item, hash: Hasher)
    ensures Scan([x], hash).Ok? <==> ItemCandidates(x, hash).Ok?
    ensures Scan([x], hash).Ok? ==> Scan([x], hash).value == ItemCandidates(x, hash).value
  {
    CollectSnoc([], x, Step(hash));
    assert [] + [x] == [x];
  }

  /** Output order is stream order: on a fault-free stream the output of a concatenation
      is the concatenation of the outputs. */
  lemma ExtractionOrder(a: seq<Item>, b: seq<Item>, hash: Hasher)
    requires Scan(a + b, hash).Ok?
    ensures Extraction(a + b, hash) == Extraction(a, hash) + Extraction(b, hash)
  {
    ScanAppend(a, b, hash);
  }

  /** The accumulator only grows: every prefix of a fault-free stream scans without fault to a
      prefix of the final output. */
  lemma PrefixExtends(items: seq<Item>, k: nat, hash: Hasher)
    requires k <= |items| && Scan(items, hash).Ok?
    ensures Scan(items[..k], hash).Ok?
    ensures Scan(items[..k], hash).value <= Extraction(items, hash)
  {
    assert items == items[..k] + items[k..];
    ScanAppend(items[..k], items[k..], hash);
  }

  /** A step that contributes nothing without fault (an undecodable record, or one whose
      links path stops at an optional level) can be dropped from the stream. */
  lemma SkipNeutral(a: seq<Item>, item: Item, b: seq<Item>, hash: Hasher)
    requires ItemCandidates(item, hash) == Ok([])
    ensures Extraction(a + [item] + b, hash) == Extraction(a + b, hash)
  {
    ScanAppend(a, [item], hash);
    ScanAppend(a + [item], b, hash);
    ScanAppend(a, b, hash);
    ScanSingle(item, hash);
  }

  /** An undecodable record is skipped, and iteration goes on. */
  lemma UndecodableSkipped(a: seq<Item>, b: seq<Item>, hash: Hasher)
    ensures Extraction(a + [Undecodable] + b, hash) == Extraction(a + b, hash)
  {
    SkipNeutral(a, Undecodable, b, hash);
  }

  /** A record that lacks `HTTP-Response-Metadata`, `HTML-Metadata` or `Links` is skipped
      without error. */
  lemma MissingOptionalLevelSkipped(a: seq<Item>, body: Json, b: seq<Item>, hash: Hasher)
    requires StopsBefore(body, 2) || StopsBefore(body, 3) || StopsBefore(body, 4)
    ensures Extraction(a + [Decoded(body)] + b, hash) == Extraction(a + b, hash)
  {
    LinksOfNavigation(body);
    SkipNeutral(a, Decoded(body), b, hash);
  }

  /** A record without `Envelope` or `Payload-Metadata`, or a failure of the archive reader,
      anywhere in the stream empties the whole result. */
  lemma MissingMandatoryLevelEmpties(a: seq<Item>, item: Item, b: seq<Item>, hash: Hasher)
    requires item == Corrupt || (item.Decoded? && At(item.body, LinksPath[..2]).None?)
    ensures Extraction(a + [item] + b, hash) == []
  {
    var s := a + [item] + b;
    assert s[|a|] == item;
    if item.Decoded? {
      LinksOfNavigation(item.body);
    }
    ScanFaultAt(s, |a|, hash);
  }

  /** Tagging two pieces of the kept list one after the other is tagging the whole. */
  lemma {:induction false} TagAllAppend(a: seq<Json>, b: seq<Json>, hash: Hasher)
    ensures TagAll(a + b, hash).Ok? <==> TagAll(a, hash).Ok? && TagAll(b, hash).Ok?
    ensures TagAll(a + b, hash).Ok? ==>
      TagAll(a + b, hash).value == TagAll(a, hash).value + TagAll(b, hash).value
  {
    if b == [] {
      assert a + b == a;
      assert TagAll(b, hash) == Ok([]);
    } else {
      var b', last := b[..|b| - 1], b[|b| - 1];
      assert (a + b)[..|a + b| - 1] == a + b';
      assert (a + b)[|a + b| - 1] == last;
      TagAllAppend(a, b', hash);
      if TagAll(a + b, hash).Ok? {
        var x, y, z := TagAll(a, hash).value, TagAll(b', hash).value, Tag(last, hash).value;
        assert TagAll(a + b, hash).value == (x + y) + [z];
        assert TagAll(b, hash).value == y + [z];
        assert (x + y) + [z] == x + (y + [z]);
      }
    }
  }

  /** What one link contributes when judged and tagged on its own. */
  function LinkCandidates(l: Json, hash: Hasher): Result<seq<Candidate>>
  {
    var valid :- ValidLink(l);
    if !valid then Ok([])
    else
      var c :- Tag(l, hash);
      Ok([c])
  }

  function LinkStep(hash: Hasher): Json -> Result<seq<Candidate>>
  {
    (l: Json) => LinkCandidates(l, hash)
  }

  /** Filtering the whole list and then tagging the kept links yields, when neither raises,
      exactly what taking the links one at a time yields: one candidate per accepted link, at
      that link's place in the list and as often as it occurs. Either way round, some step
      raises exactly when the other does. */
  lemma {:induction false} FilterThenTag(ls: seq<Json>, hash: Hasher)
    ensures (FilterValid(ls).Ok? && TagAll(FilterValid(ls).value, hash).Ok?) <==>
      Collect(ls, LinkStep(hash)).Ok?
    ensures Collect(ls, LinkStep(hash)).Ok? ==>
      TagAll(FilterValid(ls).value, hash).value == Collect(ls, LinkStep(hash)).value
  {
    if ls != [] {
      var p, x := ls[..|ls| - 1], ls[|ls| - 1];
      assert ls == p + [x];
      FilterThenTag(p, hash);
      FilterAppend(p, [x]);
      FilterSingleton(x);
      CollectSnoc(p, x, LinkStep(hash));
      if FilterValid(ls).Ok? {
        var kp := FilterValid(p).value;
        var kx := FilterValid([x]).value;
        TagAllAppend(kp, kx, hash);
        if kx == [x] && Tag(x, hash).Ok? {
          TagSingle(x, hash);
        }
        if kx == [] {
          assert TagAll(kx, hash) == Ok([]);
        }
      }
    }
  }

  /** The candidates of a record whose `Links` is a list are those of its links taken one at a
      time, in list order: each accepted link gives one tagged candidate where it stands. */
  lemma RecordPerLink(body: Json, hash: Hasher, ls: seq<Json>)
    requires At(body, LinksPath) == Some(Arr(ls))
    ensures RecordCandidates(body, hash).Ok? <==> Collect(ls, LinkStep(hash)).Ok?
    ensures RecordCandidates(body, hash).Ok? ==>
      RecordCandidates(body, hash).value == Collect(ls, LinkStep(hash)).value
  {
    LinksOfNavigation(body);
    assert LinksOf(body) == Ok(Some(Arr(ls)));
    FilterThenTag(ls, hash);
  }

  /** The links of a record are judged in list order: splitting the list splits the
      candidates at the same place. */
  lemma RecordLinkOrder(body: Json, hash: Hasher, a: seq<Json>, b: seq<Json>)
    requires At(body, LinksPath) == Some(Arr(a + b))
    requires RecordCandidates(body, hash).Ok?
    ensures Collect(a, LinkStep(hash)).Ok? && Collect(b, LinkStep(hash)).Ok?
    ensures RecordCandidates(body, hash).value ==
      Collect(a, LinkStep(hash)).value + Collect(b, LinkStep(hash)).value
  {
    RecordPerLink(body, hash, a + b);
    CollectAppend(a, b, LinkStep(hash));
  }

  /** An accepted link on its own gives exactly its tagged candidate; a rejected one nothing. */
  lemma LinkCandidatesSingle(l: Json, hash: Hasher)
    requires WellFormed(l)
    ensures !Accepted(l) ==> LinkCandidates(l, hash) == Ok([])
    ensures Accepted(l) && Tag(l, hash).Ok? ==> LinkCandidates(l, hash) == Ok([Tag(l, hash).value])
    ensures Accepted(l) ==> (LinkCandidates(l, hash).Ok? <==> Field(l, "alt").Str?)
  {
  }

  /** Every candidate that one decoded record yields comes from an accepted link of that
      record, copies its url and alt, and carries the hash of alt followed by url. */
  lemma RecordSound(body: Json, hash: Hasher, c: Candidate)
    requires RecordCandidates(body, hash).Ok? && c in RecordCandidates(body, hash).value
    ensures WellTagged(c, hash)
    ensures match At(body, LinksPath)
      case Some(Arr(ls)) => exists l :: l in ls && Source(l, c)
      case _ => false
  {
    var nav := LinksOf(body);
    LinksOfNavigation(body);
    if nav.value.None? {
      assert false;
    }
    var links := nav.value.value;
    var kept := KeptLinks(links).value;
    var cs := TagAll(kept, hash).value;
    assert RecordCandidates(body, hash) == Ok(cs);
    var i :| 0 <= i < |cs| && cs[i] == c;
    assert Tag(kept[i], hash) == Ok(c);
    assert kept[i] in kept;
    assert Source(kept[i], c);
  }

  /** Every candidate in the output comes from an accepted link of some decoded record of the
      stream and is tagged with the hash of its alt and url; hence equal (alt, url) pairs
      have equal uids. */
  lemma {:induction false} ExtractionSound(items: seq<Item>, hash: Hasher, c: Candidate)
    requires c in Extraction(items, hash)
    ensures WellTagged(c, hash)
    ensures exists i :: (0 <= i < |items| && items[i].Decoded? &&
      RecordCandidates(items[i].body, hash).Ok? && c in RecordCandidates(items[i].body, hash).value)
  {
    var n := |items| - 1;
    var prefix := items[..n];
    var done := Scan(prefix, hash).value;
    var more := ItemCandidates(items[n], hash).value;
    if c in done {
      ExtractionSound(prefix, hash, c);
      var i :| 0 <= i < |prefix| && prefix[i].Decoded? &&
        RecordCandidates(prefix[i].body, hash).Ok? && c in RecordCandidates(prefix[i].body, hash).value;
      assert items[i] == prefix[i];
    } else {
      assert c in more;
      RecordSound(items[n].body, hash, c);
    }
  }

  lemma UidsAgree(items: seq<Item>, hash: Hasher, c: Candidate, d: Candidate)
    requires c in Extraction(items, hash) && d in Extraction(items, hash)
    requires c.alt == d.alt && c.url == d.url
    ensures c.uid == d.uid
  {
    ExtractionSound(items, hash, c);
    ExtractionSound(items, hash, d);
  }

  /** On a fault-free stream each step's contribution is part of the output. */
  lemma ItemContained(items: seq<Item>, i: nat, hash: Hasher)
    requires Scan(items, hash).Ok? && i < |items|
    ensures ItemCandidates(items[i], hash).Ok?
    ensures forall c :: c in ItemCandidates(items[i], hash).value ==> c in Extraction(items, hash)
  {
    var a, x, b := items[..i], [items[i]], items[i + 1..];
    assert items == a + (x + b);
    ScanAppend(a, x + b, hash);
    ScanAppend(x, b, hash);
    ScanSingle(items[i], hash);
  }

  /** A record that yields without fault yields a candidate for each of its accepted links. */
  lemma RecordComplete(body: Json, hash: Hasher, l: Json)
    requires RecordCandidates(body, hash).Ok?
    requires At(body, LinksPath).Some? && At(body, LinksPath).value.Arr?
    requires l in At(body, LinksPath).value.items && WellFormed(l) && Accepted(l)
    ensures "url" in l.fields && "alt" in l.fields && l.fields["alt"].Str? && l.fields["url"].Str?
    ensures Candidate(l.fields["url"].s, l.fields["alt"].s, hash(l.fields["alt"].s + l.fields["url"].s))
      in RecordCandidates(body, hash).value
  {
    LinksOfNavigation(body);
    var links := At(body, LinksPath).value;
    assert LinksOf(body) == Ok(Some(links));
    var kept := KeptLinks(links).value;
    assert l in kept;
    var k :| 0 <= k < |kept| && kept[k] == l;
    var cs := TagAll(kept, hash).value;
    assert Tag(l, hash) == Ok(cs[k]);
  }

  /** Every accepted link of every record of a fault-free stream is in the output, tagged
      with the hash of its alt text followed by its url. */
  lemma ExtractionComplete(items: seq<Item>, hash: Hasher, i: nat, l: Json)
    requires Scan(items, hash).Ok? && i < |items| && items[i].Decoded?
    requires At(items[i].body, LinksPath).Some? && At(items[i].body, LinksPath).value.Arr?
    requires l in At(items[i].body, LinksPath).value.items && WellFormed(l) && Accepted(l)
    ensures "url" in l.fields && "alt" in l.fields && l.fields["alt"].Str? && l.fields["url"].Str?
    ensures Candidate(l.fields["url"].s, l.fields["alt"].s,
                      hash(l.fields["alt"].s + l.fields["url"].s)) in Extraction(items, hash)
  {
    ItemContained(items, i, hash);
    RecordComplete(items[i].body, hash, l);
  }

  lemma FilterPair(a: Json, b: Json)
    requires ValidLink(a) == Ok(true) && ValidLink(b) == Ok(false)
    ensures FilterValid([a, b]) == Ok([a])
  {
    FilterSingleton(a);
    var r := FilterValid([a, b]);
    assert [a, b][..1] == [a];
    assert r.value == [a];
    assert r == Ok(r.value);
  }
  lemma TagSingle(l: Json, hash: Hasher)
    requires Tag(l, hash).Ok?
    ensures TagAll([l], hash) == Ok([Tag(l, hash).value])
  {
    var r := TagAll([l], hash);
    assert [l][..0] == [];
    assert r.value[0] == Tag(l, hash).value;
    assert r.value == [Tag(l, hash).value];
    assert r == Ok(r.value);
  }

  const ExampleImage := Obj(map["path" := Str("IMG@/src"), "url" := Str("http://a/x.png"), "alt" := Str("cat")])
  const ExampleOther := Obj(map["path" := Str("other"), "url" := Str("http://a/y.png"), "alt" := Str("dog")])
  const ExampleRecord := Obj(map["Envelope" := Obj(map["Payload-Metadata" :=
    Obj(map["HTTP-Response-Metadata" := Obj(map["HTML-Metadata" :=
      Obj(map["Links" := Arr([ExampleImage, ExampleOther])])])])])])

  lemma ExampleNavigation()
    ensures LinksOf(ExampleRecord) == Ok(Some(Arr([ExampleImage, ExampleOther])))
  {
  }

  lemma ExampleVerdicts()
    ensures ValidLink(ExampleImage) == Ok(true) && ValidLink(ExampleOther) == Ok(false)
  {
    assert WellFormed(ExampleImage) && Accepted(ExampleImage);
    assert WellFormed(ExampleOther) && !Accepted(ExampleOther);
  }

  lemma ExampleTag(hash: Hasher)
    ensures Tag(ExampleImage, hash) == Ok(Candidate("http://a/x.png", "cat", hash("cathttp://a/x.png")))
  {
    assert "cat" + "http://a/x.png" == "cathttp://a/x.png";
  }

  /** A record with one accepted link and one link whose path is not the image source
      yields exactly the first, tagged with the hash of "cat" followed by its url. */
  lemma TwoLinkExample(hash: Hasher)
    ensures Extraction([Decoded(ExampleRecord)], hash) ==
      [Candidate("http://a/x.png", "cat", hash("cathttp://a/x.png"))]
  {
    var c := Candidate("http://a/x.png", "cat", hash("cathttp://a/x.png"));
    ExampleNavigation();
    ExampleVerdicts();
    FilterPair(ExampleImage, ExampleOther);
    ExampleTag(hash);
    TagSingle(ExampleImage, hash);
    assert RecordCandidates(ExampleRecord, hash) == Ok([c]);
    ScanSingle(Decoded(ExampleRecord), hash);
  }
}
