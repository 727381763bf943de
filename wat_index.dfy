/** `read_wat_index_files`: the list of WAT shard paths of the most recent crawls.
    The manifest locations found under the crawl-data root and the content of each
    manifest are inputs: `read(link)` is the list of stripped lines of that manifest. */
module WatIndex {
  import opened Results
  import opened PySlice

  type Reader = string -> seq<string>

  /** How many of `n` manifests `links[-c:]` keeps. */
  function KeptCount(n: nat, c: int): nat
  {
    if c == 0 || c >= n then n
    else if c > 0 then c
    else if -c >= n then 0
    else n + c
  }

  /** The manifests used: `cc_wat_links[-shard_count:]` when a count is given. Because
      `-0 == 0`, a count of 0 keeps them all; a negative count drops that many from the front. */
  function RecentManifests(links: seq<string>, shardCount: Option<int>): (r: seq<string>)
    ensures |r| <= |links| && r == links[|links| - |r|..]
    ensures shardCount.None? ==> r == links
    ensures shardCount.Some? ==> |r| == KeptCount(|links|, shardCount.value)
    ensures shardCount == Some(0) ==> r == links
  {
    match shardCount
    case None => links
    case Some(c) =>
      SliceFromEnd(links, c);
      Slice(links, -c, |links|)
  }

  /** The path lists of `manifests`, concatenated in the given order. */
  function Listing(manifests: seq<string>, read: Reader): seq<string>
  {
    if manifests == [] then []
    else Listing(manifests[..|manifests| - 1], read) + read(manifests[|manifests| - 1])
  }

  lemma {:induction false} ListingAppend(a: seq<string>, b: seq<string>, read: Reader)
    ensures Listing(a + b, read) == Listing(a, read) + Listing(b, read)
  {
    if b == [] {
      assert a + b == a;
    } else {
      var b', last := b[..|b| - 1], b[|b| - 1];
      assert (a + b)[..|a + b| - 1] == a + b';
      assert (a + b)[|a + b| - 1] == last;
      ListingAppend(a, b', read);
      var x, y, z := Listing(a, read), Listing(b', read), read(last);
      assert Listing(a + b, read) == (x + y) + z;
      assert Listing(b, read) == y + z;
      assert (x + y) + z == x + (y + z);
    }
  }

  /** The order in which the manifests are read does not change which paths are listed,
      nor how often. */
  lemma {:induction false} ListingPermutation(a: seq<string>, b: seq<string>, read: Reader)
    requires multiset(a) == multiset(b)
    ensures multiset(Listing(a, read)) == multiset(Listing(b, read))
  {
    if a != [] {
      var x := a[|a| - 1];
      var a' := a[..|a| - 1];
      assert a == a' + [x];
      assert x in multiset(b);
      var j :| 0 <= j < |b| && b[j] == x;
      var b' := b[..j] + b[j + 1..];
      assert b == b[..j] + [x] + b[j + 1..];
      assert multiset(a) == multiset(a') + multiset{x};
      assert multiset(b) == multiset(b[..j]) + multiset{x} + multiset(b[j + 1..]);
      assert multiset(b') == multiset(b[..j]) + multiset(b[j + 1..]);
      assert multiset(a') == multiset(a) - multiset{x};
      assert multiset(b') == multiset(b) - multiset{x};
      ListingPermutation(a', b', read);
      ListingAppend(a', [x], read);
      ListingAppend(b[..j], [x], read);
      ListingAppend(b[..j] + [x], b[j + 1..], read);
      ListingAppend(b[..j], b[j + 1..], read);
      assert [x][..0] == [];
      assert Listing([x], read) == read(x);
    } else {
      assert b == [];
    }
  }

  /** `random.choices(population, k=k)`: `k` draws with replacement (none when `k <= 0`);
      drawing from an empty population indexes `population[0]` and raises. Which index
      each draw takes is left open. */
  method Choices(population: seq<string>, k: int) returns (r: Result<seq<string>>)
    ensures r.Err? <==> k > 0 && population == []
    ensures r.Ok? ==> |r.value| == (if k > 0 then k else 0)
    ensures r.Ok? ==> forall x :: x in r.value ==> x in population
  {
    if k > 0 && |population| == 0 {
      return Err(IndexError);
    }
    var picks: seq<string> := [];
    var j := 0;
    while j < k
      invariant 0 <= j && (k > 0 ==> j <= k) && (k <= 0 ==> j == 0)
      invariant |picks| == j
      invariant forall x :: x in picks ==> x in population
    {
      var idx :| 0 <= idx < |population|;
      picks := picks + [population[idx]];
      j := j + 1;
    }
    return Ok(picks);
  }

  /** `read_wat_index_files(shard_count, wat_count)`. The manifests are read by a thread pool
      and each list is appended when its read completes, so the concatenation follows an
      order the method does not control: `order`, any permutation of the kept manifests. */
  method ReadWatIndexFiles(ccWatLinks: seq<string>, read: Reader, shardCount: Option<int>, watCount: Option<int>)
    returns (r: Result<seq<string>>, ghost order: seq<string>)
    ensures multiset(order) == multiset(RecentManifests(ccWatLinks, shardCount))
    ensures watCount.None? ==> r == Ok(Listing(order, read))
    ensures watCount.None? ==>
      multiset(r.value) == multiset(Listing(RecentManifests(ccWatLinks, shardCount), read))
    ensures r.Err? <==>
      watCount.Some? && watCount.value > 0 && Listing(RecentManifests(ccWatLinks, shardCount), read) == []
    ensures r.Ok? && watCount.Some? ==>
      |r.value| == (if watCount.value > 0 then watCount.value else 0) &&
      forall x :: x in r.value ==> x in Listing(RecentManifests(ccWatLinks, shardCount), read)
  {
    var manifests := RecentManifests(ccWatLinks, shardCount);
    var allWats: seq<string> := [];
    var pending := manifests;
    order := [];
    while pending != []
      invariant multiset(order) + multiset(pending) == multiset(manifests)
      invariant allWats == Listing(order, read)
      decreases |pending|
    {
      var p :| 0 <= p < |pending|;  // the next manifest whose read completes
      assert pending == pending[..p] + [pending[p]] + pending[p + 1..];
      assert (order + [pending[p]])[..|order|] == order;
      allWats := allWats + read(pending[p]);
      order := order + [pending[p]];
      pending := pending[..p] + pending[p + 1..];
    }
    ListingPermutation(order, manifests, read);
    assert multiset(allWats) == multiset(Listing(manifests, read));
    assert forall x :: x in allWats <==> x in Listing(manifests, read) by {
      forall x ensures x in allWats <==> x in Listing(manifests, read) {
        assert x in allWats <==> x in multiset(allWats);
        assert x in Listing(manifests, read) <==> x in multiset(Listing(manifests, read));
      }
    }
    if watCount.Some? {
      assert allWats == [] <==> |multiset(allWats)| == 0;
      assert Listing(manifests, read) == [] <==> |multiset(Listing(manifests, read))| == 0;
      r := Choices(allWats, watCount.value);
    } else {
      r := Ok(allWats);
    }
  }
}
