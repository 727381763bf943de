/** The arithmetic of the multi-part run: `process_multi_part` cuts the shard list into
    `multipart` contiguous parts of `ceil(n / multipart)` shards, and every dedup pass sizes
    its output with `deduplicate_repartition_count`. */
module MultiPart {
  import opened Results
  import opened PySlice

  /** `math.ceil(n / m)`: the least integer not below the quotient. */
  function CeilDiv(n: nat, m: int): (r: int)
    requires m != 0
    ensures m > 0 ==> (r - 1) * m < n <= r * m
    ensures m < 0 ==> r * m <= n < (r - 1) * m
    ensures m > 0 ==> r >= 0
  {
    if m > 0 then
      var q, rem := (n + m - 1) / m, (n + m - 1) % m;
      assert n + m - 1 == q * m + rem && 0 <= rem < m;
      assert (q - 1) * m == q * m - m;
      q
    else
      var q, rem := n / -m, n % -m;
      assert n == q * -m + rem && 0 <= rem < -m;
      assert -q * m == q * -m;
      assert (-q - 1) * m == q * -m - m;
      -q
  }

  /** One part of a multi-part run: its output location and its slice of the shard list. */
  datatype Part = Part(path: string, shards: seq<string>)

  /** `f"{output_path}/part_{i}"`. */
  function PartPath(outputPath: string, i: nat): (r: string)
    ensures outputPath + "/part_" <= r
    ensures |r| > |outputPath| + 6
    ensures forall k :: |outputPath| + 6 <= k < |r| ==> '0' <= r[k] <= '9'
  {
    outputPath + "/part_" + NatToString(i)
  }

  /** Different parts write to different locations. */
  lemma PartPathsDistinct(outputPath: string, i: nat, j: nat)
    requires i != j
    ensures PartPath(outputPath, i) != PartPath(outputPath, j)
  {
    var prefix := outputPath + "/part_";
    if PartPath(outputPath, i) == PartPath(outputPath, j) {
      assert NatToString(i) == PartPath(outputPath, i)[|prefix|..];
      assert NatToString(j) == PartPath(outputPath, j)[|prefix|..];
      NatToStringInjective(i, j);
    }
  }

  /** The shard lists of `parts`, in part order. */
  function Shards(parts: seq<Part>): seq<string>
  {
    if parts == [] then [] else Shards(parts[..|parts| - 1]) + parts[|parts| - 1].shards
  }

  /** Where block `j` of size `k` starts in a list of `n` shards: `j * k`, cut at the end. */
  function Bound(j: nat, k: nat, n: nat): (b: nat)
    ensures b <= n
  {
    Min(j * k, n)
  }

  lemma BoundMonotone(j: nat, k: nat, n: nat)
    ensures Bound(j, k, n) <= Bound(j + 1, k, n)
  {
    assert (j + 1) * k == j * k + k;
  }

  /** Block `j` of size `k`: `files[j*k:(j+1)*k]`, empty once past the end. */
  function Block(files: seq<string>, k: nat, j: nat): seq<string>
  {
    BoundMonotone(j, k, |files|);
    files[Bound(j, k, |files|)..Bound(j + 1, k, |files|)]
  }

  /** The Python slice the loop takes is the block. */
  lemma SliceIsBlock(files: seq<string>, k: nat, j: nat)
    ensures Slice(files, j * k, (j + 1) * k) == Block(files, k, j)
  {
    assert (j + 1) * k == j * k + k;
    SliceNonNegative(files, j * k, (j + 1) * k);
  }

  /** Part `i` of the loop: `wat_index_files[i*k:(i+1)*k]`, written under `part_i`. */
  function PartAt(outputPath: string, files: seq<string>, k: nat, i: nat): (p: Part)
    ensures p.path == PartPath(outputPath, i)
    ensures p.shards == Block(files, k, i)
  {
    SliceIsBlock(files, k, i);
    Part(PartPath(outputPath, i), Slice(files, i * k, (i + 1) * k))
  }

  /** The blocks before `j + 1` are the list up to where block `j + 1` starts. */
  lemma BlocksExtend(files: seq<string>, k: nat, j: nat)
    ensures files[..Bound(j, k, |files|)] + Block(files, k, j) == files[..Bound(j + 1, k, |files|)]
  {
    BoundMonotone(j, k, |files|);
  }

  /** Appending part `i` to the parts before it covers the list up to where block `i + 1`
      starts. */
  lemma PartsExtend(files: seq<string>, k: nat, i: nat, parts: seq<Part>, part: Part)
    requires Shards(parts) == files[..Bound(i, k, |files|)]
    requires part.shards == Block(files, k, i)
    ensures Shards(parts + [part]) == files[..Bound(i + 1, k, |files|)]
  {
    assert (parts + [part])[..|parts|] == parts;
    BlocksExtend(files, k, i);
  }

  /** `multipart` blocks of `ceil(n / multipart)` reach the end of the list. */
  lemma BlocksReachEnd(n: nat, multipart: int)
    requires multipart > 0
    ensures Bound(multipart, CeilDiv(n, multipart), n) == n
  {
    var k := CeilDiv(n, multipart);
    assert multipart * k == k * multipart;
  }

  /** The loop `for i in range(multipart)` of `process_multi_part` with part size
      `watPerPart`: part `i` is `wat_index_files[i*watPerPart:(i+1)*watPerPart]`, written under
      `part_i`. A negative `multipart` makes the range empty. */
  method SliceLoop(outputPath: string, files: seq<string>, multipart: int, watPerPart: int)
    returns (parts: seq<Part>)
    requires multipart > 0 ==> watPerPart >= 0
    ensures |parts| == (if multipart > 0 then multipart else 0)
    ensures forall i :: 0 <= i < |parts| ==> parts[i].path == PartPath(outputPath, i)
    ensures forall i :: 0 <= i < |parts| ==> parts[i].shards == Block(files, watPerPart, i)
    ensures multipart > 0 ==> Shards(parts) == files[..Bound(multipart, watPerPart, |files|)]
  {
    var count := if multipart > 0 then multipart else 0;  // the length of `range(multipart)`
    ghost var k: nat := if multipart > 0 then watPerPart else 0;
    parts := [];
    var i := 0;
    while i < multipart
      invariant 0 <= i <= count
      invariant |parts| == i
      invariant forall j :: 0 <= j < i ==> parts[j].path == PartPath(outputPath, j)
      invariant forall j :: 0 <= j < i ==> parts[j].shards == Block(files, k, j)
      invariant Shards(parts) == files[..Bound(i, k, |files|)]
    {
      var part := PartAt(outputPath, files, watPerPart, i);
      PartsExtend(files, k, i, parts, part);
      parts := parts + [part];
      i := i + 1;
    }
  }

  /** `process_multi_part` up to the per-part work: `k = ceil(n / multipart)`, then the
      slicing loop. A zero `multipart` divides by zero. */
  method SliceParts(outputPath: string, files: seq<string>, multipart: int) returns (r: Result<seq<Part>>)
    ensures r.Err? <==> multipart == 0
    ensures r.Ok? ==> |r.value| == (if multipart > 0 then multipart else 0)
    ensures r.Ok? ==> forall i :: 0 <= i < |r.value| ==> r.value[i].path == PartPath(outputPath, i)
    ensures multipart > 0 ==> r.Ok? && Shards(r.value) == files
    ensures multipart > 0 ==> forall i :: 0 <= i < |r.value| ==>
      r.value[i].shards == Block(files, CeilDiv(|files|, multipart), i)
  {
    if multipart == 0 {
      return Err(ZeroDivisionError);
    }
    var watCount := |files|;
    var watPerPart := CeilDiv(watCount, multipart);
    var parts := SliceLoop(outputPath, files, multipart, watPerPart);
    if multipart > 0 {
      BlocksReachEnd(watCount, multipart);
      assert files[..watCount] == files;
    }
    return Ok(parts);
  }

  /** Every shard index lies in exactly one part: the one numbered `index / k`. */
  lemma ShardInOnePart(n: nat, multipart: int, index: nat, i: nat)
    requires multipart > 0 && index < n && i < multipart
    ensures var k := CeilDiv(n, multipart);
      k > 0 && index / k < multipart &&
      (Bound(i, k, n) <= index < Bound(i + 1, k, n) <==> i == index / k)
  {
    var k := CeilDiv(n, multipart);
    if k <= 0 {
      MulMonotone(k, 0, multipart);
      assert false;
    }
    var q := index / k;
    assert index == q * k + index % k;
    assert (q + 1) * k == q * k + k;
    if q >= multipart {
      MulMonotone(multipart, q, k);
      assert false;
    }
    if i < q {
      MulMonotone(i + 1, q, k);
    } else if i > q {
      MulMonotone(q + 1, i, k);
    }
  }

  lemma MulMonotone(a: int, b: int, k: int)
    requires a <= b && k >= 0
    ensures a * k <= b * k
  {
    assert b * k - a * k == (b - a) * k;
  }

  /** `max(256, wat_count // 100)`: at least 256 partitions, at least one per hundred
      shards, and never more than that beyond the floor of 256. */
  function RepartitionCount(watCount: nat): (r: nat)
    ensures r >= 256 && r >= watCount / 100
    ensures r == 256 || r * 100 <= watCount
  {
    if watCount / 100 > 256 then watCount / 100 else 256
  }
}
