/** Python's sequence slicing `s[i:j]` and `str(n)` for natural numbers. */
module PySlice {

  /** The position Python uses for a slice bound `i` on a sequence of length `n`:
      a negative bound counts from the end, and the result is clamped to `[0, n]`. */
  function SliceBound(i: int, n: nat): (r: nat)
    ensures r <= n
    ensures 0 <= i <= n ==> r == i
    ensures i > n ==> r == n
    ensures i < 0 && -i <= n ==> r == n + i
    ensures i < 0 && -i > n ==> r == 0
  {
    if i < 0 then (if i + n < 0 then 0 else i + n)
    else if i > n then n
    else i
  }

  /** `s[i:j]`, which never raises: an empty slice when the bounds cross. */
  function Slice<T>(s: seq<T>, i: int, j: int): (r: seq<T>)
    ensures |r| == if SliceBound(i, |s|) <= SliceBound(j, |s|)
      then SliceBound(j, |s|) - SliceBound(i, |s|) else 0
  {
    var lo := SliceBound(i, |s|);
    var hi := SliceBound(j, |s|);
    if lo <= hi then s[lo..hi] else []
  }

  /** The slice is the window of `s` that starts at the position of `i`. */
  lemma SliceWindow<T>(s: seq<T>, i: int, j: int)
    ensures Slice(s, i, j) <= s[SliceBound(i, |s|)..]
  {
  }

  function Min(a: int, b: int): int { if a <= b then a else b }

  /** For non-negative bounds a slice is the window between the two bounds cut at the end. */
  lemma SliceNonNegative<T>(s: seq<T>, i: nat, j: nat)
    requires i <= j
    ensures Min(i, |s|) <= Min(j, |s|)
    ensures Slice(s, i, j) == s[Min(i, |s|)..Min(j, |s|)]
    ensures i >= |s| ==> Slice(s, i, j) == []
  {
  }

  /** `s[-c:]`, the last `c` elements; `c == 0` gives `s[0:]`, all of `s`. */
  lemma SliceFromEnd<T>(s: seq<T>, c: int)
    ensures var r := Slice(s, -c, |s|);
      && r == s[|s| - |r|..]
      && |r| == (if c == 0 || c >= |s| then |s| else if c > 0 then c else if -c >= |s| then 0 else |s| + c)
  {
  }

  function DigitChar(d: nat): (c: char)
    requires d < 10
  {
    "0123456789"[d]
  }

  function DigitValue(c: char): nat
  {
    if '0' <= c <= '9' then (c as int - '0' as int) else 0
  }

  /** `str(n)` for a natural number: decimal digits, most significant first, no leading zero. */
  function NatToString(n: nat): (s: string)
    ensures |s| >= 1
    ensures forall k :: 0 <= k < |s| ==> '0' <= s[k] <= '9'
    ensures |s| > 1 ==> s[0] != '0'
  {
    if n < 10 then [DigitChar(n)] else NatToString(n / 10) + [DigitChar(n % 10)]
  }

  /** The value of a string of decimal digits. */
  function DecimalValue(s: string): nat
  {
    if s == [] then 0 else 10 * DecimalValue(s[..|s| - 1]) + DigitValue(s[|s| - 1])
  }

  /** Reading back the decimal text of `n` gives `n`. */
  lemma {:induction false} DecimalRoundTrip(n: nat)
    ensures DecimalValue(NatToString(n)) == n
  {
    var s := NatToString(n);
    if n < 10 {
      assert s[..0] == [];
    } else {
      assert s[..|s| - 1] == NatToString(n / 10);
      DecimalRoundTrip(n / 10);
    }
  }

  /** Different numbers have different decimal text. */
  lemma NatToStringInjective(m: nat, n: nat)
    requires NatToString(m) == NatToString(n)
    ensures m == n
  {
    DecimalRoundTrip(m);
    DecimalRoundTrip(n);
  }
}
