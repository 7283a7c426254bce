/** Bytes, zero runs and the byte-level helpers that several components share. */
module Bytes {
  type byte = n: int | 0 <= n < 256
  type bytes = seq<byte>

  const SLASH: byte := 47

  datatype Option<+T> = None | Some(value: T)

  function Repeat(b: byte, n: nat): (s: bytes)
    ensures |s| == n && forall i :: 0 <= i < n ==> s[i] == b
  {
    seq(n, _ => b)
  }

  function Zeros(n: nat): (s: bytes)
    ensures |s| == n && forall i :: 0 <= i < n ==> s[i] == 0
  {
    Repeat(0, n)
  }

  /** A literal of plain characters as bytes. */
  function Literal(s: string): (r: bytes)
    ensures |r| == |s|
  {
    seq(|s|, i requires 0 <= i < |s| => s[i] as int % 256)
  }

  /** Python's `not any(data)`: every byte is zero. */
  predicate AllZero(s: bytes) {
    forall i :: 0 <= i < |s| ==> s[i] == 0
  }

  predicate StartsWith(s: bytes, prefix: bytes) {
    |prefix| <= |s| && s[..|prefix|] == prefix
  }

  function Sum(s: bytes): nat
    decreases |s|
  {
    if s == [] then 0 else Sum(s[..|s| - 1]) + s[|s| - 1]
  }

  lemma {:induction false} SumConcat(a: bytes, b: bytes)
    ensures Sum(a + b) == Sum(a) + Sum(b)
    decreases |b|
  {
    if b == [] {
      assert a + b == a;
    } else {
      assert (a + b)[..|a + b| - 1] == a + b[..|b| - 1];
      SumConcat(a, b[..|b| - 1]);
    }
  }

  lemma {:induction false} SumBound(s: bytes)
    ensures Sum(s) <= 255 * |s|
    decreases |s|
  {
    if s != [] { SumBound(s[..|s| - 1]); }
  }

  /** Python's `s.find(b, from)`; None stands for -1. */
  function Find(s: bytes, b: byte, from: nat): (r: Option<nat>)
    ensures r.None? ==> forall i :: from <= i < |s| ==> s[i] != b
    ensures r.Some? ==> from <= r.value < |s| && s[r.value] == b
    ensures r.Some? ==> forall i :: from <= i < r.value ==> s[i] != b
    decreases |s| - from
  {
    if from >= |s| then None else if s[from] == b then Some(from) else Find(s, b, from + 1)
  }

  /** `s.rstrip(b"\0")`. */
  function StripZeros(s: bytes): (r: bytes)
    ensures r == [] || r[|r| - 1] != 0
    ensures |r| <= |s| && s == r + Zeros(|s| - |r|)
    decreases |s|
  {
    if s != [] && s[|s| - 1] == 0 then StripZeros(s[..|s| - 1]) else s
  }

  predicate EndsInNul(s: bytes) {
    s != [] && s[|s| - 1] == 0
  }

  lemma {:induction false} StripPadded(s: bytes, n: nat)
    ensures StripZeros(s + Zeros(n)) == s <==> !EndsInNul(s)
    decreases n
  {
    if n == 0 {
      assert s + Zeros(0) == s;
    } else {
      var t := s + Zeros(n);
      assert t[..|t| - 1] == s + Zeros(n - 1);
      StripPadded(s, n - 1);
    }
  }

  lemma FindFrom(front: bytes, skipped: bytes, b: byte, back: bytes)
    requires b !in skipped
    ensures Find(front + skipped + [b] + back, b, |front|) == Some(|front| + |skipped|)
  {
    var s := front + skipped + [b] + back;
    assert s[|front| + |skipped|] == b;
    assert forall i :: 0 <= i < |skipped| ==> s[|front| + i] == skipped[i];
    var r := Find(s, b, |front|);
    assert r.Some?;
    assert r.value >= |front| + |skipped| by {
      assert s[r.value] == b;
      assert forall i :: |front| <= i < |front| + |skipped| ==> s[i] == skipped[i - |front|];
    }
  }

  lemma Middle(front: bytes, middle: bytes, back: bytes)
    ensures (front + middle + back)[|front|..|front| + |middle|] == middle
  {
  }

  // ---------- the order of strings ----------

  /** Python's `<=` on strings and byte strings. */
  predicate Leq(a: bytes, b: bytes) {
    a == [] || (b != [] && (a[0] < b[0] || (a[0] == b[0] && Leq(a[1..], b[1..]))))
  }

  /** The first difference, if there is one, is a rise; a beginning comes before what it begins. */
  ghost predicate Rises(a: bytes, b: bytes) {
    a <= b || exists k :: 0 <= k < |a| && k < |b| && a[..k] == b[..k] && a[k] < b[k]
  }

  /** The comparison, byte by byte, is that order. */
  lemma {:induction false} LeqIsRising(a: bytes, b: bytes)
    ensures Leq(a, b) <==> Rises(a, b)
    decreases |a|
  {
    if a != [] && b != [] && a[0] == b[0] {
      LeqIsRising(a[1..], b[1..]);
      RisesBehind(a, b);
    } else if a != [] && b != [] {
      if a[0] < b[0] {
        assert a[..0] == b[..0];
      }
    }
  }

  lemma RisesBehind(a: bytes, b: bytes)
    requires a != [] && b != [] && a[0] == b[0]
    ensures Rises(a, b) <==> Rises(a[1..], b[1..])
  {
    assert a == [a[0]] + a[1..] && b == [b[0]] + b[1..];
    if k :| 0 <= k < |a| && k < |b| && a[..k] == b[..k] && a[k] < b[k] {
      assert a[1..][..k - 1] == a[..k][1..] && b[1..][..k - 1] == b[..k][1..];
    }
    if k :| 0 <= k < |a[1..]| && k < |b[1..]| && a[1..][..k] == b[1..][..k] && a[1..][k] < b[1..][k] {
      assert a[..k + 1] == [a[0]] + a[1..][..k] && b[..k + 1] == [b[0]] + b[1..][..k];
    }
  }

  lemma {:induction false} LeqTotal(a: bytes, b: bytes)
    ensures Leq(a, b) || Leq(b, a)
  {
    if a != [] && b != [] && a[0] == b[0] { LeqTotal(a[1..], b[1..]); }
  }

  lemma {:induction false} LeqTransitive(a: bytes, b: bytes, c: bytes)
    requires Leq(a, b) && Leq(b, c)
    ensures Leq(a, c)
    decreases |a|
  {
    if a != [] && a[0] == b[0] == c[0] { LeqTransitive(a[1..], b[1..], c[1..]); }
  }

  lemma {:induction false} LeqAntisymmetric(a: bytes, b: bytes)
    requires Leq(a, b) && Leq(b, a)
    ensures a == b
  {
    if a != [] { LeqAntisymmetric(a[1..], b[1..]); }
  }
}
