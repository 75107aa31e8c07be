/** Bytes, machine-integer ranges and the big-endian conversions of lib/kcn_buf.c. */
module Bytes {
  type byte = x: int | 0 <= x < 0x100
  type u16 = x: int | 0 <= x < 0x1_0000
  type u32 = x: int | 0 <= x < 0x1_0000_0000
  type u64 = x: int | 0 <= x < 0x1_0000_0000_0000_0000
  type i64 = x: int | -0x8000_0000_0000_0000 <= x < 0x8000_0000_0000_0000

  function Min(a: nat, b: nat): nat {
    if a < b then a else b
  }

  function De16(s: seq<byte>): u16
    requires |s| == 2
  {
    s[0] as int * 0x100 + s[1]
  }

  function De32(s: seq<byte>): u32
    requires |s| == 4
  {
    De16(s[..2]) * 0x1_0000 + De16(s[2..])
  }

  function De64(s: seq<byte>): u64
    requires |s| == 8
  {
    De32(s[..4]) * 0x1_0000_0000 + De32(s[4..])
  }

  function Be16(v: u16): (s: seq<byte>)
    ensures |s| == 2 && De16(s) == v
  {
    [v / 0x100, v % 0x100]
  }

  function Be32(v: u32): (s: seq<byte>)
    ensures |s| == 4 && De32(s) == v
  {
    var hi, lo := Be16(v / 0x1_0000), Be16(v % 0x1_0000);
    assert (hi + lo)[..2] == hi && (hi + lo)[2..] == lo;
    hi + lo
  }

  function Be64(v: u64): (s: seq<byte>)
    ensures |s| == 8 && De64(s) == v
  {
    var hi, lo := Be32(v / 0x1_0000_0000), Be32(v % 0x1_0000_0000);
    assert (hi + lo)[..4] == hi && (hi + lo)[4..] == lo;
    hi + lo
  }

  lemma {:induction false} De16Injective(a: seq<byte>, b: seq<byte>)
    requires |a| == |b| == 2 && De16(a) == De16(b)
    ensures a == b
  {
    assert a[0] == b[0] && a[1] == b[1];
  }

  lemma {:induction false} De32Injective(a: seq<byte>, b: seq<byte>)
    requires |a| == |b| == 4 && De32(a) == De32(b)
    ensures a == b
  {
    De16Injective(a[..2], b[..2]);
    De16Injective(a[2..], b[2..]);
    assert a == a[..2] + a[2..] && b == b[..2] + b[2..];
  }

  /** Two 8-byte fields with the same value are the same bytes. */
  lemma {:induction false} De64Injective(a: seq<byte>, b: seq<byte>)
    requires |a| == |b| == 8 && De64(a) == De64(b)
    ensures a == b
  {
    De32Injective(a[..4], b[..4]);
    De32Injective(a[4..], b[4..]);
    assert a == a[..4] + a[4..] && b == b[..4] + b[4..];
  }

  lemma {:induction false} Be64De64(s: seq<byte>)
    requires |s| == 8
    ensures Be64(De64(s)) == s
  {
    De64Injective(Be64(De64(s)), s);
  }

  lemma {:induction false} MultipleAtLeast(e: int, d: int)
    requires e >= 1 && d > 0
    ensures e * d >= d
  {
    if e > 1 {
      MultipleAtLeast(e - 1, d);
      assert e * d == (e - 1) * d + d;
    }
  }

  lemma {:induction false} QuotientUnique(v: int, d: int, q: int, r: int)
    requires v == q * d + r && 0 <= r < d
    ensures v / d == q
  {
    var x, m := v / d, v % d;
    assert x * d + m == v;
    assert (x - q) * d == r - m && (q - x) * d == m - r;
    if x > q {
      MultipleAtLeast(x - q, d);
    } else if x < q {
      MultipleAtLeast(q - x, d);
    }
  }

  /** The byte that a shift by `d` and a mask cut out of `v`. */
  lemma {:induction false} Digit(v: int, d: int, q: int, s: byte, r: int)
    requires v == (q * 0x100 + s) * d + r && 0 <= r < d
    ensures v / d % 0x100 == s
  {
    QuotientUnique(v, d, q * 0x100 + s, r);
  }

  /** The eight shift-and-mask bytes of kcn_buf_put64 are the big-endian image. */
  lemma {:induction false} Be64Bytes(v: u64)
    ensures Be64(v) == [v / 0x100_0000_0000_0000 % 0x100, v / 0x1_0000_0000_0000 % 0x100,
                        v / 0x100_0000_0000 % 0x100, v / 0x1_0000_0000 % 0x100,
                        v / 0x100_0000 % 0x100, v / 0x1_0000 % 0x100,
                        v / 0x100 % 0x100, v % 0x100]
  {
    var s := Be64(v);
    De64Bytes(s);
    var q1: int := s[0];
    var q2 := q1 * 0x100 + s[1];
    var q3 := q2 * 0x100 + s[2];
    var q4 := q3 * 0x100 + s[3];
    var q5 := q4 * 0x100 + s[4];
    var q6 := q5 * 0x100 + s[5];
    var q7 := q6 * 0x100 + s[6];
    var r7: int := s[7];
    var r6 := s[6] as int * 0x100 + r7;
    var r5 := s[5] as int * 0x1_0000 + r6;
    var r4 := s[4] as int * 0x100_0000 + r5;
    var r3 := s[3] as int * 0x1_0000_0000 + r4;
    var r2 := s[2] as int * 0x100_0000_0000 + r3;
    var r1 := s[1] as int * 0x1_0000_0000_0000 + r2;
    Digit(v, 0x100_0000_0000_0000, 0, s[0], r1);
    Digit(v, 0x1_0000_0000_0000, q1, s[1], r2);
    Digit(v, 0x100_0000_0000, q2, s[2], r3);
    Digit(v, 0x1_0000_0000, q3, s[3], r4);
    Digit(v, 0x100_0000, q4, s[4], r5);
    Digit(v, 0x1_0000, q5, s[5], r6);
    Digit(v, 0x100, q6, s[6], r7);
    Digit(v, 1, q7, s[7], 0);
  }

  /** The eight-byte sum of kcn_buf_get64. */
  lemma {:induction false} De64Bytes(s: seq<byte>)
    requires |s| == 8
    ensures De64(s) == s[0] as int * 0x100_0000_0000_0000 + s[1] as int * 0x1_0000_0000_0000
                       + s[2] as int * 0x100_0000_0000 + s[3] as int * 0x1_0000_0000
                       + s[4] as int * 0x100_0000 + s[5] as int * 0x1_0000 + s[6] as int * 0x100 + s[7]
  {
    assert De32(s[..4]) == s[0] as int * 0x100_0000 + s[1] as int * 0x1_0000 + s[2] as int * 0x100 + s[3];
    assert De32(s[4..]) == s[4] as int * 0x100_0000 + s[5] as int * 0x1_0000 + s[6] as int * 0x100 + s[7];
  }

  /** A signed time stored in an unsigned 64-bit field. */
  function ToU64(t: i64): u64 {
    if t < 0 then t + 0x1_0000_0000_0000_0000 else t
  }

  /** Reading that field back into a signed time. */
  function ToI64(v: u64): (t: i64)
    ensures ToU64(t) == v
  {
    if v < 0x8000_0000_0000_0000 then v else v - 0x1_0000_0000_0000_0000
  }

  lemma {:induction false} SignedRoundTrip(t: i64)
    ensures ToI64(ToU64(t)) == t
  {
  }

  /** `p` laid over `s` from `off` on, extending `s` when it runs past the end. */
  function Splice(s: seq<byte>, off: nat, p: seq<byte>): (r: seq<byte>)
    requires off <= |s|
    ensures |r| == if off + |p| <= |s| then |s| else off + |p|
  {
    var n := if off + |p| <= |s| then |s| else off + |p|;
    seq(n, k requires 0 <= k < n => if off <= k < off + |p| then p[k - off] else s[k])
  }

  lemma {:induction false} SpliceAtEnd(s: seq<byte>, p: seq<byte>)
    ensures Splice(s, |s|, p) == s + p
  {
  }

  lemma {:induction false} SpliceSplice(s: seq<byte>, off: nat, p: seq<byte>, q: seq<byte>)
    requires off <= |s|
    ensures Splice(Splice(s, off, p), off + |p|, q) == Splice(s, off, p + q)
  {
  }

  lemma {:induction false} SliceLeft<T>(a: seq<T>, b: seq<T>, lo: nat, hi: nat)
    requires lo <= hi <= |a|
    ensures (a + b)[lo..hi] == a[lo..hi]
  {
  }

  lemma {:induction false} SubSlice<T>(s: seq<T>, x: nat, y: nat, lo: nat, hi: nat)
    requires x <= y <= |s| && lo <= hi <= y - x
    ensures s[x..y][lo..hi] == s[x + lo..x + hi]
  {
    var a, b := s[x..y][lo..hi], s[x + lo..x + hi];
    assert forall k :: 0 <= k < hi - lo ==> a[k] == b[k];
  }

  lemma {:induction false} TailSlice<T>(s: seq<T>, x: nat, lo: nat, hi: nat)
    requires lo <= hi && x + hi <= |s|
    ensures s[x..][lo..hi] == s[x + lo..x + hi]
  {
    var a, b := s[x..][lo..hi], s[x + lo..x + hi];
    assert forall k :: 0 <= k < hi - lo ==> a[k] == b[k];
  }

  lemma {:induction false} CutTail<T>(s: seq<T>, x: nat, n: nat)
    requires x + n <= |s|
    ensures s[x..][n..] == s[x + n..] && s[x..][..n] == s[x..x + n]
  {
  }

  lemma {:induction false} ThreeParts<T>(a: seq<T>, p: seq<T>, q: seq<T>, r: seq<T>)
    ensures (a + (p + q + r))[|a|..|a| + |p|] == p
    ensures (a + (p + q + r))[|a| + |p|..|a| + |p| + |q|] == q
    ensures (a + (p + q + r))[|a| + |p| + |q|..|a| + |p| + |q| + |r|] == r
  {
  }

  /** A slice that a splice does not touch. */
  lemma {:induction false} SliceOutside(s: seq<byte>, off: nat, p: seq<byte>, lo: nat, hi: nat)
    requires off <= |s| && lo <= hi <= |s|
    requires hi <= off || off + |p| <= lo
    ensures Splice(s, off, p)[lo..hi] == s[lo..hi]
  {
    var t := Splice(s, off, p);
    assert forall k :: lo <= k < hi ==> t[k] == s[k];
  }

  lemma {:induction false} SliceInside(s: seq<byte>, off: nat, p: seq<byte>)
    requires off <= |s|
    ensures Splice(s, off, p)[off..off + |p|] == p
  {
    var t := Splice(s, off, p);
    assert forall k :: 0 <= k < |p| ==> t[off + k] == p[k];
  }

  function Concat<T>(ss: seq<seq<T>>): seq<T> {
    if ss == [] then [] else ss[0] + Concat(ss[1..])
  }

  lemma {:induction false} ConcatCons<T>(x: seq<T>, ss: seq<seq<T>>)
    ensures Concat([x] + ss) == x + Concat(ss)
  {
    assert ([x] + ss)[1..] == ss;
  }

  lemma {:induction false} Regroup<T>(a: seq<T>, b: seq<T>, c: seq<T>)
    ensures (a + b) + c == a + (b + c)
  {
  }

  lemma {:induction false} SplitAt<T>(s: seq<T>, n: nat)
    requires n <= |s|
    ensures s == s[..n] + s[n..]
  {
  }

  lemma {:induction false} HeadTail<T>(s: seq<T>)
    requires s != []
    ensures s == [s[0]] + s[1..]
  {
  }

  lemma {:induction false} FrontLast<T>(s: seq<T>)
    requires s != []
    ensures s == s[..|s| - 1] + [s[|s| - 1]]
  {
  }

  lemma {:induction false} ConcatAppend<T>(a: seq<seq<T>>, b: seq<seq<T>>)
    ensures Concat(a + b) == Concat(a) + Concat(b)
  {
    if a == [] {
      assert a + b == b;
    } else {
      hide Concat;
      HeadTail(a);
      Regroup([a[0]], a[1..], b);
      ConcatAppend(a[1..], b);
      ConcatCons(a[0], a[1..]);
      ConcatCons(a[0], a[1..] + b);
      Regroup(a[0], Concat(a[1..]), Concat(b));
    }
  }
}

/** The characters the modelled code names. */
module Ascii {
  import opened Bytes

  const TAB: byte := 9
  const CARRIAGE_RETURN: byte := 13
  const SPACE: byte := 32
  const PERCENT: byte := 37
  const AMPERSAND: byte := 38
  const PLUS: byte := 43
  const MINUS: byte := 45
  const DOT: byte := 46
  const ZERO: byte := 48
  const NINE: byte := 57
  const EQUALS: byte := 61
  const UPPER_A: byte := 65
  const UPPER_F: byte := 70
  const UPPER_Z: byte := 90
  const UNDERSCORE: byte := 95
  const LOWER_A: byte := 97
  const LOWER_Z: byte := 122
  const TILDE: byte := 126
}
