/** The locator file of kcndbd/kcndb_db.c: 256 big-endian slots, then chained entries
    `len16 | bytes | next64`. `Rep` ties its bytes to the list of entries in file order. */
module LocIndex {
  import opened Bytes

  const HASHSIZ := 256
  const TABLESIZ := 2048

  /** djb2 over an unsigned int, lib/kcn_str.c. */
  function Djb2(s: seq<byte>): u32 {
    if s == [] then 5381
    else (Djb2(s[..|s| - 1]) as int * 33 + s[|s| - 1]) % 0x1_0000_0000
  }

  function Hash(s: seq<byte>): (h: nat)
    ensures h < HASHSIZ
  {
    (Djb2(s) as int + Djb2(s) / 32) % 0x1_0000_0000 % HASHSIZ
  }

  lemma {:induction false} WholeTurns(x: int, q: int)
    ensures (x + q * 0x1_0000_0000) % 0x1_0000_0000 == x % 0x1_0000_0000
  {
  }

  lemma {:induction false} Wraps(a: int, b: int)
    ensures (a % 0x1_0000_0000 + b) % 0x1_0000_0000 == (a + b) % 0x1_0000_0000
  {
    var q, r := a / 0x1_0000_0000, a % 0x1_0000_0000;
    WholeTurns(r + b, q);
  }

  lemma {:induction false} ShiftWraps(h: u32, c: byte)
    ensures ((h as int * 32) % 0x1_0000_0000 + h + c) % 0x1_0000_0000 == (h as int * 33 + c) % 0x1_0000_0000
  {
    Wraps(h as int * 32, h as int + c);
  }

  function Pow33(n: nat): nat {
    if n == 0 then 1 else 33 * Pow33(n - 1)
  }

  /** The bytes of `s` as the digits of a number in base 33, the first one highest. */
  function Base33(s: seq<byte>): nat {
    if s == [] then 0 else s[0] as int * Pow33(|s| - 1) + Base33(s[1..])
  }

  /** The hash of a locator of any length as one sum: 5381 stands in front of its digits; the fold
      by five bits is on 32 bits. */
  lemma {:induction false} HashClosed(s: seq<byte>)
    ensures var x := (5381 * Pow33(|s|) + Base33(s)) % 0x1_0000_0000;
            Djb2(s) == x && Hash(s) == (x + x / 32) % 0x1_0000_0000 % 256
  {
    Djb2Closed(s);
  }

  lemma {:induction false} Djb2Closed(s: seq<byte>)
    ensures Djb2(s) == (5381 * Pow33(|s|) + Base33(s)) % 0x1_0000_0000
  {
    if s != [] {
      var n := |s| - 1;
      Djb2Closed(s[..n]);
      Base33Snoc(s);
      WrapsTimes(5381 * Pow33(n) + Base33(s[..n]), s[n]);
    }
  }

  lemma {:induction false} WrapsTimes(a: nat, c: byte)
    ensures (a % 0x1_0000_0000 * 33 + c) % 0x1_0000_0000 == (a * 33 + c) % 0x1_0000_0000
  {
    var q, r := a / 0x1_0000_0000, a % 0x1_0000_0000;
    WholeTurns(r * 33 + c, q * 33);
  }

  lemma {:induction false} Base33Snoc(s: seq<byte>)
    requires s != []
    ensures Base33(s) == 33 * Base33(s[..|s| - 1]) + s[|s| - 1]
    decreases |s|
  {
    var n := |s| - 1;
    if n > 0 {
      Base33Snoc(s[1..]);
      assert s[1..][..n - 1] == s[..n][1..];
      var d, p: int := s[0], Pow33(n - 1);
      assert d * (33 * p) == 33 * (d * p);
    }
  }

  method StrHash(s: seq<byte>) returns (r: nat)
    ensures r == Hash(s)
  {
    var h: u32, i := 5381, 0;
    while i < |s|
      invariant 0 <= i <= |s| && h == Djb2(s[..i])
    {
      assert s[..i + 1][..i] == s[..i];
      ShiftWraps(h, s[i]);
      h := ((h as int * 32) % 0x1_0000_0000 + h + s[i]) % 0x1_0000_0000;
      i := i + 1;
    }
    assert s[..i] == s;
    r := (h as int + h / 32) % 0x1_0000_0000 % HASHSIZ;
  }

  /** strncmp(a, b, n) == 0 on n bytes of each: a common NUL ends the comparison. */
  predicate StrncmpEqual(a: seq<byte>, b: seq<byte>)
    requires |a| == |b|
  {
    a == [] || (a[0] == b[0] && (a[0] == 0 || StrncmpEqual(a[1..], b[1..])))
  }

  /** The comparison at kcndbd/kcndb_db.c:294-295. */
  predicate Same(a: seq<byte>, b: seq<byte>) {
    |a| == |b| && StrncmpEqual(a, b)
  }

  predicate NoNul(s: seq<byte>) {
    forall k :: 0 <= k < |s| ==> s[k] != 0
  }

  lemma {:induction false} SameReflexive(a: seq<byte>)
    ensures Same(a, a)
  {
    if a != [] {
      SameReflexive(a[1..]);
    }
  }

  /** Without a NUL the comparison is equality of bytes. */
  lemma {:induction false} SameIsEqual(a: seq<byte>, b: seq<byte>)
    requires NoNul(a) || NoNul(b)
    ensures Same(a, b) <==> a == b
  {
    if a == b {
      SameReflexive(a);
    } else if a != [] && |a| == |b| && a[0] == b[0] && a[0] != 0 {
      SameIsEqual(a[1..], b[1..]);
      assert a == [a[0]] + a[1..] && b == [b[0]] + b[1..];
    }
  }

  /** Different locators of one length that agree up to and including a NUL. */
  predicate NulTwin(a: seq<byte>, b: seq<byte>) {
    |a| == |b| && a != b && exists k :: 0 <= k < |a| && a[k] == b[k] == 0 && a[..k] == b[..k]
  }

  lemma {:induction false} AgreeToNul(a: seq<byte>, b: seq<byte>, k: nat)
    requires k < |a| == |b| && a[k] == b[k] == 0 && a[..k] == b[..k]
    ensures StrncmpEqual(a, b)
  {
    if k > 0 {
      assert a[0] == a[..k][0] == b[..k][0] == b[0];
      assert a[1..][..k - 1] == a[..k][1..] && b[1..][..k - 1] == b[..k][1..];
      AgreeToNul(a[1..], b[1..], k - 1);
    }
  }

  /** Exactly the locators the comparison takes for equal. */
  lemma {:induction false} SameExact(a: seq<byte>, b: seq<byte>)
    ensures Same(a, b) <==> a == b || NulTwin(a, b)
  {
    if a == b {
      SameReflexive(a);
    } else if NulTwin(a, b) {
      var k :| 0 <= k < |a| && a[k] == b[k] == 0 && a[..k] == b[..k];
      AgreeToNul(a, b, k);
    } else if Same(a, b) {
      SameTails(a, b);
    }
  }

  lemma {:induction false} SameTails(a: seq<byte>, b: seq<byte>)
    requires Same(a, b)
    ensures a == b || NulTwin(a, b)
    decreases |a|
  {
    if a != [] && a != b {
      if a[0] == 0 {
        assert a[..0] == b[..0];
      } else {
        SameTails(a[1..], b[1..]);
        assert a == [a[0]] + a[1..] && b == [b[0]] + b[1..];
        var k :| 0 <= k < |a| - 1 && a[1..][k] == b[1..][k] == 0 && a[1..][..k] == b[1..][..k];
        assert a[..k + 1] == [a[0]] + a[1..][..k] && b[..k + 1] == [b[0]] + b[1..][..k];
        assert a[k + 1] == b[k + 1] == 0;
      }
    }
  }

  /** An entry of the file; `linked` once a slot or another entry points to it. */
  datatype Item = Item(loc: seq<byte>, linked: bool)

  function Grow(items: seq<Item>, loc: seq<byte>, linked: bool): (r: seq<Item>)
    ensures |r| == |items| + 1 && r[|items|] == Item(loc, linked)
    ensures forall k :: 0 <= k < |items| ==> r[k] == items[k]
  {
    items + [Item(loc, linked)]
  }

  predicate Match(it: Item, h: nat) {
    it.linked && Hash(it.loc) == h
  }

  function Size(it: Item): nat {
    2 + |it.loc| + 8
  }

  function Off(items: seq<Item>, i: nat): (o: nat)
    requires i <= |items|
    ensures o >= TABLESIZ
  {
    if i == 0 then TABLESIZ else Off(items, i - 1) + Size(items[i - 1])
  }

  /** The first entry of bucket `h` at position i or later; |items| when there is none. */
  function FirstIn(items: seq<Item>, h: nat, i: nat): (r: nat)
    requires i <= |items|
    ensures i <= r <= |items|
    ensures r < |items| ==> Match(items[r], h)
    ensures forall k :: i <= k < r ==> !Match(items[k], h)
    decreases |items| - i
  {
    if i == |items| || Match(items[i], h) then i else FirstIn(items, h, i + 1)
  }

  /** The last entry of bucket `h`; -1 when the bucket is empty. */
  function LastIn(items: seq<Item>, h: nat, i: nat := |items|): (r: int)
    requires i <= |items|
    ensures -1 <= r < i
    ensures r >= 0 ==> Match(items[r], h)
    ensures forall k :: r < k < i ==> !Match(items[k], h)
  {
    if i == 0 then -1 else if Match(items[i - 1], h) then i - 1 else LastIn(items, h, i - 1)
  }

  function Pointer(items: seq<Item>, h: nat, i: nat): nat
    requires i <= |items|
  {
    var j := FirstIn(items, h, i);
    if j < |items| then Off(items, j) else 0
  }

  function NextOf(items: seq<Item>, i: nat): nat
    requires i < |items|
  {
    if items[i].linked then Pointer(items, Hash(items[i].loc), i + 1) else 0
  }

  function NextField(items: seq<Item>, i: nat): nat
    requires i < |items|
  {
    Off(items, i) + 2 + |items[i].loc|
  }

  /** Where the pointer ending the chain of bucket `h` is stored. */
  function TailField(items: seq<Item>, h: nat): nat {
    var j := LastIn(items, h);
    if j < 0 then 8 * h else NextField(items, j)
  }

  function Entry(loc: seq<byte>): (s: seq<byte>)
    requires |loc| < 0x1_0000
    ensures |s| == 2 + |loc| + 8
  {
    Be16(|loc|) + loc + Be64(0)
  }

  ghost predicate Holds64(f: seq<byte>, off: nat, v: int) {
    off + 8 <= |f| && De64(f[off..off + 8]) == v
  }

  ghost predicate SlotOk(f: seq<byte>, items: seq<Item>, h: nat) {
    Holds64(f, 8 * h, Pointer(items, h, 0))
  }

  ghost predicate EntryOk(f: seq<byte>, items: seq<Item>, i: nat)
    requires i < |items|
  {
    var o, n := Off(items, i), |items[i].loc|;
    && o + 2 + n + 8 <= |f|
    && De16(f[o..o + 2]) == n
    && f[o + 2..o + 2 + n] == items[i].loc
    && Holds64(f, o + 2 + n, NextOf(items, i))
  }

  /** The file is the slot table followed by exactly these whole entries, and every slot and
      next field points to the next entry of its bucket, or is zero. */
  ghost predicate Rep(f: seq<byte>, items: seq<Item>) {
    && |f| == Off(items, |items|)
    && (forall h :: 0 <= h < HASHSIZ ==> SlotOk(f, items, h))
    && (forall i :: 0 <= i < |items| ==> EntryOk(f, items, i))
  }

  lemma {:induction false} OffMonotone(items: seq<Item>, i: nat, j: nat)
    requires i < j <= |items|
    ensures Off(items, i) + Size(items[i]) <= Off(items, j)
  {
    if i + 1 < j {
      OffMonotone(items, i, j - 1);
    }
  }

  lemma {:induction false} OffFrame(a: seq<Item>, b: seq<Item>, i: nat)
    requires i <= |a| && i <= |b|
    requires forall k :: 0 <= k < i ==> a[k].loc == b[k].loc
    ensures Off(a, i) == Off(b, i)
  {
    if i > 0 {
      OffFrame(a, b, i - 1);
    }
  }

  /** An appended entry that nothing points to leaves every pointer as it was. */
  lemma {:induction false} OrphanPointer(items: seq<Item>, loc: seq<byte>, h: nat, i: nat)
    requires i <= |items|
    ensures Pointer(Grow(items, loc, false), h, i) == Pointer(items, h, i)
  {
    var more := Grow(items, loc, false);
    var j, k := FirstIn(items, h, i), FirstIn(more, h, i);
    assert forall m :: 0 <= m < |items| ==> more[m] == items[m];
    assert !Match(more[|items|], h);
    if j < |items| {
      assert j == k;
      OffFrame(items, more, j);
    }
  }

  /** Linking the last entry changes exactly the pointers that ended its own bucket. */
  lemma {:induction false} LinkedPointer(items: seq<Item>, loc: seq<byte>, h: nat, i: nat)
    requires i <= |items|
    ensures Pointer(Grow(items, loc, true), h, i) ==
            if h == Hash(loc) && Pointer(items, h, i) == 0 then Off(items, |items|) else Pointer(items, h, i)
  {
    var more := Grow(items, loc, true);
    var j, k := FirstIn(items, h, i), FirstIn(more, h, i);
    assert forall m :: 0 <= m < |items| ==> more[m] == items[m];
    if j < |items| {
      assert j == k;
      OffFrame(items, more, j);
    } else {
      OffFrame(items, more, |items|);
      assert Match(more[|items|], h) <==> h == Hash(loc);
      assert k == if h == Hash(loc) then |items| else |more|;
    }
  }

  /** Write 1 of an add: the entry is complete, with a zero next field, before it is linked. */
  lemma {:induction false} AppendKeepsRep(f: seq<byte>, items: seq<Item>, loc: seq<byte>)
    requires Rep(f, items) && |loc| < 0x1_0000
    ensures Rep(f + Entry(loc), Grow(items, loc, false))
  {
    hide Be16, Be64, De16, De64;
    var more, g := Grow(items, loc, false), f + Entry(loc);
    OffFrame(items, more, |items|);
    OffMonotone(more, 0, |more|);
    forall h | 0 <= h < HASHSIZ ensures SlotOk(g, more, h) {
      assert SlotOk(f, items, h);
      OrphanPointer(items, loc, h, 0);
      SliceLeft(f, Entry(loc), 8 * h, 8 * h + 8);
    }
    forall i | 0 <= i < |more| ensures EntryOk(g, more, i) {
      if i < |items| {
        AppendEntryFrame(f, items, loc, i);
      } else {
        LastEntry(f, items, loc);
      }
    }
  }

  lemma {:induction false} AppendEntryFrame(f: seq<byte>, items: seq<Item>, loc: seq<byte>, i: nat)
    requires i < |items| && EntryOk(f, items, i) && |loc| < 0x1_0000
    ensures EntryOk(f + Entry(loc), Grow(items, loc, false), i)
  {
    hide Be16, Be64, De16, De64;
    var more, g := Grow(items, loc, false), f + Entry(loc);
    var o, n := Off(items, i), |items[i].loc|;
    OffFrame(items, more, i);
    OrphanPointer(items, loc, Hash(items[i].loc), i + 1);
    SliceLeft(f, Entry(loc), o, o + 2);
    SliceLeft(f, Entry(loc), o + 2, o + 2 + n);
    SliceLeft(f, Entry(loc), o + 2 + n, o + 2 + n + 8);
  }

  lemma {:induction false} EntryParts(f: seq<byte>, loc: seq<byte>)
    requires |loc| < 0x1_0000
    ensures var g, o, n := f + Entry(loc), |f|, |loc|;
            && |g| == o + 2 + n + 8
            && g[o..o + 2] == Be16(n) && g[o + 2..o + 2 + n] == loc && g[o + 2 + n..o + 2 + n + 8] == Be64(0)
  {
    hide Be16, Be64, De16, De64;
    var p, r := Be16(|loc|), Be64(0);
    ThreeParts(f, p, loc, r);
    assert Entry(loc) == p + loc + r;
  }

  lemma {:induction false} LastEntry(f: seq<byte>, items: seq<Item>, loc: seq<byte>)
    requires |f| == Off(items, |items|) && |loc| < 0x1_0000
    ensures EntryOk(f + Entry(loc), Grow(items, loc, false), |items|)
  {
    hide Be16, Be64, De16, De64;
    var more := Grow(items, loc, false);
    OffFrame(items, more, |items|);
    EntryParts(f, loc);
    OrphanEntryOk(f + Entry(loc), more, |items|, |f|, |loc|);
  }

  lemma {:induction false} OrphanEntryOk(g: seq<byte>, items: seq<Item>, i: nat, o: nat, n: nat)
    requires i < |items| && o == Off(items, i) && !items[i].linked && n == |items[i].loc| < 0x1_0000
    requires o + 2 + n + 8 <= |g|
    requires g[o..o + 2] == Be16(n) && g[o + 2..o + 2 + n] == items[i].loc
    requires g[o + 2 + n..o + 2 + n + 8] == Be64(0)
    ensures EntryOk(g, items, i)
  {
    hide Be16, Be64, De16, De64;
  }

  lemma {:induction false} TailPlace(items: seq<Item>, h: nat)
    requires h < HASHSIZ
    ensures TailField(items, h) + 8 <= Off(items, |items|)
    ensures TailField(items, h) == 8 * h || TailField(items, h) >= TABLESIZ
  {
    var j := LastIn(items, h);
    if j >= 0 {
      OffMonotone(items, j, j + 1);
      if j + 1 < |items| {
        OffMonotone(items, j + 1, |items|);
      }
    }
  }

  /** Splicing the tail field of bucket `h` touches no byte of entry i but, for the last entry
      of that bucket, its next field. */
  lemma {:induction false} TailMissesEntry(items: seq<Item>, h: nat, i: nat)
    requires h < HASHSIZ && i < |items|
    ensures var t, o, n := TailField(items, h), Off(items, i), NextField(items, i);
            && (t + 8 <= o || n <= t)
            && (i != LastIn(items, h) ==> t + 8 <= n || n + 8 <= t)
            && (i == LastIn(items, h) ==> n == t)
  {
    var j := LastIn(items, h);
    if 0 <= j < i {
      OffMonotone(items, j, i);
    } else if i < j {
      OffMonotone(items, i, j);
    }
  }

  /** A pointer of bucket `h` is the null that ends the chain exactly past the last entry. */
  lemma {:induction false} NullPastLast(items: seq<Item>, h: nat, i: nat)
    requires i <= |items|
    ensures Pointer(items, h, i) == 0 <==> i > LastIn(items, h)
  {
  }

  /** `g` is `f` with one 8-byte field at `t` overwritten by the value `v`. */
  ghost predicate Patched(f: seq<byte>, g: seq<byte>, t: nat, v: int) {
    && |g| == |f| && Holds64(g, t, v)
    && forall lo, hi :: 0 <= lo <= hi <= |f| && (hi <= t || t + 8 <= lo) ==> g[lo..hi] == f[lo..hi]
  }

  lemma {:induction false} SplicePatches(f: seq<byte>, t: nat, v: u64)
    requires t + 8 <= |f|
    ensures Patched(f, Splice(f, t, Be64(v)), t, v)
  {
    hide Be16, Be64, De16, De64;
    var p := Be64(v);
    SliceInside(f, t, p);
    forall lo, hi | 0 <= lo <= hi <= |f| && (hi <= t || t + 8 <= lo)
      ensures Splice(f, t, p)[lo..hi] == f[lo..hi]
    {
      SliceOutside(f, t, p, lo, hi);
    }
  }

  /** A 64-bit field after a patch that hits it squarely or not at all. */
  lemma {:induction false} PatchedField(f: seq<byte>, g: seq<byte>, t: nat, v: int, off: nat, w: int)
    requires Patched(f, g, t, v) && Holds64(f, off, w)
    requires t == off || t + 8 <= off || off + 8 <= t
    ensures Holds64(g, off, if t == off then v else w)
  {
  }

  lemma {:induction false} LinkedSlot(f: seq<byte>, items: seq<Item>, loc: seq<byte>, h: nat, g: seq<byte>)
    requires h < HASHSIZ && SlotOk(f, Grow(items, loc, false), h)
    requires Patched(f, g, TailField(items, Hash(loc)), Off(items, |items|))
    ensures SlotOk(g, Grow(items, loc, true), h)
  {
    hide Be16, Be64, De16, De64;
    var t, v := TailField(items, Hash(loc)), Pointer(items, h, 0);
    TailPlace(items, Hash(loc));
    OrphanPointer(items, loc, h, 0);
    LinkedPointer(items, loc, h, 0);
    NullPastLast(items, h, 0);
    assert t == 8 * h <==> h == Hash(loc) && v == 0;
    PatchedField(f, g, t, Off(items, |items|), 8 * h, v);
  }

  lemma {:induction false} LinkedNext(items: seq<Item>, loc: seq<byte>, i: nat)
    requires i < |items|
    ensures NextOf(Grow(items, loc, true), i) ==
            if i == LastIn(items, Hash(loc)) then Off(items, |items|) else NextOf(Grow(items, loc, false), i)
  {
    var h := Hash(items[i].loc);
    OrphanPointer(items, loc, h, i + 1);
    LinkedPointer(items, loc, h, i + 1);
    NullPastLast(items, h, i + 1);
  }

  lemma {:induction false} LinkedEntryPlace(items: seq<Item>, loc: seq<byte>, i: nat)
    requires i <= |items|
    ensures var old', new', t := Grow(items, loc, false), Grow(items, loc, true), TailField(items, Hash(loc));
            var o := Off(old', i);
            var n := o + 2 + |old'[i].loc|;
            && Off(new', i) == o && new'[i].loc == old'[i].loc
            && t <= Off(items, |items|) && (t + 8 <= o || n <= t)
            && (t == n || t + 8 <= n || n + 8 <= t)
            && NextOf(new', i) == if t == n then Off(items, |items|) else NextOf(old', i)
  {
    var old', new' := Grow(items, loc, false), Grow(items, loc, true);
    TailPlace(items, Hash(loc));
    OffFrame(old', new', i);
    OffFrame(items, new', i);
    if i < |items| {
      assert old'[i] == items[i] && new'[i] == items[i];
      TailMissesEntry(items, Hash(loc), i);
      LinkedNext(items, loc, i);
    } else {
      assert old'[i] == Item(loc, false) && new'[i] == Item(loc, true);
    }
  }

  lemma {:induction false} LinkedEntry(f: seq<byte>, items: seq<Item>, loc: seq<byte>, i: nat, g: seq<byte>)
    requires i <= |items| && EntryOk(f, Grow(items, loc, false), i)
    requires Patched(f, g, TailField(items, Hash(loc)), Off(items, |items|))
    ensures EntryOk(g, Grow(items, loc, true), i)
  {
    hide Be16, Be64, De16, De64;
    var old', new', t := Grow(items, loc, false), Grow(items, loc, true), TailField(items, Hash(loc));
    var o, n := Off(old', i), |old'[i].loc|;
    LinkedEntryPlace(items, loc, i);
    EntryFields(f, old', i);
    PatchedField(f, g, t, Off(items, |items|), o + 2 + n, NextOf(old', i));
    PatchedSlice(f, g, t, Off(items, |items|), o, o + 2);
    PatchedSlice(f, g, t, Off(items, |items|), o + 2, o + 2 + n);
    EntryFrame(f, g, old', new', i);
  }

  lemma {:induction false} PatchedSlice(f: seq<byte>, g: seq<byte>, t: nat, v: int, lo: nat, hi: nat)
    requires Patched(f, g, t, v) && lo <= hi <= |f| && (hi <= t || t + 8 <= lo)
    ensures |g| == |f| && g[lo..hi] == f[lo..hi]
  {
  }

  lemma {:induction false} EntryFrame(f: seq<byte>, g: seq<byte>, a: seq<Item>, b: seq<Item>, i: nat)
    requires i < |a| && i < |b| && EntryOk(f, a, i)
    requires a[i].loc == b[i].loc && Off(a, i) == Off(b, i)
    requires var o, n := Off(a, i), |a[i].loc|;
             && o + 2 + n + 8 <= |g|
             && f[o..o + 2] == g[o..o + 2] && f[o + 2..o + 2 + n] == g[o + 2..o + 2 + n]
             && Holds64(g, o + 2 + n, NextOf(b, i))
    ensures EntryOk(g, b, i)
  {
    hide Be16, Be64, De16, De64;
  }

  /** Write 2 of an add: the entry becomes reachable, and nothing else changes. */
  lemma {:induction false} LinkKeepsRep(f: seq<byte>, items: seq<Item>, loc: seq<byte>)
    requires Rep(f, Grow(items, loc, false)) && |f| < 0x1_0000_0000_0000_0000
    ensures Off(items, |items|) < |f| && TailField(items, Hash(loc)) + 8 <= |f|
    ensures Rep(Splice(f, TailField(items, Hash(loc)), Be64(Off(items, |items|))), Grow(items, loc, true))
  {
    hide Be16, Be64, De16, De64;
    var old', new' := Grow(items, loc, false), Grow(items, loc, true);
    TailPlace(items, Hash(loc));
    OffFrame(items, old', |items|);
    OffFrame(items, new', |items|);
    var g := Splice(f, TailField(items, Hash(loc)), Be64(Off(items, |items|)));
    SplicePatches(f, TailField(items, Hash(loc)), Off(items, |items|));
    PatchedRep(f, items, loc, g);
  }

  lemma {:induction false} PatchedRep(f: seq<byte>, items: seq<Item>, loc: seq<byte>, g: seq<byte>)
    requires Rep(f, Grow(items, loc, false)) && Patched(f, g, TailField(items, Hash(loc)), Off(items, |items|))
    ensures Rep(g, Grow(items, loc, true))
  {
    hide Be16, Be64, De16, De64;
    var old', new' := Grow(items, loc, false), Grow(items, loc, true);
    OffFrame(items, old', |items|);
    OffFrame(items, new', |items|);
    PatchedSlice(f, g, TailField(items, Hash(loc)), Off(items, |items|), 0, 0);
    forall h | 0 <= h < HASHSIZ ensures SlotOk(g, new', h) {
      assert SlotOk(f, old', h);
      LinkedSlot(f, items, loc, h, g);
    }
    forall i | 0 <= i < |new'| ensures EntryOk(g, new', i) {
      assert EntryOk(f, old', i);
      LinkedEntry(f, items, loc, i, g);
    }
  }

  /** The field an add links to; kcndb_db.c:300 computes it without the base of the last entry. */
  function LinkField(items: seq<Item>, h: nat, addBase: bool): nat {
    var j := LastIn(items, h);
    if j < 0 then 8 * h else (if addBase then Off(items, j) else 0) + 2 + |items[j].loc|
  }

  lemma {:induction false} EntryFields(f: seq<byte>, items: seq<Item>, i: nat)
    requires i < |items| && EntryOk(f, items, i)
    ensures NextField(items, i) + 8 <= |f| && Holds64(f, NextField(items, i), NextOf(items, i))
  {
    hide De16, De64;
  }

  lemma {:induction false} TailNull(items: seq<Item>, loc: seq<byte>)
    requires LastIn(items, Hash(loc)) >= 0
    ensures NextOf(Grow(items, loc, false), LastIn(items, Hash(loc))) == 0
  {
    var j := LastIn(items, Hash(loc));
    OrphanPointer(items, loc, Hash(loc), j + 1);
    NullPastLast(items, Hash(loc), j + 1);
  }

  /** Linking as written adds the locator to the index exactly when its bucket was empty. */
  lemma {:induction false} LinkAsWrittenExact(f: seq<byte>, items: seq<Item>, loc: seq<byte>, g: seq<byte>)
    requires Rep(f, Grow(items, loc, false))
    requires Patched(f, g, LinkField(items, Hash(loc), false), Off(items, |items|))
    ensures Rep(g, Grow(items, loc, true)) <==> LastIn(items, Hash(loc)) < 0
  {
    hide De64, De16, Patched;
    var j, t := LastIn(items, Hash(loc)), LinkField(items, Hash(loc), false);
    var old', new' := Grow(items, loc, false), Grow(items, loc, true);
    if j < 0 {
      PatchedRep(f, items, loc, g);
    } else {
      TailNull(items, loc);
      LinkedNext(items, loc, j);
      OffFrame(items, old', j);
      OffFrame(items, new', j);
      assert EntryOk(f, old', j);
      EntryFields(f, old', j);
      PatchedField(f, g, t, Off(items, |items|), NextField(items, j), 0);
      if Rep(g, new') {
        EntryFields(g, new', j);
      }
    }
  }

  /** What a link written at the offset of line 300 spares: when the last locator of its bucket has
      at most 2038 bytes it hits no entry at all, so every search still reports what it should, and
      of the slots only those the eight bytes lie in. */
  lemma {:induction false} LostLinkSpares(f: seq<byte>, items: seq<Item>, loc: seq<byte>, g: seq<byte>)
    requires Rep(f, Grow(items, loc, false)) && LastIn(items, Hash(loc)) >= 0
    requires Patched(f, g, LinkField(items, Hash(loc), false), Off(items, |items|))
    requires |items[LastIn(items, Hash(loc))].loc| + 10 <= TABLESIZ
    ensures var (more, t) := (Grow(items, loc, false), LinkField(items, Hash(loc), false));
            && |g| == Off(more, |more|)
            && (forall i :: 0 <= i < |more| ==> EntryOk(g, more, i))
            && (forall h | 0 <= h < HASHSIZ && (8 * h + 8 <= t || t + 8 <= 8 * h) :: SlotOk(g, more, h))
  {
    hide De64, De16, Hash, Off, LastIn;
    var more, t, v := Grow(items, loc, false), LinkField(items, Hash(loc), false), Off(items, |items|);
    PatchedSlice(f, g, t, v, 0, 0);
    forall i | 0 <= i < |more| ensures EntryOk(g, more, i) {
      RepHas(f, more, i);
      PatchedSlot(f, g, t, v, more, i);
    }
    forall h | 0 <= h < HASHSIZ && (8 * h + 8 <= t || t + 8 <= 8 * h) ensures SlotOk(g, more, h) {
      assert SlotOk(f, more, h);
      PatchedSlice(f, g, t, v, 8 * h, 8 * h + 8);
    }
  }

  lemma {:induction false} PatchedSlot(f: seq<byte>, g: seq<byte>, t: nat, v: int, items: seq<Item>, i: nat)
    requires Patched(f, g, t, v) && t + 8 <= TABLESIZ && i < |items| && EntryOk(f, items, i)
    ensures EntryOk(g, items, i)
  {
    hide De64, De16, Off, Patched, NextOf;
    var o, n := Off(items, i), |items[i].loc|;
    EntryFields(f, items, i);
    PatchedSlice(f, g, t, v, o, o + 2);
    PatchedSlice(f, g, t, v, o + 2, o + 2 + n);
    PatchedSlice(f, g, t, v, o + 2 + n, o + 2 + n + 8);
    EntryFrame(f, g, items, items, i);
  }

  /** Two short locators of one bucket: the second add, as written, is lost. */
  lemma {:induction false} LinkAsWrittenLoses(f: seq<byte>, g: seq<byte>)
    requires Rep(f, Grow([Item([97], true)], [103, 107], false))
    requires Patched(f, g, 2 + 1, TABLESIZ + 11)
    ensures !Rep(g, Grow([Item([97], true)], [103, 107], true))
  {
    hide De64, De16, Patched, Hash, Rep, Off;
    var items, loc: seq<byte> := [Item([97], true)], [103, 107];
    SameBucket();
    assert Match(items[0], Hash(loc)) && LastIn(items, Hash(loc)) == 0;
    ShortOffset(items);
    LinkAsWrittenExact(f, items, loc, g);
  }

  lemma {:induction false} Djb2Two(c: byte, d: byte)
    ensures Djb2([c]) == 177573 + c as int && Djb2([c, d]) == 5859909 + c as int * 33 + d
  {
    assert [c][..0] == [] && [c, d][..1] == [c];
    assert Djb2([c]) == (5381 * 33 + c as int) % 0x1_0000_0000;
    assert Djb2([c, d]) == (Djb2([c]) as int * 33 + d) % 0x1_0000_0000;
  }

  lemma {:induction false} HashOf(s: seq<byte>, v: int, h: nat)
    requires Djb2(s) as int == v && h == (v + v / 32) % 0x1_0000_0000 % HASHSIZ
    ensures Hash(s) == h
  {
    hide Djb2;
  }

  lemma {:induction false} SameBucket()
    ensures Hash([97]) == Hash([103, 107])
  {
    hide Djb2, Hash;
    Djb2Two(97, 0);
    Djb2Two(103, 107);
    HashOf([97], 177670, 182);
    HashOf([103, 107], 5863415, 182);
  }

  lemma {:induction false} ShortOffset(items: seq<Item>)
    requires |items| == 1 && |items[0].loc| == 1
    ensures Off(items, 1) == TABLESIZ + 11
  {
    assert Off(items, 0) == TABLESIZ;
  }

  /** Offsets of the entries met from `p` on, read off the raw bytes, and whether the walk
      ended at a null pointer with every entry whole and every step going forward. */
  function Walk(f: seq<byte>, p: nat): (seq<nat>, bool)
    decreases if p == 0 || p > |f| then 0 else |f| - p + 1
  {
    if p == 0 then ([], true)
    else if p < TABLESIZ || p + 2 > |f| then ([], false)
    else
      var n := De16(f[p..p + 2]);
      if p + 2 + n + 8 > |f| then ([], false)
      else
        var q := De64(f[p + 2 + n..p + 2 + n + 8]);
        if 0 < q <= p then ([p], false)
        else var (c, ok) := Walk(f, q); ([p] + c, ok)
  }

  function LocAt(f: seq<byte>, p: nat): seq<byte> {
    if p + 2 > |f| || p + 2 + De16(f[p..p + 2]) > |f| then []
    else f[p + 2..p + 2 + De16(f[p..p + 2])]
  }

  /** Positions of the entries of bucket `h` from `i` on. */
  function Bucket(items: seq<Item>, h: nat, i: nat): (c: seq<nat>)
    requires i <= |items|
    ensures forall k :: 0 <= k < |c| ==> i <= c[k] < |items| && Match(items[c[k]], h)
    decreases |items| - i
  {
    var j := FirstIn(items, h, i);
    if j == |items| then [] else [j] + Bucket(items, h, j + 1)
  }

  lemma {:induction false} BucketStep(items: seq<Item>, h: nat, i: nat)
    requires i <= |items|
    ensures var j := FirstIn(items, h, i);
            Bucket(items, h, i) == if j == |items| then [] else [j] + Bucket(items, h, j + 1)
  {
    hide FirstIn, Match;
  }

  lemma {:induction false} BucketRises(items: seq<Item>, h: nat, i: nat)
    requires i <= |items|
    ensures var c := Bucket(items, h, i); forall a, b :: 0 <= a < b < |c| ==> c[a] < c[b]
    decreases |items| - i
  {
    hide Match, FirstIn, Bucket;
    var j := FirstIn(items, h, i);
    BucketStep(items, h, i);
    if j < |items| {
      BucketRises(items, h, j + 1);
    }
  }

  lemma {:induction false} BucketHas(items: seq<Item>, h: nat, i: nat, k: nat)
    requires i <= k < |items| && Match(items[k], h)
    ensures k in Bucket(items, h, i)
    decreases |items| - i
  {
    hide Match, FirstIn, Bucket;
    var j := FirstIn(items, h, i);
    BucketStep(items, h, i);
    assert j <= k;
    if j < k {
      BucketHas(items, h, j + 1, k);
    }
  }

  function Offsets(items: seq<Item>, c: seq<nat>): (o: seq<nat>)
    requires forall k :: 0 <= k < |c| ==> c[k] < |items|
    ensures |o| == |c| && forall k :: 0 <= k < |c| ==> o[k] == Off(items, c[k])
  {
    seq(|c|, k requires 0 <= k < |c| => Off(items, c[k]))
  }

  lemma {:induction false} WalkStep(f: seq<byte>, items: seq<Item>, j: nat)
    requires j < |items| && EntryOk(f, items, j)
    requires NextOf(items, j) == 0 || NextOf(items, j) > Off(items, j)
    ensures Walk(f, Off(items, j)) ==
            ([Off(items, j)] + Walk(f, NextOf(items, j)).0, Walk(f, NextOf(items, j)).1)
    ensures LocAt(f, Off(items, j)) == items[j].loc
  {
    hide De16, De64, NextOf;
  }

  lemma {:induction false} BucketOffsets(items: seq<Item>, h: nat, i: nat)
    requires i <= |items|
    ensures var j := FirstIn(items, h, i);
            Offsets(items, Bucket(items, h, i)) ==
            if j == |items| then [] else [Off(items, j)] + Offsets(items, Bucket(items, h, j + 1))
  {
    hide Off, FirstIn, Offsets, Match, Bucket;
    var j := FirstIn(items, h, i);
    BucketStep(items, h, i);
    if j < |items| {
      OffsetsCons(items, j, Bucket(items, h, j + 1));
    } else {
      OffsetsNone(items);
    }
  }

  lemma {:induction false} OffsetsNone(items: seq<Item>)
    ensures Offsets(items, []) == []
  {
  }

  lemma {:induction false} OffsetsCons(items: seq<Item>, j: nat, c: seq<nat>)
    requires j < |items| && forall k :: 0 <= k < |c| ==> c[k] < |items|
    ensures Offsets(items, [j] + c) == [Off(items, j)] + Offsets(items, c)
  {
    hide Off;
  }

  /** Chains only go forward. */
  lemma {:induction false} NextIsLater(items: seq<Item>, h: nat, j: nat)
    requires j < |items| && Match(items[j], h)
    ensures NextOf(items, j) == Pointer(items, h, j + 1)
    ensures NextOf(items, j) == 0 || NextOf(items, j) > Off(items, j)
  {
    hide Hash;
    var k := FirstIn(items, h, j + 1);
    if k < |items| {
      OffMonotone(items, j, k);
    }
  }

  lemma {:induction false} WalkNull(f: seq<byte>)
    ensures Walk(f, 0) == ([], true)
  {
  }

  lemma {:induction false} PointerIs(items: seq<Item>, h: nat, i: nat)
    requires i <= |items|
    ensures var j := FirstIn(items, h, i);
            Pointer(items, h, i) == if j < |items| then Off(items, j) else 0
  {
  }

  lemma {:induction false} EntryPlace(f: seq<byte>, items: seq<Item>, i: nat)
    requires i < |items| && EntryOk(f, items, i)
    ensures var o, n := Off(items, i), |items[i].loc|; o + 2 + n + 8 <= |f| && De16(f[o..o + 2]) == n
  {
    hide De16, De64;
  }

  lemma {:induction false} RepHas(f: seq<byte>, items: seq<Item>, j: nat)
    requires Rep(f, items) && j < |items|
    ensures EntryOk(f, items, j)
  {
  }

  lemma {:induction false} WalkIsBucket(f: seq<byte>, items: seq<Item>, h: nat, i: nat)
    requires Rep(f, items) && i <= |items|
    ensures Walk(f, Pointer(items, h, i)) == (Offsets(items, Bucket(items, h, i)), true)
    decreases |items| - i
  {
    hide De16, De64, EntryOk, Rep, LocAt, Offsets, Bucket, FirstIn, Off, Hash, Walk, Pointer, NextOf;
    var j := FirstIn(items, h, i);
    BucketOffsets(items, h, i);
    PointerIs(items, h, i);
    if j == |items| {
      WalkNull(f);
    } else {
      NextIsLater(items, h, j);
      RepHas(f, items, j);
      WalkStep(f, items, j);
      WalkIsBucket(f, items, h, j + 1);
    }
  }

  ghost predicate Distinct(items: seq<Item>) {
    forall i, j | 0 <= i < j < |items| && items[i].linked && Match(items[j], Hash(items[i].loc)) ::
      !Same(items[i].loc, items[j].loc)
  }

  lemma {:induction false} BucketLocs(f: seq<byte>, items: seq<Item>, b: seq<nat>, h: nat)
    requires Rep(f, items) && forall k :: 0 <= k < |b| ==> b[k] < |items| && Match(items[b[k]], h)
    ensures forall k :: 0 <= k < |b| ==> LocAt(f, Off(items, b[k])) == items[b[k]].loc
  {
    hide De16, De64, NextOf;
    forall k | 0 <= k < |b| ensures LocAt(f, Off(items, b[k])) == items[b[k]].loc {
      assert EntryOk(f, items, b[k]);
    }
  }

  /** What a walk from any slot meets: whole entries in rising order, of that bucket only,
      no locator twice, every linked entry of the bucket, and a null pointer at the end. */
  lemma {:induction false} ChainsWellFormed(f: seq<byte>, items: seq<Item>, h: nat)
    requires Rep(f, items) && Distinct(items) && h < HASHSIZ
    ensures 8 * h + 8 <= |f|
    ensures var (c, ok) := Walk(f, De64(f[8 * h..8 * h + 8]));
            && ok
            && (forall k :: 0 <= k < |c| ==> TABLESIZ <= c[k] && Hash(LocAt(f, c[k])) == h)
            && (forall x, y :: 0 <= x < y < |c| ==> c[x] < c[y] && !Same(LocAt(f, c[x]), LocAt(f, c[y])))
            && (forall i :: 0 <= i < |items| && Match(items[i], h) ==> Off(items, i) in c)
  {
    hide De16, De64, Hash, Walk, LocAt, Bucket, EntryOk, Same, Offsets, Off;
    assert SlotOk(f, items, h);
    WalkIsBucket(f, items, h, 0);
    BucketRises(items, h, 0);
    var b := Bucket(items, h, 0);
    var o := Offsets(items, b);
    BucketLocs(f, items, b, h);
    forall x, y | 0 <= x < y < |b| ensures o[x] < o[y] && !Same(LocAt(f, o[x]), LocAt(f, o[y])) {
      OffMonotone(items, b[x], b[y]);
      assert Match(items[b[y]], Hash(items[b[x]].loc));
    }
    forall i | 0 <= i < |items| && Match(items[i], h) ensures Off(items, i) in o {
      BucketHas(items, h, 0, i);
      var k :| 0 <= k < |b| && b[k] == i;
      assert o[k] == Off(items, i);
    }
  }

  /** The bytes of the file are determined by the list of entries. */
  lemma {:induction false} RepUnique(f: seq<byte>, g: seq<byte>, items: seq<Item>)
    requires Rep(f, items) && Rep(g, items)
    ensures f == g
  {
    hide De16, De64;
    forall k | 0 <= k < TABLESIZ ensures f[k] == g[k] {
      var h := k / 8;
      assert SlotOk(f, items, h) && SlotOk(g, items, h);
      De64Injective(f[8 * h..8 * h + 8], g[8 * h..8 * h + 8]);
      assert f[k] == f[8 * h..8 * h + 8][k - 8 * h] && g[k] == g[8 * h..8 * h + 8][k - 8 * h];
    }
    RepUniqueUpTo(f, g, items, |items|);
    assert f[..|f|] == f && g[..|g|] == g;
  }

  lemma {:induction false} RepUniqueUpTo(f: seq<byte>, g: seq<byte>, items: seq<Item>, i: nat)
    requires Rep(f, items) && Rep(g, items) && i <= |items|
    requires forall k :: 0 <= k < TABLESIZ ==> f[k] == g[k]
    ensures Off(items, i) <= |f| && f[..Off(items, i)] == g[..Off(items, i)]
  {
    hide De16, De64;
    if i > 0 {
      RepUniqueUpTo(f, g, items, i - 1);
      var o, n := Off(items, i - 1), |items[i - 1].loc|;
      assert EntryOk(f, items, i - 1) && EntryOk(g, items, i - 1);
      De16Injective(f[o..o + 2], g[o..o + 2]);
      De64Injective(f[o + 2 + n..o + 2 + n + 8], g[o + 2 + n..o + 2 + n + 8]);
      FourSlices(f, o, n);
      FourSlices(g, o, n);
    }
  }

  lemma {:induction false} FourSlices(f: seq<byte>, o: nat, n: nat)
    requires o + 2 + n + 8 <= |f|
    ensures f[..o + 2 + n + 8] == f[..o] + f[o..o + 2] + f[o + 2..o + 2 + n] + f[o + 2 + n..o + 2 + n + 8]
  {
  }

  /** Position of the entry that starts at `off`; -1 when none does. */
  function ItemAt(items: seq<Item>, off: nat, i: nat := |items|): (r: int)
    requires i <= |items|
    ensures -1 <= r < i
    ensures r >= 0 ==> Off(items, r) == off
    ensures forall k :: r < k < i ==> Off(items, k) != off
  {
    if i == 0 then -1 else if Off(items, i - 1) == off then i - 1 else ItemAt(items, off, i - 1)
  }

  lemma {:induction false} ItemAtOff(items: seq<Item>, i: nat)
    requires i < |items|
    ensures ItemAt(items, Off(items, i)) == i
  {
    var r := ItemAt(items, Off(items, i));
    if i < r {
      OffMonotone(items, i, r);
    }
  }

  /** The entry an add of `loc` finds, searching its bucket in chain order from `i` on. */
  function Find(items: seq<Item>, loc: seq<byte>, i: nat := 0): (r: nat)
    requires i <= |items|
    ensures i <= r <= |items|
    ensures r < |items| ==> Match(items[r], Hash(loc)) && Same(items[r].loc, loc)
    ensures forall k :: i <= k < r && Match(items[k], Hash(loc)) ==> !Same(items[k].loc, loc)
    decreases |items| - i
  {
    if i == |items| || (Match(items[i], Hash(loc)) && Same(items[i].loc, loc)) then i else Find(items, loc, i + 1)
  }
}
