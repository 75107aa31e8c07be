/** kcndbctl/kcndbctl_file.c: lines `time value locator` are parsed in place, as they arrive,
    and each is sent as an add. */
module BulkLoad {
  import opened Bytes
  import opened Ascii
  import opened Errno
  import opened Buffer
  import opened Msg

  const MAXBUFSIZ := 0x10_0000

  predicate IsSpace(c: byte) {
    c == SPACE || TAB <= c <= CARRIAGE_RETURN
  }

  predicate IsPrint(c: byte) {
    SPACE <= c <= TILDE
  }

  /** The field at the head of the input: cut off, malformed, or ended by a space at n. */
  datatype Field = Short | Odd | At(n: nat)

  function FieldEnd(t: seq<byte>, i: nat := 0): (f: Field)
    requires i <= |t|
    ensures f.At? ==> i <= f.n < |t| && IsSpace(t[f.n])
    ensures f.At? ==> forall k :: i <= k < f.n ==> IsPrint(t[k]) && !IsSpace(t[k])
    decreases |t| - i
  {
    if i == |t| then Short
    else if IsSpace(t[i]) then At(i)
    else if !IsPrint(t[i]) then Odd
    else FieldEnd(t, i + 1)
  }

  predicate AllDigits(s: seq<byte>) {
    forall k :: 0 <= k < |s| ==> ZERO <= s[k] <= NINE
  }

  function Decimal(s: seq<byte>): nat
    requires AllDigits(s)
  {
    if s == [] then 0
    else
      var c: int := s[|s| - 1];
      Decimal(s[..|s| - 1]) * 10 + (c - ZERO)
  }

  datatype Number = NaN | Num(v: u64)

  /** kcn_strtoull on a field: strtoll in base 10 with its saturation, all of the field used. */
  function Strtoull(s: seq<byte>): Number {
    var neg := s != [] && s[0] == MINUS;
    var t := if s != [] && (s[0] == MINUS || s[0] == PLUS) then s[1..] else s;
    if t == [] || !AllDigits(t) then NaN
    else
      var d: int := Decimal(t);
      if neg then Num(ToU64(if d > 0x8000_0000_0000_0000 then -0x8000_0000_0000_0000 else -d))
      else Num(if d > 0x7fff_ffff_ffff_ffff then 0x7fff_ffff_ffff_ffff else d)
  }

  /** What one turn of the parser makes of the input. */
  datatype Parse = Cut | Malformed | Parsed(time: u64, val: u64, loc: seq<byte>, used: nat)

  function ParseLoc(t: seq<byte>, time: u64, val: u64, used: nat): Parse {
    match FieldEnd(t)
    case Short => Cut
    case Odd => Malformed
    case At(n) => if n > MAXLOCSIZ then Malformed else Parsed(time, val, t[..n], used + n + 1)
  }

  function ParseVal(t: seq<byte>, time: u64, used: nat): Parse {
    match FieldEnd(t)
    case Short => Cut
    case Odd => Malformed
    case At(n) =>
      if Strtoull(t[..n]).NaN? then Malformed else ParseLoc(t[n + 1..], time, Strtoull(t[..n]).v, used + n + 1)
  }

  function ParseLine(t: seq<byte>): Parse {
    match FieldEnd(t)
    case Short => Cut
    case Odd => Malformed
    case At(n) => if Strtoull(t[..n]).NaN? then Malformed else ParseVal(t[n + 1..], Strtoull(t[..n]).v, n + 1)
  }

  /** Text of one line, separators included, with nothing after it. */
  predicate LineOk(l: seq<byte>) {
    ParseLine(l).Parsed? && ParseLine(l).used == |l| <= MAXSIZ
  }

  predicate Lines(ls: seq<seq<byte>>) {
    forall l :: l in ls ==> LineOk(l)
  }

  lemma {:induction false} LinesLeft(ls: seq<seq<byte>>, n: nat)
    requires Lines(ls) && n <= |ls|
    ensures Lines(ls[n..])
  {
    hide LineOk;
  }

  lemma {:induction false} FieldGrows(t: seq<byte>, c: seq<byte>, i: nat)
    requires i <= |t|
    ensures FieldEnd(t, i).Short? || FieldEnd(t + c, i) == FieldEnd(t, i)
    decreases |t| - i
  {
    if i < |t| && !IsSpace(t[i]) && IsPrint(t[i]) {
      FieldGrows(t, c, i + 1);
    }
  }

  lemma {:induction false} TailGrows(t: seq<byte>, c: seq<byte>, n: nat)
    requires n < |t|
    ensures (t + c)[..n] == t[..n] && (t + c)[n + 1..] == t[n + 1..] + c
  {
  }

  /** A line that is recognised, or refused, is so whatever follows it. */
  lemma {:induction false} LineGrows(t: seq<byte>, c: seq<byte>)
    requires !ParseLine(t).Cut?
    ensures ParseLine(t + c) == ParseLine(t)
  {
    hide Strtoull, FieldEnd, ParseVal;
    FieldGrows(t, c, 0);
    if FieldEnd(t).At? {
      var n := FieldEnd(t).n;
      TailGrows(t, c, n);
      if !Strtoull(t[..n]).NaN? {
        ValGrows(t[n + 1..], c, Strtoull(t[..n]).v, n + 1);
      }
    }
  }

  lemma {:induction false} ValGrows(t: seq<byte>, c: seq<byte>, time: u64, used: nat)
    requires !ParseVal(t, time, used).Cut?
    ensures ParseVal(t + c, time, used) == ParseVal(t, time, used)
  {
    hide Strtoull, FieldEnd, ParseLoc;
    FieldGrows(t, c, 0);
    if FieldEnd(t).At? {
      var n := FieldEnd(t).n;
      TailGrows(t, c, n);
      if !Strtoull(t[..n]).NaN? {
        LocGrows(t[n + 1..], c, time, Strtoull(t[..n]).v, used + n + 1);
      }
    }
  }

  lemma {:induction false} LocGrows(t: seq<byte>, c: seq<byte>, time: u64, val: u64, used: nat)
    requires !ParseLoc(t, time, val, used).Cut?
    ensures ParseLoc(t + c, time, val, used) == ParseLoc(t, time, val, used)
  {
    hide FieldEnd;
    FieldGrows(t, c, 0);
    if FieldEnd(t).At? {
      TailGrows(t, c, FieldEnd(t).n);
    }
  }

  /** What a file ends with behind its lines: nothing, or the beginning of a short line. */
  predicate ShortTail(t: seq<byte>) {
    |t| < MAXSIZ && ParseLine(t) == Cut
  }

  /** Or a line refused by its first 4096 bytes. */
  predicate BadTail(t: seq<byte>) {
    ParseLine(if |t| < MAXSIZ then t else t[..MAXSIZ]) == Malformed
  }

  class Loader {
    const kind: byte
    const kb: Buf
    var size: nat
    var lines: nat
    var sent: seq<Add>

    /** bufalloc: the whole file, or a megabyte. */
    constructor (kind: byte, filesize: nat)
      ensures this.kind == kind && size == filesize && lines == 0 && sent == []
      ensures fresh(kb) && fresh(kb.data) && kb.Valid() && kb.sp == kb.cp == kb.ep == 0
      ensures kb.data.Length == if filesize < MAXBUFSIZ then filesize else MAXBUFSIZ
    {
      this.kind, size, lines, sent := kind, filesize, 0, [];
      kb := new Buf(if filesize < MAXBUFSIZ then filesize else MAXBUFSIZ);
    }

    /** The bytes from the cursor on. */
    ghost function Ahead(): seq<byte>
      requires kb.Valid()
      reads this, kb, kb.data
    {
      kb.Held()[kb.cp - kb.sp..]
    }

    method Forward() returns (error: int)
      requires kb.Valid()
      modifies kb`cp
      ensures kb.Valid()
      ensures match FieldEnd(old(Ahead()))
              case Short => error == EAGAIN
              case Odd => error == EINVAL
              case At(n) => error == 0 && kb.cp == old(kb.cp) + n + 1
    {
      ghost var t, i := Ahead(), 0;
      while true
        invariant kb.Valid() && i <= |t| && kb.cp == old(kb.cp) + i
        invariant FieldEnd(t, i) == FieldEnd(t)
        decreases |t| - i
      {
        if kb.TrailingData() == 0 {
          return EAGAIN;
        }
        assert t[i] == kb.data[kb.cp];
        var c := kb.Get8();
        if IsSpace(c) {
          return 0;
        }
        if !IsPrint(c) {
          return EINVAL;
        }
        i := i + 1;
      }
    }

    /** Overwrites the separator just passed with a NUL. */
    method Terminate()
      requires kb.Valid() && kb.cp > kb.sp
      modifies kb`cp, kb`ep, kb.data
      ensures kb.Valid() && kb.cp == old(kb.cp) && kb.ep == old(kb.ep)
      ensures Ahead() == old(Ahead())
      ensures |kb.Held()| == |old(kb.Held())| && kb.Held()[kb.cp - kb.sp - 1] == 0
      ensures kb.Held()[..kb.cp - kb.sp - 1] == old(kb.Held())[..kb.cp - kb.sp - 1]
    {
      hide Splice;
      ghost var h, off := kb.Held(), kb.cp - kb.sp - 1;
      kb.Backward(1);
      kb.Put8(0);
      NulAt(h, off);
    }

    /** get64: the separator becomes a NUL so that the field is a C string. */
    method Get64() returns (error: int, v: u64)
      requires kb.Valid()
      modifies kb`cp, kb`ep, kb.data
      ensures kb.Valid() && kb.ep == old(kb.ep)
      ensures Took64(old(Ahead()), error, v, Ahead())
      ensures Overwrote(old(Ahead()), old(kb.Held()), kb.Held(), old(kb.cp - kb.sp))
    {
      hide Strtoull, FieldEnd, Splice;
      var p := kb.cp;
      ghost var h, off := kb.Held(), kb.cp - kb.sp;
      v := 0;
      error := Forward();
      if error != 0 {
        return;
      }
      ghost var n := kb.cp - p - 1;
      Terminate();
      FieldKept(h, kb.Held(), off, n);
      SubSlice(kb.data[..], kb.sp, kb.ep, off, off + n);
      match Strtoull(kb.data[p..kb.cp - 1]) {
        case NaN => error := EINVAL;
        case Num(w) => v := w;
      }
    }

    method GetStr() returns (error: int, s: seq<byte>)
      requires kb.Valid()
      modifies kb`cp
      ensures kb.Valid()
      ensures TookStr(old(Ahead()), error, s, Ahead())
    {
      hide FieldEnd;
      var p := kb.cp;
      ghost var h, off := kb.Held(), kb.cp - kb.sp;
      s := [];
      error := Forward();
      if error != 0 {
        return;
      }
      var slen := kb.cp - p - 1;
      TailSlice(h, off, 0, slen);
      SubSlice(kb.data[..], kb.sp, kb.ep, off, off + slen);
      if slen > MAXLOCSIZ {
        return E2BIG, [];
      }
      s := kb.data[p..p + slen];
    }

    /** The three fields of the line at the cursor. */
    method ParseHead() returns (error: int, a: Add)
      requires kb.Valid() && kb.cp == kb.sp
      modifies kb`cp, kb`ep, kb.data
      ensures kb.Valid() && kb.ep == old(kb.ep)
      ensures TookLine(old(kb.Held()), kind, error, a, Ahead())
      ensures CutLeaves(old(kb.Held()), kb.Held())
    {
      hide Took64, TookStr, TookLine, Overwrote, CutLeaves, FieldEnd, ParseLine, ParseVal, ParseLoc, Strtoull,
           Loader.Ahead;
      ghost var t := kb.Held();
      AheadSize(this);
      a := Add(kind, 0, 0, []);
      var time, val, loc := 0, 0, [];
      error, time := Get64();
      ghost var u := Ahead();
      FirstField(t, kind, error, time, u, a);
      FirstOverwrite(t, kb.Held());
      if error != 0 {
        return;
      }
      ghost var g, off := kb.Held(), kb.cp - kb.sp;
      AheadSize(this);
      assert FieldEnd(t) == At(off - 1);
      error, val := Get64();
      LaterOverwrite(t, u, g, kb.Held(), off);
      ghost var w := Ahead();
      SecondField(t, kind, time, u, error, val, w, a);
      if error != 0 {
        return;
      }
      error, loc := GetStr();
      ThirdField(t, kind, time, u, val, w, error, loc, Ahead(), a);
      a := Add(kind, time, val, loc);
    }

    /** One turn of the loop in readfile: a line is sent and taken off the buffer; a line that is
        not all there leaves the cursor at the front, with separators already overwritten. */
    method SendLine() returns (error: int)
      requires kb.Valid() && kb.cp == kb.sp
      modifies this`sent, this`lines, kb`cp, kb`sp, kb`ep, kb.data
      ensures kb.Valid() && kb.ep == old(kb.ep)
      ensures error == 0 <==> ParseLine(old(kb.Held())).Parsed?
      ensures error == EAGAIN <==> ParseLine(old(kb.Held())).Cut?
      ensures error == 0 ==>
                var p := ParseLine(old(kb.Held()));
                && kb.cp == kb.sp && sent == old(sent) + [Add(kind, p.time, p.val, p.loc)] && lines == old(lines) + 1
                && p.used <= |old(kb.Held())| && kb.Held() == old(kb.Held())[p.used..]
      ensures error != 0 ==> kb.sp == old(kb.sp) && sent == old(sent) && lines == old(lines)
      ensures error == EAGAIN ==> kb.cp == kb.sp && CutLeaves(old(kb.Held()), kb.Held())
    {
      hide ParseLine, TookLine, CutLeaves, FieldEnd, Loader.Ahead;
      ghost var t := kb.Held();
      var a;
      error, a := ParseHead();
      TookMeans(t, kind, error, a, Ahead());
      if error == EAGAIN {
        kb.Start();
      } else if error == 0 {
        Deliver(a);
      }
    }

    /** The add goes to the server, and what was parsed is taken off the buffer. */
    method Deliver(a: Add)
      requires kb.Valid()
      modifies this`sent, this`lines, kb`cp, kb`sp
      ensures kb.Valid() && kb.cp == kb.sp && kb.Held() == old(Ahead())
      ensures sent == old(sent) + [a] && lines == old(lines) + 1
    {
      kb.TrimHead(kb.HeadingData());
      sent := sent + [a];
      lines := lines + 1;
    }

    /** Parses and sends lines while a whole one is certain to be there; true when one was refused. */
    method SendLines(ghost unread: seq<byte>, ghost ls: seq<seq<byte>>, ghost tail: seq<byte>)
      returns (bad: bool, ghost n: nat)
      requires kb.Valid() && kb.cp == kb.sp && size == |unread|
      requires kb.Held() + unread == Concat(ls) + tail && Lines(ls)
      requires ShortTail(tail) || BadTail(tail)
      modifies this`sent, this`lines, kb`cp, kb`sp, kb`ep, kb.data
      ensures kb.Valid() && kb.ep == old(kb.ep) && n <= |ls| && |kb.Held()| <= |old(kb.Held())|
      ensures sent == old(sent) + Adds(kind, ls[..n]) && lines == old(lines) + n
      ensures bad ==> n == |ls| && BadTail(tail)
      ensures !bad ==> kb.cp == kb.sp && Left(unread, ls[n..], tail)
    {
      hide Lines, Adds, ShortTail, BadTail, ParseLine;
      n := 0;
      assert ls[0..] == ls;
      AddsNil(kind, ls);
      assert sent + [] == sent;
      while size == 0 || kb.Len() >= MAXSIZ
        invariant kb.Valid() && kb.cp == kb.sp && kb.ep == old(kb.ep) && n <= |ls|
        invariant kb.Held() + unread == Concat(ls[n..]) + tail && |kb.Held()| <= |old(kb.Held())|
        invariant sent == old(sent) + Adds(kind, ls[..n]) && lines == old(lines) + n
        decreases kb.Len()
      {
        ghost var t, before := kb.Held(), sent;
        NextTurn(t, unread, ls, n, tail, kind);
        var error := SendLine();
        if error == EAGAIN {
          return false, n;
        } else if error != 0 {
          return true, n;
        }
        n := n + 1;
        assert sent == (old(sent) + Adds(kind, ls[..n - 1])) + [sent[|before|]];
      }
      bad := false;
    }

    /** What is left between two callbacks. Once the whole file has been read no line is left,
        and the bytes of the tail, though not their separators. */
    ghost predicate Left(unread: seq<byte>, ls: seq<seq<byte>>, tail: seq<byte>)
      requires kb.Valid()
      reads this, kb, kb.data
    {
      if unread == [] then ls == [] && ShortTail(tail) && |kb.Held()| == |tail|
      else kb.Held() + unread == Concat(ls) + tail && |kb.Held()| < MAXSIZ
    }

    /** readfile: `r` is what read(2) gave, some next part of the file or its end; true when a
        line was refused, which ends the program. */
    method ReadFile(r: Io, ghost unread: seq<byte>, ghost ls: seq<seq<byte>>, ghost tail: seq<byte>)
      returns (again: bool, bad: bool, ghost n: nat)
      requires kb.Valid() && kb.cp == kb.sp && kb.Room() > 0 && size == |kb.Held()| + |unread|
      requires Left(unread, ls, tail) && Lines(ls)
      requires ShortTail(tail) || BadTail(tail)
      requires r.Moved? ==> 0 < |r.bs| <= kb.Room() && r.bs <= unread
      modifies this`size, this`sent, this`lines, kb, kb.data
      ensures kb.Valid() && n <= |ls| && again == (!bad && !r.Eof? && r != Failed(ESHUTDOWN))
      ensures old(kb.ep) < kb.data.Length ==> kb.ep == old(kb.ep) + if r.Moved? then |r.bs| else 0
      ensures sent == old(sent) + Adds(kind, ls[..n]) && lines == old(lines) + n && size <= old(size)
      ensures bad ==> n == |ls| && BadTail(tail)
      ensures var left := if r.Moved? then unread[|r.bs|..] else unread;
              !bad ==> kb.cp == kb.sp && Left(left, ls[n..], tail) && size == |kb.Held()| + |left|
    {
      hide Lines, Adds, Concat, ShortTail, BadTail;
      ghost var h := kb.Held();
      var error := kb.Read(r);
      n, bad := 0, false;
      again := error != ESHUTDOWN;
      if r.Moved? {
        ghost var left := unread[|r.bs|..];
        assert h + unread == (h + r.bs) + left;
        size := size - kb.Len();
        bad, n := SendLines(left, ls, tail);
        size := size + kb.Len();
        again := !bad;
      } else {
        AddsNil(kind, ls);
        assert ls[0..] == ls && sent + [] == sent && h + [] == h;
      }
    }
  }

  /** get64 on input `t` returned this and left `rest`. */
  predicate Took64(t: seq<byte>, error: int, v: u64, rest: seq<byte>) {
    match FieldEnd(t)
    case Short => error == EAGAIN
    case Odd => error != 0 && error != EAGAIN
    case At(n) =>
      && rest == t[n + 1..]
      && if Strtoull(t[..n]).NaN? then error != 0 && error != EAGAIN else error == 0 && Strtoull(t[..n]) == Num(v)
  }

  /** get64 on input `t` from `off` on turned the buffer `h` into `g`: the separator is a NUL. */
  predicate Overwrote(t: seq<byte>, h: seq<byte>, g: seq<byte>, off: nat) {
    && |g| == |h| && off <= |h|
    && match FieldEnd(t)
       case At(n) => off + n < |h| && g[..off + n] == h[..off + n] && g[off + n] == 0
       case _ => g == h
  }

  /** A line that is not all there leaves the buffer as it was if not even its first field was
      complete, and else with a NUL behind that field. */
  predicate CutLeaves(t: seq<byte>, g: seq<byte>) {
    Overwrote(t, t, g, 0)
  }

  lemma {:induction false} AheadSize(k: Loader)
    requires k.kb.Valid()
    ensures |k.Ahead()| == |k.kb.Held()| - (k.kb.cp - k.kb.sp)
    ensures k.kb.cp == k.kb.sp ==> k.Ahead() == k.kb.Held()
  {
  }

  lemma {:induction false} FirstOverwrite(t: seq<byte>, g: seq<byte>)
    requires Overwrote(t, t, g, 0)
    ensures CutLeaves(t, g) && |g| == |t|
  {
  }

  lemma {:induction false} LaterOverwrite(t: seq<byte>, u: seq<byte>, h: seq<byte>, g: seq<byte>, off: nat)
    requires CutLeaves(t, h) && FieldEnd(t).At? && off == FieldEnd(t).n + 1 && Overwrote(u, h, g, off)
    ensures CutLeaves(t, g)
  {
    hide FieldEnd;
    var n := FieldEnd(t).n;
    assert g[..off] == h[..off];
    assert g[..n] == g[..off][..n] && h[..n] == h[..off][..n] && g[n] == g[..off][n] && h[n] == h[..off][n];
  }

  lemma {:induction false} NulIsOdd(s: seq<byte>, i: nat, n: nat)
    requires i <= n < |s| && s[n] == 0 && forall k :: i <= k < n ==> IsPrint(s[k]) && !IsSpace(s[k])
    ensures FieldEnd(s, i) == Odd
    decreases n - i
  {
    if i < n {
      NulIsOdd(s, i + 1, n);
    }
  }

  /** What becomes of a line that a turn found cut when a later turn reads it again, whatever has
      come in between: it is refused exactly when its first field was complete at the cut. */
  lemma {:induction false} Rescan(t: seq<byte>, g: seq<byte>, c: seq<byte>)
    requires ParseLine(t) == Cut && CutLeaves(t, g)
    ensures ParseLine(g + c) == if FieldEnd(t).At? then Malformed else ParseLine(t + c)
  {
    hide ParseVal, Strtoull;
    if FieldEnd(t).At? {
      var n := FieldEnd(t).n;
      assert forall k :: 0 <= k < n ==> (g + c)[k] == g[..n][k] == t[k];
      NulIsOdd(g + c, 0, n);
    }
  }

  /** Its fate by the two looks at it: a line longer than 4096 bytes is sent when all of it is in
      the buffer at its first turn, and ends the program when its first field was there and not
      all of it. */
  lemma {:induction false} LongLine(l: seq<byte>, m: nat, g: seq<byte>, rest: seq<byte>)
    requires ParseLine(l).Parsed? && ParseLine(l).used == |l| && m <= |l| && CutLeaves(l[..m], g)
    requires ParseLine(l[..m]) == Cut
    ensures ParseLine(g + (l[m..] + rest)).Parsed? <==> FieldEnd(l[..m]).Short?
  {
    hide ParseLine, FieldEnd, CutLeaves;
    Rescan(l[..m], g, l[m..] + rest);
    assert l[..m] + (l[m..] + rest) == l + rest;
    LineGrows(l, rest);
    CutShort(l[..m]);
  }

  lemma {:induction false} CutShort(t: seq<byte>)
    requires ParseLine(t) == Cut
    ensures FieldEnd(t).At? || FieldEnd(t).Short?
  {
    hide ParseVal, Strtoull;
  }

  predicate TookStr(t: seq<byte>, error: int, s: seq<byte>, rest: seq<byte>) {
    match FieldEnd(t)
    case Short => error == EAGAIN
    case Odd => error != 0 && error != EAGAIN
    case At(n) => rest == t[n + 1..] && if n > MAXLOCSIZ then error == E2BIG else error == 0 && s == t[..n]
  }

  predicate TookLine(t: seq<byte>, kind: byte, error: int, a: Add, rest: seq<byte>) {
    match ParseLine(t)
    case Cut => error == EAGAIN
    case Malformed => error != 0 && error != EAGAIN
    case Parsed(time, val, loc, used) =>
      error == 0 && a == Add(kind, time, val, loc) && used <= |t| && rest == t[used..]
  }

  lemma {:induction false} TookMeans(t: seq<byte>, kind: byte, error: int, a: Add, rest: seq<byte>)
    requires TookLine(t, kind, error, a, rest)
    ensures error == EAGAIN <==> ParseLine(t).Cut?
    ensures error == 0 <==> ParseLine(t).Parsed?
    ensures ParseLine(t).Parsed? ==>
              var p := ParseLine(t);
              a == Add(kind, p.time, p.val, p.loc) && p.used <= |t| && rest == t[p.used..]
  {
    hide ParseLine;
  }

  lemma {:induction false} FirstField(t: seq<byte>, kind: byte, error: int, time: u64, u: seq<byte>, a: Add)
    requires Took64(t, error, time, u)
    ensures error != 0 ==> TookLine(t, kind, error, a, u)
    ensures error == 0 ==> |u| < |t| && ParseLine(t) == ParseVal(u, time, |t| - |u|) && t[|t| - |u|..] == u
    ensures error == 0 ==> FieldEnd(t) == At(|t| - |u| - 1)
  {
    hide Strtoull, ParseVal;
  }

  lemma {:induction false} SecondField(t: seq<byte>, kind: byte, time: u64, u: seq<byte>,
                                       error: int, val: u64, w: seq<byte>, a: Add)
    requires |u| <= |t| && ParseLine(t) == ParseVal(u, time, |t| - |u|) && t[|t| - |u|..] == u
    requires Took64(u, error, val, w)
    ensures error != 0 ==> TookLine(t, kind, error, a, w)
    ensures error == 0 ==> |w| <= |u| && ParseLine(t) == ParseLoc(w, time, val, |t| - |w|) && t[|t| - |w|..] == w
  {
    hide Strtoull, ParseLoc, ParseLine;
  }

  lemma {:induction false} ThirdField(t: seq<byte>, kind: byte, time: u64, u: seq<byte>, val: u64, w: seq<byte>,
                                      error: int, loc: seq<byte>, rest: seq<byte>, a: Add)
    requires |w| <= |u| <= |t| && ParseLine(t) == ParseLoc(w, time, val, |t| - |w|) && t[|t| - |w|..] == w
    requires TookStr(w, error, loc, rest)
    ensures TookLine(t, kind, error, Add(kind, time, val, loc), rest)
  {
    hide ParseLine;
  }

  /** The adds a list of lines stands for. */
  function Adds(kind: byte, ls: seq<seq<byte>>): (o: seq<Add>)
    ensures |o| == |ls|
  {
    if ls == [] then [] else Adds(kind, ls[..|ls| - 1]) + [AddOf(kind, ls[|ls| - 1])]
  }

  function AddOf(kind: byte, l: seq<byte>): Add {
    match ParseLine(l)
    case Parsed(time, val, loc, _) => Add(kind, time, val, loc)
    case _ => Add(kind, 0, 0, [])
  }

  lemma {:induction false} AddsNil(kind: byte, ls: seq<seq<byte>>)
    ensures Adds(kind, ls[..0]) == []
  {
  }

  /** What the loop meets once 4096 bytes, or all there is, are in the buffer: the next line as a
      whole, or the tail. */
  lemma {:induction false} NextTurn(t: seq<byte>, unread: seq<byte>, ls: seq<seq<byte>>, n: nat, tail: seq<byte>,
                                    kind: byte)
    requires n <= |ls| && t + unread == Concat(ls[n..]) + tail && (unread == [] || |t| >= MAXSIZ)
    requires Lines(ls) && (ShortTail(tail) || BadTail(tail))
    ensures match ParseLine(t)
            case Parsed(time, val, loc, used) =>
              && n < |ls| && 0 < used <= |t| && t[used..] + unread == Concat(ls[n + 1..]) + tail
              && Adds(kind, ls[..n + 1]) == Adds(kind, ls[..n]) + [Add(kind, time, val, loc)]
            case Cut => n == |ls| && unread == [] && ShortTail(tail) && |t| == |tail|
            case Malformed => n == |ls| && BadTail(tail)
  {
    hide ParseLine, LineOk, ShortTail, BadTail;
    if n < |ls| {
      assert ls[n] in ls && ls[n..][0] == ls[n] && ls[n..][1..] == ls[n + 1..];
      HeadLine(t, unread, ls[n], Concat(ls[n + 1..]) + tail);
      assert ls[..n + 1][..n] == ls[..n];
    } else {
      assert t + unread == tail;
      TailTurn(t, unread, tail);
    }
  }

  lemma {:induction false} HeadLine(t: seq<byte>, unread: seq<byte>, l: seq<byte>, rest: seq<byte>)
    requires LineOk(l) && t + unread == l + rest && (unread == [] || |t| >= MAXSIZ)
    ensures ParseLine(t) == ParseLine(l) && ParseLine(l).Parsed? && ParseLine(l).used == |l|
    ensures 0 < |l| <= |t| && t[|l|..] + unread == rest
  {
    hide ParseLine;
    var m := |l|;
    if unread == [] {
      assert t == t + unread;
    }
    assert l == t[..m] by { assert (t + unread)[..m] == (l + rest)[..m]; }
    assert t[m..] + unread == rest by { assert (t + unread)[m..] == (l + rest)[m..]; }
    assert t == l + t[m..];
    LineGrows(l, t[m..]);
    CutAtEnd();
  }

  lemma {:induction false} TailTurn(t: seq<byte>, unread: seq<byte>, tail: seq<byte>)
    requires t + unread == tail && (unread == [] || |t| >= MAXSIZ) && (ShortTail(tail) || BadTail(tail))
    ensures if ShortTail(tail) then ParseLine(t) == Cut && unread == [] && t == tail else ParseLine(t) == Malformed
  {
    hide ParseLine;
    if unread == [] {
      assert t + [] == t;
    }
    if BadTail(tail) {
      var m := if |tail| < MAXSIZ then |tail| else MAXSIZ;
      assert tail[..m] == t[..m] && t == t[..m] + t[m..] && tail[..|tail|] == tail;
      LineGrows(t[..m], t[m..]);
    }
  }

  lemma {:induction false} CutAtEnd()
    ensures ParseLine([]) == Cut
  {
  }

  /** How loading a file ends: all of it read, a line refused, or the assertion in kcn_buf_read. */
  datatype End = Finished | Refused | Aborted

  /** kcndbctl_file_process: for every way the reads cut the file, each line is sent exactly once,
      in order, and none is parsed before it is complete. An unterminated last line is never
      sent; a file that is no more than the beginning of a line runs into the buffer assertion. */
  method Load(kind: byte, file: seq<byte>, ghost ls: seq<seq<byte>>, ghost tail: seq<byte>)
    returns (end: End, sent: seq<Add>, count: nat)
    requires file == Concat(ls) + tail && Lines(ls) && (ShortTail(tail) || BadTail(tail))
    ensures sent == Adds(kind, ls) && count == |ls|
    ensures end == if BadTail(tail) then Refused else if ls == [] then Aborted else Finished
  {
    hide Lines, Adds, ShortTail, BadTail, Concat, Loader.Left;
    var k := new Loader(kind, |file|);
    var pos := 0;
    ghost var rest := ls;
    LoadStarts(k, file, ls, tail);
    while true
      invariant fresh(k) && fresh(k.kb) && fresh(k.kb.data) && k.kind == kind
      invariant k.kb.Valid() && k.kb.cp == k.kb.sp && 0 <= pos <= |file|
      invariant k.kb.data.Length == if |file| < MAXBUFSIZ then |file| else MAXBUFSIZ
      invariant |file| < MAXBUFSIZ ==> k.kb.ep == pos
      invariant k.size == |k.kb.Held()| + |file[pos..]| && k.size <= |file|
      invariant k.Left(file[pos..], rest, tail) && Lines(rest)
      invariant k.sent + Adds(kind, rest) == Adds(kind, ls) && k.lines + |rest| == |ls|
      decreases |file| - pos
    {
      RoomLeft(k, file, pos, rest, ls, tail);
      if k.kb.Room() == 0 {
        NoAdds(kind, rest, k.sent);
        return Aborted, k.sent, k.lines;
      }
      ghost var sofar, n := k.sent, 0;
      var again, bad;
      if pos == |file| {
        again, bad, n := k.ReadFile(Eof, [], rest, tail);
        NoAdds(kind, rest, k.sent);
        return Finished, k.sent, k.lines;
      }
      var m :| 0 < m <= k.kb.Room() && m <= |file| - pos;
      ghost var unread := file[pos..];
      CutTail(file, pos, m);
      again, bad, n := k.ReadFile(Moved(file[pos..pos + m]), unread, rest, tail);
      SentSoFar(kind, sofar, rest, n);
      LinesLeft(rest, n);
      pos := pos + m;
      rest := rest[n..];
      if bad {
        NoAdds(kind, rest, k.sent);
        return Refused, k.sent, k.lines;
      }
    }
  }

  /** A number written in base 10. */
  function Digits(n: nat): (s: seq<byte>)
    ensures s != [] && forall c :: c in s ==> 48 <= c <= 57
  {
    if n < 10 then [48 + n] else Digits(n / 10) + [48 + n % 10]
  }

  lemma {:induction false} DecimalDigits(n: nat)
    ensures AllDigits(Digits(n))
    ensures Decimal(Digits(n)) == n
  {
    if n < 10 {
      assert Digits(n)[..0] == [];
    } else {
      var s := Digits(n / 10);
      DecimalDigits(n / 10);
      assert Digits(n)[..|s|] == s;
    }
  }

  /** A decimal number is read as its value, up to the largest signed one; with a minus sign as its
      negative, down to the smallest, in an unsigned field. */
  lemma {:induction false} StrtoullDigits(n: nat)
    ensures Strtoull(Digits(n)) == Num(if n < 0x8000_0000_0000_0000 then n else 0x7fff_ffff_ffff_ffff)
    ensures Strtoull([43] + Digits(n)) == Strtoull(Digits(n))
    ensures Strtoull([45] + Digits(n)) ==
            Num(if n == 0 then 0 else if n < 0x8000_0000_0000_0000 then 0x1_0000_0000_0000_0000 - n
                else 0x8000_0000_0000_0000)
  {
    hide Digits, Decimal, Strtoull;
    DecimalDigits(n);
    SignedDigits(Digits(n));
  }

  lemma {:induction false} SignedDigits(s: seq<byte>)
    requires s != [] && AllDigits(s)
    ensures var d: int := Decimal(s);
            && Strtoull(s) == Num(if d > 0x7fff_ffff_ffff_ffff then 0x7fff_ffff_ffff_ffff else d)
            && Strtoull([43] + s) == Strtoull(s)
            && Strtoull([45] + s) == Num(ToU64(if d > 0x8000_0000_0000_0000 then -0x8000_0000_0000_0000 else -d))
  {
    hide Decimal;
    assert ([43] + s)[1..] == s && ([45] + s)[1..] == s;
  }

  /** One line of a file: three fields, each ended by one byte of white space. */
  datatype Line = Line(time: u64, sep1: byte, val: u64, sep2: byte, loc: seq<byte>, sep3: byte)

  function Text(l: Line): seq<byte> {
    Digits(l.time) + [l.sep1] + Digits(l.val) + [l.sep2] + l.loc + [l.sep3]
  }

  predicate White(c: byte) {
    c == 32 || 9 <= c <= 13
  }

  predicate Loadable(l: Line) {
    && l.time < 0x8000_0000_0000_0000 && l.val < 0x8000_0000_0000_0000
    && (forall c :: c in l.loc ==> 33 <= c <= 126) && |l.loc| <= 4075
    && White(l.sep1) && White(l.sep2) && White(l.sep3) && |Text(l)| <= 4096
  }

  function Texts(rows: seq<Line>): (ls: seq<seq<byte>>)
    ensures |ls| == |rows| && forall i :: 0 <= i < |ls| ==> ls[i] == Text(rows[i])
  {
    seq(|rows|, i requires 0 <= i < |rows| => Text(rows[i]))
  }

  lemma {:induction false} FieldOf(f: seq<byte>, c: byte, rest: seq<byte>, i: nat)
    requires i <= |f| && White(c) && forall x :: x in f ==> 33 <= x <= 126
    ensures FieldEnd(f + [c] + rest, i) == At(|f|)
    decreases |f| - i
  {
    if i < |f| {
      assert f[i] in f && (f + [c] + rest)[i] == f[i];
      FieldOf(f, c, rest, i + 1);
    } else {
      assert (f + [c] + rest)[i] == c;
    }
  }

  lemma {:induction false} CutField(f: seq<byte>, c: byte, rest: seq<byte>)
    requires White(c) && forall x :: x in f ==> 33 <= x <= 126
    ensures var t := f + [c] + rest; FieldEnd(t) == At(|f|) && t[..|f|] == f && t[|f| + 1..] == rest
  {
    FieldOf(f, c, rest, 0);
  }

  lemma {:induction false} ValParses(v: seq<byte>, l: Line, third: seq<byte>, used: nat)
    requires Loadable(l) && v == Digits(l.val) && third == l.loc + [l.sep3] + [] && Strtoull(v) == Num(l.val)
    ensures ParseVal(v + [l.sep2] + third, l.time, used) == Parsed(l.time, l.val, l.loc, used + |v| + |l.loc| + 2)
  {
    hide Strtoull, FieldEnd, Digits;
    CutField(v, l.sep2, third);
    CutField(l.loc, l.sep3, []);
  }

  /** Such a line parses as its numbers and its locator. */
  lemma {:induction false} TextParses(l: Line)
    requires Loadable(l)
    ensures ParseLine(Text(l)) == Parsed(l.time, l.val, l.loc, |Text(l)|) && LineOk(Text(l))
  {
    hide Strtoull, FieldEnd, Digits, ParseVal, ParseLoc;
    var d, v := Digits(l.time), Digits(l.val);
    var third := l.loc + [l.sep3] + [];
    var second := v + [l.sep2] + third;
    assert Text(l) == d + [l.sep1] + second;
    CutField(d, l.sep1, second);
    StrtoullDigits(l.time);
    StrtoullDigits(l.val);
    ValParses(v, l, third, |d| + 1);
  }

  /** Exactly the fields that are no number: nothing but an optional sign, or some byte behind it that
      is no digit. */
  predicate NoNumber(w: seq<byte>) {
    || w == [] || w == [43] || w == [45]
    || exists k :: 0 <= k < |w| && !(48 <= w[k] <= 57) && (k > 0 || (w[0] != 43 && w[0] != 45))
  }

  lemma {:induction false} NaNExact(w: seq<byte>)
    ensures Strtoull(w).NaN? <==> NoNumber(w)
  {
    hide Decimal;
    if w != [] && (w[0] == 43 || w[0] == 45) {
      var t := w[1..];
      if t == [] {
        assert w == [w[0]];
      } else if k :| 0 <= k < |t| && !(48 <= t[k] <= 57) {
        assert w[k + 1] == t[k];
      } else {
        assert forall k :: 0 < k < |w| ==> w[k] == t[k - 1];
      }
    }
  }

  /** A proper beginning of a line. */
  ghost predicate Unfinished(t: seq<byte>) {
    exists l: Line, m: nat :: Loadable(l) && m < |Text(l)| && t == Text(l)[..m]
  }

  /** What begins with a byte that is neither printable nor white space, or with a field that is no
      number. */
  ghost predicate Hopeless(t: seq<byte>) {
    || (t != [] && !White(t[0]) && !(33 <= t[0] <= 126))
    || exists n :: 0 <= n < |t| && n < 4096 && White(t[n]) && (forall c :: c in t[..n] ==> 33 <= c <= 126)
                   && NoNumber(t[..n])
  }

  lemma {:induction false} UnfinishedIsCut(t: seq<byte>)
    requires Unfinished(t)
    ensures ShortTail(t)
  {
    hide ParseLine, Loadable, Text;
    var l: Line, m: nat :| Loadable(l) && m < |Text(l)| && t == Text(l)[..m];
    var text := Text(l);
    TextParses(l);
    assert t + text[m..] == text;
    if !ParseLine(t).Cut? {
      LineGrows(t, text[m..]);
      UsedWithin(t);
    }
  }

  lemma {:induction false} UsedWithin(t: seq<byte>)
    ensures ParseLine(t).Parsed? ==> ParseLine(t).used <= |t|
  {
    hide Strtoull;
  }

  lemma {:induction false} HopelessIsBad(t: seq<byte>)
    requires Hopeless(t)
    ensures BadTail(t)
  {
    hide ParseLine, NoNumber;
    var m := if |t| < MAXSIZ then |t| else MAXSIZ;
    var head := t[..m];
    assert t[..|t|] == t;
    if t != [] && !White(t[0]) && !(33 <= t[0] <= 126) {
      OddStart(head);
    } else {
      var n :| 0 <= n < |t| && n < 4096 && White(t[n]) && (forall c :: c in t[..n] ==> 33 <= c <= 126)
               && NoNumber(t[..n]);
      assert head == t[..n] + [t[n]] + head[n + 1..];
      OddNumber(t[..n], t[n], head[n + 1..]);
    }
  }

  lemma {:induction false} OddStart(t: seq<byte>)
    requires t != [] && !White(t[0]) && !(33 <= t[0] <= 126)
    ensures ParseLine(t) == Malformed
  {
    hide Strtoull;
  }

  lemma {:induction false} OddNumber(w: seq<byte>, c: byte, rest: seq<byte>)
    requires White(c) && NoNumber(w) && forall x :: x in w ==> 33 <= x <= 126
    ensures ParseLine(w + [c] + rest) == Malformed
  {
    hide Strtoull, FieldEnd, NoNumber;
    CutField(w, c, rest);
    NaNExact(w);
  }

  lemma {:induction false} RowsAreLines(kind: byte, rows: seq<Line>)
    requires forall i :: 0 <= i < |rows| ==> Loadable(rows[i])
    ensures Lines(Texts(rows))
    ensures forall i :: 0 <= i < |rows| ==>
              Adds(kind, Texts(rows))[i] == Add(kind, rows[i].time, rows[i].val, rows[i].loc)
  {
    hide LineOk, ParseLine, Loadable, Text;
    forall i | 0 <= i < |rows|
      ensures LineOk(Text(rows[i]))
      ensures Adds(kind, Texts(rows))[i] == Add(kind, rows[i].time, rows[i].val, rows[i].loc)
    {
      TextParses(rows[i]);
      AddsAt(kind, Texts(rows), i);
    }
  }

  lemma {:induction false} AddsAt(kind: byte, ls: seq<seq<byte>>, i: nat)
    requires i < |ls|
    ensures Adds(kind, ls)[i] == AddOf(kind, ls[i])
  {
    hide AddOf;
    if i < |ls| - 1 {
      AddsAt(kind, ls[..|ls| - 1], i);
    }
  }

  /** Loading a file that was written row by row sends exactly those rows, for every way the reads cut
      it; an unfinished line behind them is not sent, and one that cannot be a row ends the
      program. */
  method LoadRows(kind: byte, file: seq<byte>, ghost rows: seq<Line>, ghost tail: seq<byte>)
    returns (end: End, sent: seq<Add>, count: nat)
    requires forall i :: 0 <= i < |rows| ==> Loadable(rows[i])
    requires file == Concat(Texts(rows)) + tail && (Unfinished(tail) || Hopeless(tail))
    ensures |sent| == count == |rows|
    ensures forall i :: 0 <= i < |rows| ==> sent[i] == Add(kind, rows[i].time, rows[i].val, rows[i].loc)
    ensures end == if Hopeless(tail) then Refused else if rows == [] then Aborted else Finished
  {
    hide Concat, Texts, Loadable, Lines, Adds, ShortTail, BadTail, Unfinished, Hopeless;
    RowsAreLines(kind, rows);
    TailKinds(tail);
    end, sent, count := Load(kind, file, Texts(rows), tail);
  }

  lemma {:induction false} TailKinds(tail: seq<byte>)
    requires Unfinished(tail) || Hopeless(tail)
    ensures ShortTail(tail) || BadTail(tail)
    ensures Hopeless(tail) <==> BadTail(tail)
  {
    hide ParseLine, Unfinished, Hopeless;
    if Hopeless(tail) {
      HopelessIsBad(tail);
    } else {
      UnfinishedIsCut(tail);
    }
  }

  lemma {:induction false} LoadStarts(k: Loader, file: seq<byte>, ls: seq<seq<byte>>, tail: seq<byte>)
    requires file == Concat(ls) + tail && Lines(ls) && (ShortTail(tail) || BadTail(tail))
    requires k.kb.Valid() && k.kb.Held() == []
    ensures file[0..] == file && [] + Adds(k.kind, ls) == Adds(k.kind, ls) && k.Left(file, ls, tail)
  {
    hide LineOk, Adds, ParseLine;
    CutAtEnd();
    assert [] + file == file;
    if file == [] {
      ExhaustedLines(ls);
    }
  }

  /** Between two callbacks there is room for a read, but for a buffer that the tail of a file
      without any line fills. */
  lemma {:induction false} RoomLeft(k: Loader, file: seq<byte>, pos: nat, rest: seq<seq<byte>>, ls: seq<seq<byte>>,
                                    tail: seq<byte>)
    requires k.kb.Valid() && pos <= |file| && k.Left(file[pos..], rest, tail)
    requires k.kb.data.Length == (if |file| < MAXBUFSIZ then |file| else MAXBUFSIZ)
    requires |file| < MAXBUFSIZ ==> k.kb.ep == pos
    requires file == Concat(ls) + tail && Lines(ls)
    ensures pos < |file| ==> k.kb.Room() > 0
    ensures pos == |file| ==> rest == [] && ShortTail(tail) && !BadTail(tail) && (k.kb.Room() == 0 <==> ls == [])
  {
    hide LineOk, ParseLine, Concat;
    if pos == |file| {
      assert file[pos..] == [];
      TailFills(file, ls, tail);
    } else {
      assert |file[pos..]| > 0;
    }
  }

  lemma {:induction false} TailFills(file: seq<byte>, ls: seq<seq<byte>>, tail: seq<byte>)
    requires file == Concat(ls) + tail && Lines(ls)
    ensures |tail| == |file| <==> ls == []
  {
    hide LineOk;
    if |tail| == |file| {
      ExhaustedLines(ls);
    }
  }

  lemma {:induction false} NoAdds(kind: byte, rest: seq<seq<byte>>, sent: seq<Add>)
    ensures rest == [] ==> sent + Adds(kind, rest) == sent
  {
  }

  lemma {:induction false} ExhaustedLines(ls: seq<seq<byte>>)
    requires Concat(ls) == [] && Lines(ls)
    ensures ls == []
  {
    hide ParseLine;
    if ls != [] {
      assert ls[0] in ls && Concat(ls) == ls[0] + Concat(ls[1..]);
      CutAtEnd();
    }
  }

  lemma {:induction false} SentSoFar(kind: byte, sofar: seq<Add>, rest: seq<seq<byte>>, n: nat)
    requires n <= |rest|
    ensures (sofar + Adds(kind, rest[..n])) + Adds(kind, rest[n..]) == sofar + Adds(kind, rest)
  {
    hide Adds;
    AddsSplit(kind, rest, n);
    Regroup(sofar, Adds(kind, rest[..n]), Adds(kind, rest[n..]));
  }

  lemma {:induction false} AddsSplit(kind: byte, ls: seq<seq<byte>>, n: nat)
    requires n <= |ls|
    ensures Adds(kind, ls) == Adds(kind, ls[..n]) + Adds(kind, ls[n..])
    decreases |ls|
  {
    hide AddOf;
    if n == |ls| {
      assert ls[..n] == ls && ls[n..] == [];
    } else {
      var m := |ls| - 1;
      AddsSplit(kind, ls[..m], n);
      var tail := ls[n..];
      assert ls[..m][..n] == ls[..n] && ls[..m][n..] == tail[..m - n] && tail[m - n] == ls[m] && |tail| - 1 == m - n;
      assert Adds(kind, tail) == Adds(kind, tail[..m - n]) + [AddOf(kind, ls[m])];
      assert Adds(kind, ls) == Adds(kind, ls[..m]) + [AddOf(kind, ls[m])];
    }
  }

  lemma {:induction false} NulAt(h: seq<byte>, off: nat)
    requires off < |h|
    ensures var g := Splice(h, off, [0]);
            |g| == |h| && g[off + 1..] == h[off + 1..] && g[..off] == h[..off] && g[off] == 0
  {
  }

  lemma {:induction false} FieldKept(h: seq<byte>, g: seq<byte>, off: nat, n: nat)
    requires off + n < |h| == |g| && g[..off + n] == h[..off + n]
    ensures g[off..off + n] == h[off..][..n] && h[off..][n + 1..] == h[off + n + 1..]
  {
    assert g[off..off + n] == g[..off + n][off..] && h[off..off + n] == h[..off + n][off..];
  }
}
