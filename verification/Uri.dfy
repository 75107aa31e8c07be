/** lib/kcn_uri.c: a growing, NUL-terminated URI with percent-encoded parameter values. */
module Uri {
  import opened Bytes
  import opened Ascii

  const FACTOR := 3

  /** A C string without its terminator. */
  type CString = s: seq<byte> | forall k :: 0 <= k < |s| ==> s[k] != 0

  predicate IsNormal(c: byte) {
    ZERO <= c <= NINE || UPPER_A <= c <= UPPER_Z || LOWER_A <= c <= LOWER_Z
    || c == DOT || c == MINUS || c == UNDERSCORE
  }

  function Hex(v: int): byte
    requires 0 <= v < 16
  {
    if v < 10 then ZERO + v else UPPER_A + (v - 10)
  }

  function EncByte(c: byte): (e: seq<byte>)
    ensures |e| == if IsNormal(c) || c == SPACE then 1 else FACTOR
  {
    if IsNormal(c) then [c] else if c == SPACE then [PLUS] else [PERCENT, Hex(c / 16), Hex(c % 16)]
  }

  function Enc(s: seq<byte>): seq<byte> {
    if s == [] then [] else Enc(s[..|s| - 1]) + EncByte(s[|s| - 1])
  }

  function UnHex(c: byte): nat {
    if ZERO <= c <= NINE then c as int - ZERO
    else if UPPER_A <= c <= UPPER_F then 10 + (c as int - UPPER_A)
    else 0
  }

  /** Percent decoding, with '+' for a space. */
  function Dec(t: seq<byte>): seq<byte> {
    if t == [] then []
    else if t[0] == PERCENT && |t| >= 3 then
      [(UnHex(t[1]) * 16 + UnHex(t[2])) % 0x100] + Dec(t[3..])
    else [if t[0] == PLUS then SPACE else t[0]] + Dec(t[1..])
  }

  lemma {:induction false} HexBack(c: byte)
    ensures UnHex(Hex(c / 16)) * 16 + UnHex(Hex(c % 16)) == c
  {
  }

  lemma {:induction false} DecEscape(x: byte, y: byte, c: byte, t: seq<byte>)
    requires UnHex(x) * 16 + UnHex(y) == c
    ensures Dec([PERCENT, x, y] + t) == [c] + Dec(t)
  {
    hide UnHex;
    assert ([PERCENT, x, y] + t)[3..] == t;
  }

  lemma {:induction false} DecPlain(x: byte, c: byte, t: seq<byte>)
    requires x != PERCENT && c == if x == PLUS then SPACE else x
    ensures Dec([x] + t) == [c] + Dec(t)
  {
    assert ([x] + t)[1..] == t;
  }

  lemma {:induction false} DecByte(c: byte, t: seq<byte>)
    ensures Dec(EncByte(c) + t) == [c] + Dec(t)
  {
    hide Dec, Hex, UnHex;
    if IsNormal(c) {
      DecPlain(c, c, t);
    } else if c == SPACE {
      DecPlain(PLUS, c, t);
    } else {
      HexBack(c);
      DecEscape(Hex(c / 16), Hex(c % 16), c, t);
    }
  }

  lemma {:induction false} DecEncBefore(s: seq<byte>, t: seq<byte>)
    ensures Dec(Enc(s) + t) == s + Dec(t)
    decreases |s|
  {
    hide Dec, EncByte;
    if s == [] {
      assert Enc(s) + t == t;
    } else {
      var m, c := |s| - 1, s[|s| - 1];
      Regroup(Enc(s[..m]), EncByte(c), t);
      DecEncBefore(s[..m], EncByte(c) + t);
      DecByte(c, t);
      FrontLast(s);
      Regroup(s[..m], [c], Dec(t));
    }
  }

  /** Decoding recovers every value. */
  lemma {:induction false} DecEnc(s: seq<byte>)
    ensures Dec(Enc(s)) == s
  {
    DecEncBefore(s, []);
    assert Enc(s) + [] == Enc(s);
  }

  /** An encoded value contains only unreserved characters, '+', '%' and so never '&' or '='. */
  lemma {:induction false} EncPlain(s: seq<byte>)
    ensures forall k :: 0 <= k < |Enc(s)| ==> Enc(s)[k] !in {AMPERSAND, EQUALS, 0}
  {
    if s != [] {
      EncPlain(s[..|s| - 1]);
    }
  }

  /** At `k` stands a letter, a digit, '.', '-', '_' or '+', or '%' before two upper-case
      hexadecimal digits. */
  predicate EncodedAt(e: seq<byte>, k: nat)
    requires k < |e|
  {
    || 48 <= e[k] <= 57 || 65 <= e[k] <= 90 || 97 <= e[k] <= 122
    || e[k] == 43 || e[k] == 45 || e[k] == 46 || e[k] == 95
    || (e[k] == 37 && k + 2 < |e|
        && (48 <= e[k + 1] <= 57 || 65 <= e[k + 1] <= 70) && (48 <= e[k + 2] <= 57 || 65 <= e[k + 2] <= 70))
  }

  /** The alphabet of an encoded value. */
  lemma {:induction false} EncAlphabet(s: seq<byte>)
    ensures forall k :: 0 <= k < |Enc(s)| ==> EncodedAt(Enc(s), k)
  {
    hide EncodedAt, EncByte;
    if s != [] {
      var a, b := Enc(s[..|s| - 1]), EncByte(s[|s| - 1]);
      EncAlphabet(s[..|s| - 1]);
      ByteAlphabet(s[|s| - 1]);
      forall k | 0 <= k < |Enc(s)|
        ensures EncodedAt(Enc(s), k)
      {
        if k < |a| {
          EncodedLeft(a, b, k);
        } else {
          EncodedRight(a, b, k - |a|);
        }
      }
    }
  }

  lemma {:induction false} ByteAlphabet(c: byte)
    ensures forall k :: 0 <= k < |EncByte(c)| ==> EncodedAt(EncByte(c), k)
  {
  }

  lemma {:induction false} EncodedLeft(a: seq<byte>, b: seq<byte>, k: nat)
    requires k < |a| && EncodedAt(a, k)
    ensures EncodedAt(a + b, k)
  {
  }

  lemma {:induction false} EncodedRight(a: seq<byte>, b: seq<byte>, k: nat)
    requires k < |b| && EncodedAt(b, k)
    ensures EncodedAt(a + b, |a| + k)
  {
  }

  /** "0123456789ABCDEF" */
  const HEXSTR: seq<byte> := [48, 49, 50, 51, 52, 53, 54, 55, 56, 57, 65, 66, 67, 68, 69, 70]

  /** What each byte of the value becomes: letters, digits, '.', '-' and '_' stay, a space is '+', any
      other byte is '%' with its two digits. */
  lemma {:induction false} EncParts(s: seq<byte>) returns (parts: seq<seq<byte>>)
    ensures |parts| == |s| && Concat(parts) == Enc(s)
    ensures forall i :: 0 <= i < |s| ==>
              var c := s[i];
              parts[i] == if 48 <= c <= 57 || 65 <= c <= 90 || 97 <= c <= 122 || c == 45 || c == 46 || c == 95 then [c]
                          else if c == 32 then [43] else [37, HEXSTR[c / 16], HEXSTR[c % 16]]
  {
    hide Concat, EncByte;
    parts := seq(|s|, i requires 0 <= i < |s| => EncByte(s[i]));
    forall i | 0 <= i < |s|
      ensures var c := s[i];
              parts[i] == if 48 <= c <= 57 || 65 <= c <= 90 || 97 <= c <= 122 || c == 45 || c == 46 || c == 95 then [c]
                          else if c == 32 then [43] else [37, HEXSTR[c / 16], HEXSTR[c % 16]]
    {
      BytePart(s[i]);
    }
    PartsJoin(s, parts);
  }

  lemma {:induction false} BytePart(c: byte)
    ensures EncByte(c) ==
            if 48 <= c <= 57 || 65 <= c <= 90 || 97 <= c <= 122 || c == 45 || c == 46 || c == 95 then [c]
            else if c == 32 then [43] else [37, HEXSTR[c / 16], HEXSTR[c % 16]]
  {
  }

  lemma {:induction false} PartsJoin(s: seq<byte>, parts: seq<seq<byte>>)
    requires |parts| == |s| && forall i :: 0 <= i < |s| ==> parts[i] == EncByte(s[i])
    ensures Concat(parts) == Enc(s)
  {
    hide EncByte;
    if s != [] {
      var n := |s| - 1;
      PartsJoin(s[..n], parts[..n]);
      FrontLast(parts);
      ConcatAppend(parts[..n], [parts[n]]);
      ConcatCons(parts[n], []);
      assert [parts[n]] + [] == [parts[n]] && parts[n] + [] == parts[n];
    }
  }

  datatype Param = Param(name: seq<byte>, val: seq<byte>)

  function ParamText(p: Param): seq<byte> {
    [AMPERSAND] + p.name + [EQUALS] + Enc(p.val)
  }

  function Build(ps: seq<Param>): seq<byte> {
    if ps == [] then [] else ParamText(ps[0]) + Build(ps[1..])
  }

  predicate NameOk(n: seq<byte>) {
    forall k :: 0 <= k < |n| ==> n[k] != AMPERSAND && n[k] != EQUALS
  }

  function IndexOf(t: seq<byte>, c: byte): (i: nat)
    ensures i <= |t| && (i < |t| ==> t[i] == c)
    ensures forall k :: 0 <= k < i ==> t[k] != c
  {
    if t == [] || t[0] == c then 0 else 1 + IndexOf(t[1..], c)
  }

  /** A reader of the query string: fields end at '&', names at '=', values are decoded. */
  function Parse(t: seq<byte>): seq<Param> {
    if t == [] || t[0] != AMPERSAND then []
    else
      var u := t[1..];
      var j := IndexOf(u, AMPERSAND);
      var i := IndexOf(u[..j], EQUALS);
      [Param(u[..i], Dec(u[if i < j then i + 1 else j..j]))] + Parse(u[j..])
  }

  lemma {:induction false} IndexIs(t: seq<byte>, c: byte, i: nat)
    requires i <= |t| && (i < |t| ==> t[i] == c) && forall k :: 0 <= k < i ==> t[k] != c
    ensures IndexOf(t, c) == i
  {
    var j := IndexOf(t, c);
    assert j <= i;
  }

  lemma {:induction false} ParseStep(name: seq<byte>, e: seq<byte>, rest: seq<byte>, t: seq<byte>)
    requires NameOk(name) && forall k :: 0 <= k < |e| ==> e[k] != AMPERSAND
    requires rest == [] || rest[0] == AMPERSAND
    requires t == [AMPERSAND] + ((name + [EQUALS] + e) + rest)
    ensures Parse(t) == [Param(name, Dec(e))] + Parse(rest)
  {
    hide Dec;
    var field := name + [EQUALS] + e;
    var u := t[1..];
    assert u == field + rest;
    IndexIs(u, AMPERSAND, |field|);
    assert u[..|field|] == field && u[|field|..] == rest;
    IndexIs(field, EQUALS, |name|);
    FieldSlices(name, e, rest, u);
  }

  lemma {:induction false} FieldSlices(name: seq<byte>, e: seq<byte>, rest: seq<byte>, u: seq<byte>)
    requires u == (name + [EQUALS] + e) + rest
    ensures u[..|name|] == name && u[|name| + 1..|name| + 1 + |e|] == e
  {
  }

  /** Whatever the values, the parameters of a built query string read back uniquely. */
  lemma {:induction false} ParseBuild(ps: seq<Param>)
    requires forall p :: p in ps ==> NameOk(p.name)
    ensures Parse(Build(ps)) == ps
  {
    hide Enc, Dec, Parse;
    if ps == [] {
      ParseEmpty();
    } else {
      var p, rest := ps[0], Build(ps[1..]);
      var e := Enc(p.val);
      assert Build(ps) == [AMPERSAND] + ((p.name + [EQUALS] + e) + rest);
      EncPlain(p.val);
      assert p in ps;
      ParseStep(p.name, e, rest, Build(ps));
      DecEnc(p.val);
      ParseBuild(ps[1..]);
      assert ps == [p] + ps[1..];
    }
  }

  lemma {:induction false} ParseEmpty()
    ensures Parse([]) == []
  {
  }

  datatype Value = Null | Str(s: CString)

  class Uri {
    var urilen: nat
    var uri: array<byte>

    /** The terminator sits right behind the text. */
    ghost predicate Valid()
      reads this, uri
    {
      urilen < uri.Length && uri[urilen] == 0
    }

    ghost function Text(): seq<byte>
      requires Valid()
      reads this, uri
    {
      uri[..urilen]
    }

    constructor (base: CString)
      ensures Valid() && Text() == base && fresh(uri)
    {
      var n := StrLen(base, false);
      var a := new byte[n + 1];
      forall i | 0 <= i < |base| {
        a[i] := base[i];
      }
      a[n] := 0;
      urilen, uri := n, a;
    }

    /** realloc to hold `tlen` more bytes, with a terminator where they will end. */
    method EnsureTrailingSpace(tlen: nat)
      requires Valid()
      modifies this
      ensures fresh(uri) && uri.Length == urilen + tlen + 1 && uri[urilen + tlen] == 0
      ensures urilen == old(urilen) && uri[..urilen] == old(Text())
    {
      var nlen := urilen + tlen;
      var a := new byte[nlen + 1];
      forall i | 0 <= i < nlen + 1 && i < uri.Length {
        a[i] := uri[i];
      }
      a[nlen] := 0;
      uri := a;
      assert uri[..urilen] == old(uri[..urilen]);
    }

    method Resize(len: nat)
      requires Valid() && len <= urilen
      modifies this`urilen, uri
      ensures Valid() && uri == old(uri) && Text() == old(Text())[..len]
    {
      urilen := len;
      uri[len] := 0;
    }

    method EncPuts(s: CString)
      requires Valid()
      modifies this
      ensures Valid() && fresh(uri) && Text() == old(Text()) + Enc(s)
    {
      hide Enc, EncByte;
      var n := StrLen(s, true);
      EnsureTrailingSpace(n);
      ghost var before := Text0();
      var d, i := urilen, 0;
      EncSteps(s, 0);
      while i < |s|
        invariant 0 <= i <= |s| && uri.Length == urilen + n + 1 && uri[urilen + n] == 0 && n == |Enc(s)|
        invariant d == urilen + |Enc(s[..i])| <= urilen + n && fresh(uri)
        invariant urilen == old(urilen) && uri[..d] == before + Enc(s[..i])
      {
        EncSteps(s, i);
        d := PutByte(s[i], d);
        i := i + 1;
      }
      assert s[..i] == s;
      urilen := d;
    }

    ghost function Text0(): seq<byte>
      requires urilen <= uri.Length
      reads this, uri
    {
      uri[..urilen]
    }

    /** One character, as itself, '+' or three characters. */
    method PutByte(c: byte, d: nat) returns (e: nat)
      requires d + |EncByte(c)| <= uri.Length
      modifies uri
      ensures e == d + |EncByte(c)| && uri[..e] == old(uri[..d]) + EncByte(c)
      ensures forall k :: e <= k < uri.Length ==> uri[k] == old(uri[k])
    {
      if IsNormal(c) {
        uri[d] := c;
        e := d + 1;
      } else if c == SPACE {
        uri[d] := PLUS;
        e := d + 1;
      } else {
        uri[d] := PERCENT;
        uri[d + 1] := Hex(c / 16);
        uri[d + 2] := Hex(c % 16);
        e := d + 3;
      }
    }

    method Puts(s: CString)
      requires Valid()
      modifies this
      ensures Valid() && fresh(uri) && Text() == old(Text()) + s
    {
      var slen := StrLen(s, false);
      EnsureTrailingSpace(slen);
      ghost var t := uri[..urilen];
      forall i | 0 <= i < slen {
        uri[urilen + i] := s[i];
      }
      urilen := urilen + slen;
      assert uri[..urilen] == t + s;
    }

    /** A parameter with a null value is skipped. */
    method ParamPuts(param: CString, val: Value)
      requires Valid()
      modifies this
      ensures Valid() && (uri == old(uri) || fresh(uri))
      ensures Text() == old(Text()) + if val.Null? then [] else ParamText(Param(param, val.s))
      ensures !val.Null? ==> Text() == old(Text()) + ([38] + param + [61] + Enc(val.s))
    {
      hide Enc;
      if val.Null? {
        assert Text() + [] == Text();
        return;
      }
      ghost var t := Text();
      Puts([AMPERSAND]);
      Puts(param);
      Puts([EQUALS]);
      EncPuts(val.s);
      assert Text() == t + ParamText(Param(param, val.s));
    }
  }

  /** An argument of kcn_uri_param_puts. */
  datatype Arg = Arg(name: CString, val: Value)

  /** The parameters that are given a value. */
  function Given(args: seq<Arg>): (ps: seq<Param>)
    ensures (forall a :: a in args ==> NameOk(a.name)) ==> forall p :: p in ps ==> NameOk(p.name)
  {
    if args == [] then []
    else
      var a := args[|args| - 1];
      Given(args[..|args| - 1]) + if a.val.Null? then [] else [Param(a.name, a.val.s)]
  }

  lemma {:induction false} BuildSnoc(ps: seq<Param>, p: Param)
    ensures Build(ps + [p]) == Build(ps) + ParamText(p)
  {
    hide ParamText;
    if ps == [] {
      assert [] + [p] == [p] && [p][1..] == [];
      assert Build([p]) == ParamText(p) + Build([p][1..]);
    } else {
      BuildSnoc(ps[1..], p);
      assert (ps + [p])[0] == ps[0] && (ps + [p])[1..] == ps[1..] + [p];
    }
  }

  lemma {:induction false} GivenSnoc(args: seq<Arg>, i: nat)
    requires i < |args|
    ensures Build(Given(args[..i + 1])) ==
            Build(Given(args[..i])) + if args[i].val.Null? then [] else ParamText(Param(args[i].name, args[i].val.s))
  {
    hide ParamText;
    assert args[..i + 1][..i] == args[..i];
    if args[i].val.Str? {
      BuildSnoc(Given(args[..i]), Param(args[i].name, args[i].val.s));
    } else {
      assert Given(args[..i]) + [] == Given(args[..i]);
      assert Build(Given(args[..i])) + [] == Build(Given(args[..i]));
    }
  }

  /** One request: the arguments behind the base, which read back, and the URI cut back to the
      base for the next request. */
  method Request(u: Uri, args: seq<Arg>) returns (query: seq<byte>)
    requires u.Valid()
    modifies u, u.uri
    ensures u.Valid() && u.Text() == old(u.Text())
    ensures query == old(u.Text()) + Build(Given(args))
    ensures (forall a :: a in args ==> NameOk(a.name)) ==> Parse(query[old(u.urilen)..]) == Given(args)
  {
    hide Enc, Build, Given, NameOk, Parse, ParamText;
    var len := u.urilen;
    ghost var t := u.Text();
    GivenNothing(args, t);
    for i := 0 to |args|
      invariant u.Valid() && (u.uri == old(u.uri) || fresh(u.uri)) && u.Text() == t + Build(Given(args[..i]))
    {
      GivenSnoc(args, i);
      ghost var before := u.Text();
      u.ParamPuts(args[i].name, args[i].val);
      assert u.Text() == t + Build(Given(args[..i + 1]));
    }
    assert args[..|args|] == args;
    query := u.uri[..u.urilen];
    assert query[len..] == Build(Given(args));
    if forall a :: a in args ==> NameOk(a.name) {
      ParseBuild(Given(args));
    }
    u.Resize(len);
    assert u.Text() == t;
  }

  lemma {:induction false} GivenNothing(args: seq<Arg>, t: seq<byte>)
    ensures t + Build(Given(args[..0])) == t
  {
  }

  lemma {:induction false} EncSteps(s: seq<byte>, i: nat)
    requires i <= |s|
    ensures |Enc(s[..i])| <= |Enc(s)|
    ensures i < |s| ==> Enc(s[..i + 1]) == Enc(s[..i]) + EncByte(s[i]) && |Enc(s[..i + 1])| <= |Enc(s)|
    ensures i == 0 ==> Enc(s[..i]) == []
    decreases |s| - i
  {
    if i == |s| {
      assert s[..i] == s;
    } else {
      assert s[..i + 1][..i] == s[..i];
      EncSteps(s, i + 1);
    }
  }

  /** kcn_uri_str_len: exactly the number of bytes that will be written. */
  method StrLen(s: CString, encoding: bool) returns (len: nat)
    ensures len == if encoding then |Enc(s)| else |s|
  {
    len := 0;
    var i := 0;
    while i < |s|
      invariant 0 <= i <= |s| && len == if encoding then |Enc(s[..i])| else i
    {
      assert s[..i + 1][..i] == s[..i];
      if encoding && !IsNormal(s[i]) && s[i] != SPACE {
        len := len + FACTOR;
      } else {
        len := len + 1;
      }
      i := i + 1;
    }
    assert s[..i] == s;
  }
}
