/** lib/kcn_msg.c: messages are a 4-byte header (version, type, body length) and a body. */
module Msg {
  import opened Bytes
  import opened Errno
  import opened Buffer
  import opened LocIndex

  const VERSION: byte := 1
  const HDRSIZ := 4
  const MAXSIZ := 4096
  const MAXBODYSIZ := MAXSIZ - HDRSIZ
  const QUERYSIZ := 28
  const RESPONSE_MINSIZ := 2
  const ADD_MINSIZ := 17
  const MAXLOCSIZ := MAXBODYSIZ - ADD_MINSIZ

  const TYPE_QUERY: byte := 1
  const TYPE_RESPONSE: byte := 2
  const TYPE_ADD: byte := 3

  const LOC_DOMAINNAME: byte := 0
  const LOC_URI: byte := 1

  datatype Header = Header(kind: byte, len: nat)

  datatype Query = Query(loctype: byte, maxcount: byte, kind: byte, op: byte, val: u64, start: i64, end: i64)

  /** `loc` is empty both for a null and for a zero-length locator: the wire knows one of them. */
  datatype Response = Response(error: byte, score: byte, loc: seq<byte>)

  datatype Add = Add(kind: byte, time: u64, val: u64, loc: seq<byte>)

  function Frame(kind: byte, body: seq<byte>): (s: seq<byte>)
    requires |body| <= MAXBODYSIZ
    ensures |s| == HDRSIZ + |body|
  {
    [VERSION, kind] + Be16(|body|) + body
  }

  function QueryBody(q: Query): (s: seq<byte>)
    ensures |s| == QUERYSIZ
  {
    [q.loctype, q.maxcount, q.kind, q.op] + Be64(q.val) + Be64(ToU64(q.start)) + Be64(ToU64(q.end))
  }

  function ResponseBody(r: Response): (s: seq<byte>)
    ensures |s| == RESPONSE_MINSIZ + |r.loc|
  {
    [r.error, r.score] + r.loc
  }

  function AddBody(a: Add): (s: seq<byte>)
    ensures |s| == ADD_MINSIZ + |a.loc|
  {
    [a.kind] + Be64(a.time) + Be64(a.val) + a.loc
  }

  /** What kcn_msg_header_decode makes of the unread bytes. */
  datatype HeaderResult = Partial | Bad(errno: int) | Whole(h: Header)

  function DecodeHeader(b: seq<byte>): (r: HeaderResult)
    ensures r.Whole? ==> HDRSIZ + r.h.len <= |b| && r.h.len <= MAXBODYSIZ
    ensures r.Partial? ==> |b| < MAXSIZ
  {
    if |b| < HDRSIZ then Partial
    else if b[0] != VERSION then Bad(EOPNOTSUPP)
    else
      var len := De16(b[2..4]);
      if len > MAXBODYSIZ then Bad(E2BIG)
      else if |b| - HDRSIZ < len then Partial
      else Whole(Header(b[1], len))
  }

  predicate LocTypeOk(t: byte) {
    t == LOC_DOMAINNAME || t == LOC_URI
  }

  function DecodeQuery(body: seq<byte>): Query
    requires |body| == QUERYSIZ
  {
    Query(body[0], body[1], body[2], body[3], De64(body[4..12]), ToI64(De64(body[12..20])), ToI64(De64(body[20..28])))
  }

  function DecodeResponse(body: seq<byte>): Response
    requires |body| >= RESPONSE_MINSIZ
  {
    Response(body[0], body[1], body[2..])
  }

  function DecodeAdd(body: seq<byte>): Add
    requires |body| >= ADD_MINSIZ
  {
    Add(body[0], De64(body[1..9]), De64(body[9..17]), body[17..])
  }

  lemma {:induction false} FrameHead(kind: byte, body: seq<byte>)
    requires |body| <= MAXBODYSIZ
    ensures var s := Frame(kind, body);
            |s| == HDRSIZ + |body| && s[0] == VERSION && s[1] == kind && s[2..4] == Be16(|body|) && s[HDRSIZ..] == body
  {
    hide Be16;
    ThreeParts([VERSION, kind], Be16(|body|), body, []);
    assert Frame(kind, body) == [VERSION, kind] + (Be16(|body|) + body + []);
  }

  /** A frame followed by anything is recognised, with exactly its own body. */
  lemma {:induction false} FrameDecodes(kind: byte, body: seq<byte>, rest: seq<byte>)
    requires |body| <= MAXBODYSIZ
    ensures var s := Frame(kind, body) + rest;
            && DecodeHeader(s) == Whole(Header(kind, |body|))
            && s[HDRSIZ..HDRSIZ + |body|] == body && s[HDRSIZ + |body|..] == rest
  {
    hide Be16, De16, Frame;
    FrameHead(kind, body);
    var f := Frame(kind, body);
    SliceLeft(f, rest, 2, 4);
    SliceLeft(f, rest, HDRSIZ, |f|);
    assert f[HDRSIZ..|f|] == f[HDRSIZ..] && (f + rest)[|f|..] == rest;
  }

  /** A strict prefix of a frame is never recognised, and never an error. */
  lemma {:induction false} PrefixIsPartial(kind: byte, body: seq<byte>, n: nat)
    requires |body| <= MAXBODYSIZ && n < HDRSIZ + |body|
    ensures DecodeHeader(Frame(kind, body)[..n]) == Partial
  {
    hide Be16, De16, Frame;
    FrameHead(kind, body);
    var s := Frame(kind, body);
    if n >= HDRSIZ {
      SubSlice(s, 0, n, 2, 4);
      assert s[0..n] == s[..n] && s[..n][0] == s[0];
    }
  }

  lemma {:induction false} QueryRoundTrip(q: Query)
    ensures DecodeQuery(QueryBody(q)) == q
  {
    hide Be64, De64;
    var h, a, b, c := [q.loctype, q.maxcount, q.kind, q.op], Be64(q.val), Be64(ToU64(q.start)), Be64(ToU64(q.end));
    assert QueryBody(q) == h + (a + b + c);
    ThreeParts(h, a, b, c);
    SignedRoundTrip(q.start);
    SignedRoundTrip(q.end);
  }

  lemma {:induction false} ResponseRoundTrip(r: Response)
    ensures DecodeResponse(ResponseBody(r)) == r
  {
  }

  lemma {:induction false} AddRoundTrip(a: Add)
    ensures DecodeAdd(AddBody(a)) == a
  {
    hide Be64, De64;
    var h, x, y := [a.kind], Be64(a.time), Be64(a.val);
    assert AddBody(a) == h + (x + y + a.loc);
    ThreeParts(h, x, y, a.loc);
    assert AddBody(a)[17..] == AddBody(a)[17..17 + |a.loc|];
  }

  /** The messages byte by byte: version 1, type 1, 2 or 3, a 16-bit body length, and the fields in
      this order, integers big-endian (Bytes.Be64Bytes) and times as unsigned. */
  lemma {:induction false} WireLayout(q: Query, r: Response, a: Add)
    requires |r.loc| <= 4090 && |a.loc| <= 4075
    ensures var start: int, end: int := if q.start < 0 then q.start + 0x1_0000_0000_0000_0000 else q.start,
                                        if q.end < 0 then q.end + 0x1_0000_0000_0000_0000 else q.end;
            Frame(TYPE_QUERY, QueryBody(q)) ==
            [1, 1, 0, 28, q.loctype, q.maxcount, q.kind, q.op] + Be64(q.val) + Be64(start) + Be64(end)
    ensures Frame(TYPE_RESPONSE, ResponseBody(r)) ==
            [1, 2, (|r.loc| + 2) / 0x100, (|r.loc| + 2) % 0x100, r.error, r.score] + r.loc
    ensures Frame(TYPE_ADD, AddBody(a)) ==
            [1, 3, (|a.loc| + 17) / 0x100, (|a.loc| + 17) % 0x100, a.kind] + Be64(a.time) + Be64(a.val) + a.loc
  {
    hide Be64;
    ResponseWire(r);
    QueryWire(q);
    AddWire(a);
  }

  lemma {:induction false} ResponseWire(r: Response)
    requires |r.loc| <= 4090
    ensures Frame(TYPE_RESPONSE, ResponseBody(r)) ==
            [1, 2, (|r.loc| + 2) / 0x100, (|r.loc| + 2) % 0x100, r.error, r.score] + r.loc
  {
    var n := |r.loc| + 2;
    assert Frame(TYPE_RESPONSE, ResponseBody(r)) == [1, 2] + [n / 0x100, n % 0x100] + ([r.error, r.score] + r.loc);
  }

  lemma {:induction false} QueryWire(q: Query)
    ensures Frame(TYPE_QUERY, QueryBody(q)) ==
            [1, 1, 0, 28, q.loctype, q.maxcount, q.kind, q.op]
            + Be64(q.val) + Be64(ToU64(q.start)) + Be64(ToU64(q.end))
  {
    hide Be64;
    var h, x, y, z := [q.loctype, q.maxcount, q.kind, q.op], Be64(q.val), Be64(ToU64(q.start)), Be64(ToU64(q.end));
    assert Frame(TYPE_QUERY, QueryBody(q)) == [1, 1] + [0, 28] + (h + x + y + z);
    assert [1, 1, 0, 28, q.loctype, q.maxcount, q.kind, q.op] == [1, 1] + [0, 28] + h;
  }

  lemma {:induction false} AddWire(a: Add)
    requires |a.loc| <= 4075
    ensures Frame(TYPE_ADD, AddBody(a)) ==
            [1, 3, (|a.loc| + 17) / 0x100, (|a.loc| + 17) % 0x100, a.kind] + Be64(a.time) + Be64(a.val) + a.loc
  {
    hide Be64;
    var n, x, y := |a.loc| + 17, Be64(a.time), Be64(a.val);
    assert Frame(TYPE_ADD, AddBody(a)) == [1, 3] + [n / 0x100, n % 0x100] + ([a.kind] + x + y + a.loc);
    assert [1, 3, n / 0x100, n % 0x100, a.kind] == [1, 3] + [n / 0x100, n % 0x100] + [a.kind];
  }

  /** A locator the add decoder accepts fits the 16-bit length of an entry, a 4096-byte file
      buffer as an entry, and a response. */
  lemma {:induction false} CapacityAcrossFiles(b: seq<byte>)
    requires DecodeHeader(b).Whole? && DecodeHeader(b).h.len >= ADD_MINSIZ
    ensures var loc := DecodeAdd(b[HDRSIZ..HDRSIZ + DecodeHeader(b).h.len]).loc;
            && |loc| <= MAXLOCSIZ && |loc| < 0x1_0000
            && |Entry(loc)| <= MAXSIZ
            && HDRSIZ + |ResponseBody(Response(0, 0, loc))| <= MAXSIZ
  {
    hide De16, De64;
  }

  /** kcn_msg_header_encode: the header goes into the space kept in front of the body. */
  method HeaderEncode(kb: Buf, kind: byte)
    requires kb.Valid() && kb.sp == HDRSIZ && |kb.Held()| <= MAXBODYSIZ
    modifies kb, kb.data
    ensures kb.Valid() && kb.sp == 0 && kb.Held() == Frame(kind, old(kb.Held()))
  {
    hide Be16, Splice;
    ghost var body := kb.Held();
    kb.Prepend(HDRSIZ);
    ghost var x := kb.Held();
    assert x[HDRSIZ..] == body;
    kb.Put8(VERSION);
    kb.Put8(kind);
    kb.Put16(kb.Len() - HDRSIZ);
    HeaderOver(x, kind, body);
  }

  lemma {:induction false} HeaderOver(x: seq<byte>, kind: byte, body: seq<byte>)
    requires |x| == HDRSIZ + |body| && x[HDRSIZ..] == body && |body| <= MAXBODYSIZ
    ensures Splice(Splice(Splice(x, 0, [VERSION]), 1, [kind]), 2, Be16(|body|)) == Frame(kind, body)
  {
    hide Be16, Splice;
    SpliceSplice(x, 0, [VERSION], [kind]);
    SpliceSplice(x, 0, [VERSION] + [kind], Be16(|body|));
    var h := [VERSION] + [kind] + Be16(|body|);
    SpliceFront(x, h);
    assert h + body == Frame(kind, body);
  }

  lemma {:induction false} SpliceFront(x: seq<byte>, p: seq<byte>)
    requires |p| <= |x|
    ensures Splice(x, 0, p) == p + x[|p|..]
  {
  }

  method QueryEncode(kb: Buf, q: Query)
    requires kb.data.Length == MAXSIZ
    modifies kb, kb.data
    ensures kb.Valid() && kb.Held() == Frame(TYPE_QUERY, QueryBody(q))
  {
    hide Be64, Splice, Frame;
    kb.Reset(HDRSIZ);
    kb.Put8(q.loctype);
    kb.Put8(q.maxcount);
    kb.Put8(q.kind);
    kb.Put8(q.op);
    assert kb.Held() == [q.loctype, q.maxcount, q.kind, q.op];
    kb.Put64(q.val);
    kb.Put64(ToU64(q.start));
    kb.Put64(ToU64(q.end));
    assert kb.Held() == QueryBody(q);
    HeaderEncode(kb, TYPE_QUERY);
  }

  method ResponseEncode(kb: Buf, r: Response)
    requires kb.data.Length == MAXSIZ && HDRSIZ + RESPONSE_MINSIZ + |r.loc| <= MAXSIZ
    modifies kb, kb.data
    ensures kb.Valid() && kb.Held() == Frame(TYPE_RESPONSE, ResponseBody(r))
  {
    hide Splice, Frame;
    kb.Reset(HDRSIZ);
    kb.Put8(r.error);
    kb.Put8(r.score);
    if r.loc != [] {
      kb.Put(r.loc);
    }
    assert kb.Held() == ResponseBody(r);
    HeaderEncode(kb, TYPE_RESPONSE);
  }

  method AddEncode(kb: Buf, a: Add)
    requires kb.data.Length == MAXSIZ && |a.loc| <= MAXLOCSIZ
    modifies kb, kb.data
    ensures kb.Valid() && kb.Held() == Frame(TYPE_ADD, AddBody(a))
  {
    hide Be64, Splice, Frame;
    kb.Reset(HDRSIZ);
    kb.Put8(a.kind);
    kb.Put64(a.time);
    kb.Put64(a.val);
    kb.Put(a.loc);
    assert kb.Held() == AddBody(a);
    HeaderEncode(kb, TYPE_ADD);
  }

  /** kcn_msg_header_decode: on success the header is gone from the buffer; a partial message
      leaves it untouched with the cursor at its start. */
  method HeaderDecode(kb: Buf) returns (r: HeaderResult)
    requires kb.Valid() && kb.cp == kb.sp
    modifies kb
    ensures kb.Valid() && r == DecodeHeader(old(kb.Held()))
    ensures r.Whole? ==> kb.Held() == old(kb.Held())[HDRSIZ..]
    ensures !r.Whole? ==> kb.Held() == old(kb.Held())
    ensures !r.Bad? ==> kb.cp == kb.sp
  {
    hide De16;
    ghost var b, d := kb.Held(), kb.data[..];
    if kb.TrailingData() < HDRSIZ {
      return Partial;
    }
    SubSlice(d, kb.sp, kb.ep, 2, 4);
    var version := kb.Get8();
    var kind := kb.Get8();
    var len := kb.Get16();
    if version != VERSION {
      return Bad(EOPNOTSUPP);
    }
    if len > MAXBODYSIZ {
      return Bad(E2BIG);
    }
    if kb.TrailingData() < len {
      kb.Start();
      return Partial;
    }
    kb.TrimHead(kb.HeadingData());
    r := Whole(Header(kind, len));
  }

  /** kcn_msg_query_decode: a wrong length consumes nothing, a wrong locator type everything. */
  method QueryDecode(kb: Buf, h: Header) returns (error: int, q: Query)
    requires kb.Valid() && kb.cp == kb.sp && h.len <= kb.Len()
    modifies kb
    ensures kb.Valid() && kb.cp == kb.sp
    ensures h.len != QUERYSIZ ==> error == EINVAL && kb.Held() == old(kb.Held())
    ensures h.len == QUERYSIZ ==>
              && kb.Held() == old(kb.Held())[QUERYSIZ..]
              && q == DecodeQuery(old(kb.Held())[..QUERYSIZ])
              && error == if LocTypeOk(q.loctype) then 0 else EINVAL
  {
    hide De64, DecodeQuery;
    q := Query(0, 0, 0, 0, 0, 0, 0);
    if h.len != QUERYSIZ {
      return EINVAL, q;
    }
    QueryAt(kb);
    var loctype := kb.Get8();
    var maxcount := kb.Get8();
    var kind := kb.Get8();
    var op := kb.Get8();
    var val := kb.Get64();
    var start := kb.Get64();
    var end := kb.Get64();
    kb.TrimHead(kb.HeadingData());
    q := Query(loctype, maxcount, kind, op, val, ToI64(start), ToI64(end));
    error := if LocTypeOk(loctype) then 0 else EINVAL;
  }

  /** The fields of a body as they lie in the buffer. */
  lemma {:induction false} QueryAt(kb: Buf)
    requires kb.Valid() && kb.Len() >= QUERYSIZ
    ensures var (d, p) := (kb.data, kb.sp);
            DecodeQuery(kb.Held()[..QUERYSIZ]) ==
            Query(d[p], d[p + 1], d[p + 2], d[p + 3], De64(d[p + 4..p + 12]), ToI64(De64(d[p + 12..p + 20])),
                  ToI64(De64(d[p + 20..p + 28])))
  {
    hide De64;
    var body, p := kb.Held()[..QUERYSIZ], kb.sp;
    BodyField(kb.data[..], p, kb.ep, QUERYSIZ, 4, 12);
    BodyField(kb.data[..], p, kb.ep, QUERYSIZ, 12, 20);
    BodyField(kb.data[..], p, kb.ep, QUERYSIZ, 20, 28);
    assert kb.data[..][p..kb.ep] == kb.Held();
    assert forall k :: 0 <= k < 4 ==> body[k] == kb.data[p + k];
  }

  lemma {:induction false} ResponseAt(kb: Buf, n: nat)
    requires kb.Valid() && kb.Len() >= n >= RESPONSE_MINSIZ
    ensures var (d, p) := (kb.data, kb.sp);
            DecodeResponse(kb.Held()[..n]) == Response(d[p], d[p + 1], d[p + 2..p + n])
  {
    var body, p := kb.Held()[..n], kb.sp;
    BodyField(kb.data[..], p, kb.ep, n, 2, n);
    assert kb.data[..][p..kb.ep] == kb.Held();
    assert body[2..] == body[2..n] && body[0] == kb.data[p] && body[1] == kb.data[p + 1];
  }

  lemma {:induction false} AddAt(kb: Buf, n: nat)
    requires kb.Valid() && kb.Len() >= n >= ADD_MINSIZ
    ensures var (d, p) := (kb.data, kb.sp);
            DecodeAdd(kb.Held()[..n]) == Add(d[p], De64(d[p + 1..p + 9]), De64(d[p + 9..p + 17]), d[p + 17..p + n])
  {
    hide De64;
    var body, p := kb.Held()[..n], kb.sp;
    BodyField(kb.data[..], p, kb.ep, n, 1, 9);
    BodyField(kb.data[..], p, kb.ep, n, 9, 17);
    BodyField(kb.data[..], p, kb.ep, n, 17, n);
    assert kb.data[..][p..kb.ep] == kb.Held();
    assert body[17..] == body[17..n] && body[0] == kb.data[p];
  }

  lemma {:induction false} BodyField(d: seq<byte>, sp: nat, ep: nat, n: nat, lo: nat, hi: nat)
    requires sp <= ep <= |d| && lo <= hi <= n <= ep - sp
    ensures d[sp..ep][..n][lo..hi] == d[sp + lo..sp + hi]
  {
    SubSlice(d, sp, ep, lo, hi);
    assert d[sp..ep][..n][lo..hi] == d[sp..ep][lo..hi];
  }

  method ResponseDecode(kb: Buf, h: Header) returns (error: int, r: Response)
    requires kb.Valid() && kb.cp == kb.sp && h.len <= kb.Len()
    modifies kb
    ensures kb.Valid() && kb.cp == kb.sp
    ensures h.len < RESPONSE_MINSIZ ==> error == EINVAL && kb.Held() == old(kb.Held())
    ensures h.len >= RESPONSE_MINSIZ ==>
              && error == 0 && kb.Held() == old(kb.Held())[h.len..]
              && r == DecodeResponse(old(kb.Held())[..h.len])
  {
    hide DecodeResponse;
    r := Response(0, 0, []);
    if h.len < RESPONSE_MINSIZ {
      return EINVAL, r;
    }
    ResponseAt(kb, h.len);
    var e := kb.Get8();
    var score := kb.Get8();
    var n := h.len - RESPONSE_MINSIZ;
    r := Response(e, score, if n > 0 then kb.data[kb.cp..kb.cp + n] else []);
    kb.Forward(n);
    kb.TrimHead(kb.HeadingData());
    error := 0;
  }

  method AddDecode(kb: Buf, h: Header) returns (error: int, a: Add)
    requires kb.Valid() && kb.cp == kb.sp && h.len <= kb.Len()
    modifies kb
    ensures kb.Valid() && kb.cp == kb.sp
    ensures h.len < ADD_MINSIZ ==> error == EINVAL && kb.Held() == old(kb.Held())
    ensures h.len >= ADD_MINSIZ ==>
              && error == 0 && kb.Held() == old(kb.Held())[h.len..]
              && a == DecodeAdd(old(kb.Held())[..h.len])
  {
    hide De64, DecodeAdd;
    a := Add(0, 0, 0, []);
    if h.len < ADD_MINSIZ {
      return EINVAL, a;
    }
    AddAt(kb, h.len);
    var kind := kb.Get8();
    var time := kb.Get64();
    var val := kb.Get64();
    a := Add(kind, time, val, kb.data[kb.cp..kb.cp + (h.len - ADD_MINSIZ)]);
    kb.TrimHead(h.len);
    error := 0;
  }
}
