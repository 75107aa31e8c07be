/** The receive loops of kcndbd/kcndb_server.c and lib/kcn_client.c have one shape: take whole
    messages off the buffer until one is partial, malformed, or stops the loop. */
module Framing {
  import opened Bytes
  import opened Errno
  import opened Msg

  /** What handling one message does: the new state, whether its body was consumed, and
      whether the loop goes on. */
  datatype Verdict<S> = More(s: S, took: bool) | Stop(s: S, took: bool, status: int)

  type Handler<!S> = (S, Header, seq<byte>) -> Verdict<S>

  datatype Outcome<S> = Waiting(rest: seq<byte>, s: S) | Stopped(rest: seq<byte>, s: S, status: int)

  function Unparsed(b: seq<byte>, h: Header, took: bool): seq<byte>
    requires HDRSIZ + h.len <= |b|
  {
    b[if took then HDRSIZ + h.len else HDRSIZ..]
  }

  function Drain<S>(b: seq<byte>, s: S, f: Handler<S>): (o: Outcome<S>)
    decreases |b|
  {
    match DecodeHeader(b)
    case Partial => Waiting(b, s)
    case Bad(e) => Stopped(b, s, e)
    case Whole(h) =>
      match f(s, h, b[HDRSIZ..HDRSIZ + h.len])
      case More(s', took) => Drain(Unparsed(b, h, took), s', f)
      case Stop(s', took, status) => Stopped(Unparsed(b, h, took), s', status)
  }

  /** One read after another: each chunk goes behind what was left unparsed. */
  function Feed<S>(o: Outcome<S>, chunks: seq<seq<byte>>, f: Handler<S>): Outcome<S>
    decreases |chunks|
  {
    if chunks == [] || o.Stopped? then o
    else Feed(Drain(o.rest + chunks[0], o.s, f), chunks[1..], f)
  }

  lemma {:induction false} HeaderGrows(a: seq<byte>, c: seq<byte>)
    ensures DecodeHeader(a).Partial? || DecodeHeader(a + c) == DecodeHeader(a)
  {
    hide De16;
    if |a| >= HDRSIZ {
      SliceLeft(a, c, 2, 4);
    }
  }

  /** More input changes nothing that has been decided: messages handled, error, position. */
  lemma {:induction false} DrainAppend<S>(a: seq<byte>, c: seq<byte>, s: S, f: Handler<S>)
    ensures var o := Drain(a, s, f);
            Drain(a + c, s, f) ==
            match o
            case Waiting(rest, s') => Drain(rest + c, s', f)
            case Stopped(rest, s', status) => Stopped(rest + c, s', status)
    decreases |a|
  {
    hide DecodeHeader;
    HeaderGrows(a, c);
    match DecodeHeader(a)
    case Partial =>
    case Bad(_) =>
    case Whole(h) =>
      SliceLeft(a, c, HDRSIZ, HDRSIZ + h.len);
      var v := f(s, h, a[HDRSIZ..HDRSIZ + h.len]);
      var u := Unparsed(a, h, v.took);
      assert Unparsed(a + c, h, v.took) == u + c;
      if v.More? {
        DrainAppend(u, c, v.s, f);
      }
  }

  /** For every split of a stream into reads: the same messages handled in the same order, the
      same first hard error, and exactly the unparsed suffix kept. */
  lemma {:induction false} FeedIsDrain<S>(rest: seq<byte>, s: S, chunks: seq<seq<byte>>, f: Handler<S>)
    requires Drain(rest, s, f) == Waiting(rest, s)
    ensures var (o, whole) := (Feed(Waiting(rest, s), chunks, f), Drain(rest + Concat(chunks), s, f));
            && o.s == whole.s
            && (whole.Waiting? ==> o == whole)
            && (whole.Stopped? ==> o.Stopped? && o.status == whole.status && o.rest <= whole.rest)
    decreases |chunks|
  {
    if chunks == [] {
      assert rest + Concat(chunks) == rest;
    } else {
      var b, tail := rest + chunks[0], Concat(chunks[1..]);
      var o := Drain(b, s, f);
      assert rest + Concat(chunks) == b + tail;
      DrainAppend(b, tail, s, f);
      if o.Waiting? {
        DrainSettles(b, s, f);
        FeedIsDrain(o.rest, o.s, chunks[1..], f);
      }
    }
  }

  /** What is left after a partial message cannot be parsed any further. */
  lemma {:induction false} DrainSettles<S>(b: seq<byte>, s: S, f: Handler<S>)
    ensures var o := Drain(b, s, f);
            o.Waiting? ==> Drain(o.rest, o.s, f) == o && |o.rest| < MAXSIZ
    decreases |b|
  {
    hide DecodeHeader;
    match DecodeHeader(b)
    case Partial =>
    case Bad(_) =>
    case Whole(h) =>
      var v := f(s, h, b[HDRSIZ..HDRSIZ + h.len]);
      if v.More? {
        DrainSettles(Unparsed(b, h, v.took), v.s, f);
      }
  }

  /** One turn of a loop: what the header at the front leads to, with the header taken off. */
  lemma {:induction false} DrainTurn<S>(b: seq<byte>, s: S, f: Handler<S>)
    ensures match DecodeHeader(b)
            case Partial => Drain(b, s, f) == Waiting(b, s)
            case Bad(e) => Drain(b, s, f) == Stopped(b, s, e)
            case Whole(h) =>
              var u := b[HDRSIZ..];
              var v := f(s, h, u[..h.len]);
              var rest := if v.took then u[h.len..] else u;
              Drain(b, s, f) ==
              match v case More(s', _) => Drain(rest, s', f) case Stop(s', _, status) => Stopped(rest, s', status)
  {
    hide DecodeHeader;
    if DecodeHeader(b).Whole? {
      var h, u := DecodeHeader(b).h, b[HDRSIZ..];
      assert u[..h.len] == b[HDRSIZ..HDRSIZ + h.len];
      assert u[h.len..] == b[HDRSIZ + h.len..];
    }
  }

  /** A header that is not all there waits; one of another version, or with a length beyond 4092
      bytes, stops the loop before its message is handled, with nothing taken. */
  lemma {:induction false} BadHeaderStops<S>(b: seq<byte>, s: S, f: Handler<S>)
    ensures |b| < 4 ==> Drain(b, s, f) == Waiting(b, s)
    ensures |b| >= 4 && b[0] != 1 ==> Drain(b, s, f) == Stopped(b, s, EOPNOTSUPP)
    ensures |b| >= 4 && b[0] == 1 && b[2] as int * 0x100 + b[3] > 4092 ==> Drain(b, s, f) == Stopped(b, s, E2BIG)
    ensures |b| >= 4 && b[0] == 1 && b[2] as int * 0x100 + b[3] <= 4092 ==>
              (DecodeHeader(b) == Partial <==> |b| < 4 + b[2] as int * 0x100 + b[3])
  {
    if |b| >= 4 {
      assert b[2..4] == [b[2], b[3]];
    }
  }

  /** A well-formed message at the head of the buffer is handled with exactly its body. */
  lemma {:induction false} DrainFrame<S>(kind: byte, body: seq<byte>, rest: seq<byte>, s: S, f: Handler<S>)
    requires |body| <= MAXBODYSIZ
    ensures Drain(Frame(kind, body) + rest, s, f) ==
            match f(s, Header(kind, |body|), body)
            case More(s', took) => Drain(if took then rest else body + rest, s', f)
            case Stop(s', took, status) => Stopped(if took then rest else body + rest, s', status)
  {
    hide DecodeHeader, Frame;
    FrameDecodes(kind, body, rest);
    var b := Frame(kind, body) + rest;
    assert b[HDRSIZ..] == b[HDRSIZ..HDRSIZ + |body|] + b[HDRSIZ + |body|..];
  }
}
