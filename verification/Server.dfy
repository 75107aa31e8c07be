/** kcndbd/kcndb_server.c: messages of one connection against the tables. A table is taken at
    its view; Sessions.Serve shows that Table.Table acts on its files in the same way. */
module Server {
  import opened Bytes
  import opened Errno
  import opened Buffer
  import opened LocIndex
  import opened Records
  import opened Table
  import Store
  import opened Msg
  import opened Framing
  import N = Net

  /** An out-of-range table type or operator, for which the source defines no behaviour. */
  const UNDEFINED := -1
  /** time(2) failed. */
  const NO_CLOCK := -2

  /** `clock` holds what the next calls of time(2) return. */
  datatype Srv = Srv(tables: map<byte, Store.View>, out: seq<seq<byte>>, clock: seq<i64>)

  function OpOf(op: byte): Op
    requires 1 <= op <= 5
  {
    match op
    case 1 => LT
    case 2 => LE
    case 3 => EQ
    case 4 => GT
    case _ => GE
  }

  predicate Answerable(tables: map<byte, Store.View>, q: Query) {
    q.kind in tables && 1 <= q.op <= 5
  }

  function Hits(v: Store.View, q: Query): seq<seq<byte>>
    requires 1 <= q.op <= 5
  {
    Locators(v.items, Scan(v.recs, Eq(q.kind as int, OpOf(q.op), q.val, q.start, q.end), q.maxcount as int))
  }

  /** A response frame; a locator of the index always fits one (Msg.CapacityAcrossFiles). */
  function Response1(loc: seq<byte>): seq<byte> {
    if |loc| <= MAXLOCSIZ then Frame(TYPE_RESPONSE, ResponseBody(Response(0, 0, loc))) else []
  }

  function Terminator(error: byte): seq<byte> {
    Frame(TYPE_RESPONSE, ResponseBody(Response(error, 0, [])))
  }

  function Responses(locs: seq<seq<byte>>): (o: seq<seq<byte>>)
    ensures |o| == |locs|
  {
    if locs == [] then [] else Responses(locs[..|locs| - 1]) + [Response1(locs[|locs| - 1])]
  }

  /** The answer to a query: one response a locator, then a terminator with the status. */
  function Reply(locs: seq<seq<byte>>): seq<seq<byte>> {
    Responses(locs) + [Terminator(if locs == [] then ESRCH else 0)]
  }

  function HandleQuery(s: Srv, body: seq<byte>): Verdict<Srv> {
    if |body| != QUERYSIZ then More(s.(out := s.out + [Terminator(EINVAL)]), false)
    else
      var q := DecodeQuery(body);
      if !LocTypeOk(q.loctype) then More(s.(out := s.out + [Terminator(EINVAL)]), true)
      else if !Answerable(s.tables, q) then Stop(s, true, UNDEFINED)
      else More(s.(out := s.out + Reply(Hits(s.tables[q.kind], q))), true)
  }

  function Now(s: Srv): i64 {
    if s.clock == [] then TIME_NOW else s.clock[0]
  }

  function Tick(s: Srv): Srv {
    s.(clock := if s.clock == [] then [] else s.clock[1..])
  }

  function AddAt(s: Srv, a: Add, time: i64): Verdict<Srv>
    requires a.kind in s.tables
  {
    var (w, ok) := Store.AddView(s.tables[a.kind], time, a.val, a.loc);
    if ok then More(s.(tables := s.tables[a.kind := w]), true) else Stop(s, true, ERANGE)
  }

  function HandleAdd(s: Srv, body: seq<byte>): Verdict<Srv> {
    if |body| < ADD_MINSIZ then Stop(s, false, EINVAL)
    else
      var a := DecodeAdd(body);
      if a.kind !in s.tables then Stop(s, true, UNDEFINED)
      else if a.time != ToU64(TIME_NOW) then AddAt(s, a, ToI64(a.time))
      else if Now(s) == TIME_NOW then Stop(Tick(s), true, NO_CLOCK)
      else AddAt(Tick(s), a, Now(s))
  }

  function Handle(s: Srv, h: Header, body: seq<byte>): Verdict<Srv> {
    if h.kind == TYPE_QUERY then HandleQuery(s, body)
    else if h.kind == TYPE_ADD then HandleAdd(s, body)
    else Stop(s, false, EOPNOTSUPP)
  }

  /** Every stored locator came through an add message. */
  ghost predicate Small(tables: map<byte, Store.View>) {
    forall t, i :: t in tables && 0 <= i < |tables[t].items| ==> |tables[t].items[i].loc| <= MAXLOCSIZ
  }

  lemma {:induction false} HitsSmall(tables: map<byte, Store.View>, q: Query)
    requires Small(tables) && Answerable(tables, q)
    ensures forall i :: 0 <= i < |Hits(tables[q.kind], q)| ==> |Hits(tables[q.kind], q)[i]| <= MAXLOCSIZ
  {
    hide Scan;
  }

  lemma {:induction false} AddKeepsSmall(s: Srv, a: Add, time: i64)
    requires Small(s.tables) && a.kind in s.tables && |a.loc| <= MAXLOCSIZ
    ensures Small(AddAt(s, a, time).s.tables)
  {
    hide Hash, Find;
  }

  class Server {
    const net: N.Net
    var tables: map<byte, Store.View>
    var clock: seq<i64>

    constructor (net: N.Net, tables: map<byte, Store.View>, clock: seq<i64>)
      ensures this.net == net && this.tables == tables && this.clock == clock
    {
      this.net, this.tables, this.clock := net, tables, clock;
    }

    ghost function State(): Srv
      reads this, net
    {
      Srv(tables, net.obufq, clock)
    }

    /** The connection is up, its scratch buffer is its own, and queued output is armed. */
    ghost predicate Ready(kb: Buf)
      reads this, net, kb
    {
      && net.state == N.ESTABLISHED && net.obuf.data.Length == MAXSIZ && Small(tables)
      && kb.Valid() && kb.cp == kb.sp && kb != net.obuf && kb.data != net.obuf.data
      && (net.obufq != [] ==> net.wr)
    }

    method ResponseSend(r: Response)
      requires net.state == N.ESTABLISHED && net.obuf.data.Length == MAXSIZ && |r.loc| <= MAXLOCSIZ
      modifies net, net.obuf, net.obuf.data
      ensures net.Snap() == N.Written(old(net.Snap()), Frame(TYPE_RESPONSE, ResponseBody(r)))
      ensures net.state == N.ESTABLISHED
    {
      hide Frame;
      ResponseEncode(net.obuf, r);
      var ok := net.Write(net.obuf);
    }

    method QueryProcess(kb: Buf, h: Header) returns (status: int)
      requires Ready(kb) && h.len <= |kb.Held()|
      modifies net, net.obuf, net.obuf.data, kb
      ensures Ready(kb) && net.sent == old(net.sent) && net.rd == old(net.rd)
      ensures var v := HandleQuery(old(State()), old(kb.Held())[..h.len]);
              status == if v.Stop? then v.status else 0
      ensures State() == HandleQuery(old(State()), old(kb.Held())[..h.len]).s
      ensures kb.Held() == if HandleQuery(old(State()), old(kb.Held())[..h.len]).took then old(kb.Held())[h.len..]
                           else old(kb.Held())
    {
      hide DecodeQuery, Small, Hits, Frame, ResponseBody;
      var error, q := QueryDecode(kb, h);
      if error != 0 {
        ResponseSend(Response(EINVAL, 0, []));
        return 0;
      }
      if !Answerable(tables, q) {
        return UNDEFINED;
      }
      var locs := Hits(tables[q.kind], q);
      HitsSmall(tables, q);
      ghost var out, left := net.obufq, kb.Held();
      for i := 0 to |locs|
        invariant Ready(kb) && net.sent == old(net.sent) && net.rd == old(net.rd)
        invariant net.obufq == out + Responses(locs[..i]) && kb.Held() == left
      {
        ResponseSend(Response(0, 0, locs[i]));
        assert locs[..i + 1][..i] == locs[..i];
      }
      assert locs[..|locs|] == locs;
      ResponseSend(Response(if locs == [] then ESRCH else 0, 0, []));
      assert net.obufq == out + Reply(locs);
      status := 0;
    }

    method AddProcess(kb: Buf, h: Header) returns (status: int)
      requires Ready(kb) && h.len <= |kb.Held()| && h.len <= MAXBODYSIZ
      modifies this`tables, this`clock, kb
      ensures Ready(kb)
      ensures var v := HandleAdd(old(State()), old(kb.Held())[..h.len]);
              status == if v.Stop? then v.status else 0
      ensures State() == HandleAdd(old(State()), old(kb.Held())[..h.len]).s
      ensures kb.Held() == if HandleAdd(old(State()), old(kb.Held())[..h.len]).took then old(kb.Held())[h.len..]
                           else old(kb.Held())
    {
      hide DecodeAdd, Small;
      var error, a := AddDecode(kb, h);
      if error != 0 {
        return error;
      }
      if a.kind !in tables {
        return UNDEFINED;
      }
      var time := ToI64(a.time);
      if a.time == ToU64(TIME_NOW) {
        time := if clock == [] then TIME_NOW else clock[0];
        clock := if clock == [] then [] else clock[1..];
        if time == TIME_NOW {
          return NO_CLOCK;
        }
      }
      AddBodyLoc(old(kb.Held())[..h.len]);
      AddKeepsSmall(State(), a, time);
      var (w, ok) := Store.AddView(tables[a.kind], time, a.val, a.loc);
      if !ok {
        return ERANGE;
      }
      tables := tables[a.kind := w];
      status := 0;
    }

    /** kcndb_server_recv over one batch of input. */
    method Recv(kb: Buf) returns (status: int)
      requires Ready(kb)
      modifies this`tables, this`clock, net, net.obuf, net.obuf.data, kb
      ensures kb.Valid() && State() == Framing.Drain(old(kb.Held()), old(State()), Handle).s
      ensures net.sent == old(net.sent) && net.rd == old(net.rd) && net.state == N.ESTABLISHED
      ensures net.obufq != [] ==> net.wr
      ensures var o := Framing.Drain(old(kb.Held()), old(State()), Handle);
              && kb.Held() == o.rest
              && status == (if o.Waiting? then EAGAIN else o.status)
              && (o.Waiting? ==> Ready(kb) && |kb.Held()| < MAXSIZ)
    {
      hide DecodeHeader, HandleQuery, HandleAdd, Small, Framing.Drain;
      while kb.TrailingData() > 0
        invariant Ready(kb) && net.sent == old(net.sent) && net.rd == old(net.rd)
        invariant Framing.Drain(kb.Held(), State(), Handle) == Framing.Drain(old(kb.Held()), old(State()), Handle)
        decreases kb.Len()
      {
        ghost var b, s := kb.Held(), State();
        DrainSettles(b, s, Handle);
        DrainTurn(b, s, Handle);
        var r := HeaderDecode(kb);
        match r {
          case Partial => return EAGAIN;
          case Bad(e) => return e;
          case Whole(h) =>
            StopsHard(s, h, b[HDRSIZ..][..h.len]);
            if h.kind == TYPE_QUERY {
              status := QueryProcess(kb, h);
            } else if h.kind == TYPE_ADD {
              status := AddProcess(kb, h);
            } else {
              status := EOPNOTSUPP;
            }
            if status != 0 {
              return;
            }
        }
      }
      EmptyIsPartial();
      DrainTurn([], State(), Handle);
      assert kb.Held() == [];
      status := EAGAIN;
    }

    /** A read event that brings bytes: they are handled behind what was kept, and either the
        read is armed again with room left for more, or the connection is closed. */
    method OnReadable(r: Io)
      requires net.rd && N.Ok(net.Snap()) && Ready(net.ibuf)
      requires net.ibuf.data.Length == MAXSIZ && |net.ibuf.Held()| < MAXSIZ
      requires r.Moved? && 0 < |r.bs| <= net.ibuf.Room()
      modifies this`tables, this`clock, net, net.obuf, net.obuf.data, net.ibuf, net.ibuf.data
      ensures net.sent == old(net.sent)
      ensures var o := Framing.Drain(old(net.ibuf.Held()) + r.bs, old(State()), Handle);
              && State() == o.s && net.ibuf.Valid() && net.ibuf.Held() == o.rest
              && (o.Waiting? ==> net.rd && Ready(net.ibuf) && |net.ibuf.Held()| < MAXSIZ && net.ibuf.Room() > 0)
              && (o.Stopped? ==> net.state == N.DISCONNECTED)
    {
      hide Small, DecodeHeader, HandleQuery, HandleAdd;
      var deliver := net.ReadCb(true, r);
      ghost var b, s := net.ibuf.Held(), State();
      StopIsHard(b, s);
      var status := Recv(net.ibuf);
      net.ReadDone(status);
    }
  }

  /** A query of the wrong length is answered with EINVAL, and the loop goes on at its body. */
  lemma {:induction false} WrongLengthQuery(body: seq<byte>, rest: seq<byte>, s: Srv)
    requires |body| <= MAXBODYSIZ && |body| != QUERYSIZ
    ensures Framing.Drain(Frame(TYPE_QUERY, body) + rest, s, Handle) ==
            Framing.Drain(body + rest, s.(out := s.out + [Terminator(EINVAL)]), Handle)
  {
    hide Frame, Terminator, Framing.Drain;
    DrainFrame(TYPE_QUERY, body, rest, s, Handle);
  }

  /** The messages that end a connection, with what is left unread: a type without a handler, an add
      shorter than its fixed fields, an add to an unknown table, and an add at "now" (a time of all
      ones) when time(2) fails. */
  lemma {:induction false} Refusals(kind: byte, body: seq<byte>, rest: seq<byte>, s: Srv)
    requires |body| <= MAXBODYSIZ
    ensures var o := Framing.Drain(Frame(kind, body) + rest, s, Handle);
            && (kind != 1 && kind != 3 ==> o == Stopped(body + rest, s, EOPNOTSUPP))
            && (kind == 3 && |body| < 17 ==> o == Stopped(body + rest, s, EINVAL))
            && (kind == 3 && |body| >= 17 && body[0] !in s.tables ==> o == Stopped(rest, s, UNDEFINED))
            && (kind == 3 && |body| >= 17 && body[0] in s.tables
                && body[1..9] == [255, 255, 255, 255, 255, 255, 255, 255] && (s.clock == [] || s.clock[0] == -1)
                ==> o == Stopped(rest, s.(clock := if s.clock == [] then [] else s.clock[1..]), NO_CLOCK))
  {
    hide Frame, HandleQuery, AddAt, De64, DecodeHeader;
    DrainFrame(kind, body, rest, s, Handle);
    if |body| >= 17 && body[1..9] == [255, 255, 255, 255, 255, 255, 255, 255] {
      De64Bytes(body[1..9]);
    }
  }

  /** After a query the loop goes on behind it, or has stopped there, if and only if the query
      has the right length or no body at all. */
  lemma {:induction false} InStepExact(body: seq<byte>, rest: seq<byte>, s: Srv)
    requires |body| <= MAXBODYSIZ
    ensures var b := Frame(TYPE_QUERY, body) + rest;
            && DecodeHeader(b) == Whole(Header(TYPE_QUERY, |body|))
            && (Unparsed(b, Header(TYPE_QUERY, |body|), Handle(s, Header(TYPE_QUERY, |body|), body).took) == rest
                <==> |body| == QUERYSIZ || body == [])
  {
    hide Frame, Terminator, DecodeQuery, Hits, Reply, DecodeHeader;
    FrameDecodes(TYPE_QUERY, body, rest);
    var b := Frame(TYPE_QUERY, body) + rest;
    assert b[HDRSIZ..] == body + rest;
    if body != [] {
      assert |body + rest| > |rest|;
    } else {
      assert [] + rest == rest;
    }
  }

  /** Out of step, one stray byte ends the connection and the good query behind it is never
      answered. */
  lemma {:induction false} StrayByte(q: Query, s: Srv)
    ensures Framing.Drain(Frame(TYPE_QUERY, [0]) + Frame(TYPE_QUERY, QueryBody(q)), s, Handle) ==
            Stopped([0] + Frame(TYPE_QUERY, QueryBody(q)), s.(out := s.out + [Terminator(EINVAL)]), EOPNOTSUPP)
  {
    hide Terminator, QueryBody, Be16, Handle;
    WrongLengthQuery([0], Frame(TYPE_QUERY, QueryBody(q)), s);
  }

  /** The server's loop never stops with a status that would keep the connection reading. */
  lemma {:induction false} StopIsHard(b: seq<byte>, s: Srv)
    ensures var o := Framing.Drain(b, s, Handle); o.Stopped? ==> o.status != 0 && o.status != EAGAIN
    decreases |b|
  {
    hide Handle, De16;
    match DecodeHeader(b)
    case Partial =>
    case Bad(_) =>
    case Whole(h) =>
      var v := Handle(s, h, b[HDRSIZ..HDRSIZ + h.len]);
      StopsHard(s, h, b[HDRSIZ..HDRSIZ + h.len]);
      if v.More? {
        StopIsHard(Unparsed(b, h, v.took), v.s);
      }
  }

  lemma {:induction false} AddBodyLoc(body: seq<byte>)
    requires ADD_MINSIZ <= |body| <= MAXBODYSIZ
    ensures |DecodeAdd(body).loc| <= MAXLOCSIZ
  {
    hide De64;
  }

  lemma {:induction false} EmptyIsPartial()
    ensures DecodeHeader([]).Partial?
  {
  }

  lemma {:induction false} StopsHard(s: Srv, h: Header, body: seq<byte>)
    ensures var v := Handle(s, h, body); v.Stop? ==> v.status != 0 && v.status != EAGAIN
  {
    hide DecodeQuery, DecodeAdd, Reply, Store.AddView;
  }
}
