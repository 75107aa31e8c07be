/** lib/kcn_net.c: a connection as libevent drives it. Events are one-shot: a callback runs only
    for an armed event, which it disarms. */
module Net {
  import opened Bytes
  import opened Errno
  import opened Buffer

  datatype NetState = INIT | PENDING | ESTABLISHED | DISCONNECTED

  /** One write(2): the kernel took up to n bytes, or failed. */
  datatype Wr = Took(n: nat) | Error(errno: int)

  datatype Conn = Conn(state: NetState, rd: bool, wr: bool, q: seq<seq<byte>>, sent: seq<byte>)

  datatype Drained = Empty | Again | Dead

  function QueueAfter(q: seq<seq<byte>>, m: nat): seq<seq<byte>>
    requires q != [] && m <= |q[0]|
  {
    if m == |q[0]| then q[1..] else [q[0][m..]] + q[1..]
  }

  lemma {:induction false} ConcatSplit(q: seq<seq<byte>>, m: nat)
    requires q != [] && m <= |q[0]|
    ensures q[0][..m] + Concat(QueueAfter(q, m)) == Concat(q)
  {
    var tail := Concat(q[1..]);
    assert Concat(q) == q[0] + tail;
    if m < |q[0]| {
      ConcatCons(q[0][m..], q[1..]);
      assert q[0][..m] + q[0][m..] == q[0];
      assert q[0][..m] + (q[0][m..] + tail) == (q[0][..m] + q[0][m..]) + tail;
    } else {
      assert q[0][..m] == q[0];
    }
  }

  /** The drain loop against an endless script of write results; it ends with the queue. */
  function DrainQueue(q: seq<seq<byte>>, sent: seq<byte>, io: nat -> Wr, i: nat)
    : (r: (seq<seq<byte>>, seq<byte>, Drained))
    ensures r.1 + Concat(r.0) == sent + Concat(q)
    ensures r.2 == Empty ==> r.0 == []
    decreases |Concat(q)|
  {
    if q == [] then (q, sent, Empty)
    else match io(i)
      case Error(e) => (q, sent, if e == EAGAIN then Again else Dead)
      case Took(n) =>
        var m := Min(n, |q[0]|);
        if m == 0 then (q, sent, Dead)
        else
          ConcatSplit(q, m);
          assert sent + (q[0][..m] + Concat(QueueAfter(q, m))) == (sent + q[0][..m]) + Concat(QueueAfter(q, m));
          DrainQueue(QueueAfter(q, m), sent + q[0][..m], io, i + 1)
  }

  function Disconnected(c: Conn): Conn {
    c.(state := DISCONNECTED, rd := false, wr := false)
  }

  /** kcn_net_state_change to ESTABLISHED: a read asked for while pending is armed now. */
  function Established(c: Conn): Conn {
    c.(state := ESTABLISHED, rd := c.rd || c.state == PENDING)
  }

  function ReadEnabled(c: Conn): Conn {
    match c.state
    case ESTABLISHED => c.(rd := true)
    case DISCONNECTED => c
    case _ => c.(state := PENDING)
  }

  function Written(c: Conn, m: seq<byte>): Conn {
    if c.state == DISCONNECTED then c else c.(q := c.q + [m], wr := true)
  }

  function WrittenAll(c: Conn, ms: seq<seq<byte>>): Conn {
    if ms == [] then c else Written(WrittenAll(c, ms[..|ms| - 1]), ms[|ms| - 1])
  }

  function ReadFinished(c: Conn, error: int): Conn {
    if error == EAGAIN then ReadEnabled(c) else if error != 0 then Disconnected(c) else c
  }

  function WriteFinished(c: Conn, io: nat -> Wr): Conn {
    var (q, sent, d) := DrainQueue(c.q, c.sent, io, 0);
    var c' := c.(q := q, sent := sent);
    match d
    case Empty => c'
    case Again => c'.(wr := true)
    case Dead => Disconnected(c')
  }

  /** `ready` is the event itself, else its timeout; a read callback queues `ms` and returns
      `status`; `io` answers the writes. */
  datatype Event =
    | AppWrite(m: seq<byte>)
    | AppRead
    | ReadEvent(ready: bool, readError: int, ms: seq<seq<byte>>, status: int)
    | WriteEvent(ready: bool, io: nat -> Wr)

  /** `early` is the workaround at kcn_net.c:288-295 for a timeout before the connection is up. */
  function Step(c: Conn, e: Event, early: bool): Conn {
    match e
    case AppWrite(m) => Written(c, m)
    case AppRead => ReadEnabled(c)
    case ReadEvent(ready, readError, ms, status) =>
      if !c.rd then c
      else
        var c1 := c.(rd := false);
        if !ready then Disconnected(c1)
        else if readError != 0 then ReadFinished(Established(c1), readError)
        else ReadFinished(WrittenAll(Established(c1), ms), status)
    case WriteEvent(ready, io) =>
      if !c.wr then c
      else
        var c1 := c.(wr := false);
        if early && c.state == PENDING && !ready then Established(c1)
        else if !ready then Disconnected(c1)
        else WriteFinished(Established(c1), io)
  }

  function Run(c: Conn, es: seq<Event>, early: bool): Conn {
    if es == [] then c else Step(Run(c, es[..|es| - 1], early), es[|es| - 1], early)
  }

  /** What every event sequence keeps. */
  predicate Ok(c: Conn) {
    && (c.state == INIT || c.state == PENDING ==> c.wr)
    && (c.rd ==> c.state == ESTABLISHED)
    && (c.q != [] && c.state != DISCONNECTED ==> c.wr)
    && (c.state == DISCONNECTED ==> !c.rd && !c.wr)
  }

  const NEW := Conn(INIT, false, true, [], [])

  lemma {:induction false} WrittenAllOk(c: Conn, ms: seq<seq<byte>>)
    requires c.state == ESTABLISHED && (c.q != [] ==> c.wr)
    ensures var c' := WrittenAll(c, ms);
            c'.state == ESTABLISHED && c'.rd == c.rd && (c'.q != [] ==> c'.wr) && c'.sent == c.sent
    ensures WrittenAll(c, ms).q == c.q + ms
  {
    if ms == [] {
      assert c.q + ms == c.q;
    } else {
      WrittenAllOk(c, ms[..|ms| - 1]);
      assert c.q + ms == (c.q + ms[..|ms| - 1]) + [ms[|ms| - 1]];
    }
  }

  lemma {:induction false} StepOk(c: Conn, e: Event)
    requires Ok(c)
    ensures Ok(Step(c, e, false))
  {
    hide DrainQueue, WrittenAll;
    if e.ReadEvent? && c.rd {
      WrittenAllOk(Established(c.(rd := false)), e.ms);
    }
  }

  /** The connection invariants, over every sequence of events from a new connection. */
  lemma {:induction false} RunOk(es: seq<Event>)
    ensures Ok(Run(NEW, es, false))
  {
    hide Step, Ok;
    if es != [] {
      RunOk(es[..|es| - 1]);
      StepOk(Run(NEW, es[..|es| - 1], false), es[|es| - 1]);
    } else {
      assert Ok(NEW) by { NewOk(); }
    }
  }

  lemma {:induction false} NewOk()
    ensures Ok(NEW)
  {
  }

  /** The early-timeout workaround keeps the invariants exactly when nothing was queued:
      otherwise the queue is left with no write event armed. */
  lemma {:induction false} EarlyTimeoutExact(c: Conn, io: nat -> Wr)
    requires Ok(c) && c.state == PENDING
    ensures Ok(Step(c, WriteEvent(false, io), true)) <==> c.q == []
  {
  }

  /** A disconnected connection stays as it is. */
  lemma {:induction false} DisconnectedStays(c: Conn, e: Event, early: bool)
    requires Ok(c) && c.state == DISCONNECTED
    ensures Step(c, e, early) == c
  {
    hide DrainQueue, WrittenAll;
  }

  /** A read asked for before the connection is up: it stays asked for until it is armed. */
  lemma {:induction false} PendingReadKept(c: Conn, e: Event, early: bool)
    requires Ok(c) && c.state == PENDING
    ensures var c' := Step(c, e, early);
            c'.state == PENDING || c'.state == DISCONNECTED || (c'.state == ESTABLISHED && c'.rd)
    ensures e.WriteEvent? && e.ready ==> Step(c, e, early).state != PENDING
  {
    hide DrainQueue, WrittenAll;
  }

  /** The messages an event hands to the queue, if the connection takes them. */
  function Accepted(c: Conn, e: Event): seq<seq<byte>> {
    match e
    case AppWrite(m) => if c.state == DISCONNECTED then [] else [m]
    case ReadEvent(ready, readError, ms, _) => if c.rd && ready && readError == 0 then ms else []
    case _ => []
  }

  function AcceptedBy(c: Conn, es: seq<Event>, early: bool): seq<seq<byte>> {
    if es == [] then []
    else
      var before := es[..|es| - 1];
      AcceptedBy(c, before, early) + Accepted(Run(c, before, early), es[|es| - 1])
  }

  lemma {:induction false} StepConserves(c: Conn, e: Event, early: bool)
    ensures var c' := Step(c, e, early);
            c'.sent + Concat(c'.q) == c.sent + Concat(c.q) + Concat(Accepted(c, e))
  {
    hide DrainQueue, WrittenAll, Concat;
    var ms := Accepted(c, e);
    ConcatAppend(c.q, ms);
    assert c.sent + (Concat(c.q) + Concat(ms)) == c.sent + Concat(c.q) + Concat(ms);
    if e.ReadEvent? && c.rd {
      AllQueued(Established(c.(rd := false)), e.ms);
    }
    if ms == [] {
      assert c.q + ms == c.q;
    }
  }

  lemma {:induction false} AllQueued(c: Conn, ms: seq<seq<byte>>)
    requires c.state == ESTABLISHED
    ensures var c' := WrittenAll(c, ms); c'.q == c.q + ms && c'.sent == c.sent && c'.state == ESTABLISHED
  {
    if ms == [] {
      assert c.q + ms == c.q;
    } else {
      AllQueued(c, ms[..|ms| - 1]);
      assert c.q + ms == (c.q + ms[..|ms| - 1]) + [ms[|ms| - 1]];
    }
  }

  /** Output conservation: over every event sequence and every way the kernel cuts the writes,
      what was sent and then what is queued is exactly all accepted messages, in order. */
  lemma {:induction false} RunConserves(es: seq<Event>, early: bool)
    ensures var c := Run(NEW, es, early);
            c.sent + Concat(c.q) == Concat(AcceptedBy(NEW, es, early))
  {
    hide Step, Accepted;
    if es != [] {
      var before, e := es[..|es| - 1], es[|es| - 1];
      RunConserves(before, early);
      StepConserves(Run(NEW, before, early), e, early);
      ConcatAppend(AcceptedBy(NEW, before, early), Accepted(Run(NEW, before, early), e));
    }
  }

  /** One write took some bytes off the front message, and its rest, if any, stays in front. */
  predicate Advances(before: seq<seq<byte>>, w: Wr, after: seq<seq<byte>>) {
    && before != [] && w.Took? && w.n > 0 && before[0] != []
    && after == (if w.n >= |before[0]| then [] else [before[0][w.n..]]) + before[1..]
  }

  /** The write ends the connection: it took nothing, or failed otherwise than by EAGAIN. */
  predicate Fatal(front: seq<byte>, w: Wr) {
    match w
    case Took(n) => n == 0 || front == []
    case Error(e) => e != EAGAIN
  }

  /** The drain loop against any script of write results: `qs` are the queues before each write. */
  lemma {:induction false} DrainTrace(q: seq<seq<byte>>, sent: seq<byte>, io: nat -> Wr, i: nat)
    returns (qs: seq<seq<seq<byte>>>)
    ensures |qs| > 0 && qs[0] == q
    ensures forall j :: 0 <= j < |qs| - 1 ==> Advances(qs[j], io(i + j), qs[j + 1])
    ensures var (q', sent', d) := DrainQueue(q, sent, io, i);
            var (last, w) := (qs[|qs| - 1], io(i + |qs| - 1));
            && q' == last
            && if last == [] then d == Empty
               else if Fatal(last[0], w) then d == Dead
               else d == Again && w == Error(EAGAIN)
    decreases |Concat(q)|
  {
    hide Concat, Advances, Fatal, DrainQueue;
    if q != [] && io(i).Took? && Min(io(i).n, |q[0]|) > 0 {
      var m := Min(io(i).n, |q[0]|);
      var after := QueueAfter(q, m);
      FrontTaken(q, io(i));
      DrainGoesOn(q, sent, io, i);
      var later := DrainTrace(after, sent + q[0][..m], io, i + 1);
      qs := [q] + later;
      OneWriteMore(q, later, io, i);
    } else {
      qs := [q];
      DrainStops(q, sent, io, i);
    }
  }

  lemma {:induction false} DrainGoesOn(q: seq<seq<byte>>, sent: seq<byte>, io: nat -> Wr, i: nat)
    requires q != [] && io(i).Took? && Min(io(i).n, |q[0]|) > 0
    ensures var m := Min(io(i).n, |q[0]|);
            && DrainQueue(q, sent, io, i) == DrainQueue(QueueAfter(q, m), sent + q[0][..m], io, i + 1)
            && |Concat(QueueAfter(q, m))| < |Concat(q)|
  {
    hide Concat;
    ConcatSplit(q, Min(io(i).n, |q[0]|));
  }

  lemma {:induction false} DrainStops(q: seq<seq<byte>>, sent: seq<byte>, io: nat -> Wr, i: nat)
    requires !(q != [] && io(i).Took? && Min(io(i).n, |q[0]|) > 0)
    ensures var (q', _, d) := DrainQueue(q, sent, io, i);
            && q' == q
            && if q == [] then d == Empty
               else if Fatal(q[0], io(i)) then d == Dead
               else d == Again && io(i) == Error(EAGAIN)
  {
  }

  lemma {:induction false} OneWriteMore(q: seq<seq<byte>>, later: seq<seq<seq<byte>>>, io: nat -> Wr, i: nat)
    requires later != [] && Advances(q, io(i), later[0])
    requires forall j :: 0 <= j < |later| - 1 ==> Advances(later[j], io(i + 1 + j), later[j + 1])
    ensures var qs := [q] + later;
            && (forall j :: 0 <= j < |qs| - 1 ==> Advances(qs[j], io(i + j), qs[j + 1]))
            && qs[0] == q && qs[|qs| - 1] == later[|later| - 1] && io(i + |qs| - 1) == io(i + 1 + |later| - 1)
  {
    hide Advances;
    var qs := [q] + later;
    assert i + |qs| - 1 == i + 1 + |later| - 1;
    forall j | 0 <= j < |qs| - 1
      ensures Advances(qs[j], io(i + j), qs[j + 1])
    {
      if j > 0 {
        var k := j - 1;
        assert qs[j] == later[k] && qs[j + 1] == later[k + 1] && i + 1 + k == i + j;
      }
    }
  }

  lemma {:induction false} FrontTaken(q: seq<seq<byte>>, w: Wr)
    requires q != [] && w.Took? && Min(w.n, |q[0]|) > 0
    ensures Advances(q, w, QueueAfter(q, Min(w.n, |q[0]|)))
  {
    assert [] + q[1..] == q[1..];
  }

  /** What a ready write event leads to: the connection ends if and only if some write that still had
      something to send was fatal; else it is up, the queue is what the writes left, and another
      write is armed exactly if something is left. A read asked for before is armed now. */
  lemma {:induction false} WriteOutcome(c: Conn, io: nat -> Wr, early: bool) returns (qs: seq<seq<seq<byte>>>)
    requires Ok(c) && c.wr
    ensures |qs| > 0 && qs[0] == c.q
    ensures forall j :: 0 <= j < |qs| - 1 ==> Advances(qs[j], io(j), qs[j + 1])
    ensures var c' := Step(c, WriteEvent(true, io), early);
            var (last, w) := (qs[|qs| - 1], io(|qs| - 1));
            && c'.q == last && c'.sent + Concat(last) == c.sent + Concat(c.q)
            && (c'.state == DISCONNECTED <==> last != [] && Fatal(last[0], w))
            && (c'.state != DISCONNECTED ==>
                  && c'.state == ESTABLISHED && (c'.wr <==> last != []) && (last != [] ==> w == Error(EAGAIN))
                  && (c'.rd <==> c.rd || c.state == PENDING))
  {
    hide Advances, Fatal, DrainQueue;
    qs := DrainTrace(c.q, c.sent, io, 0);
    assert forall j :: 0 <= j < |qs| - 1 ==> io(0 + j) == io(j);
  }

  /** What a read event leads to: a timeout, a hard error of the read, or a callback that returns any
      status but 0 and EAGAIN, ends the connection; else what the callback wrote is queued, and the
      read is armed again exactly on EAGAIN. */
  lemma {:induction false} ReadOutcome(c: Conn, ready: bool, readError: int, ms: seq<seq<byte>>, status: int,
                                       early: bool)
    requires Ok(c) && c.rd
    ensures var c' := Step(c, ReadEvent(ready, readError, ms, status), early);
            var error := if readError != 0 then readError else status;
            && (c'.state == DISCONNECTED <==> !ready || (error != 0 && error != EAGAIN))
            && c'.sent == c.sent && c'.q == c.q + (if ready && readError == 0 then ms else [])
            && (c'.state != DISCONNECTED ==>
                  && c'.state == ESTABLISHED && (c'.rd <==> error == EAGAIN)
                  && (c'.wr <==> c.wr || (readError == 0 && ms != [])))
  {
    hide WrittenAll;
    var up := Established(c.(rd := false));
    WrittenAllOk(up, ms);
    WrittenAllArms(up, ms);
    assert c.q + [] == c.q;
  }

  /** A read asked for at any time is armed: at once on a connection that is up, else by the next ready
      write event, unless that ends the connection. */
  lemma {:induction false} AskedReadArms(c: Conn, io: nat -> Wr, early: bool)
    requires Ok(c)
    ensures var asked := Step(c, AppRead, early);
            var next := Step(asked, WriteEvent(true, io), early);
            match c.state
            case DISCONNECTED => asked == next == c
            case ESTABLISHED => asked == c.(rd := true)
            case _ => !asked.rd && asked.wr && (next.state == DISCONNECTED || (next.state == ESTABLISHED && next.rd))
  {
    hide DrainQueue;
  }

  lemma {:induction false} WrittenAllArms(c: Conn, ms: seq<seq<byte>>)
    requires c.state == ESTABLISHED && (c.q != [] ==> c.wr)
    ensures WrittenAll(c, ms).wr <==> c.wr || ms != []
  {
    if ms != [] {
      WrittenAllOk(c, ms[..|ms| - 1]);
    }
  }

  /** A timeout of the write event ends the connection, but for the workaround before it is up. */
  lemma {:induction false} TimeoutOutcome(c: Conn, io: nat -> Wr, early: bool)
    requires Ok(c) && c.wr
    ensures var c' := Step(c, WriteEvent(false, io), early);
            && (c'.state == DISCONNECTED <==> !early || c.state != PENDING)
            && (c'.state != DISCONNECTED ==> c'.state == ESTABLISHED && c'.rd && !c'.wr)
            && c'.q == c.q && c'.sent == c.sent
  {
    hide DrainQueue;
  }

  predicate Solid(q: seq<seq<byte>>) {
    forall m :: m in q ==> m != []
  }

  /** A ready write event of which the first write takes something and no write fails but by EAGAIN. */
  ghost predicate Moves(e: Event) {
    && e.WriteEvent? && e.ready && e.io(0).Took?
    && forall j: nat :: match e.io(j) case Took(n) => n > 0 case Error(errno) => errno == EAGAIN
  }

  lemma {:induction false} SolidAfter(q: seq<seq<byte>>, m: nat)
    requires q != [] && Solid(q) && m <= |q[0]|
    ensures Solid(QueueAfter(q, m))
  {
    forall x | x in QueueAfter(q, m)
      ensures x != []
    {
      assert x in q[1..] ==> x in q;
    }
  }

  lemma {:induction false} DrainMoves(q: seq<seq<byte>>, sent: seq<byte>, io: nat -> Wr, i: nat)
    requires Solid(q)
    ensures var (q', _, d) := DrainQueue(q, sent, io, i);
            && Solid(q') && |Concat(q')| <= |Concat(q)|
            && (Moves(WriteEvent(true, io)) ==> d != Dead)
            && (Moves(WriteEvent(true, io)) && i == 0 && q != [] ==> |Concat(q')| < |Concat(q)|)
    decreases |Concat(q)|
  {
    hide Concat;
    if q != [] {
      assert q[0] in q;
    }
    if q != [] && io(i).Took? && Min(io(i).n, |q[0]|) > 0 {
      var m := Min(io(i).n, |q[0]|);
      ConcatSplit(q, m);
      SolidAfter(q, m);
      DrainMoves(QueueAfter(q, m), sent + q[0][..m], io, i + 1);
    }
  }

  /** Progress: each such event sends at least one byte of what is queued, until nothing is. */
  lemma {:induction false} QueueDrains(c: Conn, es: seq<Event>, early: bool)
    requires Ok(c) && c.state != DISCONNECTED && Solid(c.q)
    requires forall i :: 0 <= i < |es| ==> Moves(es[i])
    ensures var c' := Run(c, es, early);
            && Ok(c') && c'.state != DISCONNECTED && Solid(c'.q)
            && (c'.q == [] || |Concat(c'.q)| + |es| <= |Concat(c.q)|)
    ensures |es| >= |Concat(c.q)| ==> Run(c, es, early).q == []
  {
    hide Ok, Step, Concat, Moves;
    if es != [] {
      var n := |es| - 1;
      QueueDrains(c, es[..n], early);
      var b := Run(c, es[..n], early);
      MoveStep(b, es[n], early);
      SolidBytes(Run(c, es, early).q);
    } else {
      SolidBytes(c.q);
    }
  }

  lemma {:induction false} SolidBytes(q: seq<seq<byte>>)
    requires Solid(q)
    ensures q != [] ==> |Concat(q)| > 0
  {
    if q != [] {
      assert q[0] in q;
    }
  }

  lemma {:induction false} MoveStep(c: Conn, e: Event, early: bool)
    requires Ok(c) && c.state != DISCONNECTED && Solid(c.q) && Moves(e)
    ensures var c' := Step(c, e, early);
            && Ok(c') && c'.state != DISCONNECTED && Solid(c'.q)
            && (if c.q == [] then c'.q == [] else |Concat(c'.q)| < |Concat(c.q)|)
  {
    hide Concat, Moves;
    StepOk(c, e);
    MovesAreReady(e);
    DrainMoves(c.q, c.sent, e.io, 0);
  }

  lemma {:induction false} MovesAreReady(e: Event)
    requires Moves(e)
    ensures e.WriteEvent? && e.ready && e == WriteEvent(true, e.io)
  {
  }

  lemma {:induction false} StepSolid(c: Conn, e: Event, early: bool)
    requires Solid(c.q) && Solid(Accepted(c, e))
    ensures Solid(Step(c, e, early).q)
  {
    hide DrainQueue, WrittenAll;
    if e.ReadEvent? {
      AllQueued(Established(c.(rd := false)), e.ms);
    } else if e.WriteEvent? {
      DrainMoves(c.q, c.sent, e.io, 0);
    }
  }

  lemma {:induction false} RunSolid(es: seq<Event>, early: bool)
    requires Solid(AcceptedBy(NEW, es, early))
    ensures Solid(Run(NEW, es, early).q)
  {
    hide Step, Accepted;
    if es != [] {
      var n := |es| - 1;
      var before, last := AcceptedBy(NEW, es[..n], early), Accepted(Run(NEW, es[..n], early), es[n]);
      SolidParts(before, last);
      RunSolid(es[..n], early);
      StepSolid(Run(NEW, es[..n], early), es[n], early);
    }
  }

  lemma {:induction false} SolidParts(a: seq<seq<byte>>, b: seq<seq<byte>>)
    requires Solid(a + b)
    ensures Solid(a) && Solid(b)
  {
    assert forall m :: m in a ==> m in a + b;
    assert forall m :: m in b ==> m in a + b;
  }

  /** Behind any run that leaves the connection live, with no empty message accepted, so many such
      events as there are bytes queued send everything that was accepted. */
  lemma {:induction false} RunDrains(es: seq<Event>, moves: seq<Event>, early: bool)
    requires Ok(Run(NEW, es, early)) && Run(NEW, es, early).state != DISCONNECTED
    requires Solid(AcceptedBy(NEW, es, early)) && forall i :: 0 <= i < |moves| ==> Moves(moves[i])
    requires |moves| >= |Concat(Run(NEW, es, early).q)|
    ensures AcceptedBy(NEW, es + moves, early) == AcceptedBy(NEW, es, early)
    ensures Run(NEW, es + moves, early).q == []
    ensures Run(NEW, es + moves, early).sent == Concat(AcceptedBy(NEW, es, early))
  {
    hide Ok, Step, Moves, Accepted, Solid;
    var ms := AcceptedBy(NEW, es, early);
    RunSolid(es, early);
    QueueDrains(Run(NEW, es, early), moves, early);
    RunSplit(es, moves, early);
    RunConserves(es + moves, early);
    var sent := Run(NEW, es + moves, early).sent;
    assert sent + [] == sent;
  }

  lemma {:induction false} RunSplit(es: seq<Event>, moves: seq<Event>, early: bool)
    requires forall i :: 0 <= i < |moves| ==> Moves(moves[i])
    ensures Run(NEW, es + moves, early) == Run(Run(NEW, es, early), moves, early)
    ensures AcceptedBy(NEW, es + moves, early) == AcceptedBy(NEW, es, early)
  {
    hide Step, Moves, Accepted;
    if moves == [] {
      assert es + moves == es;
    } else {
      var n := |moves| - 1;
      RunSplit(es, moves[..n], early);
      assert (es + moves)[..|es + moves| - 1] == es + moves[..n] && (es + moves)[|es + moves| - 1] == moves[n];
      MovesAreReady(moves[n]);
      NothingAccepted(Run(NEW, es + moves[..n], early), moves[n]);
      var ms := AcceptedBy(NEW, es, early);
      assert ms + [] == ms;
    }
  }

  lemma {:induction false} NothingAccepted(c: Conn, e: Event)
    requires e.WriteEvent?
    ensures Accepted(c, e) == []
  {
  }

  function Writes(ms: seq<seq<byte>>): (es: seq<Event>)
    ensures |es| == |ms| && forall i :: 0 <= i < |ms| ==> es[i] == AppWrite(ms[i])
  {
    seq(|ms|, i requires 0 <= i < |ms| => AppWrite(ms[i]))
  }

  lemma {:induction false} WritesQueue(ms: seq<seq<byte>>, early: bool)
    ensures Run(NEW, Writes(ms), early) == NEW.(q := ms)
    ensures AcceptedBy(NEW, Writes(ms), early) == ms
  {
    if ms != [] {
      var n := |ms| - 1;
      WritesQueue(ms[..n], early);
      assert Writes(ms)[..n] == Writes(ms[..n]);
      assert ms[..n] + [ms[n]] == ms;
    }
  }

  class Net {
    const early: bool
    const ibuf: Buf
    const obuf: Buf
    var state: NetState
    var rd: bool
    var wr: bool
    var obufq: seq<seq<byte>>
    ghost var sent: seq<byte>

    ghost function Snap(): Conn
      reads this
    {
      Conn(state, rd, wr, obufq, sent)
    }

    /** kcn_net_new: the write event is armed to learn when the connection is up. */
    constructor (size: nat, early: bool)
      ensures Snap() == NEW && this.early == early
      ensures fresh(ibuf) && fresh(ibuf.data) && fresh(obuf) && fresh(obuf.data)
      ensures ibuf != obuf && ibuf.data != obuf.data && ibuf.data.Length == obuf.data.Length == size
      ensures ibuf.Valid() && ibuf.sp == ibuf.cp == ibuf.ep == 0
    {
      this.early := early;
      ibuf := new Buf(size);
      obuf := new Buf(size);
      state, rd, wr, obufq, sent := INIT, false, true, [], [];
    }

    method StateChange(nstate: NetState)
      requires nstate != DISCONNECTED
      modifies this
      ensures nstate == ESTABLISHED ==> Snap() == Established(old(Snap()))
      ensures nstate != ESTABLISHED ==> Snap() == old(Snap()).(state := nstate)
    {
      if state == nstate {
        return;
      }
      var ostate := state;
      state := nstate;
      if ostate == PENDING && nstate == ESTABLISHED {
        rd := true;
      }
    }

    method ReadEnable()
      requires state != DISCONNECTED
      modifies this
      ensures Snap() == ReadEnabled(old(Snap()))
    {
      if state != ESTABLISHED {
        StateChange(PENDING);
        return;
      }
      rd := true;
    }

    method Disconnect()
      modifies this
      ensures old(state) != DISCONNECTED ==> Snap() == Disconnected(old(Snap()))
      ensures old(state) == DISCONNECTED ==> Snap() == old(Snap())
    {
      if state == DISCONNECTED {
        return;
      }
      rd, wr := false, false;
      state := DISCONNECTED;
    }

    method EventCheck(ready: bool) returns (go: bool)
      requires state != DISCONNECTED
      modifies this
      ensures go == ready
      ensures Snap() == if ready then Established(old(Snap())) else Disconnected(old(Snap()))
    {
      if !ready {
        Disconnect();
        return false;
      }
      StateChange(ESTABLISHED);
      go := true;
    }

    /** kcn_net_write queues a copy of what the scratch buffer holds. */
    method Write(kb: Buf) returns (ok: bool)
      requires kb.Valid()
      modifies this
      ensures ok == (old(state) != DISCONNECTED)
      ensures Snap() == Written(old(Snap()), kb.Held())
    {
      if state == DISCONNECTED {
        return false;
      }
      obufq := obufq + [kb.data[kb.sp..kb.ep]];
      wr := true;
      ok := true;
    }

    method WriteCb(ready: bool, io: nat -> Wr)
      requires wr && Ok(Snap())
      modifies this
      ensures Snap() == Step(old(Snap()), WriteEvent(ready, io), early)
    {
      hide Ok, DrainQueue;
      assert state != DISCONNECTED by { LiveWhenArmed(Snap()); }
      wr := false;
      if early && state == PENDING && !ready {
        StateChange(ESTABLISHED);
        return;
      }
      var go := EventCheck(ready);
      if go {
        DrainLoop(io);
      }
    }

    /** The loop of the callback: the queue is written until it is empty or a write fails. */
    method DrainLoop(io: nat -> Wr)
      requires state == ESTABLISHED
      modifies this
      ensures Snap() == WriteFinished(old(Snap()), io)
    {
      ghost var c := Snap();
      var i := 0;
      while obufq != []
        invariant Snap() == c.(q := obufq, sent := sent) && state == ESTABLISHED
        invariant DrainQueue(obufq, sent, io, i) == DrainQueue(c.q, c.sent, io, 0)
        decreases |Concat(obufq)|
      {
        match io(i) {
          case Error(e) =>
            if e == EAGAIN {
              wr := true;
            } else {
              Disconnect();
            }
            return;
          case Took(n) =>
            var m := Min(n, |obufq[0]|);
            if m == 0 {
              Disconnect();
              return;
            }
            ConcatSplit(obufq, m);
            sent := sent + obufq[0][..m];
            obufq := QueueAfter(obufq, m);
            i := i + 1;
        }
      }
    }

    /** The first half of kcn_net_read_cb: true when there is input for the read callback. */
    method ReadCb(ready: bool, r: Io) returns (deliver: bool)
      requires rd && Ok(Snap()) && ibuf.Valid() && ibuf.Room() > 0
      requires r.Moved? ==> 0 < |r.bs| <= ibuf.Room()
      requires r.Failed? ==> r.errno != 0
      modifies this, ibuf, ibuf.data
      ensures ibuf.Valid() && ibuf.cp - ibuf.sp == old(ibuf.cp - ibuf.sp)
      ensures deliver == (ready && r.Moved?)
      ensures ibuf.Held() == old(ibuf.Held()) + if deliver then r.bs else []
      ensures deliver ==> Snap() == Established(old(Snap()).(rd := false))
      ensures !deliver ==>
                var error := if r.Eof? then ESHUTDOWN else if r.Failed? then r.errno else 0;
                Snap() == Step(old(Snap()), ReadEvent(ready, error, [], 0), early)
    {
      rd := false;
      deliver := EventCheck(ready);
      if !deliver {
        return;
      }
      var error := ibuf.Read(r);
      if error != 0 {
        ReadDone(error);
        deliver := false;
      }
    }

    /** Its second half, with what the read, or the callback, returned. */
    method ReadDone(error: int)
      requires state != DISCONNECTED
      modifies this
      ensures Snap() == ReadFinished(old(Snap()), error)
    {
      if error == EAGAIN {
        ReadEnable();
      } else if error != 0 {
        Disconnect();
      }
    }
  }

  lemma {:induction false} LiveWhenArmed(c: Conn)
    requires Ok(c) && (c.rd || c.wr)
    ensures c.state != DISCONNECTED
  {
  }
}
