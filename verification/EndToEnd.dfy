/** A query from the client's encoder to the client's result list, an add from its encoder to its row, and
    the two in turn, across the connections. */
module EndToEnd {
  import opened Bytes
  import opened Errno
  import opened Records
  import opened LocIndex
  import opened Table
  import opened Msg
  import opened Framing
  import Store
  import N = Net
  import S = Server
  import C = Client

  /** A connection whose queue has drained has delivered `ms`, cut into these reads. */
  ghost predicate Delivered(ms: seq<seq<byte>>, es: seq<N.Event>, early: bool, chunks: seq<seq<byte>>) {
    && N.AcceptedBy(N.NEW, es, early) == ms
    && N.Run(N.NEW, es, early).q == []
    && Concat(chunks) == N.Run(N.NEW, es, early).sent
  }

  lemma {:induction false} DeliveredBytes(ms: seq<seq<byte>>, es: seq<N.Event>, early: bool, chunks: seq<seq<byte>>)
    requires Delivered(ms, es, early, chunks)
    ensures Concat(chunks) == Concat(ms)
  {
    hide N.Run, N.AcceptedBy;
    N.RunConserves(es, early);
    var sent := N.Run(N.NEW, es, early).sent;
    assert sent + [] == sent;
  }

  /** Every list of non-empty messages can be delivered, cut into any reads: after it has been written,
      at most as many ready write events as it has bytes, each taking at least one and failing only
      with EAGAIN, are enough. */
  lemma {:induction false} DeliveredReachable(ms: seq<seq<byte>>, moves: seq<N.Event>, early: bool,
                                              chunks: seq<seq<byte>>)
    requires (forall m :: m in ms ==> m != []) && forall i :: 0 <= i < |moves| ==> N.Moves(moves[i])
    requires |moves| >= |Concat(ms)| && Concat(chunks) == Concat(ms)
    ensures Delivered(ms, N.Writes(ms) + moves, early, chunks)
  {
    hide N.Run, N.AcceptedBy, N.Moves;
    N.WritesQueue(ms, early);
    N.RunDrains(N.Writes(ms), moves, early);
  }

  lemma {:induction false} NothingYet<T>(s: T, f: Handler<T>)
    ensures Framing.Drain([], s, f) == Waiting([], s)
  {
  }

  /** One query message makes the server queue exactly its reply. */
  lemma {:induction false} ServerAnswers(s: S.Srv, q: Query)
    requires S.Answerable(s.tables, q) && LocTypeOk(q.loctype)
    ensures Framing.Drain(Frame(TYPE_QUERY, QueryBody(q)), s, S.Handle) ==
            Waiting([], s.(out := s.out + S.Reply(S.Hits(s.tables[q.kind], q))))
  {
    hide Frame, QueryBody, DecodeQuery, S.Hits, S.Reply;
    var m := Frame(TYPE_QUERY, QueryBody(q));
    assert m + [] == m;
    DrainFrame(TYPE_QUERY, QueryBody(q), [], s, S.Handle);
    QueryRoundTrip(q);
    var v := S.Handle(s, Header(TYPE_QUERY, QUERYSIZ), QueryBody(q));
    NothingYet(v.s, S.Handle);
  }

  /** What the query selects, as the server's store defines it. */
  function Expected(s: S.Srv, q: Query): seq<seq<byte>>
    requires S.Answerable(s.tables, q)
  {
    Take(Store.Matching(Store.Log(s.tables[q.kind]), Eq(q.kind as int, S.OpOf(q.op), q.val, q.start, q.end)),
         q.maxcount as int)
  }

  lemma {:induction false} HitsExpected(s: S.Srv, q: Query)
    requires S.Answerable(s.tables, q)
    ensures S.Hits(s.tables[q.kind], q) == Expected(s, q) && |Expected(s, q)| <= q.maxcount as int
  {
    hide Store.Matching, Store.Log, Scan, Locators;
    Store.SearchIsMatching(s.tables[q.kind], Eq(q.kind as int, S.OpOf(q.op), q.val, q.start, q.end), q.maxcount as int);
  }

  /** The places of the first rows a query asks for, on the bytes of its message: a row is asked for
      when it lies in the window and its value stands in the relation that the operator byte
      numbers. Rows are taken in table order until there are `maxcount`. */
  ghost predicate FirstAsked(log: seq<Store.Row>, q: Query, picks: seq<nat>) {
    && |picks| <= q.maxcount as int && (forall i :: 0 <= i < |picks| ==> picks[i] < |log|)
    && (forall i, j :: 0 <= i < j < |picks| ==> picks[i] < picks[j])
    && forall j: nat :: j < |log| ==>
         (j in picks <==>
          && q.start <= log[j].time && (q.end == -1 || log[j].time <= q.end)
          && (q.op == 1 ==> log[j].val < q.val)
          && (q.op == 2 ==> log[j].val <= q.val)
          && (q.op == 3 ==> log[j].val == q.val)
          && (q.op == 4 ==> log[j].val > q.val)
          && (q.op == 5 ==> log[j].val >= q.val)
          && (|picks| < q.maxcount as int || (picks != [] && j <= picks[|picks| - 1])))
  }

  /** `locs` are the locators of the rows at `picks`. */
  ghost predicate LocsAt(log: seq<Store.Row>, picks: seq<nat>, locs: seq<seq<byte>>) {
    |locs| == |picks| && forall i :: 0 <= i < |picks| ==> picks[i] < |log| && locs[i] == log[picks[i]].loc
  }

  lemma {:induction false} ExpectedRows(s: S.Srv, q: Query) returns (picks: seq<nat>)
    requires S.Answerable(s.tables, q)
    ensures var log := Store.Log(s.tables[q.kind]);
            FirstAsked(log, q, picks) && LocsAt(log, picks, Expected(s, q))
  {
    hide Store.Matching, Store.Log, Take;
    picks := Store.SearchGives(Store.Log(s.tables[q.kind]),
                               Eq(q.kind as int, S.OpOf(q.op), q.val, q.start, q.end), q.maxcount as int);
  }

  lemma {:induction false} ResponsesAt(locs: seq<seq<byte>>, i: nat)
    requires i < |locs|
    ensures S.Responses(locs)[i] == S.Response1(locs[i])
  {
    hide S.Response1;
    if i < |locs| - 1 {
      ResponsesAt(locs[..|locs| - 1], i);
    }
  }

  /** A reply byte by byte. */
  lemma {:induction false} ReplyBytes(locs: seq<seq<byte>>)
    ensures var reply := S.Reply(locs);
            && |reply| == |locs| + 1
            && reply[|locs|] == [1, 2, 0, 2, if locs == [] then 3 else 0, 0]
            && forall i :: 0 <= i < |locs| && |locs[i]| <= 4075 ==>
                 reply[i] == [1, 2, (|locs[i]| + 2) / 0x100, (|locs[i]| + 2) % 0x100, 0, 0] + locs[i]
  {
    hide Frame, ResponseBody;
    var error: byte := if locs == [] then ESRCH else 0;
    ResponseWire(Response(error, 0, []));
    forall i | 0 <= i < |locs| && |locs[i]| <= 4075
      ensures S.Reply(locs)[i] == [1, 2, (|locs[i]| + 2) / 0x100, (|locs[i]| + 2) % 0x100, 0, 0] + locs[i]
    {
      ResponsesAt(locs, i);
      ResponseWire(Response(0, 0, locs[i]));
    }
  }

  /** What the server makes of a query message, for every message and every state: a locator type
      other than 0 and 1 is refused; an unknown table or operator byte has no defined answer; any
      other query is answered with the rows it asks for and a status. */
  lemma {:induction false} AnsweredExact(s: S.Srv, q: Query)
    returns (picks: seq<nat>, locs: seq<seq<byte>>, reply: seq<seq<byte>>)
    ensures q.loctype > 1 ==>
              Framing.Drain(Frame(TYPE_QUERY, QueryBody(q)), s, S.Handle) ==
              Waiting([], s.(out := s.out + [[1, 2, 0, 2, 22, 0]]))
    ensures q.loctype <= 1 && (q.kind !in s.tables || q.op < 1 || q.op > 5) ==>
              Framing.Drain(Frame(TYPE_QUERY, QueryBody(q)), s, S.Handle) == Stopped([], s, S.UNDEFINED)
    ensures q.loctype <= 1 && q.kind in s.tables && 1 <= q.op <= 5 ==>
              && Framing.Drain(Frame(TYPE_QUERY, QueryBody(q)), s, S.Handle) ==
                 Waiting([], s.(out := s.out + reply))
              && FirstAsked(Store.Log(s.tables[q.kind]), q, picks)
              && LocsAt(Store.Log(s.tables[q.kind]), picks, locs)
              && |reply| == |locs| + 1 && reply[|locs|] == [1, 2, 0, 2, if locs == [] then 3 else 0, 0]
              && forall i :: 0 <= i < |locs| && |locs[i]| <= 4075 ==>
                   reply[i] == [1, 2, (|locs[i]| + 2) / 0x100, (|locs[i]| + 2) % 0x100, 0, 0] + locs[i]
  {
    hide Frame, QueryBody, DecodeQuery, ResponseBody, S.Hits, S.Reply, Store.Log, FirstAsked, LocsAt, Expected;
    picks, locs, reply := [], [], [];
    if S.Answerable(s.tables, q) && LocTypeOk(q.loctype) {
      picks := ExpectedRows(s, q);
      locs := Expected(s, q);
      reply := S.Reply(locs);
      HitsExpected(s, q);
      ServerAnswers(s, q);
      ReplyBytes(locs);
    } else {
      var m := Frame(TYPE_QUERY, QueryBody(q));
      assert m + [] == m;
      DrainFrame(TYPE_QUERY, QueryBody(q), [], s, S.Handle);
      QueryRoundTrip(q);
      ResponseWire(Response(EINVAL, 0, []));
      NothingYet(s.(out := s.out + [S.Terminator(EINVAL)]), S.Handle);
      assert [1, 2, 0, 2, 22, 0] + [] == [1, 2, 0, 2, 22, 0 as byte];
    }
  }

  /** A client that asks for n (at most 255) locators gets exactly those of the first n rows of the
      log inside its window whose value is below, at most, equal to, above or at least the value it
      sent (operator bytes 1 to 5), in table order, or ESRCH when there are none, for every way the
      two connections cut their writes and their reads; the one exception is a stored empty
      locator, at which the result stops short. */
  lemma {:induction false} QueryEndToEnd(
      s: S.Srv, q: Query, errno: int,
      asks: seq<N.Event>, early1: bool, serverReads: seq<seq<byte>>,
      replies: seq<N.Event>, early2: bool, clientReads: seq<seq<byte>>)
    returns (picks: seq<nat>, locs: seq<seq<byte>>)
    requires q.loctype <= 1 && q.kind in s.tables && 1 <= q.op <= 5 && S.Small(s.tables) && s.out == []
    requires Delivered([Frame(TYPE_QUERY, QueryBody(q))], asks, early1, serverReads)
    requires Delivered(Feed(Waiting([], s), serverReads, S.Handle).s.out, replies, early2, clientReads)
    ensures FirstAsked(Store.Log(s.tables[q.kind]), q, picks) && LocsAt(Store.Log(s.tables[q.kind]), picks, locs)
    ensures var server := Feed(Waiting([], s), serverReads, S.Handle);
            server.Waiting? && server.rest == [] && server.s.tables == s.tables
    ensures var client := Feed(Waiting([], C.Info(q.maxcount as int, [], errno)), clientReads, C.Handle);
            && client.Stopped? && client.s.locs == C.Scored(C.UpToEmpty(locs))
            && client.status == (if locs == [] then ESRCH else 0)
            && (client.s.locs == C.Scored(locs) <==> forall i :: 0 <= i < |locs| ==> locs[i] != [])
  {
    hide Delivered, Frame, QueryBody, S.Handle, C.Handle, S.Hits, Expected, S.Reply, Framing.Drain, Feed, S.Small,
         C.Scored, C.UpToEmpty, FirstAsked, LocsAt, Store.Log;
    var m := Frame(TYPE_QUERY, QueryBody(q));
    picks := ExpectedRows(s, q);
    locs := Expected(s, q);
    DeliveredBytes([m], asks, early1, serverReads);
    C.OneFrame(m);
    assert [] + m == m;
    NothingYet(s, S.Handle);
    FeedIsDrain([], s, serverReads, S.Handle);
    ServerAnswers(s, q);
    HitsExpected(s, q);
    S.HitsSmall(s.tables, q);
    var out := s.out + S.Reply(locs);
    assert out == S.Reply(locs);
    DeliveredBytes(out, replies, early2, clientReads);
    var info := C.Info(q.maxcount as int, [], errno);
    NothingYet(info, C.Handle);
    assert [] + Concat(clientReads) == Concat(S.Reply(locs));
    FeedIsDrain([], info, clientReads, C.Handle);
    C.ReadsAnswer(locs, info);
  }

  /** A locator type other than 0 and 1 brings the client EINVAL and nothing else. */
  lemma {:induction false} RefusedEndToEnd(
      s: S.Srv, q: Query, errno: int,
      asks: seq<N.Event>, early1: bool, serverReads: seq<seq<byte>>,
      replies: seq<N.Event>, early2: bool, clientReads: seq<seq<byte>>)
    requires q.loctype > 1 && s.out == []
    requires Delivered([Frame(TYPE_QUERY, QueryBody(q))], asks, early1, serverReads)
    requires Delivered(Feed(Waiting([], s), serverReads, S.Handle).s.out, replies, early2, clientReads)
    ensures var client := Feed(Waiting([], C.Info(q.maxcount as int, [], errno)), clientReads, C.Handle);
            client.Stopped? && client.s.locs == [] && client.status == EINVAL
  {
    hide Delivered, Frame, QueryBody, S.Handle, C.Handle, Framing.Drain, Feed;
    var m := Frame(TYPE_QUERY, QueryBody(q));
    DeliveredBytes([m], asks, early1, serverReads);
    C.OneFrame(m);
    assert [] + m == m;
    NothingYet(s, S.Handle);
    FeedIsDrain([], s, serverReads, S.Handle);
    Refused(s, q);
    var t := S.Terminator(EINVAL);
    DeliveredBytes([t], replies, early2, clientReads);
    C.OneFrame(t);
    var info := C.Info(q.maxcount as int, [], errno);
    NothingYet(info, C.Handle);
    assert [] + Concat(clientReads) == t + [];
    FeedIsDrain([], info, clientReads, C.Handle);
    C.Terminates(EINVAL, [], info);
  }

  lemma {:induction false} Refused(s: S.Srv, q: Query)
    requires q.loctype > 1
    ensures Framing.Drain(Frame(TYPE_QUERY, QueryBody(q)), s, S.Handle) ==
            Waiting([], s.(out := s.out + [S.Terminator(EINVAL)]))
    ensures s.out == [] ==> s.out + [S.Terminator(EINVAL)] == [S.Terminator(EINVAL)]
  {
    hide Frame, QueryBody, DecodeQuery, S.Terminator;
    var m := Frame(TYPE_QUERY, QueryBody(q));
    assert m + [] == m;
    DrainFrame(TYPE_QUERY, QueryBody(q), [], s, S.Handle);
    QueryRoundTrip(q);
    NothingYet(s.(out := s.out + [S.Terminator(EINVAL)]), S.Handle);
  }

  /** The time an add message stands for: its field as a signed number, or the next value of the
      clock when the field is all ones; only then is a clock value used up. */
  ghost predicate AddedAt(s: S.Srv, a: Add, t: i64, clock: seq<i64>) {
    if a.time == 0xffff_ffff_ffff_ffff then s.clock != [] && s.clock[0] == t != -1 && clock == s.clock[1..]
    else t == (if a.time < 0x8000_0000_0000_0000 then a.time else a.time - 0x1_0000_0000_0000_0000) && clock == s.clock
  }

  /** An add message to a table: it is refused, with every table as it was, exactly when the last row
      is newer (a table without rows counts as last added to at 0). Otherwise its time, value and
      locator are the new last row, and no other row or table changes; the locator is the message's
      byte for byte if and only if it has no twin in its bucket. */
  lemma {:induction false} AddEndToEnd(s: S.Srv, a: Add, t: i64, clock: seq<i64>) returns (row: Store.Row)
    requires |a.loc| <= MAXLOCSIZ && a.kind in s.tables && Store.Inv(s.tables[a.kind])
    requires Off(s.tables[a.kind].items, |s.tables[a.kind].items|) <= MAXOFF
    requires AddedAt(s, a, t, clock)
    ensures var log := Store.Log(s.tables[a.kind]);
            var o := Framing.Drain(Frame(TYPE_ADD, AddBody(a)), s, S.Handle);
            if (if log == [] then 0 else log[|log| - 1].time) > t
            then o == Stopped([], s.(clock := clock), ERANGE)
            else
              && o.Waiting? && o.rest == [] && o.s.out == s.out && o.s.clock == clock
              && o.s.tables.Keys == s.tables.Keys
              && (forall k :: k in s.tables && k != a.kind ==> o.s.tables[k] == s.tables[k])
              && Store.Log(o.s.tables[a.kind]) == log + [row] && row.time == t && row.val == a.val
              && (row.loc == a.loc <==> !Store.Twinned(s.tables[a.kind].items, a.loc))
              && ((forall i :: 0 <= i < |a.loc| ==> a.loc[i] != 0) ==> row.loc == a.loc)
              && Store.Inv(o.s.tables[a.kind]) && (S.Small(s.tables) ==> S.Small(o.s.tables))
  {
    hide Frame, AddBody, DecodeAdd, Store.Inv, Store.Twinned, Store.AddView, S.Small;
    var m, v := Frame(TYPE_ADD, AddBody(a)), s.tables[a.kind];
    assert m + [] == m;
    DrainFrame(TYPE_ADD, AddBody(a), [], s, S.Handle);
    AddRoundTrip(a);
    var s1 := s.(clock := clock);
    row := AddsRow(v, t, a.val, a.loc);
    var w := Store.AddView(v, t, a.val, a.loc).0;
    NothingYet(s1.(tables := s.tables[a.kind := w]), S.Handle);
    if S.Small(s.tables) {
      S.AddKeepsSmall(s1, a, t);
    }
  }

  lemma {:induction false} AddsRow(v: Store.View, t: i64, val: u64, loc: seq<byte>) returns (row: Store.Row)
    requires Store.Inv(v) && Off(v.items, |v.items|) <= MAXOFF
    ensures var (w, ok) := Store.AddView(v, t, val, loc);
            var log := Store.Log(v);
            && ok == ((if log == [] then 0 else log[|log| - 1].time) <= t)
            && (ok ==>
                  && Store.Inv(w) && Store.Log(w) == log + [row] && row.time == t && row.val == val
                  && (row.loc == loc <==> !Store.Twinned(v.items, loc))
                  && ((forall i :: 0 <= i < |loc| ==> loc[i] != 0) ==> row.loc == loc))
  {
    hide Store.Inv, Store.Twinned, IndexAdd;
    var (w, ok) := Store.AddView(v, t, val, loc);
    Store.IndexAddRoom(v.items, loc);
    row := Store.Row(t, val, loc);
    if ok {
      Store.AddKeepsInv(v, t, val, loc);
      Store.AddAppendsRow(v, t, val, loc);
      var more := Store.Log(w);
      row := more[|v.recs|];
      assert more == more[..|v.recs|] + [row];
    }
    if NoNul(loc) {
      Store.NoNulUntwinned(v.items, loc);
    }
  }

  /** An add over one connection and then a query over another, however both are cut: the client gets
      the rows its query asks for out of the log with the new row at its end. So a new row that the
      query asks for is its last result, unless `maxcount` rows before it have filled the answer. */
  lemma {:induction false} AddThenQuery(
      s: S.Srv, a: Add, t: i64, clock: seq<i64>, q: Query, errno: int,
      adds: seq<N.Event>, early0: bool, addReads: seq<seq<byte>>,
      asks: seq<N.Event>, early1: bool, serverReads: seq<seq<byte>>,
      replies: seq<N.Event>, early2: bool, clientReads: seq<seq<byte>>)
    returns (row: Store.Row, picks: seq<nat>, locs: seq<seq<byte>>)
    requires |a.loc| <= MAXLOCSIZ && a.kind in s.tables && Store.Inv(s.tables[a.kind]) && S.Small(s.tables)
    requires Off(s.tables[a.kind].items, |s.tables[a.kind].items|) <= MAXOFF
    requires AddedAt(s, a, t, clock) && forall r :: r in Store.Log(s.tables[a.kind]) ==> r.time <= t
    requires Store.Log(s.tables[a.kind]) == [] ==> 0 <= t
    requires Delivered([Frame(TYPE_ADD, AddBody(a))], adds, early0, addReads)
    requires q.loctype <= 1 && q.kind == a.kind && 1 <= q.op <= 5
    requires Delivered([Frame(TYPE_QUERY, QueryBody(q))], asks, early1, serverReads)
    requires var s1 := Feed(Waiting([], s), addReads, S.Handle).s.(out := []);
             Delivered(Feed(Waiting([], s1), serverReads, S.Handle).s.out, replies, early2, clientReads)
    ensures var log := Store.Log(s.tables[a.kind]);
            && row.time == t && row.val == a.val
            && (row.loc == a.loc <==> !Store.Twinned(s.tables[a.kind].items, a.loc))
            && FirstAsked(log + [row], q, picks) && LocsAt(log + [row], picks, locs)
    ensures && q.start <= t && (q.end == -1 || t <= q.end)
            && (q.op == 1 ==> a.val < q.val) && (q.op == 2 ==> a.val <= q.val) && (q.op == 3 ==> a.val == q.val)
            && (q.op == 4 ==> a.val > q.val) && (q.op == 5 ==> a.val >= q.val)
            ==> |locs| == q.maxcount as int || (locs != [] && locs[|locs| - 1] == row.loc)
    ensures var client := Feed(Waiting([], C.Info(q.maxcount as int, [], errno)), clientReads, C.Handle);
            && client.Stopped? && client.s.locs == C.Scored(C.UpToEmpty(locs))
            && client.status == (if locs == [] then ESRCH else 0)
  {
    hide Delivered, Frame, QueryBody, AddBody, S.Handle, C.Handle, Framing.Drain, Feed, S.Small, C.Scored, C.UpToEmpty,
         FirstAsked, LocsAt, Store.Log, Store.Inv, Store.Twinned, AddedAt;
    var m := Frame(TYPE_ADD, AddBody(a));
    DeliveredBytes([m], adds, early0, addReads);
    C.OneFrame(m);
    assert [] + m == m;
    NothingYet(s, S.Handle);
    FeedIsDrain([], s, addReads, S.Handle);
    row := AddEndToEnd(s, a, t, clock);
    var s1 := Feed(Waiting([], s), addReads, S.Handle).s.(out := []);
    picks, locs := QueryEndToEnd(s1, q, errno, asks, early1, serverReads, replies, early2, clientReads);
    NewRowLast(Store.Log(s.tables[a.kind]), row, q, picks, locs);
  }

  lemma {:induction false} NewRowLast(log: seq<Store.Row>, row: Store.Row, q: Query, picks: seq<nat>,
                                      locs: seq<seq<byte>>)
    requires FirstAsked(log + [row], q, picks) && LocsAt(log + [row], picks, locs)
    ensures && q.start <= row.time && (q.end == -1 || row.time <= q.end)
            && (q.op == 1 ==> row.val < q.val) && (q.op == 2 ==> row.val <= q.val) && (q.op == 3 ==> row.val == q.val)
            && (q.op == 4 ==> row.val > q.val) && (q.op == 5 ==> row.val >= q.val)
            ==> |locs| == q.maxcount as int || (locs != [] && locs[|locs| - 1] == row.loc)
  {
    assert (log + [row])[|log|] == row;
    if |log| in picks {
      assert picks[|picks| - 1] == |log|;
    }
  }
}
