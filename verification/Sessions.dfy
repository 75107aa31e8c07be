/** Whole sessions on the byte files of one table: any number of workers, each with its own
    descriptors and record buffer, make calls in lock order. */
module Sessions {
  import opened Bytes
  import opened DbFile
  import opened LocIndex
  import opened Records
  import opened Table
  import opened Store

  /** A call, and the worker that makes it. */
  datatype Turn = Turn(t: nat, call: Call)

  function Calls(turns: seq<Turn>): (o: seq<Call>)
    ensures |o| == |turns| && forall i :: 0 <= i < |o| ==> o[i] == turns[i].call
  {
    seq(|turns|, i requires 0 <= i < |turns| => turns[i].call)
  }

  predicate Proper(turns: seq<Turn>, nworkers: nat) {
    forall turn :: turn in turns ==> turn.t < nworkers && Fits(turn.call)
  }

  /** What only this worker touches. */
  ghost function Mine(t: Table): set<object> {
    {t.loc, t.loc.buf, t.loc.buf.data, t.tab, t.tab.buf, t.tab.buf.data}
  }

  ghost function Owned(ts: seq<Table>): (all: set<object>)
    ensures forall j :: 0 <= j < |ts| ==> Mine(ts[j]) <= all
  {
    set j, o | 0 <= j < |ts| && o in Mine(ts[j]) :: o
  }

  /** The workers share the table's files, sizes and lock, and nothing else. */
  ghost predicate Workers(ts: seq<Table>, base: Base, locs: Disk, tabs: Disk, rules: Rules) {
    && (forall j :: 0 <= j < |ts| ==>
          && ts[j].rules == rules && ts[j].Wired()
          && ts[j].base == base && ts[j].loc.disk == locs && ts[j].tab.disk == tabs)
    && (forall i, j :: 0 <= i < j < |ts| ==> Mine(ts[i]) !! Mine(ts[j]))
  }

  ghost predicate Rests(t: Table)
    reads Mine(t)
  {
    t.loc.Valid() && t.tab.Valid() && t.tab.buf.cp == t.tab.buf.sp
  }

  ghost predicate AllRest(ts: seq<Table>)
    reads Owned(ts)
  {
    forall j :: 0 <= j < |ts| ==> Rests(ts[j])
  }

  ghost predicate FilesOk(base: Base, locs: Disk, tabs: Disk)
    reads base, locs, tabs
  {
    && Rep(locs.content, base.items) && base.locsize == |locs.content|
    && (forall i :: 0 <= i < |base.items| ==> Size(base.items[i]) <= BUFSIZ)
    && tabs.content == TabBytes(base.recs) && base.tablesize == |tabs.content|
  }

  ghost function ViewOf(base: Base): View
    reads base
  {
    View(base.items, base.recs)
  }

  lemma {:induction false} ValidParts(t: Table)
    ensures Rests(t) && FilesOk(t.base, t.loc.disk, t.tab.disk) <==> t.IndexValid() && t.RecordsValid()
    ensures t.loc.Valid() && FilesOk(t.base, t.loc.disk, t.tab.disk) ==> t.IndexValid()
  {
    hide Rep, TabBytes;
  }

  lemma {:induction false} MineHas(t: Table)
    ensures t.loc in Mine(t) && t.loc.buf in Mine(t) && t.loc.buf.data in Mine(t)
    ensures t.tab in Mine(t) && t.tab.buf in Mine(t) && t.tab.buf.data in Mine(t)
  {
  }

  lemma {:induction false} Apart(ts: seq<Table>, i: nat, j: nat)
    requires i < |ts| && j < |ts| && i != j
    requires forall x, y :: 0 <= x < y < |ts| ==> Mine(ts[x]) !! Mine(ts[y])
    ensures var (a, b) := (ts[i], ts[j]);
            && a.loc !in {b.loc, b.tab} && a.tab !in {b.loc, b.tab}
            && a.loc.buf !in {b.loc.buf, b.tab.buf} && a.tab.buf !in {b.loc.buf, b.tab.buf}
            && a.loc.buf.data !in {b.loc.buf.data, b.tab.buf.data} && a.tab.buf.data !in {b.loc.buf.data, b.tab.buf.data}
  {
    hide Mine;
    assert Mine(ts[i]) !! Mine(ts[j]);
    MineHas(ts[i]);
    MineHas(ts[j]);
  }

  /** The repaired code: one call acts as one step on the view. */
  method Serve(t: Table, c: Call, ghost n: nat) returns (reply: Reply)
    requires t.rules == INTENDED && t.Wired() && t.IndexValid() && t.RecordsValid() && Fits(c)
    requires !t.base.writer && t.base.readers == 0 && Inv(ViewOf(t.base)) && Room(ViewOf(t.base), n + 1)
    modifies t.tab, t.tab.disk, t.tab.buf, t.tab.buf.data, t.loc, t.loc.disk, t.loc.buf, t.loc.buf.data, t.base
    ensures t.IndexValid() && t.RecordsValid() && !t.base.writer && t.base.readers == 0
    ensures (ViewOf(t.base), reply) == StepView(old(ViewOf(t.base)), c)
    ensures Inv(ViewOf(t.base)) && Room(ViewOf(t.base), n)
  {
    hide AddPost, Rep, TabBytes, AddView, Named, Distinct, Hash, Buffered, Window;
    ghost var v, a := ViewOf(t.base), t.Snap();
    match c
    case Query(eq, k) =>
      var error, locs, picks := t.Search(eq, k, Obliging(k));
      reply := if error == 0 then Found(locs) else NotFound;
    case Add(time, val, loc) =>
      RepLength(t.loc.disk.content, t.base.items);
      var res := t.RecordAdd(time, val, loc);
      IntendedAdd(a, t.Snap(), res, time, val, loc);
      AddKeepsInv(v, time, val, loc);
      AddRoom(v, time, val, loc, n);
      reply := if res == Added then Accepted else OutOfOrder;
  }

  /** The same for one of several workers; the others are not touched. */
  method ServeTurn(ts: seq<Table>, w: nat, c: Call, base: Base, locs: Disk, tabs: Disk, ghost n: nat)
    returns (reply: Reply)
    requires Workers(ts, base, locs, tabs, INTENDED) && w < |ts| && Fits(c)
    requires AllRest(ts) && FilesOk(base, locs, tabs) && !base.writer && base.readers == 0
    requires Inv(ViewOf(base)) && Room(ViewOf(base), n + 1)
    modifies Mine(ts[w]), base, locs, tabs
    ensures AllRest(ts) && FilesOk(base, locs, tabs) && !base.writer && base.readers == 0
    ensures (ViewOf(base), reply) == StepView(old(ViewOf(base)), c)
    ensures Inv(ViewOf(base)) && Room(ViewOf(base), n)
  {
    hide FilesOk, Inv, Room, StepView, Mine;
    ValidParts(ts[w]);
    MineHas(ts[w]);
    reply := Serve(ts[w], c, n);
    ValidParts(ts[w]);
    forall j | 0 <= j < |ts| && j != w ensures Rests(ts[j]) {
      Apart(ts, j, w);
    }
  }

  /** Workers making calls on a table with the three repairs: whatever the calls and whoever makes
      them, both files and the replies are those of the run on the view, and, unless an add met a
      twin of its locator, those of a plain list of rows. */
  method Session(ts: seq<Table>, base: Base, locs: Disk, tabs: Disk, turns: seq<Turn>) returns (replies: seq<Reply>)
    requires Workers(ts, base, locs, tabs, INTENDED) && Proper(turns, |ts|)
    requires AllRest(ts) && FilesOk(base, locs, tabs) && !base.writer && base.readers == 0
    requires Inv(ViewOf(base)) && Room(ViewOf(base), |turns|)
    modifies Owned(ts), base, locs, tabs
    ensures AllRest(ts) && FilesOk(base, locs, tabs) && !base.writer && base.readers == 0
    ensures (ViewOf(base), replies) == RunView(old(ViewOf(base)), Calls(turns))
    ensures var (v, calls) := (old(ViewOf(base)), Calls(turns));
            && (Log(ViewOf(base)) == RunLog(Log(v), calls).0 <==> Untwinned(v, calls))
            && (Untwinned(v, calls) ==> replies == RunLog(Log(v), calls).1)
    ensures (forall c :: c in Calls(turns) ==> c.Add? ==> NoNul(c.loc)) ==>
              replies == RunLog(Log(old(ViewOf(base))), Calls(turns)).1
  {
    hide Inv, Room, FilesOk, AllRest, Workers, StepView, RunView, Log, RunLog, Untwinned, NoNul, Owned, Mine;
    replies := [];
    ghost var v, calls := ViewOf(base), Calls(turns);
    RunNil(v, calls);
    for i := 0 to |turns|
      invariant AllRest(ts) && FilesOk(base, locs, tabs) && !base.writer && base.readers == 0
      invariant (ViewOf(base), replies) == RunView(v, calls[..i])
      invariant Inv(ViewOf(base)) && Room(ViewOf(base), |turns| - i)
    {
      assert turns[i] in turns;
      var reply := ServeTurn(ts, turns[i].t, turns[i].call, base, locs, tabs, |turns| - i - 1);
      RunSnoc(v, calls, i);
      replies := replies + [reply];
    }
    assert calls[..|turns|] == calls;
    ProperFits(turns, |ts|);
    RunMatchesLog(v, calls, 0);
    if forall c :: c in calls ==> c.Add? ==> NoNul(c.loc) {
      NoNulRun(v, calls);
    }
  }

  lemma {:induction false} ProperFits(turns: seq<Turn>, nworkers: nat)
    requires Proper(turns, nworkers)
    ensures forall c :: c in Calls(turns) ==> Fits(c)
  {
    hide Fits;
    forall c | c in Calls(turns) ensures Fits(c) {
      var i :| 0 <= i < |turns| && Calls(turns)[i] == c;
      assert turns[i] in turns;
    }
  }

  /** What became of a call on the code as written: served as it should be, waiting for ever
      for the write lock, ended by the assertion in kcn_buf_append, or accepted with its locator
      lost from the index. */
  datatype Fate = Served | Waiting | Dead | Lost

  /** Rows in the table, counted from outside. */
  function Rows(rows: nat, replies: seq<Reply>): nat {
    if replies == [] then rows
    else Rows(rows, replies[..|replies| - 1]) + if replies[|replies| - 1] == Accepted then 1 else 0
  }

  /** Some search of the past found something: line 507 kept its read lock. */
  predicate HoldsLock(replies: seq<Reply>) {
    exists j :: 0 <= j < |replies| && replies[j].Found?
  }

  /** Records a worker has taken from its record buffer since that was last reset, after a call it
      makes on a table of `n` rows: an accepted add starts anew, a search takes them all, and a
      refused add takes one. */
  function NextDrift(d: nat, n: nat, c: Call, reply: Reply): nat {
    match c
    case Query(_, k) => if k == 0 then 0 else n
    case Add(_, _, _) => if reply == Accepted then 0 else if n == 0 then d else d + 1
  }

  /** The same after the whole past of the table; calls of other workers change nothing of it. */
  function Drift(rows: nat, t: nat, turns: seq<Turn>, replies: seq<Reply>): nat
    requires |turns| == |replies|
  {
    if turns == [] then 0
    else
      var m := |turns| - 1;
      var d := Drift(rows, t, turns[..m], replies[..m]);
      if turns[m].t == t then NextDrift(d, Rows(rows, replies[..m]), turns[m].call, replies[m]) else d
  }

  /** What becomes of a call: `locked` when a search has kept its lock, `d` the caller's drift. */
  function FateOf(v: View, locked: bool, d: nat, c: Call): Fate {
    match c
    case Query(_, _) => Served
    case Add(time, _, loc) =>
      if locked then Waiting
      else if LastTime(v.recs) > time then Served
      else if v.recs != [] && d % 170 == 169 then Dead
      else if !IndexKept(AS_WRITTEN, v.items, loc) then Lost
      else Served
  }

  /** The fate of the next turn, by the past of the table. */
  function FateNext(v: View, rows: nat, turns: seq<Turn>, replies: seq<Reply>, next: Turn): Fate
    requires |turns| == |replies|
  {
    FateOf(v, HoldsLock(replies), Drift(rows, next.t, turns, replies), next.call)
  }

  function FateAt(v: View, turns: seq<Turn>, j: nat): Fate
    requires j < |turns|
  {
    var (w, replies) := RunView(v, Calls(turns[..j]));
    FateNext(w, |v.recs|, turns[..j], replies, turns[j])
  }

  /** A worker's own state: at rest between calls, with these bytes held from there on. */
  datatype Memory = Memory(rests: bool, held: seq<byte>, sp: nat)

  ghost function Mem(t: Table): Memory
    reads Mine(t)
  {
    Memory(Rests(t), if Rests(t) then t.tab.buf.Held() else [], t.tab.buf.sp)
  }

  /** While the lock is free a worker's record buffer is empty, its window where its drift says. */
  predicate Tracked(m: Memory, d: nat, locked: bool) {
    m.rests && (locked || (m.held == [] && m.sp == Window(d)))
  }

  lemma {:induction false} WindowZero()
    ensures Window(0) == 0
  {
  }

  lemma {:induction false} WindowNext(d: nat)
    ensures Window(d + 1) == After(Window(d))
  {
  }

  /** The decision on an add with an empty buffer, and where a refusal leaves the window. */
  lemma {:induction false} DriftOutcome(d: nat, recs: seq<Record>, time: i64)
    requires recs == [] ==> d == 0
    ensures AddOutcome([], Window(d), recs, time) ==
            if LastTime(recs) > time then Rejected
            else if recs != [] && d % 170 == 169 then Aborted
            else Added
    ensures AfterLast(Window(d), recs) == Window(if recs == [] then d else d + 1)
  {
    hide AddOutcome, Window;
    AddAbortsExact(Window(d), recs, time);
    WindowZero();
    WindowNext(d);
    WindowCycles(d);
  }

  /** How a call of the code as written came back, if it did. */
  datatype Effect = Replied(reply: Reply) | Waits | Dies

  /** That a call came back as its fate says, with what it should leave behind. */
  ghost predicate Turned(t: Table, v: View, locked: bool, d: nat, c: Call, effect: Effect)
    reads t.base, t.loc.disk, t.tab.disk, Mine(t)
  {
    match FateOf(v, locked, d, c)
    case Served =>
      && (ViewOf(t.base), effect) == (StepView(v, c).0, Replied(StepView(v, c).1))
      && t.IndexValid() && t.RecordsValid() && !t.base.writer
      && (t.base.readers > 0 <==> locked || effect.reply.Found?)
      && Tracked(Mem(t), NextDrift(d, |v.recs|, c, effect.reply), t.base.readers > 0)
    case Lost =>
      && (ViewOf(t.base), effect) == (StepView(v, c).0, Replied(StepView(v, c).1))
      && t.loc.Valid() && !t.IndexValid()
    case Waiting => effect == Waits && ViewOf(t.base) == v && t.IndexValid() && t.RecordsValid()
    case Dead => effect == Dies && t.base.recs == v.recs && t.tab.disk.content == TabBytes(v.recs) && t.base.writer
  }

  /** An add on the byte files by the code as written: exactly what becomes of it. */
  method AddWritten(t: Table, c: Call, ghost d: nat) returns (effect: Effect)
    requires t.rules == AS_WRITTEN && t.Wired() && t.IndexValid() && t.RecordsValid() && c.Add? && Fits(c)
    requires !t.base.writer && Room(ViewOf(t.base), 1)
    requires Tracked(Mem(t), d, t.base.readers > 0) && (t.base.recs == [] ==> d == 0)
    modifies t.tab, t.tab.disk, t.tab.buf, t.tab.buf.data, t.loc, t.loc.disk, t.loc.buf, t.loc.buf.data, t.base
    ensures Turned(t, old(ViewOf(t.base)), old(t.base.readers > 0), d, c, effect)
  {
    hide AddPost, Rep, TabBytes, AddView, Named, Distinct, Hash, IndexKept, Find, Window, AddOutcome, StepView;
    ghost var v, a := ViewOf(t.base), t.Snap();
    if t.base.readers > 0 {
      return Waits;
    }
    RepLength(t.loc.disk.content, t.base.items);
    DriftOutcome(d, a.recs, c.time);
    var res := t.RecordAdd(c.time, c.val, c.loc);
    CleanAdd(AS_WRITTEN, a, t.Snap(), res, c.time, c.val, c.loc);
    if res == Aborted {
      return Dies;
    }
    AddReply(v, c, res == Added);
    WindowZero();
    effect := Replied(if res == Added then Accepted else OutOfOrder);
  }

  lemma {:induction false} AddReply(v: View, c: Call, ok: bool)
    requires c.Add? && AddView(v, c.time, c.val, c.loc).1 == ok
    ensures StepView(v, c) == (AddView(v, c.time, c.val, c.loc).0, if ok then Accepted else OutOfOrder)
  {
    hide AddView;
  }

  /** What a search leaves behind, told from its reply. */
  lemma {:induction false} QueryLeaves(recs: seq<Record>, eq: Eq, k: nat, held: seq<byte>, sp: nat)
    requires ScanLeaves(recs, eq, k, held, sp) && Scan(recs, eq, k) == []
    ensures held == [] && sp == Window(if k == 0 then 0 else |recs|)
  {
    hide Window, Buffered, RecMatch, Scan;
    if k == 0 {
      BufferedExact(recs, 0);
    } else {
      ScannedShort(recs, eq, k);
      BufferedNothing(recs);
    }
  }

  /** One call on the byte files by the code as written. */
  method ServeWritten(t: Table, c: Call, ghost d: nat) returns (effect: Effect)
    requires t.rules == AS_WRITTEN && t.Wired() && t.IndexValid() && t.RecordsValid() && Fits(c)
    requires !t.base.writer && Inv(ViewOf(t.base)) && Room(ViewOf(t.base), 1)
    requires Tracked(Mem(t), d, t.base.readers > 0) && (t.base.recs == [] ==> d == 0)
    modifies t.tab, t.tab.disk, t.tab.buf, t.tab.buf.data, t.loc, t.loc.disk, t.loc.buf, t.loc.buf.data, t.base
    ensures Turned(t, old(ViewOf(t.base)), old(t.base.readers > 0), d, c, effect)
  {
    hide Rep, TabBytes, Named, Distinct, Hash, ScanLeaves, Window, Scan, Buffered;
    match c
    case Query(eq, k) =>
      var error, locs, picks := t.Search(eq, k, Obliging(k));
      effect := Replied(if error == 0 then Found(locs) else NotFound);
      if error != 0 {
        QueryLeaves(t.base.recs, eq, k, t.tab.buf.Held(), t.tab.buf.sp);
      }
    case Add(_, _, _) =>
      effect := AddWritten(t, c, d);
  }

  function Drifts(rows: nat, nworkers: nat, turns: seq<Turn>, replies: seq<Reply>): (ds: seq<nat>)
    requires |turns| == |replies|
    ensures |ds| == nworkers && forall j :: 0 <= j < nworkers ==> ds[j] == Drift(rows, j, turns, replies)
  {
    seq(nworkers, j requires 0 <= j < nworkers => Drift(rows, j, turns, replies))
  }

  ghost predicate AllTracked(ts: seq<Table>, ds: seq<nat>, locked: bool)
    requires |ds| == |ts|
    reads Owned(ts)
  {
    forall j :: 0 <= j < |ts| ==> Tracked(Mem(ts[j]), ds[j], locked)
  }

  /** The table between two calls, ready for `n` more: files and sizes right, the lock kept exactly
      when a search has found something, every worker's buffer as its own past tells. */
  ghost predicate Live(ts: seq<Table>, base: Base, locs: Disk, tabs: Disk, rows: nat, turns: seq<Turn>,
                       replies: seq<Reply>, n: nat)
    reads Owned(ts), base, locs, tabs
  {
    && |turns| == |replies| && AllRest(ts) && FilesOk(base, locs, tabs) && !base.writer
    && Inv(ViewOf(base)) && Room(ViewOf(base), n)
    && |base.recs| == Rows(rows, replies) && (base.readers > 0 <==> HoldsLock(replies))
    && AllTracked(ts, Drifts(rows, |ts|, turns, replies), HoldsLock(replies))
  }

  lemma {:induction false} HoldsSnoc(replies: seq<Reply>, reply: Reply)
    ensures HoldsLock(replies + [reply]) <==> HoldsLock(replies) || reply.Found?
  {
    var more := replies + [reply];
    if HoldsLock(replies) {
      var j :| 0 <= j < |replies| && replies[j].Found?;
      assert more[j].Found?;
    }
    if reply.Found? {
      assert more[|replies|].Found?;
    }
  }

  lemma {:induction false} RowsSnoc(rows: nat, replies: seq<Reply>, reply: Reply)
    ensures Rows(rows, replies + [reply]) == Rows(rows, replies) + if reply == Accepted then 1 else 0
  {
    assert (replies + [reply])[..|replies|] == replies;
  }

  lemma {:induction false} DriftSnoc(rows: nat, t: nat, turns: seq<Turn>, replies: seq<Reply>, turn: Turn, reply: Reply)
    requires |turns| == |replies|
    ensures Drift(rows, t, turns + [turn], replies + [reply]) ==
            if turn.t == t then NextDrift(Drift(rows, t, turns, replies), Rows(rows, replies), turn.call, reply)
            else Drift(rows, t, turns, replies)
  {
    hide NextDrift, Rows;
    assert (turns + [turn])[..|turns|] == turns && (replies + [reply])[..|replies|] == replies;
  }

  /** In a table that has never had a row nothing was read. */
  lemma {:induction false} NoRowsNoDrift(rows: nat, t: nat, turns: seq<Turn>, replies: seq<Reply>)
    requires |turns| == |replies| && Rows(rows, replies) == 0
    ensures Drift(rows, t, turns, replies) == 0
  {
    if turns != [] {
      NoRowsNoDrift(rows, t, turns[..|turns| - 1], replies[..|turns| - 1]);
    }
  }

  lemma {:induction false} StepKeeps(v: View, c: Call, n: nat)
    requires Inv(v) && Fits(c) && Room(v, n + 1)
    ensures Inv(StepView(v, c).0) && Room(StepView(v, c).0, n) && Room(v, 1)
    ensures |StepView(v, c).0.recs| == |v.recs| + if StepView(v, c).1 == Accepted then 1 else 0
  {
    hide Inv, Off, IndexAdd, Find;
    if c.Add? {
      AddKeepsInv(v, c.time, c.val, c.loc);
      AddRoom(v, c.time, c.val, c.loc, n);
    }
  }

  /** One worker's call leaves the others' memory alone. */
  method CallAlone(ts: seq<Table>, w: nat, c: Call, base: Base, locs: Disk, tabs: Disk, ghost d: nat)
    returns (effect: Effect)
    requires Workers(ts, base, locs, tabs, AS_WRITTEN) && w < |ts| && Fits(c) && FilesOk(base, locs, tabs)
    requires !base.writer && Inv(ViewOf(base)) && Room(ViewOf(base), 1)
    requires Tracked(Mem(ts[w]), d, base.readers > 0) && (base.recs == [] ==> d == 0)
    modifies Mine(ts[w]), base, locs, tabs
    ensures Turned(ts[w], old(ViewOf(base)), old(base.readers > 0), d, c, effect)
    ensures forall j :: 0 <= j < |ts| && j != w ==> Mem(ts[j]) == old(Mem(ts[j]))
  {
    hide FilesOk, Inv, Room, Turned, Window, Mine;
    ValidParts(ts[w]);
    MineHas(ts[w]);
    effect := ServeWritten(ts[w], c, d);
    forall j | 0 <= j < |ts| && j != w ensures Mem(ts[j]) == old(Mem(ts[j])) {
      Apart(ts, j, w);
    }
  }

  /** One call by one of several workers, by the code as written and after any past. */
  method TurnWritten(ts: seq<Table>, turn: Turn, base: Base, locs: Disk, tabs: Disk, ghost rows: nat,
                     ghost turns: seq<Turn>, ghost replies: seq<Reply>, ghost n: nat) returns (effect: Effect)
    requires Workers(ts, base, locs, tabs, AS_WRITTEN) && turn.t < |ts| && Fits(turn.call)
    requires Live(ts, base, locs, tabs, rows, turns, replies, n + 1)
    modifies Mine(ts[turn.t]), base, locs, tabs
    ensures var (v, c) := (old(ViewOf(base)), turn.call);
            match FateNext(v, rows, turns, replies, turn)
            case Served =>
              && (ViewOf(base), effect) == (StepView(v, c).0, Replied(StepView(v, c).1))
              && Live(ts, base, locs, tabs, rows, turns + [turn], replies + [effect.reply], n)
            case Lost =>
              && (ViewOf(base), effect) == (StepView(v, c).0, Replied(StepView(v, c).1))
              && !FilesOk(base, locs, tabs)
            case Waiting => effect == Waits && ViewOf(base) == v && FilesOk(base, locs, tabs)
            case Dead =>
              effect == Dies && base.recs == v.recs && tabs.content == TabBytes(v.recs) && base.writer
  {
    hide FilesOk, Inv, Room, StepView, Drift, Rows, HoldsLock, FateOf, NextDrift, Mine, Mem, Tracked, Rests;
    ghost var v, d := ViewOf(base), Drift(rows, turn.t, turns, replies);
    if Rows(rows, replies) == 0 {
      NoRowsNoDrift(rows, turn.t, turns, replies);
    }
    StepKeeps(v, turn.call, n);
    effect := CallAlone(ts, turn.t, turn.call, base, locs, tabs, d);
    ValidParts(ts[turn.t]);
    if FateNext(v, rows, turns, replies, turn) == Served {
      var reply := effect.reply;
      HoldsSnoc(replies, reply);
      RowsSnoc(rows, replies, reply);
      forall j | 0 <= j < |ts|
        ensures Tracked(Mem(ts[j]), Drift(rows, j, turns + [turn], replies + [reply]), HoldsLock(replies + [reply]))
      {
        DriftSnoc(rows, j, turns, replies, turn, reply);
        StaysTracked(Mem(ts[j]), Drift(rows, j, turns, replies), HoldsLock(replies), HoldsLock(replies + [reply]));
      }
      TrackedRest(ts, Drifts(rows, |ts|, turns + [turn], replies + [reply]), HoldsLock(replies + [reply]));
    }
  }

  lemma {:induction false} StaysTracked(m: Memory, d: nat, locked: bool, locked': bool)
    requires locked ==> locked'
    ensures Tracked(m, d, locked) ==> Tracked(m, d, locked')
  {
  }

  lemma {:induction false} TrackedRest(ts: seq<Table>, ds: seq<nat>, locked: bool)
    requires |ds| == |ts| && forall j :: 0 <= j < |ts| ==> Tracked(Mem(ts[j]), ds[j], locked)
    ensures AllTracked(ts, ds, locked) && AllRest(ts)
  {
    hide Window;
  }

  /** The first turn that is not served as it should be; |turns| when all are. */
  function FirstOther(v: View, turns: seq<Turn>, j: nat := 0): (r: nat)
    requires j <= |turns|
    ensures j <= r <= |turns| && forall i :: j <= i < r ==> FateAt(v, turns, i) == Served
    ensures r < |turns| ==> FateAt(v, turns, r) != Served
    decreases |turns| - j
  {
    if j == |turns| || FateAt(v, turns, j) != Served then j else FirstOther(v, turns, j + 1)
  }

  lemma {:induction false} OtherIs(v: View, turns: seq<Turn>, n: nat)
    requires n <= |turns| && forall i :: 0 <= i < n ==> FateAt(v, turns, i) == Served
    requires n < |turns| ==> FateAt(v, turns, n) != Served
    ensures FirstOther(v, turns) == n
  {
    hide FateAt;
    var r := FirstOther(v, turns);
    assert n <= r && r <= n;
  }

  lemma {:induction false} FateHere(v: View, turns: seq<Turn>, i: nat, w: View, replies: seq<Reply>)
    requires i < |turns| && (w, replies) == RunView(v, Calls(turns[..i]))
    ensures |replies| == i && FateAt(v, turns, i) == FateNext(w, |v.recs|, turns[..i], replies, turns[i])
  {
    hide FateNext;
  }

  lemma {:induction false} CallsTake(turns: seq<Turn>, i: nat)
    requires i <= |turns|
    ensures Calls(turns[..i]) == Calls(turns)[..i]
  {
  }

  /** A worker that has just opened the table. */
  ghost predicate Fresh(t: Table)
    reads Mine(t)
  {
    Rests(t) && t.tab.buf.Held() == [] && t.tab.buf.sp == 0
  }

  lemma {:induction false} StartLive(ts: seq<Table>, base: Base, locs: Disk, tabs: Disk, n: nat)
    requires (forall j :: 0 <= j < |ts| ==> Fresh(ts[j])) && FilesOk(base, locs, tabs) && !base.writer
    requires base.readers == 0 && Inv(ViewOf(base)) && Room(ViewOf(base), n)
    ensures Live(ts, base, locs, tabs, |base.recs|, [], [], n)
  {
    hide FilesOk, Inv, Room;
    WindowZero();
    assert forall j :: 0 <= j < |ts| ==> Fresh(ts[j]) ==> Rests(ts[j]);
  }

  /** Workers making calls on the code as written, from a fresh start until an add is lost, if one
      ever is: calls are served as they should be up to the first with another fate, and both files
      are as they should be when there is none. */
  method SessionWritten(ts: seq<Table>, base: Base, locs: Disk, tabs: Disk, turns: seq<Turn>)
    returns (replies: seq<Reply>)
    requires Workers(ts, base, locs, tabs, AS_WRITTEN) && Proper(turns, |ts|)
    requires (forall j :: 0 <= j < |ts| ==> Fresh(ts[j])) && FilesOk(base, locs, tabs)
    requires !base.writer && base.readers == 0 && Inv(ViewOf(base)) && Room(ViewOf(base), |turns|)
    requires forall j :: 0 <= j < |turns| - 1 ==> FateAt(ViewOf(base), turns, j) != Lost
    modifies Owned(ts), base, locs, tabs
    ensures var n := FirstOther(old(ViewOf(base)), turns);
            && (n == |turns| ==> |replies| == n && AllRest(ts) && FilesOk(base, locs, tabs))
            && (n < |turns| ==>
                  if FateAt(old(ViewOf(base)), turns, n) == Lost then |replies| == n + 1 && !FilesOk(base, locs, tabs)
                  else |replies| == n)
    ensures |replies| <= |turns| && replies == RunView(old(ViewOf(base)), Calls(turns[..|replies|])).1
    ensures |replies| == |turns| ==> ViewOf(base) == RunView(old(ViewOf(base)), Calls(turns)).0
  {
    hide Inv, Room, FilesOk, AllRest, Workers, StepView, RunView, FateAt, FateNext, Fresh, FirstOther, Owned, Mine, Live,
         Calls;
    replies := [];
    ghost var v := ViewOf(base);
    RunNil(v, Calls(turns));
    CallsTake(turns, 0);
    StartLive(ts, base, locs, tabs, |turns|);
    ghost var lost := false;
    assert turns[..0] == [];
    for i := 0 to |turns|
      invariant (ViewOf(base), replies) == RunView(v, Calls(turns[..i]))
      invariant forall j :: 0 <= j < (if lost then i - 1 else i) ==> FateAt(v, turns, j) == Served
      invariant lost ==> i == |turns| > 0 && FateAt(v, turns, i - 1) == Lost && !FilesOk(base, locs, tabs)
      invariant !lost ==> Live(ts, base, locs, tabs, |v.recs|, turns[..i], replies, |turns| - i)
    {
      assert turns[i] in turns;
      FateHere(v, turns, i, ViewOf(base), replies);
      var effect := TurnWritten(ts, turns[i], base, locs, tabs, |v.recs|, turns[..i], replies, |turns| - i - 1);
      if !effect.Replied? {
        OtherIs(v, turns, i);
        return;
      }
      CallsTake(turns, i);
      CallsTake(turns, i + 1);
      RunSnoc(v, Calls(turns), i);
      replies := replies + [effect.reply];
      lost := FateAt(v, turns, i) == Lost;
      assert turns[..i + 1] == turns[..i] + [turns[i]];
    }
    assert turns[..|turns|] == turns;
    OtherIs(v, turns, if lost then |turns| - 1 else |turns|);
    if !lost {
      LiveRests(ts, base, locs, tabs, |v.recs|, turns, replies, 0);
    }
  }

  lemma {:induction false} LiveRests(ts: seq<Table>, base: Base, locs: Disk, tabs: Disk, rows: nat, turns: seq<Turn>,
                                     replies: seq<Reply>, n: nat)
    requires Live(ts, base, locs, tabs, rows, turns, replies, n)
    ensures AllRest(ts) && FilesOk(base, locs, tabs)
  {
    hide FilesOk;
  }

  /** Turns of worker t. */
  function Own(t: nat, turns: seq<Turn>): nat {
    if turns == [] then 0 else Own(t, turns[..|turns| - 1]) + if turns[|turns| - 1].t == t then 1 else 0
  }

  /** Refused adds move a worker on by one each; what the other workers do does not move it. */
  lemma {:induction false} RefusalsDrift(rows: nat, t: nat, turns: seq<Turn>, replies: seq<Reply>, more: seq<Turn>,
                                         answers: seq<Reply>)
    requires |turns| == |replies| && |more| == |answers| && Rows(rows, replies) > 0
    requires forall j :: 0 <= j < |more| && more[j].t == t ==> more[j].call.Add? && answers[j] == OutOfOrder
    ensures Rows(rows, replies + answers) > 0
    ensures Drift(rows, t, turns + more, replies + answers) == Drift(rows, t, turns, replies) + Own(t, more)
    decreases |more|
  {
    hide Drift, Rows;
    if more == [] {
      assert turns + more == turns && replies + answers == replies;
    } else {
      var m := |more| - 1;
      RefusalsDrift(rows, t, turns, replies, more[..m], answers[..m]);
      FrontLast(more);
      FrontLast(answers);
      Regroup(turns, more[..m], [more[m]]);
      Regroup(replies, answers[..m], [answers[m]]);
      DriftSnoc(rows, t, turns + more[..m], replies + answers[..m], more[m], answers[m]);
      RowsSnoc(rows, replies + answers[..m], answers[m]);
    }
  }

  /** A worker that has made no call yet, but for refused adds on a table without rows. */
  predicate Untouched(rows: nat, t: nat, turns: seq<Turn>, replies: seq<Reply>)
    requires |turns| == |replies|
  {
    if turns == [] then true
    else
      var m := |turns| - 1;
      && Untouched(rows, t, turns[..m], replies[..m])
      && (turns[m].t == t ==> turns[m].call.Add? && replies[m] == OutOfOrder && Rows(rows, replies[..m]) == 0)
  }

  /** Where a worker's count starts: its last call was a search that found nothing or an accepted
      add, or it has made none yet. */
  predicate Rewound(rows: nat, t: nat, turns: seq<Turn>, replies: seq<Reply>)
    requires |turns| == |replies|
  {
    || Untouched(rows, t, turns, replies)
    || (turns != [] && turns[|turns| - 1].t == t
        && replies[|turns| - 1] == if turns[|turns| - 1].call.Query? then NotFound else Accepted)
  }

  /** What it starts at: the rows of the table at such a search, for at least one row; else zero. */
  function Origin(rows: nat, t: nat, turns: seq<Turn>, replies: seq<Reply>): nat
    requires |turns| == |replies|
  {
    if turns == [] || Untouched(rows, t, turns, replies) then 0
    else
      match turns[|turns| - 1].call
      case Query(_, k) => if k == 0 then 0 else Rows(rows, replies)
      case Add(_, _, _) => 0
  }

  lemma {:induction false} OriginDrift(rows: nat, t: nat, turns: seq<Turn>, replies: seq<Reply>)
    requires |turns| == |replies| && Rewound(rows, t, turns, replies)
    ensures Drift(rows, t, turns, replies) == Origin(rows, t, turns, replies)
    decreases |turns|
  {
    hide Rows;
    if turns != [] {
      var m := |turns| - 1;
      FrontLast(turns);
      FrontLast(replies);
      DriftSnoc(rows, t, turns[..m], replies[..m], turns[m], replies[m]);
      RowsSnoc(rows, replies[..m], replies[m]);
      if Untouched(rows, t, turns, replies) {
        OriginDrift(rows, t, turns[..m], replies[..m]);
      }
    }
  }

  /** When an acceptable add aborts, from outside and whoever else uses the table: with n = 0 after
      the worker's start or own accepted add, n the rows the table had at its own last search, if
      that found nothing, and m its own refused adds since then, exactly when n + m is 169 modulo
      170. */
  lemma {:induction false} AbortsExact(v: View, rows: nat, t: nat, turns: seq<Turn>, replies: seq<Reply>,
                                       more: seq<Turn>, answers: seq<Reply>, c: Call)
    requires |turns| == |replies| && |more| == |answers| && !HoldsLock(replies + answers)
    requires Rewound(rows, t, turns, replies) && Rows(rows, replies) > 0
    requires forall j :: 0 <= j < |more| && more[j].t == t ==> more[j].call.Add? && answers[j] == OutOfOrder
    requires |v.recs| == Rows(rows, replies + answers) && c.Add? && LastTime(v.recs) <= c.time
    ensures FateNext(v, rows, turns + more, replies + answers, Turn(t, c)) == Dead <==>
            (Origin(rows, t, turns, replies) + Own(t, more)) % 170 == 169
  {
    hide HoldsLock, IndexKept, Drift, Rows, Own, Origin, Rewound;
    OriginDrift(rows, t, turns, replies);
    RefusalsDrift(rows, t, turns, replies, more, answers);
  }

  /** A search that finds nothing, as a run. */
  lemma {:induction false} QuietQuery(v: View, eq: Eq, k: nat)
    requires Matching(Log(v), eq) == []
    ensures RunView(v, [Query(eq, k)]) == (v, [NotFound])
  {
    hide Matching, Log, Scan, Locators, RunView;
    var calls := [Query(eq, k)];
    SearchIsMatching(v, eq, k);
    RunNil(v, calls);
    RunSnoc(v, calls, 0);
    assert calls[..1] == calls && [] + [NotFound] == [NotFound];
  }

  /** Two calls by two workers, as a run. */
  lemma {:induction false} QuietThenAdd(v: View, eq: Eq, k: nat, b: Call, w: View)
    requires Matching(Log(v), eq) == [] && StepView(v, b) == (w, Accepted)
    ensures RunView(v, [Query(eq, k), b]) == (w, [NotFound, Accepted])
  {
    hide Matching, Log, RunView, StepView;
    var calls := [Query(eq, k), b];
    QuietQuery(v, eq, k);
    RunSnoc(v, calls, 1);
    assert calls[..1] == [Query(eq, k)] && calls[..2] == calls && [NotFound] + [Accepted] == [NotFound, Accepted];
  }

  lemma {:induction false} NothingFound(reply: Reply)
    requires !reply.Found?
    ensures !HoldsLock([]) && !HoldsLock([reply])
  {
  }

  /** The drifts of two workers after a search by the first and an accepted add by the second. */
  lemma {:induction false} TwoDrifts(rows: nat, eq: Eq, k: nat, b: Call)
    requires k > 0 && b.Add?
    ensures var (turns, replies) := ([Turn(0, Query(eq, k)), Turn(1, b)], [NotFound, Accepted]);
            && Drift(rows, 1, turns[..1], replies[..1]) == 0 && Drift(rows, 0, turns, replies) == rows
            && !HoldsLock(replies[..1]) && !HoldsLock(replies)
  {
    hide Drift, Rows, HoldsLock;
    var q, a := Turn(0, Query(eq, k)), Turn(1, b);
    DriftNone(rows);
    DriftSnoc(rows, 0, [], [], q, NotFound);
    DriftSnoc(rows, 1, [], [], q, NotFound);
    assert [] + [q] == [q] && [] + [NotFound] == [NotFound];
    DriftSnoc(rows, 0, [q], [NotFound], a, Accepted);
    assert [q] + [a] == [q, a] && [NotFound] + [Accepted] == [NotFound, Accepted];
    assert [q, a][..1] == [q] && [NotFound, Accepted][..1] == [NotFound];
    NothingFound(NotFound);
    HoldsSnoc([NotFound], Accepted);
  }

  lemma {:induction false} DriftNone(rows: nat)
    ensures Drift(rows, 0, [], []) == Drift(rows, 1, [], []) == 0 && Rows(rows, []) == rows
  {
  }

  lemma {:induction false} CallsOf(turns: seq<Turn>, calls: seq<Call>)
    requires |turns| == |calls| && forall i :: 0 <= i < |calls| ==> turns[i].call == calls[i]
    ensures Calls(turns) == calls
  {
  }

  /** One search that finds nothing in a table of 169 rows is enough, and an add another worker
      makes in between does not help. */
  lemma {:induction false} SearchThenAbort(v: View, eq: Eq, k: nat, b: Call, w: View, c: Call)
    requires |v.recs| % 170 == 169 && k > 0 && Matching(Log(v), eq) == []
    requires b.Add? && StepView(v, b) == (w, Accepted) && IndexKept(AS_WRITTEN, v.items, b.loc)
    requires c.Add? && LastTime(w.recs) <= c.time
    ensures FirstOther(v, [Turn(0, Query(eq, k)), Turn(1, b), Turn(0, c)]) == 2
    ensures FateAt(v, [Turn(0, Query(eq, k)), Turn(1, b), Turn(0, c)], 2) == Dead
  {
    hide Matching, Log, RunView, FirstOther, Drift, Rows, HoldsLock, IndexKept, Calls, IndexAdd;
    var turns := [Turn(0, Query(eq, k)), Turn(1, b), Turn(0, c)];
    QuietQuery(v, eq, k);
    QuietThenAdd(v, eq, k, b, w);
    TwoDrifts(|v.recs|, eq, k, b);
    assert turns[..1] == [turns[0]] && turns[..2] == [turns[0], turns[1]];
    CallsOf(turns[..1], [Query(eq, k)]);
    CallsOf(turns[..2], [Query(eq, k), b]);
    assert [turns[0], turns[1]][..1] == [turns[0]] && [NotFound, Accepted][..1] == [NotFound];
    OtherIs(v, turns, 2);
  }
}
