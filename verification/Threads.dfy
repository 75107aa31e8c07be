/** Any number of threads on one table under its rwlock, each with its own record buffer,
    interleaved between any two appends or links. AloneAdds and AloneSearches show that a thread
    left alone does what the methods of Table.Table do. */
module Threads {
  import opened Bytes
  import opened DbFile
  import opened LocIndex
  import opened Records
  import opened Table
  import opened Store

  type Locator = s: seq<byte> | 2 + |s| + 8 <= BUFSIZ witness []

  datatype AddReq = AddReq(time: i64, val: u64, loc: Locator)

  /** Where a thread is inside kcndb_db_search or kcndb_db_record_add. */
  datatype Pc =
    | Idle
    | Reading(eq: Eq, k: nat, i: nat, taken: seq<Record>)
    | Entered(a: AddReq)
    | Checked(a: AddReq)
    | EntryWritten(a: AddReq, idx: u64, field: nat)
    | EntrySized(a: AddReq, idx: u64, field: nat)
    | Linked(a: AddReq, idx: u64)
    | RecordWritten(a: AddReq)
    | Ending(a: AddReq, ok: bool)

  /** A finished search: its query, its result, and how many rows the table had. */
  datatype Answer = Answer(eq: Eq, k: nat, out: seq<seq<byte>>, n: nat)

  /** A thread's record buffer between two reads: the bytes it holds and where its window starts. */
  datatype RecBuf = RecBuf(held: seq<byte>, sp: nat)

  /** `dead` once some thread has met the assertion in kcn_buf_append. */
  datatype State = State(
    locs: seq<byte>, table: seq<byte>, locsize: nat, tablesize: nat,
    writer: int, readers: nat, pcs: seq<Pc>, bufs: seq<RecBuf>, dead: bool,
    items: seq<Item>, recs: seq<Record>, acked: seq<AddReq>, leaked: nat, answers: seq<Answer>)

  datatype Event = WantAdd(t: nat, a: AddReq) | WantSearch(t: nat, eq: Eq, k: nat) | Go(t: nat)

  predicate Writing(pc: Pc) {
    !pc.Idle? && !pc.Reading?
  }

  function WithPc(s: State, t: nat, pc: Pc): State
    requires t < |s.pcs|
  {
    s.(pcs := s.pcs[t := pc])
  }

  function BufOf(s: State, t: nat): RecBuf {
    if t < |s.bufs| then s.bufs[t] else RecBuf([], 0)
  }

  function WithBuf(s: State, t: nat, b: RecBuf): State {
    if t < |s.bufs| then s.(bufs := s.bufs[t := b]) else s
  }

  function ReadStep(s: State, t: nat, rules: Rules): State
    requires t < |s.pcs| && s.pcs[t].Reading?
  {
    var pc := s.pcs[t];
    if |pc.taken| < pc.k && pc.i < |s.recs| then
      var r := s.recs[pc.i];
      WithPc(s, t, pc.(i := pc.i + 1, taken := if RecMatch(r, pc.eq) then pc.taken + [r] else pc.taken))
    else
      var leak := pc.taken != [] && !rules.unlockOnSuccess;
      WithPc(s, t, Idle).(
        answers := s.answers + [Answer(pc.eq, pc.k, Locators(s.items, pc.taken), |s.recs|)],
        leaked := s.leaked + if leak then 1 else 0,
        readers := if leak || s.readers == 0 then s.readers else s.readers - 1)
  }

  /** Appending the entry; an append the file cannot hold fails, and so does the add. */
  function FindOrAppend(s: State, t: nat, a: AddReq, rules: Rules): State
    requires t < |s.pcs|
  {
    var k, end := Find(s.items, a.loc), Off(s.items, |s.items|);
    if k < |s.items| && Off(s.items, k) <= MAXOFF then WithPc(s, t, Linked(a, Off(s.items, k)))
    else if end + BUFSIZ > MAXOFF then WithPc(s, t, Ending(a, false))
    else
      WithPc(s, t, EntryWritten(a, end, LinkField(s.items, Hash(a.loc), rules.addBase))).(
        locs := s.locs + Entry(a.loc), items := Grow(s.items, a.loc, false))
  }

  function LinkStep(s: State, t: nat): State
    requires t < |s.pcs| && s.pcs[t].EntrySized?
  {
    var pc := s.pcs[t];
    if s.items == [] || pc.field > |s.locs| then s
    else
      WithPc(s, t, Linked(pc.a, pc.idx)).(
        locs := Splice(s.locs, pc.field, Be64(pc.idx)),
        items := Grow(s.items[..|s.items| - 1], pc.a.loc, true))
  }

  /** The record an add takes for the last one, read behind whatever the thread's buffer holds. */
  function Seen(s: State, t: nat, rules: Rules): Record {
    LastSeen(Stale(rules, BufOf(s, t).held), s.recs)
  }

  function Move(s: State, t: nat, rules: Rules): State
    requires t < |s.pcs|
  {
    match s.pcs[t]
    case Idle => s
    case Reading(_, _, _, _) => ReadStep(s, t, rules)
    case Entered(a) => WithPc(s, t, if Seen(s, t, rules).time > a.time then Ending(a, false) else Checked(a))
    case Checked(a) => FindOrAppend(s, t, a, rules)
    case EntryWritten(a, idx, field) =>
      WithPc(s, t, EntrySized(a, idx, field)).(locsize := s.locsize + 2 + |a.loc| + 8)
    case EntrySized(_, _, _) => LinkStep(s, t)
    case Linked(a, idx) =>
      var r := Record(a.time, a.val, idx);
      WithPc(s, t, RecordWritten(a)).(
        table := s.table + Splice(BufOf(s, t).held, 0, RecBytes(r)), recs := s.recs + [r])
    case RecordWritten(a) => WithPc(s, t, Ending(a, true)).(tablesize := s.tablesize + RECORDSIZ)
    case Ending(a, ok) =>
      WithPc(s, t, Idle).(writer := -1, acked := if ok then s.acked + [a] else s.acked)
  }

  /** The thread's next step uses its record buffer. */
  predicate UsesBuf(s: State, t: nat)
    requires t < |s.pcs|
  {
    match s.pcs[t]
    case Reading(_, k, i, taken) => |taken| < k && i < |s.recs|
    case Entered(_) => true
    case Linked(_, _) => true
    case _ => false
  }

  /** And leaves it like this: a scan has read one record more, the last record has been read
      behind what was held, or the record has been written. */
  function NextBuf(s: State, t: nat, rules: Rules): RecBuf
    requires t < |s.pcs|
  {
    match s.pcs[t]
    case Reading(_, _, i, _) =>
      if i < |s.recs| then RecBuf(Buffered(s.recs, i + 1), Window(i + 1)) else BufOf(s, t)
    case Entered(_) =>
      var stale, start := Stale(rules, BufOf(s, t).held), StartsAt(rules, BufOf(s, t).sp);
      RecBuf(LastLeaves(stale, start, s.recs), AfterLast(start, s.recs))
    case _ => RecBuf([], 0)
  }

  /** The window leaves no room for the record. */
  predicate Aborts(s: State, t: nat)
    requires t < |s.pcs|
  {
    s.pcs[t].Linked? && BufOf(s, t).sp + RECORDSIZ > BUFSIZ
  }

  function GoStep(s: State, t: nat, rules: Rules): State
    requires t < |s.pcs|
  {
    if Aborts(s, t) then s.(dead := true)
    else if UsesBuf(s, t) then WithBuf(Move(s, t, rules), t, NextBuf(s, t, rules))
    else Move(s, t, rules)
  }

  /** One step; a thread that has to wait for the lock stays where it is, and a search starts with
      its buffer reset. */
  function Step(s: State, e: Event, rules: Rules): State {
    if e.t >= |s.pcs| || s.dead then s
    else match e
      case WantAdd(t, a) =>
        if s.pcs[t].Idle? && s.writer < 0 && s.readers == 0
        then WithPc(s, t, Entered(a)).(writer := t) else s
      case WantSearch(t, eq, k) =>
        if s.pcs[t].Idle? && s.writer < 0
        then WithBuf(WithPc(s, t, Reading(eq, k, 0, [])).(readers := s.readers + 1), t, RecBuf([], 0)) else s
      case Go(t) => GoStep(s, t, rules)
  }

  function Run(s: State, es: seq<Event>, rules: Rules): State {
    if es == [] then s else Step(Run(s, es[..|es| - 1], rules), es[|es| - 1], rules)
  }

  function CountReading(pcs: seq<Pc>): nat {
    if pcs == [] then 0
    else CountReading(pcs[..|pcs| - 1]) + if pcs[|pcs| - 1].Reading? then 1 else 0
  }

  function WriterPc(s: State): Pc {
    if 0 <= s.writer < |s.pcs| then s.pcs[s.writer] else Idle
  }

  /** At most one writer, and no reader with it; the lock counts readers and leaked holds. */
  ghost predicate LockOk(s: State) {
    && -1 <= s.writer < |s.pcs|
    && (forall t :: 0 <= t < |s.pcs| ==> (Writing(s.pcs[t]) <==> t == s.writer))
    && s.readers == CountReading(s.pcs) + s.leaked
    && (s.writer >= 0 ==> s.readers == 0)
  }

  /** Both files are well formed, and the recorded sizes lag only inside an append. */
  ghost predicate FilesOk(s: State) {
    && Rep(s.locs, s.items) && s.table == TabBytes(s.recs) && |s.locs| <= MAXOFF
    && s.locsize + (match WriterPc(s) case EntryWritten(a, _, _) => 2 + |a.loc| + 8 case _ => 0) == |s.locs|
    && s.tablesize + (if WriterPc(s).RecordWritten? then RECORDSIZ else 0) == |s.table|
  }

  predicate RowFor(items: seq<Item>, r: Record, a: AddReq) {
    r.time == a.time && r.val == a.val && Same(LocOf(items, r), a.loc)
  }

  function Pending(pc: Pc): seq<AddReq> {
    match pc
    case RecordWritten(a) => [a]
    case Ending(a, ok) => if ok then [a] else []
    case _ => []
  }

  /** The rows beyond the first `n0` are the acknowledged adds, each once, in lock order,
      then the add whose record is written but not yet acknowledged. */
  ghost predicate LogOk(s: State, n0: nat) {
    var done := s.acked + Pending(WriterPc(s));
    && Inv(View(s.items, s.recs))
    && |s.recs| == n0 + |done|
    && forall i :: 0 <= i < |done| ==> RowFor(s.items, s.recs[n0 + i], done[i])
  }

  ghost predicate OrphanLast(items: seq<Item>, loc: Locator, idx: u64, field: nat, rules: Rules) {
    && items != []
    && var before := items[..|items| - 1];
       && items == Grow(before, loc, false) && Find(before, loc) == |before|
       && idx == Off(before, |before|) && field == LinkField(before, Hash(loc), rules.addBase)
  }

  ghost predicate WriterOk(s: State, rules: Rules) {
    match WriterPc(s)
    case Checked(a) => LastTime(s.recs) <= a.time
    case EntryWritten(a, idx, field) => LastTime(s.recs) <= a.time && OrphanLast(s.items, a.loc, idx, field, rules)
    case EntrySized(a, idx, field) => LastTime(s.recs) <= a.time && OrphanLast(s.items, a.loc, idx, field, rules)
    case Linked(a, idx) =>
      var r := Record(a.time, a.val, idx);
      LastTime(s.recs) <= a.time && Named(s.items, r) && RowFor(s.items, r, a)
    case _ => true
  }

  ghost predicate ReadersOk(s: State) {
    forall t :: 0 <= t < |s.pcs| && s.pcs[t].Reading? ==>
                  ScanAt(s.recs, s.pcs[t].i, s.pcs[t].eq, s.pcs[t].k, s.pcs[t].taken)
  }

  /** Every finished search returned the first k matches among the rows of its time. */
  ghost predicate AnswerOk(items: seq<Item>, recs: seq<Record>, w: Answer) {
    w.n <= |recs| && w.out == Locators(items, Scan(recs[..w.n], w.eq, w.k))
  }

  ghost predicate AnswersOk(s: State) {
    forall j :: 0 <= j < |s.answers| ==> AnswerOk(s.items, s.recs, s.answers[j])
  }

  ghost predicate Ok(s: State, n0: nat, rules: Rules) {
    LockOk(s) && FilesOk(s) && LogOk(s, n0) && WriterOk(s, rules) && ReadersOk(s) && AnswersOk(s)
  }

  lemma {:induction false} CountUpdate(pcs: seq<Pc>, t: nat, pc: Pc)
    requires t < |pcs|
    ensures CountReading(pcs[t := pc]) ==
            CountReading(pcs) - (if pcs[t].Reading? then 1 else 0) + (if pc.Reading? then 1 else 0)
  {
    var n := |pcs| - 1;
    if t < n {
      CountUpdate(pcs[..n], t, pc);
      assert pcs[t := pc][..n] == pcs[..n][t := pc];
    } else {
      assert pcs[t := pc][..n] == pcs[..n];
    }
  }

  lemma {:induction false} CountPositive(pcs: seq<Pc>, t: nat)
    requires t < |pcs| && pcs[t].Reading?
    ensures CountReading(pcs) > 0
  {
    if t < |pcs| - 1 {
      CountPositive(pcs[..|pcs| - 1], t);
    }
  }

  lemma {:induction false} NoReaders(s: State)
    requires LockOk(s) && s.writer >= 0
    ensures forall t :: 0 <= t < |s.pcs| ==> !s.pcs[t].Reading?
  {
    forall t | 0 <= t < |s.pcs| ensures !s.pcs[t].Reading? {
      if s.pcs[t].Reading? {
        CountPositive(s.pcs, t);
      }
    }
  }

  lemma {:induction false} ScanMembers(recs: seq<Record>, eq: Eq, k: nat)
    ensures forall r :: r in Scan(recs, eq, k) ==> r in recs
  {
    hide RecMatch;
    if k > 0 && recs != [] {
      ScanMembers(recs[1..], eq, if RecMatch(recs[0], eq) then k - 1 else k);
      assert recs == [recs[0]] + recs[1..];
    }
  }

  /** More entries and more rows leave what earlier searches returned as it was. */
  lemma {:induction false} AnswersGrow(s: State, items: seq<Item>, recs: seq<Record>)
    requires AnswersOk(s) && s.recs <= recs
    requires forall r :: r in s.recs ==> LocOf(items, r) == LocOf(s.items, r)
    ensures forall j :: 0 <= j < |s.answers| ==> AnswerOk(items, recs, s.answers[j])
  {
    hide LocOf, Scan;
    forall j | 0 <= j < |s.answers| ensures AnswerOk(items, recs, s.answers[j]) {
      var w := s.answers[j];
      assert AnswerOk(s.items, s.recs, w);
      assert recs[..w.n] == s.recs[..w.n];
      var hits := Scan(s.recs[..w.n], w.eq, w.k);
      ScanMembers(s.recs[..w.n], w.eq, w.k);
      forall i | 0 <= i < |hits| ensures hits[i] in s.recs {
        assert hits[i] in s.recs[..w.n];
      }
      assert Locators(items, hits) == Locators(s.items, hits);
    }
  }

  lemma {:induction false} WantAddOk(s: State, t: nat, a: AddReq, n0: nat, rules: Rules)
    requires Ok(s, n0, rules) && t < |s.pcs| && s.pcs[t].Idle? && s.writer < 0 && s.readers == 0
    ensures Ok(WithPc(s, t, Entered(a)).(writer := t), n0, rules)
  {
    hide Rep, TabBytes, Inv, RowFor, AnswerOk, ScanAt;
    CountUpdate(s.pcs, t, Entered(a));
  }

  lemma {:induction false} WantSearchOk(s: State, t: nat, eq: Eq, k: nat, n0: nat, rules: Rules)
    requires Ok(s, n0, rules) && t < |s.pcs| && s.pcs[t].Idle? && s.writer < 0
    ensures Ok(WithPc(s, t, Reading(eq, k, 0, [])).(readers := s.readers + 1), n0, rules)
  {
    hide Rep, TabBytes, Inv, RowFor, AnswerOk, ScanAt;
    CountUpdate(s.pcs, t, Reading(eq, k, 0, []));
    ScanStarts(s.recs, eq, k);
  }

  lemma {:induction false} ReadStepOk(s: State, t: nat, rules: Rules, n0: nat)
    requires Ok(s, n0, rules) && t < |s.pcs| && s.pcs[t].Reading?
    ensures Ok(ReadStep(s, t, rules), n0, rules)
  {
    hide Rep, TabBytes, Inv, RowFor, ScanAt, RecMatch, Locators;
    var pc := s.pcs[t];
    CountPositive(s.pcs, t);
    CountUpdate(s.pcs, t, ReadStep(s, t, rules).pcs[t]);
    assert s.writer != t;
    if |pc.taken| < pc.k && pc.i < |s.recs| {
      ScanAdvances(s.recs, pc.i, pc.eq, pc.k, pc.taken);
    } else {
      ScanBounds(s.recs, pc.i, pc.eq, pc.k, pc.taken);
      ScanEnds(s.recs, pc.i, pc.eq, pc.k, pc.taken);
      assert s.recs[..|s.recs|] == s.recs;
    }
  }

  lemma {:induction false} ScanBounds(recs: seq<Record>, i: nat, eq: Eq, k: nat, taken: seq<Record>)
    requires ScanAt(recs, i, eq, k, taken)
    ensures i <= |recs| && |taken| <= k
  {
  }

  /** The writer moves from one writing state to another. */
  lemma {:induction false} WriterMoves(s: State, s': State, pc: Pc)
    requires LockOk(s) && s.writer >= 0 && Writing(pc)
    requires s'.pcs == s.pcs[s.writer := pc] && s'.writer == s.writer
    requires s'.readers == s.readers && s'.leaked == s.leaked && s'.recs == s.recs
    ensures LockOk(s') && ReadersOk(s') && WriterPc(s') == pc
  {
    NoReaders(s);
    CountUpdate(s.pcs, s.writer, pc);
  }

  /** A step that leaves the rows and the entries alone. */
  lemma {:induction false} QuietStep(s: State, s': State, pc: Pc, n0: nat, rules: Rules)
    requires Ok(s, n0, rules) && s.writer >= 0 && Writing(pc)
    requires s' == s.(pcs := s.pcs[s.writer := pc], locsize := s'.locsize, tablesize := s'.tablesize)
    requires Pending(pc) == Pending(WriterPc(s)) && FilesOk(s') && WriterOk(s', rules)
    ensures Ok(s', n0, rules)
  {
    hide Rep, TabBytes, Inv, RowFor, AnswerOk, ScanAt, FilesOk, WriterOk;
    WriterMoves(s, s', pc);
  }

  /** The step accepts an add that is older than the last row, which its buffer hides from it. */
  predicate Misjudges(s: State, e: Event, rules: Rules) {
    && !s.dead && e.Go? && e.t < |s.pcs| && s.pcs[e.t].Entered?
    && Seen(s, e.t, rules).time <= s.pcs[e.t].a.time < LastTime(s.recs)
  }

  lemma {:induction false} EnteredExact(s: State, n0: nat, rules: Rules)
    requires Ok(s, n0, rules) && !s.dead && WriterPc(s).Entered?
    ensures Ok(Move(s, s.writer, rules), n0, rules) <==> !Misjudges(s, Go(s.writer), rules)
  {
    hide Rep, TabBytes, Inv, AnswerOk, ScanAt, Seen;
    var s' := Move(s, s.writer, rules);
    if Misjudges(s, Go(s.writer), rules) {
      assert WriterPc(s') == Checked(WriterPc(s).a);
    } else {
      QuietStep(s, s', s'.pcs[s.writer], n0, rules);
    }
  }

  lemma {:induction false} WrittenOk(s: State, n0: nat, rules: Rules)
    requires Ok(s, n0, rules) && (WriterPc(s).EntryWritten? || WriterPc(s).RecordWritten?)
    ensures Ok(Move(s, s.writer, rules), n0, rules)
  {
    hide Rep, TabBytes, Inv, AnswerOk, ScanAt, OrphanLast;
    var s' := Move(s, s.writer, rules);
    QuietStep(s, s', s'.pcs[s.writer], n0, rules);
  }

  lemma {:induction false} EndingOk(s: State, n0: nat, rules: Rules)
    requires Ok(s, n0, rules) && WriterPc(s).Ending?
    ensures Ok(Move(s, s.writer, rules), n0, rules)
  {
    hide Rep, TabBytes, Inv, RowFor, AnswerOk, ScanAt;
    NoReaders(s);
    CountUpdate(s.pcs, s.writer, Idle);
    var pc := WriterPc(s);
    assert s.acked + Pending(pc) + [] == s.acked + Pending(pc);
    assert pc.ok ==> s.acked + Pending(pc) == s.acked + [pc.a];
  }

  /** Entries added at the end, or linked there, keep every row's locator. */
  lemma {:induction false} RowsSurvive(s: State, items: seq<Item>, n0: nat)
    requires LogOk(s, n0) && Distinct(items)
    requires forall r :: r in s.recs ==> Named(items, r) && LocOf(items, r) == LocOf(s.items, r)
    ensures LogOk(s.(items := items), n0)
  {
    hide Named, LocOf, Same, Distinct;
  }

  lemma {:induction false} CheckedOk(s: State, n0: nat, rules: Rules)
    requires Ok(s, n0, rules) && WriterPc(s).Checked?
    ensures Ok(Move(s, s.writer, rules), n0, rules)
  {
    hide Rep, TabBytes, Inv, AnswerOk, ScanAt, Hash, Entry, Off, Grow, RowFor, Named, LinkField;
    var a := WriterPc(s).a;
    var s' := Move(s, s.writer, rules);
    var k, end := Find(s.items, a.loc), Off(s.items, |s.items|);
    RepLength(s.locs, s.items);
    if k < |s.items| {
      OffMonotone(s.items, k, |s.items|);
      FoundNames(s.items, a, k);
      QuietStep(s, s', s'.pcs[s.writer], n0, rules);
    } else if end + BUFSIZ > MAXOFF {
      QuietStep(s, s', s'.pcs[s.writer], n0, rules);
    } else {
      AppendOk(s, s', a, n0, rules);
    }
  }

  lemma {:induction false} FoundNames(items: seq<Item>, a: AddReq, k: nat)
    requires k == Find(items, a.loc) && k < |items| && Off(items, k) < 0x1_0000_0000_0000_0000
    ensures var r := Record(a.time, a.val, Off(items, k)); Named(items, r) && RowFor(items, r, a)
  {
    IndexAddNames(items, a.loc, Record(a.time, a.val, Off(items, k)));
  }

  lemma {:induction false} AppendOk(s: State, s': State, a: AddReq, n0: nat, rules: Rules)
    requires Ok(s, n0, rules) && WriterPc(s) == Checked(a) && s' == Move(s, s.writer, rules)
    requires Off(s.items, |s.items|) + BUFSIZ <= MAXOFF && Find(s.items, a.loc) == |s.items|
    ensures Ok(s', n0, rules)
  {
    hide Rep, TabBytes, AnswerOk, ScanAt, Hash, Entry, Off, Grow, RowFor, Named, LinkField, LocOf;
    var more := Grow(s.items, a.loc, false);
    RepLength(s.locs, s.items);
    AppendKeepsRep(s.locs, s.items, a.loc);
    LinkPlace(s.items, Hash(a.loc), rules.addBase);
    forall r | r in s.recs ensures Named(more, r) && LocOf(more, r) == LocOf(s.items, r) {
      GrowKeepsNames(s.items, a.loc, false, r);
    }
    OrphanDistinct(s.items, a.loc);
    RowsSurvive(s, more, n0);
    AnswersGrow(s, more, s.recs);
    assert more[..|s.items|] == s.items;
    WriterMoves(s, s', s'.pcs[s.writer]);
  }

  lemma {:induction false} OrphanDistinct(items: seq<Item>, loc: seq<byte>)
    ensures Distinct(Grow(items, loc, false)) <==> Distinct(items)
  {
    hide Hash, Same;
    var more := Grow(items, loc, false);
    if Distinct(more) {
      forall i, j | 0 <= i < j < |items| && items[i].linked && Match(items[j], Hash(items[i].loc))
        ensures !Same(items[i].loc, items[j].loc)
      {
        assert more[i] == items[i] && more[j] == items[j];
      }
    }
  }

  /** A linked entry keeps offset, link and locator when the orphan behind it is linked. */
  lemma {:induction false} RelinkKeepsNames(before: seq<Item>, loc: seq<byte>, r: Record)
    requires Named(Grow(before, loc, false), r)
    ensures var more := Grow(before, loc, true);
            Named(more, r) && LocOf(more, r) == LocOf(Grow(before, loc, false), r)
  {
    var old', new' := Grow(before, loc, false), Grow(before, loc, true);
    var i := ItemAt(old', r.idx);
    OffFrame(old', new', i);
    ItemAtOff(new', i);
  }

  /** The step links an entry into an occupied bucket at the offset of line 300 as written. */
  predicate LosesLink(s: State, e: Event, rules: Rules) {
    && !s.dead && e.Go? && e.t < |s.pcs| && s.pcs[e.t].EntrySized? && s.items != []
    && !rules.addBase && LastIn(s.items[..|s.items| - 1], Hash(s.pcs[e.t].a.loc)) >= 0
  }

  /** The orphan behind the other entries is linked: rows and answers stay as they are. */
  lemma {:induction false} RelinkKeepsRows(s: State, before: seq<Item>, loc: seq<byte>, n0: nat)
    requires s.items == Grow(before, loc, false) && Find(before, loc) == |before| && LogOk(s, n0) && AnswersOk(s)
    ensures LogOk(s.(items := Grow(before, loc, true)), n0)
    ensures AnswersOk(s.(items := Grow(before, loc, true)))
  {
    hide AnswerOk, Hash, Grow, RowFor, Named, LocOf, Distinct, TimesSorted;
    var more := Grow(before, loc, true);
    forall r | r in s.recs ensures Named(more, r) && LocOf(more, r) == LocOf(s.items, r) {
      RelinkKeepsNames(before, loc, r);
    }
    OrphanDistinct(before, loc);
    IndexAddDistinct(before, loc);
    RowsSurvive(s, more, n0);
    AnswersGrow(s, more, s.recs);
  }

  /** The same entry as the row to come names it. */
  lemma {:induction false} RelinkNames(before: seq<Item>, a: AddReq, idx: u64)
    requires Find(before, a.loc) == |before| && idx == Off(before, |before|)
    ensures var r := Record(a.time, a.val, idx);
            Named(Grow(before, a.loc, true), r) && RowFor(Grow(before, a.loc, true), r, a)
  {
    hide Hash, Off, Named, LocOf, Same;
    IndexAddNames(before, a.loc, Record(a.time, a.val, idx));
  }

  lemma {:induction false} LinkOk(s: State, n0: nat, rules: Rules)
    requires Ok(s, n0, rules) && !s.dead && WriterPc(s).EntrySized? && !LosesLink(s, Go(s.writer), rules)
    ensures Ok(Move(s, s.writer, rules), n0, rules)
  {
    hide Rep, TabBytes, AnswersOk, ReadersOk, ScanAt, Inv, RowFor, Hash, Off, Grow, Named, TailField, LinkField, Splice,
         Be64, Find;
    var pc := WriterPc(s);
    var s' := Move(s, s.writer, rules);
    var before := s.items[..|s.items| - 1];
    LinkPlace(before, Hash(pc.a.loc), rules.addBase);
    LinkKeepsRep(s.locs, before, pc.a.loc);
    RelinkKeepsRows(s, before, pc.a.loc, n0);
    RelinkNames(before, pc.a, pc.idx);
    WriterMoves(s, s', s'.pcs[s.writer]);
    SameAnswers(s.(items := s'.items), s');
  }

  lemma {:induction false} SameAnswers(a: State, b: State)
    requires AnswersOk(a) && a.items == b.items && a.recs == b.recs && a.answers == b.answers
    ensures AnswersOk(b)
  {
    hide AnswerOk;
  }

  lemma {:induction false} LinkLoses(s: State, n0: nat, rules: Rules)
    requires Ok(s, n0, rules) && WriterPc(s).EntrySized? && LosesLink(s, Go(s.writer), rules)
    ensures !FilesOk(Move(s, s.writer, rules))
  {
    hide Rep, TabBytes, AnswersOk, ReadersOk, LogOk, Hash, Entry, Off, Grow, LinkField, Splice, Be64;
    var pc := WriterPc(s);
    var before := s.items[..|s.items| - 1];
    LinkPlace(before, Hash(pc.a.loc), false);
    RepLength(s.locs, s.items);
    OrphanOff(before, pc.a.loc);
    SplicePatches(s.locs, pc.field, pc.idx);
    LinkAsWrittenExact(s.locs, before, pc.a.loc, Splice(s.locs, pc.field, Be64(pc.idx)));
  }

  lemma {:induction false} OrphanOff(items: seq<Item>, loc: seq<byte>)
    ensures Off(items, |items|) < Off(Grow(items, loc, false), |items| + 1)
  {
    OffFrame(items, Grow(items, loc, false), |items|);
  }

  /** The step appends more than its record: bytes of earlier reads behind it. */
  predicate Smears(s: State, e: Event) {
    && !s.dead && e.Go? && e.t < |s.pcs| && s.pcs[e.t].Linked? && !Aborts(s, e.t)
    && |BufOf(s, e.t).held| > RECORDSIZ
  }

  lemma {:induction false} RecordOk(s: State, n0: nat, rules: Rules)
    requires Ok(s, n0, rules) && WriterPc(s).Linked? && |BufOf(s, s.writer).held| <= RECORDSIZ
    ensures Ok(Move(s, s.writer, rules), n0, rules)
  {
    hide Rep, TabBytes, RecBytes, AnswerOk, ScanAt, Distinct, RowFor, Named, LocOf, Splice, BufOf;
    var pc := WriterPc(s);
    var s' := Move(s, s.writer, rules);
    var r := Record(pc.a.time, pc.a.val, pc.idx);
    SpliceShort(BufOf(s, s.writer).held, RecBytes(r));
    TabAppend(s.recs, [r]);
    OneRecord(r);
    RowAppended(s, r, pc.a, n0);
    AnswersGrow(s, s.items, s'.recs);
    NoReaders(s);
    CountUpdate(s.pcs, s.writer, s'.pcs[s.writer]);
  }

  lemma {:induction false} RecordSmears(s: State, n0: nat, rules: Rules)
    requires Ok(s, n0, rules) && WriterPc(s).Linked? && |BufOf(s, s.writer).held| > RECORDSIZ
    ensures !FilesOk(Move(s, s.writer, rules))
  {
    hide Rep, RecBytes, LogOk, WriterOk, ReadersOk, AnswersOk, BufOf;
    var pc := WriterPc(s);
    assert |TabBytes(s.recs + [Record(pc.a.time, pc.a.val, pc.idx)])| == RECORDSIZ * (|s.recs| + 1);
  }

  lemma {:induction false} RecordExact(s: State, n0: nat, rules: Rules)
    requires Ok(s, n0, rules) && !s.dead && WriterPc(s).Linked? && !Aborts(s, s.writer)
    ensures Ok(Move(s, s.writer, rules), n0, rules) <==> !Smears(s, Go(s.writer))
  {
    hide LockOk, FilesOk, LogOk, WriterOk, ReadersOk, AnswersOk, Move, BufOf;
    if |BufOf(s, s.writer).held| > RECORDSIZ {
      RecordSmears(s, n0, rules);
    } else {
      RecordOk(s, n0, rules);
    }
  }

  lemma {:induction false} RowAppended(s: State, r: Record, a: AddReq, n0: nat)
    requires LogOk(s, n0) && WriterPc(s).Linked? && Named(s.items, r) && RowFor(s.items, r, a)
    requires LastTime(s.recs) <= r.time
    ensures Inv(View(s.items, s.recs + [r])) && |s.recs| == n0 + |s.acked|
    ensures forall i :: 0 <= i < |s.acked| + 1 ==>
              RowFor(s.items, (s.recs + [r])[n0 + i], (s.acked + [a])[i])
  {
    hide Named, RowFor, Distinct;
    assert s.acked + [] == s.acked;
  }

  /** Linking keeps the invariant if and only if the base is added or the bucket was empty. */
  lemma {:induction false} LinkExact(s: State, n0: nat, rules: Rules)
    requires Ok(s, n0, rules) && !s.dead && WriterPc(s).EntrySized?
    ensures Ok(Move(s, s.writer, rules), n0, rules) <==> !LosesLink(s, Go(s.writer), rules)
  {
    hide LockOk, FilesOk, LogOk, WriterOk, ReadersOk, AnswersOk, LosesLink, Move;
    if LosesLink(s, Go(s.writer), rules) {
      LinkLoses(s, n0, rules);
    } else {
      LinkOk(s, n0, rules);
    }
  }

  /** Record buffers, and the process's death, are no part of the invariant. */
  lemma {:induction false} OkFree(s: State, bufs: seq<RecBuf>, dead: bool, n0: nat, rules: Rules)
    ensures Ok(s.(bufs := bufs, dead := dead), n0, rules) <==> Ok(s, n0, rules)
  {
    hide Rep, TabBytes, Inv, RowFor, AnswerOk, ScanAt, OrphanLast, Named;
    var s' := s.(bufs := bufs, dead := dead);
    assert WriterPc(s') == WriterPc(s);
    assert LockOk(s') <==> LockOk(s);
    assert ReadersOk(s') <==> ReadersOk(s);
    assert AnswersOk(s') <==> AnswersOk(s);
  }

  /** What can go wrong in one step: a link lost at line 300, an old add accepted, or stale bytes
      written. */
  predicate Harms(s: State, e: Event, rules: Rules) {
    LosesLink(s, e, rules) || Misjudges(s, e, rules) || Smears(s, e)
  }

  lemma {:induction false} NoHarm(s: State, e: Event, rules: Rules)
    requires s.dead || e.t >= |s.pcs| || !e.Go? || Aborts(s, e.t)
    ensures !Harms(s, e, rules)
  {
  }

  /** A thread's move, told apart by where it is. */
  lemma {:induction false} MoveExact(s: State, t: nat, rules: Rules, n0: nat)
    requires Ok(s, n0, rules) && !s.dead && t < |s.pcs| && !Aborts(s, t)
    ensures Ok(Move(s, t, rules), n0, rules) <==> !Harms(s, Go(t), rules)
  {
    hide Ok, ReadStep, LinkStep, FindOrAppend, WithPc, LosesLink, Misjudges, Smears, Seen, Splice, BufOf;
    OnlyGoHarms(s, t, rules);
    if s.pcs[t].Reading? {
      ReadStepOk(s, t, rules, n0);
    } else if !s.pcs[t].Idle? {
      WriterIs(s, t, n0, rules);
      match s.pcs[t]
      case Entered(_) => EnteredExact(s, n0, rules);
      case Checked(_) => CheckedOk(s, n0, rules);
      case EntryWritten(_, _, _) => WrittenOk(s, n0, rules);
      case EntrySized(_, _, _) => LinkExact(s, n0, rules);
      case Linked(_, _) => RecordExact(s, n0, rules);
      case RecordWritten(_) => WrittenOk(s, n0, rules);
      case Ending(_, _) => EndingOk(s, n0, rules);
    }
  }

  lemma {:induction false} OnlyGoHarms(s: State, t: nat, rules: Rules)
    requires t < |s.pcs|
    ensures LosesLink(s, Go(t), rules) ==> s.pcs[t].EntrySized?
    ensures Misjudges(s, Go(t), rules) ==> s.pcs[t].Entered?
    ensures Smears(s, Go(t)) ==> s.pcs[t].Linked?
  {
  }

  /** Whatever any thread does next keeps the invariant, if and only if it does no harm. */
  lemma {:induction false} StepOk(s: State, e: Event, rules: Rules, n0: nat)
    requires Ok(s, n0, rules)
    ensures Ok(Step(s, e, rules), n0, rules) <==> !Harms(s, e, rules)
  {
    hide Ok, Move, WithPc, Harms, NextBuf, UsesBuf, Aborts;
    if e.t >= |s.pcs| || s.dead {
      NoHarm(s, e, rules);
    } else {
      match e
      case WantAdd(t, a) =>
        NoHarm(s, e, rules);
        if s.pcs[t].Idle? && s.writer < 0 && s.readers == 0 {
          WantAddOk(s, t, a, n0, rules);
        }
      case WantSearch(t, eq, k) =>
        NoHarm(s, e, rules);
        if s.pcs[t].Idle? && s.writer < 0 {
          WantSearchOk(s, t, eq, k, n0, rules);
          var s1 := WithPc(s, t, Reading(eq, k, 0, [])).(readers := s.readers + 1);
          OkFree(s1, WithBuf(s1, t, RecBuf([], 0)).bufs, s1.dead, n0, rules);
        }
      case Go(t) =>
        if Aborts(s, t) {
          NoHarm(s, e, rules);
          OkFree(s, s.bufs, true, n0, rules);
        } else {
          MoveExact(s, t, rules, n0);
          var s1 := Move(s, t, rules);
          if UsesBuf(s, t) {
            OkFree(s1, WithBuf(s1, t, NextBuf(s, t, rules)).bufs, s1.dead, n0, rules);
          }
        }
    }
  }

  lemma {:induction false} WriterIs(s: State, t: nat, n0: nat, rules: Rules)
    requires Ok(s, n0, rules) && t < |s.pcs| && Writing(s.pcs[t])
    ensures s.writer == t && WriterPc(s) == s.pcs[t]
  {
  }

  /** No step of the run does harm. */
  ghost predicate Harmless(s: State, es: seq<Event>, rules: Rules) {
    forall i :: 0 <= i < |es| ==> !Harms(Run(s, es[..i], rules), es[i], rules)
  }

  /** No step of the run loses a link; with the base added none ever does. */
  ghost predicate NoLoss(s: State, es: seq<Event>, rules: Rules) {
    forall i :: 0 <= i < |es| ==> !LosesLink(Run(s, es[..i], rules), es[i], rules)
  }

  lemma {:induction false} AddedBaseNoLoss(s: State, es: seq<Event>, rules: Rules)
    requires rules.addBase
    ensures NoLoss(s, es, rules)
  {
  }

  /** Every state of an interleaving, between any two appends or links, is consistent - both files
      well formed, sizes right whenever nobody is inside an append, each acknowledged add in the
      table exactly once and in lock order, times sorted, every finished search correct - if and
      only if no step does harm. */
  lemma {:induction false} RunExact(s: State, es: seq<Event>, rules: Rules, n0: nat)
    requires Ok(s, n0, rules)
    ensures (forall i :: 0 <= i <= |es| ==> Ok(Run(s, es[..i], rules), n0, rules)) <==> Harmless(s, es, rules)
  {
    hide Ok, Step, Harms, Run;
    if es == [] {
      RunNothing(s, rules);
      assert es[..0] == [];
    } else {
      var m := |es| - 1;
      RunExact(s, es[..m], rules, n0);
      assert forall i :: 0 <= i <= m ==> es[..m][..i] == es[..i];
      assert forall i :: 0 <= i < m ==> es[..m][i] == es[i];
      RunStep(s, es, rules);
      assert es[..m + 1] == es;
      if Ok(Run(s, es[..m], rules), n0, rules) {
        StepOk(Run(s, es[..m], rules), es[m], rules, n0);
      }
    }
  }

  lemma {:induction false} RunNothing(s: State, rules: Rules)
    ensures Run(s, [], rules) == s
  {
  }

  lemma {:induction false} RunStep(s: State, es: seq<Event>, rules: Rules)
    requires es != []
    ensures Run(s, es, rules) == Step(Run(s, es[..|es| - 1], rules), es[|es| - 1], rules)
  {
    hide Step;
  }

  lemma {:induction false} RunOk(s: State, es: seq<Event>, rules: Rules, n0: nat)
    requires Ok(s, n0, rules) && Harmless(s, es, rules)
    ensures Ok(Run(s, es, rules), n0, rules)
  {
    hide Ok, Run, Harms;
    RunExact(s, es, rules, n0);
    assert es[..|es|] == es;
  }

  /** A service start on well-formed files. */
  function Start(v: View, locs: seq<byte>, nthreads: nat): State {
    State(locs, TabBytes(v.recs), |locs|, RECORDSIZ * |v.recs|, -1, 0, seq(nthreads, _ => Idle),
          seq(nthreads, _ => RecBuf([], 0)), false, v.items, v.recs, [], 0, [])
  }

  lemma {:induction false} NobodyReads(pcs: seq<Pc>)
    requires forall t :: 0 <= t < |pcs| ==> pcs[t].Idle?
    ensures CountReading(pcs) == 0
  {
    if pcs != [] {
      NobodyReads(pcs[..|pcs| - 1]);
    }
  }

  lemma {:induction false} StartOk(v: View, locs: seq<byte>, nthreads: nat, rules: Rules)
    requires Rep(locs, v.items) && |locs| <= MAXOFF && Inv(v)
    ensures Ok(Start(v, locs, nthreads), |v.recs|, rules)
  {
    hide Rep, TabBytes, Inv;
    NobodyReads(Start(v, locs, nthreads).pcs);
  }

  /** What a reader of the files relies on in any state, with or without a crash there. */
  lemma {:induction false} WellFormedAnywhere(v: View, locs: seq<byte>, nthreads: nat, es: seq<Event>, rules: Rules)
    requires Rep(locs, v.items) && |locs| <= MAXOFF && Inv(v)
    requires || Harmless(Start(v, locs, nthreads), es, rules)
             || ((rules.resetBeforeLast || !rules.unlockOnSuccess)
                 && (rules.addBase || NoLoss(Start(v, locs, nthreads), es, rules)))
    ensures var s := Run(Start(v, locs, nthreads), es, rules);
            && Rep(s.locs, s.items) && s.table == TabBytes(s.recs)
            && TimesSorted(s.recs) && Distinct(s.items)
            && (forall r :: r in s.recs ==> Named(s.items, r))
            && (s.writer < 0 ==> s.locsize == |s.locs| && s.tablesize == |s.table|)
            && (s.writer < 0 ==> |s.recs| == |v.recs| + |s.acked|)
            && |s.recs| >= |v.recs| + |s.acked|
            && (forall i :: 0 <= i < |s.acked| ==> RowFor(s.items, s.recs[|v.recs| + i], s.acked[i]))
            && (forall j :: 0 <= j < |s.answers| ==> AnswerOk(s.items, s.recs, s.answers[j]))
  {
    hide Rep, TabBytes, TimesSorted, Distinct, Named, Harmless, NoLoss, Run, RowFor, AnswerOk, Start, Ok;
    StartOk(v, locs, nthreads, rules);
    if rules.resetBeforeLast || !rules.unlockOnSuccess {
      HarmIsLoss(v, locs, nthreads, es, rules);
    }
    if rules.addBase {
      AddedBaseNoLoss(Start(v, locs, nthreads), es, rules);
    }
    RunOk(Start(v, locs, nthreads), es, rules, |v.recs|);
    OkMeans(Run(Start(v, locs, nthreads), es, rules), |v.recs|, rules);
  }

  lemma {:induction false} OkMeans(s: State, n0: nat, rules: Rules)
    requires Ok(s, n0, rules)
    ensures Rep(s.locs, s.items) && s.table == TabBytes(s.recs) && Inv(View(s.items, s.recs))
    ensures s.writer < 0 ==>
              s.locsize == |s.locs| && s.tablesize == |s.table| && |s.recs| == n0 + |s.acked|
    ensures |s.recs| >= n0 + |s.acked|
    ensures forall i :: 0 <= i < |s.acked| ==> RowFor(s.items, s.recs[n0 + i], s.acked[i])
    ensures AnswersOk(s)
  {
    hide Rep, TabBytes, Inv, RowFor, AnswerOk;
    var done := s.acked + Pending(WriterPc(s));
    assert forall i :: 0 <= i < |s.acked| ==> done[i] == s.acked[i];
  }

  /** A thread's move that takes and releases the lock as it should. */
  lemma {:induction false} LockMove(s: State, s': State, t: nat, pc: Pc)
    requires LockOk(s) && t < |s.pcs| && s'.pcs == s.pcs[t := pc]
    requires s'.readers - s.readers ==
             (if pc.Reading? then 1 else 0) - (if s.pcs[t].Reading? then 1 else 0) + s'.leaked - s.leaked
    requires s'.leaked >= s.leaked
    requires s'.writer == if Writing(pc) then t else if s.writer == t then -1 else s.writer
    requires Writing(pc) ==> s.writer == t || (s.writer < 0 && s.readers == 0)
    requires pc.Reading? ==> s.writer < 0
    requires s'.leaked > s.leaked ==> s.pcs[t].Reading?
    ensures LockOk(s')
  {
    CountUpdate(s.pcs, t, pc);
    if s.pcs[t].Reading? {
      CountPositive(s.pcs, t);
    }
    if s.writer >= 0 {
      NoReaders(s);
    }
  }

  lemma {:induction false} ReadLock(s: State, t: nat, rules: Rules)
    requires LockOk(s) && t < |s.pcs| && s.pcs[t].Reading?
    ensures LockOk(ReadStep(s, t, rules))
  {
    hide Locators, RecMatch, LockOk;
    var s' := ReadStep(s, t, rules);
    ReadersThere(s, t);
    LockMove(s, s', t, s'.pcs[t]);
  }

  lemma {:induction false} ReadersThere(s: State, t: nat)
    requires LockOk(s) && t < |s.pcs| && s.pcs[t].Reading?
    ensures s.readers > 0 && s.writer < 0
  {
    CountPositive(s.pcs, t);
  }

  lemma {:induction false} WriteLock(s: State, t: nat, rules: Rules)
    requires LockOk(s) && t < |s.pcs| && Writing(s.pcs[t])
    ensures LockOk(Move(s, t, rules))
  {
    hide Find, LinkField, Entry, Splice, RecBytes, Be64, Grow, Off, Hash, LockOk, Seen;
    var s' := Move(s, t, rules);
    WriterThere(s, t);
    assert s.pcs[t := s.pcs[t]] == s.pcs;
    LockMove(s, s', t, s'.pcs[t]);
  }

  lemma {:induction false} WriterThere(s: State, t: nat)
    requires LockOk(s) && t < |s.pcs| && Writing(s.pcs[t])
    ensures s.writer == t
  {
  }

  lemma {:induction false} LockFree(s: State, bufs: seq<RecBuf>, dead: bool)
    requires LockOk(s)
    ensures LockOk(s.(bufs := bufs, dead := dead))
  {
  }

  /** The lock is kept in order by every step, also where harm is done. */
  lemma {:induction false} LockStep(s: State, e: Event, rules: Rules)
    requires LockOk(s)
    ensures LockOk(Step(s, e, rules))
  {
    hide LockOk, Move, NextBuf, UsesBuf, Aborts;
    if e.t < |s.pcs| && !s.dead {
      match e
      case WantAdd(t, a) =>
        if s.pcs[t].Idle? && s.writer < 0 && s.readers == 0 {
          LockMove(s, Step(s, e, rules), t, Entered(a));
        }
      case WantSearch(t, eq, k) =>
        if s.pcs[t].Idle? && s.writer < 0 {
          LockMove(s, Step(s, e, rules), t, Reading(eq, k, 0, []));
        }
      case Go(t) =>
        MoveLock(s, t, rules);
        var s1 := if Aborts(s, t) then s else Move(s, t, rules);
        LockFree(s1, Step(s, e, rules).bufs, Step(s, e, rules).dead);
    }
  }

  lemma {:induction false} MoveLock(s: State, t: nat, rules: Rules)
    requires LockOk(s) && t < |s.pcs|
    ensures LockOk(Move(s, t, rules))
  {
    hide LockOk, ReadStep, LinkStep, FindOrAppend, Seen, Splice, RecBytes;
    if s.pcs[t].Reading? {
      ReadLock(s, t, rules);
    } else if Writing(s.pcs[t]) {
      WriteLock(s, t, rules);
    }
  }

  lemma {:induction false} LockRun(v: View, locs: seq<byte>, nthreads: nat, es: seq<Event>, rules: Rules)
    ensures LockOk(Run(Start(v, locs, nthreads), es, rules))
  {
    hide Step, TabBytes;
    if es == [] {
      NobodyReads(Start(v, locs, nthreads).pcs);
    } else {
      LockRun(v, locs, nthreads, es[..|es| - 1], rules);
      LockStep(Run(Start(v, locs, nthreads), es[..|es| - 1], rules), es[|es| - 1], rules);
    }
  }

  /** Finished searches that found something. */
  function Successes(answers: seq<Answer>): nat {
    if answers == [] then 0
    else Successes(answers[..|answers| - 1]) + if answers[|answers| - 1].out == [] then 0 else 1
  }

  lemma {:induction false} SuccessesSnoc(answers: seq<Answer>, w: Answer)
    ensures Successes(answers + [w]) == Successes(answers) + if w.out == [] then 0 else 1
  {
    assert (answers + [w])[..|answers|] == answers;
  }

  lemma {:induction false} NoSuccess(answers: seq<Answer>)
    ensures Successes(answers) == 0 <==> forall j :: 0 <= j < |answers| ==> answers[j].out == []
  {
    if answers != [] {
      NoSuccess(answers[..|answers| - 1]);
      assert forall j :: 0 <= j < |answers| - 1 ==> answers[..|answers| - 1][j] == answers[j];
    }
  }

  lemma {:induction false} LeakStep(s: State, e: Event, rules: Rules)
    ensures var s' := Step(s, e, rules);
            s'.leaked - s.leaked == if rules.unlockOnSuccess then 0 else Successes(s'.answers) - Successes(s.answers)
  {
    hide Move, NextBuf, UsesBuf, Aborts, Successes;
    if e.t < |s.pcs| {
      LeakMove(s, e.t, rules);
    }
  }

  lemma {:induction false} LeakMove(s: State, t: nat, rules: Rules)
    requires t < |s.pcs|
    ensures var m := Move(s, t, rules);
            m.leaked - s.leaked == if rules.unlockOnSuccess then 0 else Successes(m.answers) - Successes(s.answers)
  {
    hide Locators, RecMatch, Find, LinkField, Entry, Splice, RecBytes, Be64, Grow, Off, Hash, Successes, Seen;
    if s.pcs[t].Reading? {
      var pc := s.pcs[t];
      SuccessesSnoc(s.answers, Answer(pc.eq, pc.k, Locators(s.items, pc.taken), |s.recs|));
    }
  }

  /** The read locks kept are exactly those of the finished searches that found something, and
      none when a successful search unlocks. */
  lemma {:induction false} LeakCount(v: View, locs: seq<byte>, nthreads: nat, es: seq<Event>, rules: Rules)
    ensures var s := Run(Start(v, locs, nthreads), es, rules);
            s.leaked == if rules.unlockOnSuccess then 0 else Successes(s.answers)
  {
    hide Step, TabBytes;
    if es != [] {
      LeakCount(v, locs, nthreads, es[..|es| - 1], rules);
      LeakStep(Run(Start(v, locs, nthreads), es[..|es| - 1], rules), es[|es| - 1], rules);
    }
  }

  lemma {:induction false} NobodyWrites(s: State)
    requires LockOk(s) && forall u :: 0 <= u < |s.pcs| ==> s.pcs[u].Idle?
    ensures s.writer < 0
  {
    assert !Writing(WriterPc(s));
  }

  /** A dead process died holding the write lock. */
  lemma {:induction false} DeadHolds(v: View, locs: seq<byte>, nthreads: nat, es: seq<Event>, rules: Rules)
    ensures var s := Run(Start(v, locs, nthreads), es, rules); s.dead ==> s.writer >= 0
  {
    hide TabBytes, Step;
    if es != [] {
      var s := Run(Start(v, locs, nthreads), es[..|es| - 1], rules);
      DeadHolds(v, locs, nthreads, es[..|es| - 1], rules);
      LockRun(v, locs, nthreads, es[..|es| - 1], rules);
      DeadStep(s, es[|es| - 1], rules);
    }
  }

  lemma {:induction false} DeadStep(s: State, e: Event, rules: Rules)
    requires LockOk(s)
    ensures var s' := Step(s, e, rules); s'.dead ==> if s.dead then s' == s else s'.writer >= 0
  {
    hide LockOk, Move, NextBuf, UsesBuf;
    if e.t < |s.pcs| {
      MoveFrame(s, e.t, rules);
      if Writing(s.pcs[e.t]) {
        WriterThere(s, e.t);
      }
    }
  }

  /** With nobody inside, an add is let in if and only if successful searches unlock or no
      finished search has found anything. */
  lemma {:induction false} IdleLockFree(v: View, locs: seq<byte>, nthreads: nat, es: seq<Event>, rules: Rules,
                                        t: nat, a: AddReq)
    requires var s := Run(Start(v, locs, nthreads), es, rules);
             t < |s.pcs| && forall u :: 0 <= u < |s.pcs| ==> s.pcs[u].Idle?
    ensures var s := Run(Start(v, locs, nthreads), es, rules);
            Step(s, WantAdd(t, a), rules).pcs[t] == Entered(a) <==>
            rules.unlockOnSuccess || forall j :: 0 <= j < |s.answers| ==> s.answers[j].out == []
  {
    hide Run, Successes, TabBytes, Start;
    var s := Run(Start(v, locs, nthreads), es, rules);
    LockRun(v, locs, nthreads, es, rules);
    LeakCount(v, locs, nthreads, es, rules);
    NoSuccess(s.answers);
    NobodyWrites(s);
    NobodyReads(s.pcs);
    DeadHolds(v, locs, nthreads, es, rules);
  }

  /** While a read lock is kept no add is let in, whatever the threads do. */
  lemma {:induction false} LeakBlocksAdds(s: State, es: seq<Event>, rules: Rules)
    requires LockOk(s) && s.leaked > 0
    ensures var s' := Run(s, es, rules);
            LockOk(s') && s'.leaked > 0 && s'.acked == s.acked && s'.recs == s.recs && s'.locs == s.locs
  {
    hide Step, LockOk;
    if es != [] {
      LeakBlocksAdds(s, es[..|es| - 1], rules);
      LockStep(Run(s, es[..|es| - 1], rules), es[|es| - 1], rules);
      BlockedStep(Run(s, es[..|es| - 1], rules), es[|es| - 1], rules);
    }
  }

  lemma {:induction false} BlockedStep(s: State, e: Event, rules: Rules)
    requires LockOk(s) && s.leaked > 0
    ensures var s' := Step(s, e, rules);
            s'.leaked > 0 && s'.acked == s.acked && s'.recs == s.recs && s'.locs == s.locs
  {
    hide Locators, RecMatch;
    assert s.readers > 0 && s.writer < 0;
  }

  /** As written, once a search has found something no add is ever acknowledged again. */
  lemma {:induction false} SuccessBlocksAdds(v: View, locs: seq<byte>, nthreads: nat, es: seq<Event>,
                                             later: seq<Event>, rules: Rules)
    requires !rules.unlockOnSuccess
    requires var s := Run(Start(v, locs, nthreads), es, rules);
             exists j :: 0 <= j < |s.answers| && s.answers[j].out != []
    ensures var s := Run(Start(v, locs, nthreads), es, rules);
            Run(s, later, rules).acked == s.acked && Run(s, later, rules).recs == s.recs
  {
    hide Run, Successes, TabBytes, LockOk;
    var s := Run(Start(v, locs, nthreads), es, rules);
    LockRun(v, locs, nthreads, es, rules);
    LeakCount(v, locs, nthreads, es, rules);
    NoSuccess(s.answers);
    LeakBlocksAdds(s, later, rules);
  }

  /** One search for one row, with a matching first row, is such a search. */
  lemma {:induction false} FirstSearchBlocks(v: View, locs: seq<byte>, nthreads: nat, eq: Eq, a: AddReq)
    requires nthreads > 0 && v.recs != [] && RecMatch(v.recs[0], eq)
    ensures var s := Run(Start(v, locs, nthreads), [WantSearch(0, eq, 1), Go(0), Go(0)], AS_WRITTEN);
            && s.answers == [Answer(eq, 1, [LocOf(v.items, v.recs[0])], |v.recs|)]
            && s.pcs == Start(v, locs, nthreads).pcs && Step(s, WantAdd(0, a), AS_WRITTEN) == s
  {
    hide RecMatch, TabBytes, LocOf;
    var es := [WantSearch(0, eq, 1), Go(0), Go(0)];
    var s0 := Start(v, locs, nthreads);
    assert es[..2] == [WantSearch(0, eq, 1), Go(0)] && es[..2][..1] == [WantSearch(0, eq, 1)];
    assert es[..2][..1][..0] == [];
    var s1 := Step(s0, WantSearch(0, eq, 1), AS_WRITTEN);
    var s2 := Step(s1, Go(0), AS_WRITTEN);
    var s3 := Step(s2, Go(0), AS_WRITTEN);
    assert Run(s0, es[..2][..1], AS_WRITTEN) == s1;
    assert Run(s0, es[..2], AS_WRITTEN) == s2;
    assert s2.pcs[0] == Reading(eq, 1, 1, [v.recs[0]]);
    assert s3.pcs == s0.pcs;
    assert Locators(v.items, [v.recs[0]]) == [LocOf(v.items, v.recs[0])];
  }

  /** What a thread's buffer holds: during a scan what Table.Buffered says, nothing between its
      calls while no search has kept its lock, and nothing behind the last record. */
  ghost predicate BufOk(s: State, t: nat, rules: Rules)
    requires t < |s.pcs|
  {
    match s.pcs[t]
    case Reading(_, k, i, _) =>
      i <= |s.recs| && BufOf(s, t) == RecBuf(Buffered(s.recs, i), Window(i)) && (k == 0 ==> i == 0)
    case Idle => !rules.unlockOnSuccess && s.leaked == 0 ==> BufOf(s, t).held == []
    case Entered(_) => !rules.unlockOnSuccess && s.leaked == 0 ==> BufOf(s, t).held == []
    case _ => !rules.unlockOnSuccess || rules.resetBeforeLast ==> BufOf(s, t).held == []
  }

  ghost predicate BufsOk(s: State, rules: Rules) {
    |s.bufs| == |s.pcs| && forall t :: 0 <= t < |s.pcs| ==> BufOk(s, t, rules)
  }

  /** A thread that does not move keeps its buffer as it should be. */
  lemma {:induction false} OtherBuf(s: State, s': State, u: nat, rules: Rules)
    requires u < |s.pcs| == |s'.pcs| && s'.pcs[u] == s.pcs[u] && BufOf(s', u) == BufOf(s, u)
    requires s'.leaked >= s.leaked && (s.pcs[u].Reading? ==> s'.recs == s.recs) && BufOk(s, u, rules)
    ensures BufOk(s', u, rules)
  {
    hide Buffered, Window;
  }

  /** A scan's own step: read on, or stop with the buffer empty unless the lock is kept. */
  lemma {:induction false} ReadBuf(s: State, t: nat, rules: Rules)
    requires t < |s.pcs| == |s.bufs| && s.pcs[t].Reading? && BufOk(s, t, rules)
    ensures BufOk(GoStep(s, t, rules), t, rules)
  {
    hide Buffered, Window, RecMatch, Locators;
    var pc := s.pcs[t];
    BufferedExact(s.recs, pc.i);
  }

  /** A writer's own step: nothing is left behind the last record, or behind the record written. */
  lemma {:induction false} WriteBuf(s: State, t: nat, rules: Rules)
    requires t < |s.pcs| == |s.bufs| && Writing(s.pcs[t]) && BufOk(s, t, rules) && s.leaked == 0 && !s.dead
    ensures BufOk(GoStep(s, t, rules), t, rules)
  {
    hide Find, LinkField, Entry, Splice, RecBytes, Be64, Grow, Off, Hash, Seen, Buffered, Window;
    EmptyLeaves(s.recs, StartsAt(rules, BufOf(s, t).sp));
  }

  lemma {:induction false} EmptyLeaves(recs: seq<Record>, start: nat)
    ensures LastLeaves([], start, recs) == []
  {
  }

  /** The state m comes from s by a move of thread t. */
  predicate Framed(s: State, m: State, t: nat) {
    && |m.pcs| == |s.pcs| && m.bufs == s.bufs && m.dead == s.dead && m.leaked >= s.leaked
    && (forall u :: 0 <= u < |s.pcs| && u != t ==> m.pcs[u] == s.pcs[u])
  }

  lemma {:induction false} ReadFrame(s: State, t: nat, rules: Rules)
    requires t < |s.pcs| && s.pcs[t].Reading?
    ensures Framed(s, ReadStep(s, t, rules), t) && ReadStep(s, t, rules).recs == s.recs
  {
    hide Locators, RecMatch;
  }

  lemma {:induction false} IndexFrame(s: State, t: nat, a: AddReq, rules: Rules)
    requires t < |s.pcs|
    ensures Framed(s, FindOrAppend(s, t, a, rules), t) && FindOrAppend(s, t, a, rules).recs == s.recs
    ensures s.pcs[t].EntrySized? ==> Framed(s, LinkStep(s, t), t) && LinkStep(s, t).recs == s.recs
  {
    hide Find, LinkField, Entry, Splice, Be64, Grow, Off, Hash;
  }

  /** What a move can change. */
  lemma {:induction false} MoveFrame(s: State, t: nat, rules: Rules)
    requires t < |s.pcs|
    ensures Framed(s, Move(s, t, rules), t) && (s.pcs[t].Linked? || Move(s, t, rules).recs == s.recs)
  {
    hide ReadStep, FindOrAppend, LinkStep, Splice, RecBytes, Seen;
    match s.pcs[t]
    case Reading(_, _, _, _) => ReadFrame(s, t, rules);
    case Checked(a) => IndexFrame(s, t, a, rules);
    case EntrySized(a, _, _) => IndexFrame(s, t, a, rules);
    case _ =>
  }

  /** What a step leaves alone for the threads that do not move. */
  lemma {:induction false} StepOthers(s: State, e: Event, rules: Rules, u: nat)
    requires LockOk(s) && |s.bufs| == |s.pcs| && u < |s.pcs| && u != e.t
    ensures var s' := Step(s, e, rules);
            && |s'.pcs| == |s.pcs| == |s'.bufs| && s'.pcs[u] == s.pcs[u] && BufOf(s', u) == BufOf(s, u)
            && s'.leaked >= s.leaked && (s.pcs[u].Reading? ==> s'.recs == s.recs)
  {
    hide Move, NextBuf, UsesBuf, Aborts, LockOk;
    if e.t < |s.pcs| {
      MoveFrame(s, e.t, rules);
      if s.pcs[u].Reading? && s.pcs[e.t].Linked? {
        NotBoth(s, u, e.t);
      }
    }
  }

  lemma {:induction false} NotBoth(s: State, u: nat, t: nat)
    requires LockOk(s) && u < |s.pcs| && t < |s.pcs| && s.pcs[u].Reading?
    ensures !Writing(s.pcs[t])
  {
    hide LockOk;
    ReadersThere(s, u);
    if Writing(s.pcs[t]) {
      WriterThere(s, t);
    }
  }

  lemma {:induction false} BufsStep(s: State, e: Event, rules: Rules)
    requires LockOk(s) && BufsOk(s, rules)
    ensures BufsOk(Step(s, e, rules), rules)
  {
    hide Move, NextBuf, UsesBuf, Aborts, Buffered, Window, BufOk, LockOk, GoStep, Step;
    var s', t := Step(s, e, rules), e.t;
    SameShape(s, e, rules);
    forall u | 0 <= u < |s'.pcs| ensures BufOk(s', u, rules) {
      if u != t {
        StepOthers(s, e, rules, u);
        OtherBuf(s, s', u, rules);
      } else {
        MovedBuf(s, e, rules);
      }
    }
  }

  lemma {:induction false} SameShape(s: State, e: Event, rules: Rules)
    requires |s.bufs| == |s.pcs|
    ensures var s' := Step(s, e, rules); |s'.pcs| == |s.pcs| == |s'.bufs|
  {
    hide Move, NextBuf, UsesBuf, Aborts;
    if e.t < |s.pcs| {
      MoveFrame(s, e.t, rules);
    }
  }

  /** The thread that moves. */
  lemma {:induction false} MovedBuf(s: State, e: Event, rules: Rules)
    requires LockOk(s) && e.t < |s.pcs| == |s.bufs| && BufOk(s, e.t, rules)
    ensures e.t < |Step(s, e, rules).pcs| && BufOk(Step(s, e, rules), e.t, rules)
  {
    hide LockOk, GoStep, NextBuf, UsesBuf, Aborts, Buffered;
    var t := e.t;
    SameShape(s, e, rules);
    if !s.dead {
      match e
      case WantAdd(_, _) =>
      case WantSearch(_, _, _) =>
        BufferedExact(s.recs, 0);
      case Go(_) =>
        if s.pcs[t].Reading? {
          ReadBuf(s, t, rules);
        } else if Writing(s.pcs[t]) {
          NoLeakWriting(s, t);
          WriteBuf(s, t, rules);
        } else {
          IdleGoes(s, t, rules);
        }
    }
  }

  lemma {:induction false} NoLeakWriting(s: State, t: nat)
    requires LockOk(s) && t < |s.pcs| && Writing(s.pcs[t])
    ensures s.leaked == 0
  {
  }

  lemma {:induction false} IdleGoes(s: State, t: nat, rules: Rules)
    requires t < |s.pcs| && s.pcs[t].Idle?
    ensures GoStep(s, t, rules) == s
  {
  }

  lemma {:induction false} BufsRun(v: View, locs: seq<byte>, nthreads: nat, es: seq<Event>, rules: Rules)
    ensures BufsOk(Run(Start(v, locs, nthreads), es, rules), rules)
  {
    hide Step, TabBytes, BufsOk, LockOk;
    if es == [] {
      StartBufs(v, locs, nthreads, rules);
    } else {
      BufsRun(v, locs, nthreads, es[..|es| - 1], rules);
      LockRun(v, locs, nthreads, es[..|es| - 1], rules);
      BufsStep(Run(Start(v, locs, nthreads), es[..|es| - 1], rules), es[|es| - 1], rules);
    }
  }

  lemma {:induction false} StartBufs(v: View, locs: seq<byte>, nthreads: nat, rules: Rules)
    ensures BufsOk(Start(v, locs, nthreads), rules)
  {
    hide TabBytes;
  }

  /** As written, whenever the lock is free every thread's record buffer is empty. */
  lemma {:induction false} FreeLockEmptyBuffers(v: View, locs: seq<byte>, nthreads: nat, es: seq<Event>, rules: Rules)
    requires !rules.unlockOnSuccess
    ensures var s := Run(Start(v, locs, nthreads), es, rules);
            s.readers == 0 && s.writer < 0 ==> forall t :: 0 <= t < |s.pcs| ==> BufOf(s, t).held == []
  {
    hide Run, Start, Buffered, Window;
    var s := Run(Start(v, locs, nthreads), es, rules);
    BufsRun(v, locs, nthreads, es, rules);
    LockRun(v, locs, nthreads, es, rules);
    if s.readers == 0 && s.writer < 0 {
      forall t | 0 <= t < |s.pcs| ensures BufOf(s, t).held == [] {
        assert BufOk(s, t, rules);
        if s.pcs[t].Reading? {
          ReadersThere(s, t);
        }
      }
    }
  }

  /** With an empty buffer what an add takes for the last record is the last record. */
  lemma {:induction false} EmptySees(recs: seq<Record>)
    ensures LastSeen([], recs).time == LastTime(recs)
  {
    hide RecOf, RecBytes;
    if recs != [] {
      var b := RecBytes(recs[|recs| - 1]);
      RecRoundTrip(recs[|recs| - 1]);
      assert ([] + b)[..RECORDSIZ] == b;
    }
  }

  /** Unless line 507 alone is repaired, no step ever judges by or writes stale bytes. */
  lemma {:induction false} CleanStep(s: State, e: Event, rules: Rules)
    requires LockOk(s) && BufsOk(s, rules) && (rules.resetBeforeLast || !rules.unlockOnSuccess)
    ensures !Misjudges(s, e, rules) && !Smears(s, e)
  {
    hide LastSeen, Buffered, Window;
    if !s.dead && e.Go? && e.t < |s.pcs| && Writing(s.pcs[e.t]) {
      assert BufOk(s, e.t, rules);
      NoLeakWriting(s, e.t);
      EmptySees(s.recs);
    }
  }

  /** So the code as written, and the code with lines 365-374 repaired, do harm by lost links only. */
  lemma {:induction false} HarmIsLoss(v: View, locs: seq<byte>, nthreads: nat, es: seq<Event>, rules: Rules)
    requires rules.resetBeforeLast || !rules.unlockOnSuccess
    ensures Harmless(Start(v, locs, nthreads), es, rules) <==> NoLoss(Start(v, locs, nthreads), es, rules)
  {
    hide Run, Start, LosesLink, Misjudges, Smears, LockOk, BufsOk;
    var s := Start(v, locs, nthreads);
    forall i | 0 <= i < |es|
      ensures Harms(Run(s, es[..i], rules), es[i], rules) <==> LosesLink(Run(s, es[..i], rules), es[i], rules)
    {
      BufsRun(v, locs, nthreads, es[..i], rules);
      LockRun(v, locs, nthreads, es[..i], rules);
      CleanStep(Run(s, es[..i], rules), es[i], rules);
    }
  }

  /** With line 507 alone repaired: a search for one row whose first row matches leaves the second
      row for the last one, and an add between the two in time is accepted out of order. */
  lemma {:induction false} HalfRepaired(v: View, locs: seq<byte>, nthreads: nat, eq: Eq, a: AddReq)
    requires nthreads > 0 && |v.recs| >= 2 && RecMatch(v.recs[0], eq)
    requires v.recs[1].time <= a.time < LastTime(v.recs)
    ensures var (s, rules) := (Start(v, locs, nthreads), Rules(true, true, false));
            Misjudges(Run(s, [WantSearch(0, eq, 1), Go(0), Go(0), WantAdd(0, a)], rules), Go(0), rules)
  {
    hide RecMatch, TabBytes, Buffered, Window, LastSeen, Step, Start;
    var rules := Rules(true, true, false);
    var es := [WantSearch(0, eq, 1), Go(0), Go(0), WantAdd(0, a)];
    RunFour(Start(v, locs, nthreads), es, rules);
    StaleRows(v.recs, 1, v.recs);
    ThreeSteps(v, locs, nthreads, eq, rules);
    EnterStep(Step(Step(Step(Start(v, locs, nthreads), es[0], rules), es[1], rules), es[2], rules), a, rules);
  }

  /** A search for one row whose first row matches, when success unlocks. */
  lemma {:induction false} ThreeSteps(v: View, locs: seq<byte>, nthreads: nat, eq: Eq, rules: Rules)
    requires nthreads > 0 && |v.recs| >= 2 && RecMatch(v.recs[0], eq) && rules.unlockOnSuccess
    ensures var s := Step(Step(Step(Start(v, locs, nthreads), WantSearch(0, eq, 1), rules), Go(0), rules), Go(0), rules);
            && |s.pcs| == nthreads && s.pcs[0].Idle? && s.writer < 0 && s.readers == 0 && !s.dead
            && s.recs == v.recs && BufOf(s, 0).held == Buffered(v.recs, 1)
  {
    hide RecMatch, TabBytes, LocOf, Buffered, Window, Locators;
    var s1 := Step(Start(v, locs, nthreads), WantSearch(0, eq, 1), rules);
    var s2 := Step(s1, Go(0), rules);
    assert s2.pcs[0] == Reading(eq, 1, 1, [v.recs[0]]) && BufOf(s2, 0).held == Buffered(v.recs, 1);
  }

  lemma {:induction false} EnterStep(s: State, a: AddReq, rules: Rules)
    requires |s.pcs| > 0 && s.pcs[0].Idle? && s.writer < 0 && s.readers == 0 && !s.dead
    ensures var s' := Step(s, WantAdd(0, a), rules);
            && |s'.pcs| > 0 && s'.pcs[0] == Entered(a) && s'.recs == s.recs && !s'.dead && BufOf(s', 0) == BufOf(s, 0)
  {
  }

  lemma {:induction false} RunFour(s: State, es: seq<Event>, rules: Rules)
    requires |es| == 4
    ensures Run(s, es, rules) == Step(Step(Step(Step(s, es[0], rules), es[1], rules), es[2], rules), es[3], rules)
  {
    hide Step, Run;
    var a, b, c := es[..3], es[..2], es[..1];
    assert a[..2] == b && b[..1] == c && c[..0] == [];
    RunNothing(s, rules);
    RunStep(s, es, rules);
    RunStep(s, a, rules);
    RunStep(s, b, rules);
    RunStep(s, c, rules);
  }

  /** n consecutive steps of thread t, no other thread moving. */
  function Goes(s: State, t: nat, n: nat, rules: Rules): State
    decreases n
  {
    if n == 0 then s else Goes(Step(s, Go(t), rules), t, n - 1, rules)
  }

  lemma {:induction false} StaysPut(s: State, t: nat, n: nat, rules: Rules)
    requires t < |s.pcs| && (s.pcs[t].Idle? || s.dead)
    ensures Goes(s, t, n, rules) == s
    decreases n
  {
    if n > 0 {
      StaysPut(s, t, n - 1, rules);
    }
  }

  lemma {:induction false} EndingGoes(s: State, t: nat, a: AddReq, ok: bool, n: nat, rules: Rules)
    requires t < |s.pcs| && s.pcs[t] == Ending(a, ok) && n >= 1 && !s.dead
    ensures Goes(s, t, n, rules) ==
            WithPc(s, t, Idle).(writer := -1, acked := if ok then s.acked + [a] else s.acked)
  {
    StaysPut(Step(s, Go(t), rules), t, n - 1, rules);
  }

  lemma {:induction false} LinkedGoes(s: State, t: nat, a: AddReq, idx: u64, n: nat, rules: Rules)
    requires t < |s.pcs| && t < |s.bufs| && s.pcs[t] == Linked(a, idx) && n >= 3 && !s.dead
    ensures var (r, b) := (Record(a.time, a.val, idx), BufOf(s, t));
            Goes(s, t, n, rules) ==
            if Aborts(s, t) then s.(dead := true)
            else WithPc(s, t, Idle).(writer := -1, acked := s.acked + [a],
                                     table := s.table + Splice(b.held, 0, RecBytes(r)), recs := s.recs + [r],
                                     tablesize := s.tablesize + RECORDSIZ, bufs := s.bufs[t := RecBuf([], 0)])
  {
    hide RecBytes, Splice;
    var s1 := Step(s, Go(t), rules);
    if Aborts(s, t) {
      StaysPut(s1, t, n - 1, rules);
    } else {
      var s2 := Step(s1, Go(t), rules);
      EndingGoes(s2, t, a, true, n - 2, rules);
      assert s1.pcs[t := Ending(a, true)][t := Idle] == s.pcs[t := Idle];
      assert Goes(s, t, n, rules) == Goes(s1, t, n - 1, rules) == Goes(s2, t, n - 2, rules);
    }
  }

  /** From the check of the last record to the point before the record is written. */
  lemma {:induction false} CheckedReaches(s: State, t: nat, a: AddReq, n: nat, rules: Rules)
    returns (l: State, m: nat)
    requires t < |s.pcs| && s.pcs[t] == Checked(a) && n >= 6 && !s.dead
    requires Rep(s.locs, s.items) && |s.locs| + BUFSIZ <= MAXOFF
    ensures m >= 3 && Goes(s, t, n, rules) == Goes(l, t, m, rules)
    ensures var (items, idx) := IndexAdd(s.items, a.loc);
            && idx <= MAXOFF && l.items == items && l.pcs == s.pcs[t := Linked(a, idx)]
            && IndexBytes(rules, s.items, s.locs, a.loc, l.locs)
            && l.bufs == s.bufs && l.table == s.table && l.recs == s.recs && l.acked == s.acked
            && l.writer == s.writer && !l.dead
  {
    hide Hash, Off, Entry, Splice, Be64, LinkField, Rep, Grow, Find;
    RepLength(s.locs, s.items);
    IndexAddRoom(s.items, a.loc);
    LinkPlace(s.items, Hash(a.loc), rules.addBase);
    var s1 := Step(s, Go(t), rules);
    if Find(s.items, a.loc) < |s.items| {
      l, m := s1, n - 1;
    } else {
      var s2 := Step(s1, Go(t), rules);
      var s3 := Step(s2, Go(t), rules);
      assert s1.items[..|s1.items| - 1] == s.items;
      assert s3.pcs == s.pcs[t := Linked(a, Off(s.items, |s.items|))];
      assert Goes(s, t, n, rules) == Goes(s1, t, n - 1, rules) == Goes(s2, t, n - 2, rules) == Goes(s3, t, n - 3, rules);
      l, m := s3, n - 3;
    }
  }

  function Snap(s: State, t: nat): Snapshot {
    Snapshot(s.items, s.recs, s.locs, s.table, BufOf(s, t).held, BufOf(s, t).sp)
  }

  /** What an undisturbed add came to. */
  function Outcome(s: State, s': State): AddResult {
    if s'.dead then Aborted else if |s'.recs| > |s.recs| then Added else Rejected
  }

  /** Undisturbed, the steps of one add do what one call of Table.RecordAdd does, repaired or as
      written, to both files, the entries, the records and the thread's buffer; the process dies
      where the call aborts. */
  lemma {:induction false} AloneAdds(s: State, t: nat, a: AddReq, rules: Rules)
    requires t < |s.pcs| && t < |s.bufs| && s.pcs[t].Idle? && s.writer < 0 && s.readers == 0 && !s.dead
    requires Rep(s.locs, s.items) && |s.locs| + BUFSIZ <= MAXOFF
    ensures var s' := Goes(Step(s, WantAdd(t, a), rules), t, 7, rules);
            && AddPost(rules, Snap(s, t), Snap(s', t), Outcome(s, s'), a.time, a.val, a.loc)
            && s'.acked == (if Outcome(s, s') == Added then s.acked + [a] else s.acked)
            && (if s'.dead then s'.writer == t else s'.writer == -1 && s'.pcs == s.pcs)
  {
    hide Hash, Off, RecBytes, Rep, Find, IndexAdd, IndexBytes, FindOrAppend, LastSeen, LastLeaves, Splice, Goes;
    var s0 := Step(s, WantAdd(t, a), rules);
    var s1 := Step(s0, Go(t), rules);
    assert s1.pcs[t := Idle] == s.pcs;
    GoesOn(s0, t, 7, rules);
    if LastSeen(Stale(rules, BufOf(s, t).held), s.recs).time > a.time {
      EndingGoes(s1, t, a, false, 6, rules);
    } else {
      var l, m := CheckedReaches(s1, t, a, 6, rules);
      var idx := IndexAdd(s.items, a.loc).1;
      LinkedGoes(l, t, a, idx, m, rules);
      assert l.pcs[t := Idle] == s.pcs;
    }
  }

  lemma {:induction false} GoesOn(s: State, t: nat, n: nat, rules: Rules)
    requires n > 0
    ensures Goes(s, t, n, rules) == Goes(Step(s, Go(t), rules), t, n - 1, rules)
  {
    hide Step;
  }

  lemma {:induction false} ReadGoes(s: State, t: nat, eq: Eq, k: nat, i: nat, taken: seq<Record>, rules: Rules)
    requires t < |s.pcs| && t < |s.bufs| && s.pcs[t] == Reading(eq, k, i, taken) && !s.dead && s.readers > 0
    requires ScanAt(s.recs, i, eq, k, taken) && BufOf(s, t) == RecBuf(Buffered(s.recs, i), Window(i))
    ensures var (n, hits) := (Scanned(s.recs, eq, k), Scan(s.recs, eq, k));
            && n >= i
            && var s' := Goes(s, t, n - i + 1, rules);
               && s'.answers == s.answers + [Answer(eq, k, Locators(s.items, hits), |s.recs|)]
               && BufOf(s', t) == RecBuf(Buffered(s.recs, n), Window(n)) && s'.pcs == s.pcs[t := Idle]
               && s'.readers == s.readers - (if hits != [] && !rules.unlockOnSuccess then 0 else 1)
               && s'.locs == s.locs && s'.table == s.table && s'.recs == s.recs && s'.items == s.items
    decreases |s.recs| - i
  {
    hide RecMatch, Buffered, Window, Locators, Scan, Scanned, ScanAt, Goes;
    ScanBounds(s.recs, i, eq, k, taken);
    ScannedFrom(s.recs, i, eq, k, taken);
    var s1, n := Step(s, Go(t), rules), Scanned(s.recs, eq, k);
    GoesOn(s, t, n - i + 1, rules);
    if |taken| < k && i < |s.recs| {
      ScanAdvances(s.recs, i, eq, k, taken);
      var taken' := if RecMatch(s.recs[i], eq) then taken + [s.recs[i]] else taken;
      ScannedFrom(s.recs, i + 1, eq, k, taken');
      ReadGoes(s1, t, eq, k, i + 1, taken', rules);
      assert s1.pcs[t := Idle] == s.pcs[t := Idle];
    } else {
      ScanEnds(s.recs, i, eq, k, taken);
      StaysPut(s1, t, 0, rules);
    }
  }

  lemma {:induction false} ScannedFrom(recs: seq<Record>, i: nat, eq: Eq, k: nat, taken: seq<Record>)
    requires ScanAt(recs, i, eq, k, taken)
    ensures Scanned(recs, eq, k) >= i
  {
    hide Scan, Scanned;
  }

  /** Undisturbed, the steps of one search do what one call of Table.Search does: its answer, what
      it leaves in the thread's buffer, and whether it keeps its lock. */
  lemma {:induction false} AloneSearches(s: State, t: nat, eq: Eq, k: nat, rules: Rules)
    requires t < |s.pcs| && t < |s.bufs| && s.pcs[t].Idle? && s.writer < 0 && !s.dead
    ensures var hits := Scan(s.recs, eq, k);
            var s' := Goes(Step(s, WantSearch(t, eq, k), rules), t, Scanned(s.recs, eq, k) + 1, rules);
            && s'.answers == s.answers + [Answer(eq, k, Locators(s.items, hits), |s.recs|)]
            && ScanLeaves(s.recs, eq, k, BufOf(s', t).held, BufOf(s', t).sp) && s'.pcs == s.pcs
            && s'.readers == s.readers + (if hits != [] && !rules.unlockOnSuccess then 1 else 0)
            && s'.locs == s.locs && s'.table == s.table && s'.recs == s.recs && s'.items == s.items
  {
    hide RecMatch, Buffered, Window, Locators, Scan, Scanned, ScanAt, Goes;
    var s0 := Step(s, WantSearch(t, eq, k), rules);
    ScanStarts(s.recs, eq, k);
    BufferedExact(s.recs, 0);
    NoWindow();
    ReadGoes(s0, t, eq, k, 0, [], rules);
    assert s0.pcs[t := Idle] == s.pcs;
  }

  lemma {:induction false} NoWindow()
    ensures Window(0) == 0
  {
  }
}
