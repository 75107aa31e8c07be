/** What the two files of a table mean together: a log of rows, and runs of adds and searches
    against it. */
module Store {
  import opened Bytes
  import opened DbFile
  import opened LocIndex
  import opened Records
  import opened Table

  datatype View = View(items: seq<Item>, recs: seq<Record>)

  /** One accepted add, with the locator bytes a search reports for it. */
  datatype Row = Row(time: i64, val: u64, loc: seq<byte>)

  ghost predicate Inv(v: View) {
    && Distinct(v.items)
    && (forall r :: r in v.recs ==> Named(v.items, r))
    && TimesSorted(v.recs)
    && (forall r :: r in v.recs ==> r.time >= 0)
  }

  function RowOf(items: seq<Item>, r: Record): Row {
    Row(r.time, r.val, LocOf(items, r))
  }

  function Log(v: View): (o: seq<Row>)
    ensures |o| == |v.recs| && forall i :: 0 <= i < |o| ==> o[i] == RowOf(v.items, v.recs[i])
  {
    seq(|v.recs|, i requires 0 <= i < |v.recs| => RowOf(v.items, v.recs[i]))
  }

  function LastTime(recs: seq<Record>): i64 {
    if recs == [] then 0 else recs[|recs| - 1].time
  }

  /** An add is accepted unless it is older than the last row; time 0 stands for no row.
      (Offsets are 64-bit fields; a file never grows past them.) */
  function AddView(v: View, time: i64, val: u64, loc: seq<byte>): (View, bool) {
    if LastTime(v.recs) > time then (v, false)
    else
      var (items, idx) := IndexAdd(v.items, loc);
      if idx < 0x1_0000_0000_0000_0000 then (View(items, v.recs + [Record(time, val, idx)]), true) else (v, false)
  }

  /** An entry keeps its offset and its locator when the list grows. */
  lemma {:induction false} GrowKeepsNames(items: seq<Item>, loc: seq<byte>, linked: bool, r: Record)
    requires Named(items, r)
    ensures Named(Grow(items, loc, linked), r) && LocOf(Grow(items, loc, linked), r) == LocOf(items, r)
  {
    var more, i := Grow(items, loc, linked), ItemAt(items, r.idx);
    OffFrame(items, more, i);
    ItemAtOff(more, i);
  }

  lemma {:induction false} IndexAddNames(items: seq<Item>, loc: seq<byte>, r: Record)
    requires r.idx == IndexAdd(items, loc).1
    ensures var (more, k) := (IndexAdd(items, loc).0, Find(items, loc));
            && Named(more, r) && LocOf(more, r) == (if k < |items| then items[k].loc else loc)
            && Same(LocOf(more, r), loc) && Hash(LocOf(more, r)) == Hash(loc)
  {
    hide Hash, StrncmpEqual;
    var more, k := IndexAdd(items, loc).0, Find(items, loc);
    ItemAtOff(more, k);
    if k == |items| {
      OffFrame(items, more, k);
      SameReflexive(loc);
    }
  }

  lemma {:induction false} IndexAddDistinct(items: seq<Item>, loc: seq<byte>)
    requires Distinct(items)
    ensures Distinct(IndexAdd(items, loc).0)
  {
    hide Hash, Same;
  }

  lemma {:induction false} IndexAddKeeps(items: seq<Item>, loc: seq<byte>, recs: seq<Record>)
    requires forall r :: r in recs ==> Named(items, r)
    ensures var more := IndexAdd(items, loc).0;
            forall r :: r in recs ==> Named(more, r) && LocOf(more, r) == LocOf(items, r)
  {
    hide Named, LocOf, Hash;
    if Find(items, loc) == |items| {
      forall r | r in recs
        ensures Named(Grow(items, loc, true), r) && LocOf(Grow(items, loc, true), r) == LocOf(items, r)
      {
        GrowKeepsNames(items, loc, true, r);
      }
    }
  }

  /** Every add keeps the index duplicate-free, the records named and the times sorted. */
  lemma {:induction false} AddKeepsInv(v: View, time: i64, val: u64, loc: seq<byte>)
    requires Inv(v)
    ensures Inv(AddView(v, time, val, loc).0)
  {
    hide Named, Distinct, IndexAdd;
    var (w, ok) := AddView(v, time, val, loc);
    if ok {
      var r := w.recs[|v.recs|];
      IndexAddDistinct(v.items, loc);
      IndexAddKeeps(v.items, loc, v.recs);
      IndexAddNames(v.items, loc, r);
    }
  }

  /** The bucket of `loc` has an entry that strncmp takes for it although the bytes differ. */
  predicate Twinned(items: seq<Item>, loc: seq<byte>) {
    exists j :: 0 <= j < |items| && Match(items[j], Hash(loc)) && NulTwin(items[j].loc, loc)
  }

  /** The entry an add names has other bytes exactly when there is such an entry. */
  lemma {:induction false} FoundExact(items: seq<Item>, loc: seq<byte>)
    requires Distinct(items)
    ensures var k := Find(items, loc);
            (k == |items| || items[k].loc == loc) <==> !Twinned(items, loc)
  {
    hide Hash, Same, NulTwin;
    var k := Find(items, loc);
    if k < |items| && items[k].loc != loc {
      SameExact(items[k].loc, loc);
    }
    forall j | 0 <= j < |items| && Match(items[j], Hash(loc)) && (k == |items| || items[k].loc == loc)
      ensures !NulTwin(items[j].loc, loc)
    {
      SameExact(items[j].loc, loc);
      SameSymmetric(items[j].loc, loc);
      if j == k {
        EqualNotTwin(loc);
      } else if k < j {
        assert Match(items[j], Hash(items[k].loc));
      }
    }
  }

  lemma {:induction false} EqualNotTwin(a: seq<byte>)
    ensures !NulTwin(a, a)
  {
  }

  lemma {:induction false} SameSymmetric(a: seq<byte>, b: seq<byte>)
    ensures Same(a, b) <==> Same(b, a)
  {
    hide Same;
    SameExact(a, b);
    SameExact(b, a);
  }

  lemma {:induction false} NoNulUntwinned(items: seq<Item>, loc: seq<byte>)
    requires NoNul(loc)
    ensures !Twinned(items, loc)
  {
    hide Hash;
  }

  /** An accepted add appends one row and changes none. What the new row reports compares equal
      to the locator under strncmp, and is the locator exactly when it has no twin. */
  lemma {:induction false} AddAppendsRow(v: View, time: i64, val: u64, loc: seq<byte>)
    requires Inv(v) && AddView(v, time, val, loc).1
    ensures var log := Log(AddView(v, time, val, loc).0);
            && |log| == |v.recs| + 1 && log[..|v.recs|] == Log(v)
            && log[|v.recs|].time == time && log[|v.recs|].val == val
            && Same(log[|v.recs|].loc, loc)
            && (log[|v.recs|].loc == loc <==> !Twinned(v.items, loc))
  {
    hide Named, Distinct, IndexAdd, LocOf, Same, Twinned;
    var w := AddView(v, time, val, loc).0;
    var r := w.recs[|v.recs|];
    IndexAddKeeps(v.items, loc, v.recs);
    IndexAddNames(v.items, loc, r);
    FoundExact(v.items, loc);
    assert forall i :: 0 <= i < |v.recs| ==> w.recs[i] == v.recs[i] && v.recs[i] in v.recs;
  }

  /** Two locators that agree up to a NUL share an entry: the second add reads back the first. */
  lemma {:induction false} NulAliases()
    ensures IndexAdd([Item([0, 1], true)], [0, 250]) == ([Item([0, 1], true)], TABLESIZ)
    ensures [0, 1] != [0, 250]
  {
    hide Hash, Djb2;
    Djb2Two(0, 1);
    Djb2Two(0, 250);
    HashOf([0, 1], 5859910, 152);
    HashOf([0, 250], 5860159, 152);
    AliasFound();
    assert [0, 1][1] != [0, 250][1];
  }

  lemma {:induction false} AliasFound()
    requires Hash([0, 1]) == Hash([0, 250])
    ensures IndexAdd([Item([0, 1], true)], [0, 250]) == ([Item([0, 1], true)], TABLESIZ)
  {
    hide Hash;
    var items: seq<Item>, b: seq<byte> := [Item([0, 1], true)], [0, 250];
    assert Match(items[0], Hash(b)) && Same(items[0].loc, b);
  }

  predicate RowMatch(r: Row, eq: Eq) {
    TimeMatch(r.time, eq) && ValMatch(r.val, eq)
  }

  /** The locators of the rows a query selects, in table order. */
  function Matching(log: seq<Row>, eq: Eq): seq<seq<byte>> {
    if log == [] then []
    else (if RowMatch(log[0], eq) then [log[0].loc] else []) + Matching(log[1..], eq)
  }

  lemma {:induction false} SelectIsMatching(items: seq<Item>, recs: seq<Record>, eq: Eq)
    ensures Locators(items, Select(recs, eq)) == Matching(Log(View(items, recs)), eq)
  {
    hide TimeMatch, ValMatch, LocOf;
    if recs != [] {
      var log := Log(View(items, recs));
      assert log[1..] == Log(View(items, recs[1..]));
      SelectIsMatching(items, recs[1..], eq);
      var rest := Select(recs[1..], eq);
      if RecMatch(recs[0], eq) {
        assert Locators(items, [recs[0]] + rest) == [log[0].loc] + Locators(items, rest);
      } else {
        assert [] + rest == rest;
      }
    }
  }

  /** What a search hands its callback: the first k rows of the log that meet the condition. */
  lemma {:induction false} SearchIsMatching(v: View, eq: Eq, k: nat)
    ensures Locators(v.items, Scan(v.recs, eq, k)) == Take(Matching(Log(v), eq), k)
  {
    hide Matching, Select, Scan;
    ScanTakesFirst(v.recs, eq, k);
    SelectIsMatching(v.items, v.recs, eq);
  }

  /** Which rows those are, told on their integers and by their place in the log. */
  lemma {:induction false} SearchGives(log: seq<Row>, eq: Eq, k: nat) returns (picks: seq<nat>)
    ensures |picks| == |Take(Matching(log, eq), k)| <= k
    ensures forall i :: 0 <= i < |picks| ==>
              picks[i] < |log| && Take(Matching(log, eq), k)[i] == log[picks[i]].loc
    ensures forall i, j :: 0 <= i < j < |picks| ==> picks[i] < picks[j]
    ensures forall j: nat :: j < |log| ==>
              (j in picks <==>
               && eq.start <= log[j].time && (eq.end == -1 || log[j].time <= eq.end)
               && (match eq.op
                   case LT => log[j].val < eq.val
                   case LE => log[j].val <= eq.val
                   case EQ => log[j].val == eq.val
                   case GT => log[j].val > eq.val
                   case GE => log[j].val >= eq.val)
               && (|picks| < k || (picks != [] && j <= picks[|picks| - 1])))
  {
    hide Matching, RowMatch;
    assert log[0..] == log;
    var wanted := iset j: nat | j < |log| && RowMatch(log[j], eq);
    picks := RowPicks(log, eq, k, wanted, 0, Take(Matching(log, eq), k));
    forall j: nat | j < |log|
      ensures RowMatch(log[j], eq) <==> RecMatch(Record(log[j].time, log[j].val, 0), eq)
    {
      RowIsRecord(log[j], eq);
      MatchMeans(Record(log[j].time, log[j].val, 0), eq);
    }
  }

  lemma {:induction false} RowIsRecord(r: Row, eq: Eq)
    ensures RowMatch(r, eq) <==> RecMatch(Record(r.time, r.val, 0), eq)
  {
  }

  lemma {:induction false} TakeMatching(log: seq<Row>, eq: Eq, k: nat)
    ensures Take(Matching(log, eq), k) ==
            if k == 0 || log == [] then []
            else if RowMatch(log[0], eq) then [log[0].loc] + Take(Matching(log[1..], eq), k - 1)
            else Take(Matching(log[1..], eq), k)
  {
    hide RowMatch;
    if k != 0 && log != [] {
      var rest := Matching(log[1..], eq);
      assert [] + rest == rest;
    }
  }

  /** From place `lo` on; `out` is what is handed over from there. */
  lemma {:induction false} RowPicks(log: seq<Row>, eq: Eq, k: nat, wanted: iset<nat>, lo: nat, out: seq<seq<byte>>)
    returns (picks: seq<nat>)
    requires lo <= |log| && out == Take(Matching(log[lo..], eq), k)
    requires forall j: nat :: j < |log| ==> (j in wanted <==> RowMatch(log[j], eq))
    ensures FirstPlaces(wanted, |log|, k, lo, picks) && |picks| == |out|
    ensures forall i :: 0 <= i < |picks| ==> picks[i] < |log| && out[i] == log[picks[i]].loc
    decreases |log| - lo
  {
    hide RowMatch, Matching, Take, FirstPlaces;
    TakeMatching(log[lo..], eq, k);
    picks := [];
    if k == 0 || lo == |log| {
      PlacesNone(wanted, |log|, k, lo);
    } else {
      assert log[lo..][0] == log[lo] && log[lo..][1..] == log[lo + 1..];
      if RowMatch(log[lo], eq) {
        var later := RowPicks(log, eq, k - 1, wanted, lo + 1, out[1..]);
        PlacesTake(wanted, |log|, k, lo, later);
        picks := [lo] + later;
      } else {
        picks := RowPicks(log, eq, k, wanted, lo + 1, out);
        PlacesSkip(wanted, |log|, k, lo, picks);
      }
    }
  }

  /** An empty buffer is the only one behind which every last record is read back and every
      new record is appended as it is. */
  lemma {:induction false} StaleBytesExact(held: seq<byte>, start: nat)
    ensures (forall recs: seq<Record>, b: seq<byte> | recs != [] && |b| == RECORDSIZ ::
               LastSeen(held, recs) == recs[|recs| - 1] && Appended(held, start, recs, b) == b)
            <==> held == []
  {
    hide RecOf, RecBytes, ToU64, Be64;
    if held == [] {
      forall recs: seq<Record>, b: seq<byte> | recs != [] && |b| == RECORDSIZ
        ensures LastSeen(held, recs) == recs[|recs| - 1] && Appended(held, start, recs, b) == b
      {
        RecRoundTrip(recs[|recs| - 1]);
        var s := RecBytes(recs[|recs| - 1]);
        assert ([] + s)[..RECORDSIZ] == s;
      }
    } else {
      var last := OtherRecord(held[0]);
      RecRoundTrip(last);
      var s := held + RecBytes(last);
      RecBytesOf(s[..RECORDSIZ]);
      assert s[..RECORDSIZ][0] == held[0] != RecBytes(last)[0];
      assert LastSeen(held, [last]) != last;
      assert |seq(RECORDSIZ, _ => 0 as byte)| == RECORDSIZ;
    }
  }

  /** A record whose first byte is not `b`. */
  function OtherRecord(b: byte): (r: Record)
    ensures RecBytes(r)[0] != b
  {
    var time := if b == 0 then 0x100_0000_0000_0000 else 0;
    Be64Bytes(ToU64(time));
    Record(time, 0, 0)
  }

  /** Window starts from which the record of an accepted add runs into the buffer assertion. */
  predicate NoRoom(sp: nat, recs: seq<Record>) {
    if recs == [] then sp > 4072 else 4048 < sp <= 4072
  }

  /** With nothing left in the buffer the last record is read correctly; an acceptable add is
      then lost to the buffer assertion exactly for these window starts. */
  lemma {:induction false} AddAbortsExact(sp: nat, recs: seq<Record>, time: i64)
    ensures AddOutcome([], sp, recs, time) ==
            if LastTime(recs) > time then Rejected else if NoRoom(sp, recs) then Aborted else Added
  {
    hide RecOf, RecBytes;
    if recs != [] {
      var s := RecBytes(recs[|recs| - 1]);
      RecRoundTrip(recs[|recs| - 1]);
      assert ([] + s)[..RECORDSIZ] == s;
    }
  }

  lemma {:induction false} NextMod(n: nat)
    ensures (n + 1) % 170 == if n % 170 == 169 then 0 else n % 170 + 1
  {
  }

  /** The window start is a function of the records taken since the last reset. */
  lemma {:induction false} WindowCycles(n: nat)
    ensures Window(n + 1) == RECORDSIZ * (1 + n % 170)
  {
    if n > 0 {
      WindowCycles(n - 1);
      NextMod(n - 1);
      AfterCycles(Window(n), (n - 1) % 170);
    } else {
      assert Window(0) == 0;
    }
  }

  lemma {:induction false} AfterCycles(w: nat, r: nat)
    requires r < 170 && w == RECORDSIZ * (1 + r)
    ensures After(w) == RECORDSIZ * (1 + if r == 169 then 0 else r + 1)
  {
  }

  /** Without stale bytes, an add that does not abort does to the table what it does to the view. */
  lemma {:induction false} CleanAdd(rules: Rules, a: Snapshot, b: Snapshot, res: AddResult, time: i64, val: u64,
                                    loc: seq<byte>)
    requires |loc| < 0x1_0000 && AddPost(rules, a, b, res, time, val, loc)
    requires Stale(rules, a.held) == []
    requires a.table == TabBytes(a.recs) && Rep(a.locs, a.items) && |a.locs| <= MAXOFF
    ensures res == AddOutcome([], StartsAt(rules, a.sp), a.recs, time)
    ensures res == Aborted ==> LastTime(a.recs) <= time && b.table == a.table
    ensures res != Added ==> b.recs == a.recs
    ensures res != Aborted ==>
              && (View(b.items, b.recs), res == Added) == AddView(View(a.items, a.recs), time, val, loc)
              && b.table == TabBytes(b.recs)
              && |b.recs| == |a.recs| + (if res == Added then 1 else 0)
              && b.held == [] && b.sp == if res == Added then 0 else AfterLast(StartsAt(rules, a.sp), a.recs)
  {
    hide TabBytes, RecBytes, Rep, IndexBytes, AddOutcome, Hash, Splice, NoRoom;
    AddAbortsExact(StartsAt(rules, a.sp), a.recs, time);
    RepLength(a.locs, a.items);
    var k := Find(a.items, loc);
    if k < |a.items| {
      OffMonotone(a.items, k, |a.items|);
    }
    if res == Added {
      var r := b.recs[|a.recs|];
      assert b.recs == a.recs + [r];
      AppendedRight([], StartsAt(rules, a.sp), a.recs, r);
    }
  }

  /** With the three repairs an add does to the bytes what it does to the view. */
  lemma {:induction false} IntendedAdd(a: Snapshot, b: Snapshot, res: AddResult, time: i64, val: u64, loc: seq<byte>)
    requires |loc| < 0x1_0000 && AddPost(INTENDED, a, b, res, time, val, loc)
    requires a.table == TabBytes(a.recs) && Rep(a.locs, a.items) && |a.locs| <= MAXOFF
    ensures (View(b.items, b.recs), res == Added) == AddView(View(a.items, a.recs), time, val, loc)
    ensures b.table == TabBytes(b.recs) && res != Aborted
    ensures |b.recs| == |a.recs| + if res == Added then 1 else 0
  {
    hide TabBytes, Rep, AddPost, AddOutcome, AddView;
    AddAbortsExact(0, a.recs, time);
    CleanAdd(INTENDED, a, b, res, time, val, loc);
  }

  lemma {:induction false} OneRecord(r: Record)
    ensures TabBytes([r]) == RecBytes(r)
  {
    hide RecBytes;
    assert [r][1..] == [] && TabBytes([r]) == RecBytes(r) + TabBytes([r][1..]);
  }

  /** An add did to both files, and answered, what it should. */
  ghost predicate AddedRight(a: Snapshot, b: Snapshot, res: AddResult, time: i64, val: u64, loc: seq<byte>) {
    var (w, ok) := AddView(View(a.items, a.recs), time, val, loc);
    && View(b.items, b.recs) == w && res == (if ok then Added else Rejected)
    && Rep(b.locs, b.items) && b.table == TabBytes(b.recs)
  }

  /** For any bytes left in the buffer, repaired or as written: an add does what it should exactly
      when what it takes for the last record leads to the right decision and, if it is to be
      accepted, its link is kept, the window leaves room for the record, and no more than a
      record's worth of bytes is still held. */
  lemma {:induction false} AddExact(rules: Rules, a: Snapshot, b: Snapshot, res: AddResult, time: i64, val: u64,
                                    loc: seq<byte>)
    requires 2 + |loc| + 8 <= BUFSIZ && AddPost(rules, a, b, res, time, val, loc)
    requires a.table == TabBytes(a.recs) && Rep(a.locs, a.items) && |a.locs| + BUFSIZ <= MAXOFF
    ensures AddedRight(a, b, res, time, val, loc) <==>
            var stale, start := Stale(rules, a.held), StartsAt(rules, a.sp);
            && (LastSeen(stale, a.recs).time > time <==> LastTime(a.recs) > time)
            && (LastTime(a.recs) <= time ==>
                  && IndexKept(rules, a.items, loc) && !NoRoom(start, a.recs)
                  && |LastLeaves(stale, start, a.recs)| <= RECORDSIZ)
  {
    hide TabBytes, RecBytes, Rep, Hash, LinkField, Entry, Be64, LastSeen, Appended, LastLeaves, Find, Splice;
    RepLength(a.locs, a.items);
    IndexAddRoom(a.items, loc);
    if res != Rejected && Find(a.items, loc) == |a.items| {
      LinkOutcome(a.locs, a.items, loc, rules.addBase, b.locs);
    }
    if res == Added {
      var r := b.recs[|a.recs|];
      assert b.recs == a.recs + [r];
      AppendedRight(Stale(rules, a.held), StartsAt(rules, a.sp), a.recs, r);
    }
  }

  lemma {:induction false} AppendedRight(stale: seq<byte>, start: nat, recs: seq<Record>, r: Record)
    ensures TabBytes(recs) + Appended(stale, start, recs, RecBytes(r)) == TabBytes(recs + [r])
            <==> |LastLeaves(stale, start, recs)| <= RECORDSIZ
  {
    hide TabBytes, RecBytes, LastLeaves, Splice;
    TabAppend(recs, [r]);
    OneRecord(r);
    SpliceShort(LastLeaves(stale, start, recs), RecBytes(r));
    AppendedTable(TabBytes(recs), Appended(stale, start, recs, RecBytes(r)), RecBytes(r));
  }

  lemma {:induction false} AppendedTable(t: seq<byte>, x: seq<byte>, y: seq<byte>)
    ensures t + x == t + y <==> x == y
  {
    assert x == (t + x)[|t|..] && y == (t + y)[|t|..];
  }

  lemma {:induction false} FirstField(r: Record, s: seq<byte>)
    requires |s| == RECORDSIZ && s[..8] == RecBytes(r)[..8]
    ensures RecOf(s).time == r.time
  {
    hide De64;
    RecRoundTrip(r);
  }

  /** What a scan that stopped after `i` records does to an add that reads the last record behind
      what it left: the first unread row's time passes for the last one's, and the append carries
      stale bytes into the table unless at most two records' worth of them was left. */
  lemma {:induction false} StaleRows(recs: seq<Record>, i: nat, now: seq<Record>)
    requires 0 < i < |recs| && now != []
    ensures LastSeen(Buffered(recs, i), now).time == recs[i].time
    ensures |LastLeaves(Buffered(recs, i), Window(i), now)| <= RECORDSIZ
            <==> |recs| - i <= 2 || BUFSIZ - Window(i) <= 2 * RECORDSIZ
  {
    hide RecOf, RecBytes, TabBytes, Window;
    var tab, held, last := TabBytes(recs[i..]), Buffered(recs, i), RecBytes(now[|now| - 1]);
    assert |held| >= 8 && held == tab[..|held|];
    HeadBytes(recs[i..]);
    assert (held + last)[..RECORDSIZ][..8] == tab[..8];
    FirstField(recs[i], (held + last)[..RECORDSIZ]);
  }

  lemma {:induction false} HeadBytes(recs: seq<Record>)
    requires recs != []
    ensures |TabBytes(recs)| >= RECORDSIZ && TabBytes(recs)[..8] == RecBytes(recs[0])[..8]
  {
    hide RecBytes;
  }

  datatype Call = Add(time: i64, val: u64, loc: seq<byte>) | Query(eq: Eq, k: nat)

  datatype Reply = Accepted | OutOfOrder | Found(locs: seq<seq<byte>>) | NotFound

  function Hits(locs: seq<seq<byte>>): Reply {
    if locs == [] then NotFound else Found(locs)
  }

  function StepView(v: View, c: Call): (View, Reply) {
    match c
    case Add(time, val, loc) =>
      var (w, ok) := AddView(v, time, val, loc);
      (w, if ok then Accepted else OutOfOrder)
    case Query(eq, k) => (v, Hits(Locators(v.items, Scan(v.recs, eq, k))))
  }

  /** A run of calls on the view of the two files. */
  function RunView(v: View, calls: seq<Call>): (o: (View, seq<Reply>))
    ensures |o.1| == |calls|
  {
    if calls == [] then (v, [])
    else
      var (w, replies) := RunView(v, calls[..|calls| - 1]);
      var (w', reply) := StepView(w, calls[|calls| - 1]);
      (w', replies + [reply])
  }

  /** The same calls on a plain list of rows. */
  function StepLog(log: seq<Row>, c: Call): (seq<Row>, Reply) {
    match c
    case Add(time, val, loc) =>
      if (if log == [] then 0 else log[|log| - 1].time) > time then (log, OutOfOrder)
      else (log + [Row(time, val, loc)], Accepted)
    case Query(eq, k) => (log, Hits(Take(Matching(log, eq), k)))
  }

  function RunLog(log: seq<Row>, calls: seq<Call>): (o: (seq<Row>, seq<Reply>))
    ensures |o.1| == |calls|
  {
    if calls == [] then (log, [])
    else
      var (l, replies) := RunLog(log, calls[..|calls| - 1]);
      var (l', reply) := StepLog(l, calls[|calls| - 1]);
      (l', replies + [reply])
  }

  predicate Fits(c: Call) {
    c.Add? ==> 2 + |c.loc| + 8 <= BUFSIZ
  }

  ghost predicate Room(v: View, n: nat) {
    Off(v.items, |v.items|) + n * BUFSIZ <= MAXOFF
  }

  predicate SameTimes(a: seq<Row>, b: seq<Row>) {
    |a| == |b| && forall i :: 0 <= i < |a| ==> a[i].time == b[i].time
  }

  /** The call is an accepted add whose row will report other bytes than it was given. */
  predicate Misreports(v: View, c: Call) {
    c.Add? && LastTime(v.recs) <= c.time && Twinned(v.items, c.loc)
  }

  /** No add of the run is misreported. */
  predicate Untwinned(v: View, calls: seq<Call>) {
    if calls == [] then true
    else
      var before := calls[..|calls| - 1];
      Untwinned(v, before) && !Misreports(RunView(v, before).0, calls[|calls| - 1])
  }

  lemma {:induction false} NoNulRun(v: View, calls: seq<Call>)
    requires forall c :: c in calls ==> c.Add? ==> NoNul(c.loc)
    ensures Untwinned(v, calls)
  {
    hide NoNul, Twinned, RunView;
    if calls != [] {
      var c := calls[|calls| - 1];
      assert c in calls;
      NoNulRun(v, calls[..|calls| - 1]);
      if c.Add? {
        NoNulUntwinned(RunView(v, calls[..|calls| - 1]).0.items, c.loc);
      }
    }
  }

  /** One add on the files and on a list of rows that has the same times. */
  lemma {:induction false} AddMatchesLog(v: View, log: seq<Row>, c: Call)
    requires Inv(v) && SameTimes(Log(v), log) && c.Add?
    requires AddView(v, c.time, c.val, c.loc).1 || LastTime(v.recs) > c.time
    ensures var ((w, reply), (log', reply')) := (StepView(v, c), StepLog(log, c));
            && reply == reply' && SameTimes(Log(w), log')
            && (Log(w) == log' <==> Log(v) == log && !Misreports(v, c))
  {
    hide Hash, LocOf, Inv, IndexAdd, Find, Off, Same, Twinned;
    var w := AddView(v, c.time, c.val, c.loc).0;
    assert LastTime(v.recs) == if log == [] then 0 else log[|log| - 1].time;
    if LastTime(v.recs) <= c.time {
      AddAppendsRow(v, c.time, c.val, c.loc);
      var n, row := |log|, Row(c.time, c.val, c.loc);
      assert Log(w) == Log(v) + [Log(w)[n]];
      assert Log(w)[n] == row <==> Log(w)[n].loc == c.loc;
      SnocExact(Log(v), Log(w)[n], log, row);
    }
  }

  lemma {:induction false} SnocExact<T>(a: seq<T>, x: T, b: seq<T>, y: T)
    requires |a| == |b|
    ensures a + [x] == b + [y] <==> a == b && x == y
  {
    assert a == (a + [x])[..|a|] && b == (b + [y])[..|a|];
    assert x == (a + [x])[|a|] && y == (b + [y])[|a|];
  }

  lemma {:induction false} StepMatchesLog(v: View, log: seq<Row>, c: Call, n: nat)
    requires Inv(v) && Fits(c) && Room(v, n + 1) && SameTimes(Log(v), log)
    ensures var ((w, reply), (log', reply')) := (StepView(v, c), StepLog(log, c));
            && Inv(w) && Room(w, n) && SameTimes(Log(w), log')
            && (Log(w) == log' <==> Log(v) == log && !Misreports(v, c))
            && (Log(v) == log ==> reply == reply')
  {
    hide Hash, Matching, Scan, Locators, Log, Inv, IndexAdd, Off, SameTimes, Misreports, StepLog;
    match c
    case Query(eq, k) =>
      SearchIsMatching(v, eq, k);
      QueryMatchesLog(v, log, eq, k);
    case Add(time, val, loc) =>
      AddKeepsInv(v, time, val, loc);
      AddRoom(v, time, val, loc, n);
      IndexAddRoom(v.items, loc);
      AddMatchesLog(v, log, c);
  }

  lemma {:induction false} QueryMatchesLog(v: View, log: seq<Row>, eq: Eq, k: nat)
    ensures StepLog(log, Query(eq, k)) == (log, Hits(Take(Matching(log, eq), k)))
    ensures !Misreports(v, Query(eq, k))
  {
    hide Matching;
  }

  lemma {:induction false} IndexAddRoom(items: seq<Item>, loc: seq<byte>)
    ensures var (more, idx) := IndexAdd(items, loc);
            && idx <= Off(items, |items|)
            && Off(more, |more|) <= Off(items, |items|) + 2 + |loc| + 8
  {
    hide Hash;
    var k := Find(items, loc);
    if k < |items| {
      OffMonotone(items, k, |items|);
    } else {
      OffFrame(items, Grow(items, loc, true), |items|);
    }
  }

  /** For every run: the rows are those of the plain list exactly when no add was misreported,
      and then every reply is the plain list's too. */
  lemma {:induction false} RunMatchesLog(v: View, calls: seq<Call>, n: nat)
    requires Inv(v) && Room(v, n + |calls|) && forall c :: c in calls ==> Fits(c)
    ensures var ((w, replies), (log, replies')) := (RunView(v, calls), RunLog(Log(v), calls));
            && Inv(w) && Room(w, n) && SameTimes(Log(w), log)
            && (Log(w) == log <==> Untwinned(v, calls))
            && (Untwinned(v, calls) ==> replies == replies')
  {
    hide Inv, Room, StepView, StepLog, Log, Fits, SameTimes, Misreports;
    if calls == [] {
      TimesOfItself(Log(v));
    } else {
      var c, m := calls[|calls| - 1], |calls| - 1;
      RunMatchesLog(v, calls[..m], n + 1);
      StepMatchesLog(RunView(v, calls[..m]).0, RunLog(Log(v), calls[..m]).0, c, n);
    }
  }

  lemma {:induction false} TimesOfItself(log: seq<Row>)
    ensures SameTimes(log, log)
  {
  }

  lemma {:induction false} AddRoom(v: View, time: i64, val: u64, loc: seq<byte>, n: nat)
    requires 2 + |loc| + 8 <= BUFSIZ && Room(v, n + 1)
    ensures Room(AddView(v, time, val, loc).0, n)
  {
    IndexAddRoom(v.items, loc);
  }

  lemma {:induction false} RunNil(v: View, calls: seq<Call>)
    ensures RunView(v, calls[..0]) == (v, [])
  {
  }

  lemma {:induction false} RunSnoc(v: View, calls: seq<Call>, i: nat)
    requires i < |calls|
    ensures var (w, replies) := RunView(v, calls[..i]);
            var (w', reply) := StepView(w, calls[i]);
            RunView(v, calls[..i + 1]) == (w', replies + [reply])
  {
    hide StepView;
    assert calls[..i + 1][..i] == calls[..i];
  }
}
