/** kcndbd/kcndb_db.c: one table, its two files, and the sizes and lock its threads share. */
module Table {
  import opened Bytes
  import opened Errno
  import opened DbFile
  import opened LocIndex
  import opened Records

  /** Three places where kcndb_db.c departs from its evident intent:
      line 300 loses the base of the last entry, line 507 returns without unlocking,
      and lines 365-374 read the last record behind bytes left in the buffer. */
  datatype Rules = Rules(addBase: bool, unlockOnSuccess: bool, resetBeforeLast: bool)

  const AS_WRITTEN := Rules(false, false, false)
  const INTENDED := Rules(true, true, true)

  const MAXOFF := 0x7fff_ffff_ffff_ffff

  /** struct kcndb_db_base, shared by the threads. */
  class Base {
    var locsize: nat
    var tablesize: nat
    var readers: nat
    var writer: bool
    ghost var items: seq<Item>
    ghost var recs: seq<Record>

    constructor ()
      ensures locsize == tablesize == readers == 0 && !writer && items == [] && recs == []
    {
      locsize, tablesize, readers, writer := 0, 0, 0, false;
      items, recs := [], [];
    }
  }

  /** One thread's descriptors and buffers on the table. */
  class Table {
    const rules: Rules
    const loc: File
    const tab: File
    const base: Base

    constructor (rules: Rules, base: Base, locDisk: Disk, tabDisk: Disk)
      requires locDisk != tabDisk
      ensures this.rules == rules && this.base == base && loc.disk == locDisk && tab.disk == tabDisk
      ensures Wired() && fresh(loc) && fresh(tab)
      ensures loc.Valid() && tab.Valid() && tab.buf.sp == tab.buf.cp == tab.buf.ep == 0
    {
      this.rules, this.base := rules, base;
      loc := new File(locDisk);
      tab := new File(tabDisk);
    }

    ghost predicate Wired() {
      loc != tab && loc.disk != tab.disk && loc.buf != tab.buf && loc.buf.data != tab.buf.data
    }

    ghost predicate IndexValid()
      reads base, loc, loc.buf, loc.disk
    {
      && loc.Valid()
      && Rep(loc.disk.content, base.items) && base.locsize == |loc.disk.content|
      && forall i :: 0 <= i < |base.items| ==> Size(base.items[i]) <= BUFSIZ
    }

    /** Seek, reset and first read: a file read fills the buffer or takes what is left. */
    method LoadAt(p: nat, len: nat) returns (error: int)
      requires loc.Valid() && 0 < len <= BUFSIZ && p + len <= |loc.disk.content|
      modifies loc, loc.buf, loc.buf.data
      ensures loc.Valid() && error == 0 && loc.buf.sp == loc.buf.cp == 0
      ensures loc.Stream() == loc.disk.content[p..]
      ensures loc.buf.ep == Min(BUFSIZ, |loc.disk.content| - p)
    {
      loc.SeekHead(p);
      loc.buf.Reset(0);
      assert loc.Stream() == loc.disk.content[p..];
      error := loc.Ensure(len);
      assert |loc.Stream()| == loc.buf.ep + |loc.Unread()|;
    }

    /** Positions the descriptor on the entry at `p` and reads its length. */
    method EnterEntry(p: nat, extra: nat, ghost n: nat) returns (error: int, len: nat)
      requires loc.Valid() && 2 + n + 8 <= BUFSIZ && extra <= 8
      requires p + 2 + n + 8 <= |loc.disk.content| && De16(loc.disk.content[p..p + 2]) == n
      modifies loc, loc.buf, loc.buf.data
      ensures loc.Valid() && error == 0 && len == n
      ensures loc.buf.sp == 0 && loc.buf.cp == 2 && loc.buf.ep >= 2 + n + 8
      ensures loc.Stream() == loc.disk.content[p..]
    {
      hide De16, File.Unread, File.Stream;
      error := LoadAt(p, 2);
      TailSlice(loc.disk.content, p, 0, 2);
      len := ReadLength(loc.disk.content[p..]);
      error := loc.Ensure(len + extra);
    }

    /** The 16-bit length at the front of what has just been loaded. */
    method ReadLength(ghost s: seq<byte>) returns (len: nat)
      requires loc.Valid() && loc.buf.sp == loc.buf.cp == 0 && loc.buf.ep >= 2 && loc.Stream() == s
      modifies loc.buf`cp
      ensures loc.Valid() && loc.buf.cp == 2 && loc.Stream() == s && |s| >= 2 && len == De16(s[0..2])
    {
      hide De16;
      HeldSlice(loc, s, 0, 2);
      len := loc.buf.Get16();
    }

    /** Reads the slot of bucket `h` at the head of the file. */
    method ReadSlot(h: nat) returns (idx: nat)
      requires IndexValid() && h < HASHSIZ
      modifies loc, loc.buf, loc.buf.data
      ensures loc.Valid() && loc.buf.sp == 0 && loc.buf.cp == 8 * h + 8
      ensures idx == Pointer(base.items, h, 0)
    {
      hide De64, Rep, Pointer, File.Stream, File.Unread;
      RepSlot(loc.disk.content, base.items, h);
      TailSlice(loc.disk.content, 0, 8 * h, 8 * h + 8);
      var error := LoadAt(0, 8);
      HeldSlice(loc, loc.disk.content[0..], 8 * h, 8 * h + 8);
      loc.buf.Forward(8 * h);
      idx := loc.buf.Get64();
    }

    /** One turn of the walk: the entry at `idx` is compared and its next pointer read. */
    method VisitEntry(locator: seq<byte>, idx: nat, ghost j: nat) returns (found: bool, next: nat)
      requires IndexValid() && j < |base.items| && idx == Off(base.items, j)
      modifies loc, loc.buf, loc.buf.data
      ensures loc.Valid() && loc.buf.sp == 0
      ensures found <==> Same(base.items[j].loc, locator)
      ensures !found ==> next == NextOf(base.items, j) && loc.buf.cp == 2 + |base.items[j].loc| + 8
    {
      hide De16, De64, StrncmpEqual, NextOf, Rep, EntryOk, Off, File.Stream;
      ghost var n, f := |base.items[j].loc|, loc.disk.content;
      RepHas(f, base.items, j);
      EntryPlace(f, base.items, j);
      var error, len := EnterEntry(idx, 8, n);
      EnteredEntry(loc, f, base.items, j);
      if |locator| == len && Same(loc.buf.data[loc.buf.cp..loc.buf.cp + len], locator) {
        return true, 0;
      }
      loc.buf.Forward(len);
      next := loc.buf.Get64();
      found := false;
    }

    /** The walk of kcndb_db_loc_add, up to the match or the null pointer. */
    method WalkBucket(locator: seq<byte>) returns (idx: nat, field: nat)
      requires IndexValid()
      modifies loc, loc.buf, loc.buf.data
      ensures loc.Valid()
      ensures var k := Find(base.items, locator);
              if k < |base.items| then idx == Off(base.items, k)
              else idx == 0 && field == LinkField(base.items, Hash(locator), rules.addBase)
    {
      hide De16, De64, Same, Rep, Hash, Pointer, AtPointer, Find, LastIn, FirstIn, LinkField;
      var h := StrHash(locator);
      ghost var items := base.items;
      idx := ReadSlot(h);
      var last := 0;
      WalkStarts(items, h, loc.buf.cp);
      ghost var i := 0;
      while idx != 0
        invariant IndexValid() && loc.buf.sp == 0 && last >= 0 && i <= |items| && idx == Pointer(items, h, i)
        invariant Find(items, locator) == Find(items, locator, i)
        invariant AtPointer(items, h, i, last, loc.buf.cp)
        decreases |items| - i
      {
        ghost var j := FirstIn(items, h, i);
        PointerAt(items, h, i);
        FindSkips(items, locator, i, j);
        last := idx;
        var found;
        found, idx := VisitEntry(locator, idx, j);
        if found {
          FoundAt(items, locator, j);
          return last, 0;
        }
        WalkMoves(items, h, i, last, loc.buf.cp);
        FindSkips(items, locator, j, j + 1);
        i := j + 1;
      }
      PointerAt(items, h, i);
      FindSkips(items, locator, i, |items|);
      WalkEnds(items, h, i, last, loc.buf.cp, rules.addBase);
      field := (if rules.addBase then last else 0) + loc.buf.HeadingData() - 8;
    }

    /** Write 1 of an add: a complete entry with a zero next field, at the end of the file. */
    method AppendEntry(locator: seq<byte>)
      requires loc.Valid() && 2 + |locator| + 8 <= BUFSIZ
      requires base.locsize == |loc.disk.content|
      modifies loc, loc.disk, loc.buf, loc.buf.data, base`locsize
      ensures loc.Valid() && loc.buf.sp == loc.buf.cp == loc.buf.ep == 0
      ensures loc.disk.content == old(loc.disk.content) + Entry(locator)
      ensures base.locsize == |loc.disk.content|
    {
      hide Be16, Be64, Splice;
      loc.buf.Reset(0);
      loc.buf.Put16(|locator|);
      loc.buf.Put(locator);
      loc.buf.Put64(0);
      var len := loc.buf.Len();
      assert loc.buf.Held() == Entry(locator);
      loc.AppendAll();
      base.locsize := base.locsize + len;
    }

    /** Write 2 of an add: one 8-byte field is made to point to the new entry. */
    method WriteLink(idx: u64, field: nat)
      requires loc.Valid() && loc.buf.sp == loc.buf.cp == loc.buf.ep == 0
      requires field <= |loc.disk.content|
      modifies loc, loc.disk, loc.buf, loc.buf.data
      ensures loc.Valid()
      ensures loc.disk.content == Splice(old(loc.disk.content), field, Be64(idx))
    {
      hide Be64, Splice;
      loc.buf.Put64(idx);
      loc.SeekHead(field);
      loc.Write();
    }

    method LocAdd(locator: seq<byte>) returns (idx: u64)
      requires Wired() && IndexValid() && 2 + |locator| + 8 <= BUFSIZ
      requires |loc.disk.content| + BUFSIZ <= MAXOFF
      modifies loc, loc.disk, loc.buf, loc.buf.data, base`locsize, base`items
      ensures loc.Valid() && base.locsize == |loc.disk.content|
      ensures base.items == IndexAdd(old(base.items), locator).0
      ensures idx == IndexAdd(old(base.items), locator).1
      ensures IndexBytes(rules, old(base.items), old(loc.disk.content), locator, loc.disk.content)
      ensures IndexValid() <==> IndexKept(rules, old(base.items), locator)
    {
      hide Be64, De64, De16, Splice, Hash, EntryOk, SlotOk, Entry, LinkField;
      ghost var items, f := base.items, loc.disk.content;
      ghost var k := Find(items, locator);
      var at, field := WalkBucket(locator);
      if at != 0 {
        OffMonotone(items, k, |items|);
        return at;
      }
      LinkPlace(items, Hash(locator), rules.addBase);
      idx := base.locsize;
      AppendEntry(locator);
      WriteLink(idx, field);
      base.items := Grow(items, locator, true);
      LinkOutcome(f, items, locator, rules.addBase, loc.disk.content);
    }

    method LocLookup(idx: nat) returns (error: int, locator: seq<byte>)
      requires IndexValid() && (ItemAt(base.items, idx) >= 0 || idx > base.locsize)
      modifies loc, loc.buf, loc.buf.data
      ensures loc.Valid()
      ensures error == if idx > base.locsize then ENXIO else 0
      ensures error == 0 ==> locator == base.items[ItemAt(base.items, idx)].loc
    {
      hide De16, De64, NextOf, Rep;
      if base.locsize < idx {
        return ENXIO, [];
      }
      ghost var j := ItemAt(base.items, idx);
      RepHas(loc.disk.content, base.items, j);
      var len;
      error, len := EnterEntry(idx, 0, |base.items[j].loc|);
      EnteredEntry(loc, loc.disk.content, base.items, j);
      locator := loc.buf.data[loc.buf.cp..loc.buf.cp + len];
    }

    ghost predicate RecordsValid()
      reads base, tab, tab.buf, tab.disk
    {
      && tab.Valid() && tab.buf.cp == tab.buf.sp
      && tab.disk.content == TabBytes(base.recs) && base.tablesize == |tab.disk.content|
    }

    /** kcndb_db_init under the write lock: sizes are read once, an empty file gets its slots. */
    method Init()
      requires Wired() && loc.Valid() && tab.Valid()
      requires loc.buf.sp == loc.buf.cp == loc.buf.ep == 0
      requires base.locsize in {0, |loc.disk.content|} && base.tablesize in {0, |tab.disk.content|}
      modifies loc, loc.disk, loc.buf, loc.buf.data, base`locsize, base`tablesize
      ensures loc.Valid() && loc.buf.sp == loc.buf.cp == loc.buf.ep == 0
      ensures base.locsize == |loc.disk.content| && base.tablesize == |tab.disk.content|
      ensures old(loc.disk.content) != [] ==> loc.disk.content == old(loc.disk.content)
      ensures old(loc.disk.content) == [] ==> Rep(loc.disk.content, [])
    {
      if base.locsize == 0 {
        base.locsize := |loc.disk.content|;
      }
      if base.tablesize == 0 {
        base.tablesize := |tab.disk.content|;
      }
      if base.locsize > 0 {
        return;
      }
      loc.buf.PutNull(TABLESIZ);
      loc.AppendAll();
      ZerosRep();
      assert loc.disk.content == seq(TABLESIZ, _ => 0);
      base.locsize := base.locsize + TABLESIZ;
    }

    /** The three fields of a buffered record are read and trimmed off. */
    method TakeRecord() returns (r: Record)
      requires tab.Valid() && tab.buf.cp == tab.buf.sp && |tab.buf.Held()| >= RECORDSIZ
      modifies tab.buf
      ensures tab.Valid() && tab.buf.cp == tab.buf.sp == old(tab.buf.sp) + RECORDSIZ
      ensures r == RecOf(old(tab.buf.Held())[..RECORDSIZ])
      ensures tab.buf.Held() == old(tab.buf.Held())[RECORDSIZ..]
    {
      hide De64;
      ghost var d, sp, ep := tab.buf.data[..], tab.buf.sp, tab.buf.ep;
      SubSlice(d, sp, ep, 0, 8);
      SubSlice(d, sp, ep, 8, 16);
      SubSlice(d, sp, ep, 16, 24);
      RecOfSlices(d[sp..ep]);
      var time := tab.buf.Get64();
      var val := tab.buf.Get64();
      var idx := tab.buf.Get64();
      r := Record(ToI64(time), val, idx);
      tab.buf.TrimHead(tab.buf.HeadingData());
    }

    /** The buffer is full to its end, or all of the file is in it. */
    predicate Filled()
      reads tab, tab.disk, tab.buf
    {
      tab.buf.ep == BUFSIZ || tab.Unread() == []
    }

    method RecordRead() returns (error: int, r: Record)
      requires tab.Valid() && tab.buf.cp == tab.buf.sp
      modifies tab, tab.buf, tab.buf.data
      ensures tab.Valid() && tab.buf.cp == tab.buf.sp
      ensures error == if old(|tab.Stream()|) < RECORDSIZ then ESHUTDOWN else 0
      ensures error != 0 ==> tab.Stream() == old(tab.Stream()) && tab.Unread() == []
      ensures error == 0 ==> r == RecOf(old(tab.Stream())[..RECORDSIZ])
      ensures error == 0 ==> tab.Stream() == old(tab.Stream())[RECORDSIZ..]
      ensures if error == 0 then tab.buf.sp == After(old(tab.buf.sp)) else Stays(old(tab.buf.sp), tab.buf.sp)
      ensures error == 0 && old(Filled() || |tab.buf.Held()| < RECORDSIZ) ==> Filled()
      ensures old(|tab.Stream()|) == 0 && old(tab.buf.ep) < BUFSIZ ==> tab.buf.sp == old(tab.buf.sp)
      ensures old(|tab.buf.Held()|) >= RECORDSIZ ==> tab.buf.Held() == old(tab.buf.Held())[RECORDSIZ..]
    {
      hide RecOf;
      assert |tab.Stream()| == 0 ==> tab.Unread() == [];
      error := tab.Ensure(RECORDSIZ);
      if error != 0 {
        r := Record(0, 0, 0);
        return;
      }
      ghost var h, u := tab.buf.Held(), tab.Unread();
      r := TakeRecord();
      TrimStream(h, u, RECORDSIZ);
    }

    /** Reads the record at `off`, the last one, behind whatever the window still holds. */
    method ReadTail(off: nat) returns (r: Record)
      requires tab.Valid() && tab.buf.cp == tab.buf.sp && off + RECORDSIZ == |tab.disk.content|
      modifies tab, tab.buf, tab.buf.data
      ensures tab.Valid() && tab.buf.cp == tab.buf.sp == After(old(tab.buf.sp))
      ensures r == RecOf((old(tab.buf.Held()) + tab.disk.content[off..])[..RECORDSIZ])
      ensures tab.buf.Held() ==
              var (held, s) := (old(tab.buf.Held()), old(tab.buf.Held()) + tab.disk.content[off..]);
              if |held| >= RECORDSIZ then held[RECORDSIZ..] else Take(s[RECORDSIZ..], BUFSIZ - tab.buf.sp)
    {
      hide RecOf;
      tab.SeekHead(off);
      ghost var held := tab.buf.Held();
      assert tab.Stream() == held + tab.disk.content[off..];
      var error;
      error, r := RecordRead();
      if |held| < RECORDSIZ {
        FilledHeld(this);
      }
    }

    method ReadLast() returns (r: Record)
      requires RecordsValid()
      modifies tab, tab.buf, tab.buf.data
      ensures RecordsValid()
      ensures r == LastSeen(Stale(rules, old(tab.buf.Held())), base.recs)
      ensures tab.buf.sp == AfterLast(StartsAt(rules, old(tab.buf.sp)), base.recs)
      ensures tab.buf.Held() ==
              LastLeaves(Stale(rules, old(tab.buf.Held())), StartsAt(rules, old(tab.buf.sp)), base.recs)
    {
      hide RecOf, RecBytes, TabBytes;
      ghost var recs := base.recs;
      if rules.resetBeforeLast {
        tab.buf.Reset(0);
      }
      if base.tablesize < RECORDSIZ {
        return Record(0, 0, 0);
      }
      LastBytes(recs);
      r := ReadTail(base.tablesize - RECORDSIZ);
    }

    method PutRecord(time: i64, val: u64, idx: u64)
      requires tab.Valid() && tab.buf.cp == tab.buf.sp && tab.buf.sp + RECORDSIZ <= BUFSIZ
      modifies tab.buf, tab.buf.data
      ensures tab.Valid()
      ensures tab.buf.Held() == Splice(old(tab.buf.Held()), 0, RecBytes(Record(time, val, idx)))
    {
      hide Be64, Splice;
      ThreeSplices(tab.buf.Held(), Be64(ToU64(time)), Be64(val), Be64(idx));
      tab.buf.Put64(ToU64(time));
      tab.buf.Put64(val);
      tab.buf.Put64(idx);
    }

    /** The record goes over whatever the window holds, and all of the window is appended. */
    method AppendRecord(time: i64, val: u64, idx: u64)
      requires tab.Valid() && tab.buf.cp == tab.buf.sp && tab.buf.sp + RECORDSIZ <= BUFSIZ
      modifies tab, tab.disk, tab.buf, tab.buf.data
      ensures tab.Valid() && tab.buf.sp == tab.buf.cp == tab.buf.ep == 0
      ensures tab.disk.content == old(tab.disk.content)
                                  + Splice(old(tab.buf.Held()), 0, RecBytes(Record(time, val, idx)))
    {
      hide Be64, Splice;
      ghost var h := tab.buf.Held();
      PutRecord(time, val, idx);
      ghost var p := tab.buf.Held();
      tab.AppendAll();
    }

    ghost function Snap(): Snapshot
      requires tab.Valid()
      reads base, loc, loc.disk, tab, tab.disk, tab.buf, tab.buf.data
    {
      Snapshot(base.items, base.recs, loc.disk.content, tab.disk.content, tab.buf.Held(), tab.buf.sp)
    }

    /** Everything between taking and releasing the write lock. */
    method AddLocked(time: i64, val: u64, locator: seq<byte>) returns (res: AddResult)
      requires Wired() && IndexValid() && RecordsValid()
      requires 2 + |locator| + 8 <= BUFSIZ && |loc.disk.content| + BUFSIZ <= MAXOFF
      modifies tab, tab.disk, tab.buf, tab.buf.data, loc, loc.disk, loc.buf, loc.buf.data
      modifies base`locsize, base`tablesize, base`items, base`recs
      ensures tab.Valid() && tab.buf.cp == tab.buf.sp && loc.Valid()
      ensures AddPost(rules, old(Snap()), Snap(), res, time, val, locator)
      ensures IndexValid() <==> res == Rejected || IndexKept(rules, old(base.items), locator)
      ensures base.tablesize == old(base.tablesize) + if res == Added then RECORDSIZ else 0
    {
      hide Splice, LastSeen, LastLeaves, RecBytes, TabBytes, Rep, IndexAdd, IndexKept, IndexBytes;
      ghost var pre := Snap();
      var last := ReadLast();
      if last.time > time {
        return Rejected;
      }
      var idx := LocAdd(locator);
      if tab.buf.cp + RECORDSIZ > BUFSIZ {
        return Aborted;
      }
      AppendRecord(time, val, idx);
      base.tablesize := base.tablesize + RECORDSIZ;
      base.recs := base.recs + [Record(time, val, idx)];
      res := Added;
    }

    /** kcndb_db_record_add; with the lock taken by someone the call would wait. A process that
        meets the assertion dies there, with the lock taken. */
    method RecordAdd(time: i64, val: u64, locator: seq<byte>) returns (res: AddResult)
      requires Wired() && IndexValid() && RecordsValid()
      requires !base.writer && base.readers == 0
      requires 2 + |locator| + 8 <= BUFSIZ && |loc.disk.content| + BUFSIZ <= MAXOFF
      modifies tab, tab.disk, tab.buf, tab.buf.data, loc, loc.disk, loc.buf, loc.buf.data
      modifies base
      ensures base.writer == (res == Aborted) && base.readers == 0
      ensures tab.Valid() && tab.buf.cp == tab.buf.sp && loc.Valid()
      ensures AddPost(rules, old(Snap()), Snap(), res, time, val, locator)
      ensures IndexValid() <==> res == Rejected || IndexKept(rules, old(base.items), locator)
      ensures base.tablesize == old(base.tablesize) + if res == Added then RECORDSIZ else 0
    {
      hide AddPost, Rep, IndexKept;
      base.writer := true;
      res := AddLocked(time, val, locator);
      if res == Aborted {
        return;
      }
      base.writer := false;
    }

    /** One record is read, tested, and its locator looked up. */
    method ScanStep(eq: Eq, ghost i: nat) returns (error: int, hit: bool, locator: seq<byte>)
      requires Wired() && IndexValid() && RecordsValid() && i <= |base.recs|
      requires tab.Stream() == TabBytes(base.recs[i..])
      requires forall r :: r in base.recs ==> Named(base.items, r)
      modifies tab, tab.buf, tab.buf.data, loc, loc.buf, loc.buf.data
      ensures IndexValid() && RecordsValid()
      ensures error != 0 ==> i == |base.recs| && tab.buf.Held() == []
      ensures error != 0 && old(tab.buf.ep) < BUFSIZ ==> tab.buf.sp == old(tab.buf.sp)
      ensures error == 0 ==> i < |base.recs| && tab.Stream() == TabBytes(base.recs[i + 1..])
      ensures error == 0 ==> tab.buf.sp == After(old(tab.buf.sp))
      ensures error == 0 && old(Filled() || |tab.buf.Held()| < RECORDSIZ) ==> Filled()
      ensures error == 0 ==> hit == RecMatch(base.recs[i], eq)
      ensures error == 0 ==>
                var r := base.recs[i];
                hit <==>
                && eq.start <= r.time && (eq.end == -1 || r.time <= eq.end)
                && (match eq.op
                    case LT => r.val < eq.val
                    case LE => r.val <= eq.val
                    case EQ => r.val == eq.val
                    case GT => r.val > eq.val
                    case GE => r.val >= eq.val)
      ensures error == 0 && hit ==> locator == LocOf(base.items, base.recs[i])
    {
      hide Rep, RecMatch, TabBytes, Hash, Named, After;
      ghost var rest := base.recs[i..];
      var r;
      error, r := RecordRead();
      hit, locator := false, [];
      if error != 0 {
        NoRecordLeft(rest);
        return;
      }
      FirstRecord(rest);
      assert r == base.recs[i] && r in base.recs && rest[1..] == base.recs[i + 1..];
      MatchMeans(r, eq);
      if RecMatch(r, eq) {
        hit := true;
        NamedInFile(loc.disk.content, base.items, r);
        error, locator := LocLookup(r.idx);
      }
    }

    /** After `i` records of a scan: where the window is, and that reads have filled it. */
    ghost predicate Swept(i: nat)
      requires tab.Valid()
      reads tab, tab.disk, tab.buf, tab.buf.data
    {
      && tab.buf.sp == Window(i)
      && if i == 0 then tab.buf.Held() == [] else Filled()
    }

    /** A scan for `k` records that has read `i` records, taken these and handed over `out`. */
    ghost predicate Scanning(eq: Eq, k: nat, i: nat, taken: seq<Record>, out: seq<seq<byte>>)
      reads base, tab, tab.disk, tab.buf, tab.buf.data
    {
      && RecordsValid() && i <= |base.recs| && tab.Stream() == TabBytes(base.recs[i..]) && Swept(i)
      && out == Locators(base.items, taken) && ScanAt(base.recs, i, eq, k, taken)
    }

    /** One turn of the scan. */
    method ScanTurn(eq: Eq, out: seq<seq<byte>>, ghost k: nat, ghost i: nat, ghost taken: seq<Record>)
      returns (error: int, more: seq<seq<byte>>, ghost now: seq<Record>)
      requires Wired() && IndexValid() && Scanning(eq, k, i, taken, out) && |taken| < k
      requires forall r :: r in base.recs ==> Named(base.items, r)
      modifies tab, tab.buf, tab.buf.data, loc, loc.buf, loc.buf.data
      ensures IndexValid() && RecordsValid() && |out| <= |more| <= |out| + 1
      ensures error == 0 ==> i < |base.recs| && Scanning(eq, k, i + 1, now, more)
      ensures error != 0 ==>
                i == |base.recs| && more == out && now == taken && ScanAt(base.recs, i, eq, k, taken)
                && tab.buf.Held() == [] && tab.buf.sp == Window(i)
    {
      hide Rep, RecMatch, TabBytes, Locators, Named, LocOf, ScanAt, Swept, Window, After;
      SweepReady(this, i);
      NoRecordLeft(base.recs[i..]);
      var hit, locator;
      error, hit, locator := ScanStep(eq, i);
      more, now := out, taken;
      if error != 0 {
        return;
      }
      SweepAdvances(this, i);
      ScanAdvances(base.recs, i, eq, k, taken);
      if hit {
        more := out + [locator];
        LocatorsAppend(base.items, taken, base.recs[i]);
        now := taken + [base.recs[i]];
      }
    }

    /** The scan of kcndb_db_search, under the lock; it ends early when the callback fails. */
    method SearchLocked(eq: Eq, maxnlocs: nat, cb: Callback) returns (out: seq<seq<byte>>)
      requires Wired() && IndexValid() && RecordsValid()
      requires forall r :: r in base.recs ==> Named(base.items, r)
      modifies tab, tab.buf, tab.buf.data, loc, loc.buf, loc.buf.data
      ensures IndexValid() && RecordsValid()
      ensures out == Locators(base.items, Scan(base.recs, eq, Quota(maxnlocs, cb)))
      ensures ScanLeaves(base.recs, eq, Quota(maxnlocs, cb), tab.buf.Held(), tab.buf.sp)
    {
      hide Rep, TabBytes, Scan, Locators, Named, Scanning, Window, ScanAt, Buffered;
      tab.SeekHead(0);
      tab.buf.Reset(0);
      ghost var quota, i, taken := Quota(maxnlocs, cb), 0, [];
      ScanBegins(this, eq, quota);
      out := [];
      while |out| < maxnlocs
        invariant IndexValid() && Scanning(eq, quota, i, taken, out) && i <= |base.recs| && |out| <= cb.patience
        decreases |base.recs| - i
      {
        TakenOut(this, eq, quota, i, taken, out);
        var error, more;
        ghost var now;
        error, more, now := ScanTurn(eq, out, quota, i, taken);
        if error != 0 {
          ScanEnds(base.recs, i, eq, quota, taken);
          BufferedNothing(base.recs);
          return;
        }
        out, taken, i := more, now, i + 1;
        if |out| > cb.patience {
          break;
        }
      }
      QuotaMet(this, i, eq, quota, taken, out);
    }

    /** kcndb_db_search; `out` is what the callback was handed, in order: the locators of the
        records at the places `picks`, which are those the query asks for, up to the quota. */
    method Search(eq: Eq, maxnlocs: nat, cb: Callback)
      returns (error: int, out: seq<seq<byte>>, ghost picks: seq<nat>)
      requires Wired() && IndexValid() && RecordsValid() && !base.writer && cb.errno != 0
      requires forall r :: r in base.recs ==> Named(base.items, r)
      modifies tab, tab.buf, tab.buf.data, loc, loc.buf, loc.buf.data, base`readers
      ensures IndexValid() && RecordsValid()
      ensures out == Locators(base.items, Scan(base.recs, eq, Quota(maxnlocs, cb)))
      ensures |picks| == |out| <= Quota(maxnlocs, cb)
      ensures forall i :: 0 <= i < |picks| ==>
                picks[i] < |base.recs| && out[i] == LocOf(base.items, base.recs[picks[i]])
      ensures forall i, j :: 0 <= i < j < |picks| ==> picks[i] < picks[j]
      ensures forall j: nat :: j < |base.recs| ==>
                (j in picks <==>
                 && eq.start <= base.recs[j].time && (eq.end == -1 || base.recs[j].time <= eq.end)
                 && (match eq.op
                     case LT => base.recs[j].val < eq.val
                     case LE => base.recs[j].val <= eq.val
                     case EQ => base.recs[j].val == eq.val
                     case GT => base.recs[j].val > eq.val
                     case GE => base.recs[j].val >= eq.val)
                 && (|picks| < Quota(maxnlocs, cb) || (picks != [] && j <= picks[|picks| - 1])))
      ensures error == if |out| > cb.patience then cb.errno else if out == [] then ESRCH else 0
      ensures base.readers == old(base.readers) + if error == 0 && !rules.unlockOnSuccess then 1 else 0
      ensures ScanLeaves(base.recs, eq, Quota(maxnlocs, cb), tab.buf.Held(), tab.buf.sp)
    {
      hide Rep, TabBytes, Scan, LocOf, Named, ScanLeaves, Quota;
      base.readers := base.readers + 1;
      out := SearchLocked(eq, maxnlocs, cb);
      picks := ScanGives(base.recs, eq, Quota(maxnlocs, cb));
      error := if |out| > cb.patience then cb.errno else if out == [] then ESRCH else 0;
      if error != 0 || rules.unlockOnSuccess {
        base.readers := base.readers - 1;
      }
    }
  }

  /** The window of a buffer against the stream it was filled from. */
  lemma {:induction false} HeldSlice(f: File, s: seq<byte>, lo: nat, hi: nat)
    requires f.Valid() && f.Stream() == s && lo <= hi <= f.buf.ep - f.buf.sp
    ensures hi <= |s| && f.buf.data[f.buf.sp + lo..f.buf.sp + hi] == s[lo..hi]
  {
    hide File.Unread;
    var h := f.buf.Held();
    SliceLeft(h, f.Unread(), lo, hi);
    SubSlice(f.buf.data[..], f.buf.sp, f.buf.ep, lo, hi);
  }

  /** An entry of the file as it lies in the buffer once it has been entered. */
  lemma {:induction false} EnteredEntry(k: File, f: seq<byte>, items: seq<Item>, j: nat)
    requires k.Valid() && k.buf.sp == 0 && j < |items| && EntryOk(f, items, j)
    requires k.Stream() == f[Off(items, j)..] && k.buf.ep >= 2 + |items[j].loc| + 8
    ensures var n := |items[j].loc|;
            && k.buf.data[2..2 + n] == items[j].loc
            && De64(k.buf.data[2 + n..2 + n + 8]) == NextOf(items, j)
  {
    hide De16, De64, NextOf, File.Stream;
    var o, n := Off(items, j), |items[j].loc|;
    HeldSlice(k, f[o..], 2, 2 + n);
    HeldSlice(k, f[o..], 2 + n, 2 + n + 8);
    TailSlice(f, o, 2, 2 + n);
    TailSlice(f, o, 2 + n, 2 + n + 8);
  }

  lemma {:induction false} RepSlot(f: seq<byte>, items: seq<Item>, h: nat)
    requires Rep(f, items) && h < HASHSIZ
    ensures |f| >= TABLESIZ && Holds64(f, 8 * h, Pointer(items, h, 0))
  {
    assert SlotOk(f, items, h);
  }

  /** The cursor has just read the pointer to the first entry of bucket `h` from `i` on. */
  ghost predicate AtPointer(items: seq<Item>, h: nat, i: nat, last: nat, cp: nat) {
    && i <= |items|
    && var j := LastIn(items, h, i);
       if j < 0 then last == 0 && cp == 8 * h + 8
       else last == Off(items, j) && cp == 2 + |items[j].loc| + 8
  }

  /** No entry from `i` up to `j` stops a search for `loc`. */
  lemma {:induction false} FindSkips(items: seq<Item>, loc: seq<byte>, i: nat, j: nat)
    requires i <= j <= |items|
    requires forall k :: i <= k < j ==> !Match(items[k], Hash(loc)) || !Same(items[k].loc, loc)
    ensures Find(items, loc, i) == Find(items, loc, j)
    decreases j - i
  {
    hide Same;
    if i < j {
      FindSkips(items, loc, i + 1, j);
    }
  }

  lemma {:induction false} FoundAt(items: seq<Item>, loc: seq<byte>, j: nat)
    requires j < |items| && Match(items[j], Hash(loc)) && Same(items[j].loc, loc)
    ensures Find(items, loc, j) == j
  {
    hide Same;
  }

  lemma {:induction false} PointerAt(items: seq<Item>, h: nat, i: nat)
    requires i <= |items|
    ensures var j := FirstIn(items, h, i);
            && Pointer(items, h, i) == (if j < |items| then Off(items, j) else 0)
            && (j < |items| ==> NextOf(items, j) == Pointer(items, h, j + 1))
  {
  }

  lemma {:induction false} WalkStarts(items: seq<Item>, h: nat, cp: nat)
    requires cp == 8 * h + 8
    ensures AtPointer(items, h, 0, 0, cp)
  {
  }

  lemma {:induction false} WalkMoves(items: seq<Item>, h: nat, i: nat, last: nat, cp: nat)
    requires i <= |items|
    requires var j := FirstIn(items, h, i); j < |items| && last == Off(items, j) && cp == 2 + |items[j].loc| + 8
    ensures AtPointer(items, h, FirstIn(items, h, i) + 1, last, cp)
  {
    var j := FirstIn(items, h, i);
    assert LastIn(items, h, j + 1) == j;
  }

  lemma {:induction false} WalkEnds(items: seq<Item>, h: nat, i: nat, last: nat, cp: nat, addBase: bool)
    requires AtPointer(items, h, i, last, cp) && FirstIn(items, h, i) == |items|
    ensures (if addBase then last else 0) + cp == LinkField(items, h, addBase) + 8
  {
    hide Off, Match;
    LastPast(items, h, i);
  }

  lemma {:induction false} LastPast(items: seq<Item>, h: nat, i: nat)
    requires i <= |items| && FirstIn(items, h, i) == |items|
    ensures LastIn(items, h, i) == LastIn(items, h)
  {
    hide Match;
    assert LastIn(items, h) < i;
  }

  /** What an add does to the list of entries, and the index it hands to the record. */
  function IndexAdd(items: seq<Item>, locator: seq<byte>): (seq<Item>, nat) {
    var k := Find(items, locator);
    if k < |items| then (items, Off(items, k)) else (Grow(items, locator, true), Off(items, |items|))
  }

  lemma {:induction false} LinkPlace(items: seq<Item>, h: nat, addBase: bool)
    requires h < HASHSIZ
    ensures LinkField(items, h, addBase) + 8 <= Off(items, |items|)
    ensures addBase || LastIn(items, h) < 0 ==> LinkField(items, h, addBase) == TailField(items, h)
  {
    TailPlace(items, h);
  }

  lemma {:induction false} LinkOutcome(f: seq<byte>, items: seq<Item>, loc: seq<byte>, addBase: bool, g: seq<byte>)
    requires Rep(f, items) && |loc| < 0x1_0000 && |f| + |Entry(loc)| < 0x1_0000_0000_0000_0000
    requires LinkField(items, Hash(loc), addBase) <= |f| + |Entry(loc)|
    requires g == Splice(f + Entry(loc), LinkField(items, Hash(loc), addBase), Be64(Off(items, |items|)))
    ensures Rep(g, Grow(items, loc, true)) <==> addBase || LastIn(items, Hash(loc)) < 0
    ensures |g| == |f| + |Entry(loc)|
  {
    hide Be64, De64, De16, Splice, Rep, LinkField, Entry;
    LinkPlace(items, Hash(loc), addBase);
    RepLength(f, items);
    AppendKeepsRep(f, items, loc);
    SplicePatches(f + Entry(loc), LinkField(items, Hash(loc), addBase), Off(items, |items|));
    if addBase {
      PatchedRep(f + Entry(loc), items, loc, g);
    } else {
      LinkAsWrittenExact(f + Entry(loc), items, loc, g);
    }
  }

  lemma {:induction false} RepLength(f: seq<byte>, items: seq<Item>)
    requires Rep(f, items)
    ensures |f| == Off(items, |items|)
  {
  }

  lemma {:induction false} NamedInFile(f: seq<byte>, items: seq<Item>, r: Record)
    requires Rep(f, items) && Named(items, r)
    ensures ItemAt(items, r.idx) >= 0 && r.idx <= |f|
  {
    hide Rep;
    RepLength(f, items);
    OffMonotone(items, ItemAt(items, r.idx), |items|);
  }

  lemma {:induction false} ZerosRep()
    ensures Rep(seq(TABLESIZ, _ => 0), [])
  {
    var f: seq<byte> := seq(TABLESIZ, _ => 0);
    forall h | 0 <= h < HASHSIZ ensures SlotOk(f, [], h) {
      De64Bytes(f[8 * h..8 * h + 8]);
    }
  }

  /** Where the data window starts after one 24-byte record was taken from it. */
  function After(sp: nat): (a: nat)
    ensures a <= BUFSIZ
  {
    (if sp + RECORDSIZ <= BUFSIZ then sp else 0) + RECORDSIZ
  }

  /** Where it starts after a read that found no record: a full tail forces a realignment. */
  predicate Stays(sp: nat, sp': nat) {
    sp' == sp || (sp' == 0 && sp + RECORDSIZ > BUFSIZ)
  }

  /** The window start after `n` records were taken since the buffer was reset. */
  function Window(n: nat): (w: nat)
    ensures w < BUFSIZ && w % RECORDSIZ == 0
  {
    if n == 0 then 0 else After(Window(n - 1))
  }

  /** What a scan that has read `i` records still holds: reads fill the buffer behind the window. */
  function Buffered(recs: seq<Record>, i: nat): (s: seq<byte>)
    requires i <= |recs|
  {
    if i == 0 then [] else Take(TabBytes(recs[i..]), BUFSIZ - Window(i))
  }

  /** A search's callback: it accepts `patience` records and then fails with `errno`. */
  datatype Callback = Callback(patience: nat, errno: int)

  /** One that accepts all a search can hand it. */
  function Obliging(maxnlocs: nat): Callback {
    Callback(maxnlocs, ENOMEM)
  }

  /** How many records a search hands over at most. */
  function Quota(maxnlocs: nat, cb: Callback): nat {
    Min(maxnlocs, cb.patience + 1)
  }

  lemma {:induction false} RecOfSlices(s: seq<byte>)
    requires |s| >= RECORDSIZ
    ensures RecOf(s[..RECORDSIZ]) == Record(ToI64(De64(s[0..8])), De64(s[8..16]), De64(s[16..24]))
  {
    hide De64;
    assert s[..24][..8] == s[0..8] && s[..24][8..16] == s[8..16] && s[..24][16..] == s[16..24];
  }

  lemma {:induction false} TrimStream<T>(h: seq<T>, u: seq<T>, n: nat)
    requires n <= |h|
    ensures h[n..] + u == (h + u)[n..] && h[..n] == (h + u)[..n]
  {
  }

  lemma {:induction false} LastBytes(recs: seq<Record>)
    requires recs != []
    ensures TabBytes(recs)[RECORDSIZ * (|recs| - 1)..] == RecBytes(recs[|recs| - 1])
  {
    hide RecBytes;
    var last := recs[|recs| - 1..];
    TabFrom(recs, |recs| - 1);
    assert last == [recs[|recs| - 1]] && last[1..] == [];
    assert TabBytes(last) == RecBytes(last[0]) + TabBytes(last[1..]);
  }

  /** Added, refused with ERANGE, or stopped by the assertion in kcn_buf_append. */
  datatype AddResult = Added | Rejected | Aborted

  /** What the buffer still holds, and where its window starts, when the last record is read. */
  function Stale(rules: Rules, held: seq<byte>): seq<byte> {
    if rules.resetBeforeLast then [] else held
  }

  function StartsAt(rules: Rules, sp: nat): nat {
    if rules.resetBeforeLast then 0 else sp
  }

  function AfterLast(start: nat, recs: seq<Record>): nat {
    if recs == [] then start else After(start)
  }

  function LastSeen(stale: seq<byte>, recs: seq<Record>): Record {
    if recs == [] then Record(0, 0, 0) else RecOf((stale + RecBytes(recs[|recs| - 1]))[..RECORDSIZ])
  }

  function AddOutcome(stale: seq<byte>, start: nat, recs: seq<Record>, time: i64): AddResult {
    if LastSeen(stale, recs).time > time then Rejected
    else if AfterLast(start, recs) + RECORDSIZ > BUFSIZ then Aborted
    else Added
  }

  /** What is still held once the last record has been read behind `stale`. */
  function LastLeaves(stale: seq<byte>, start: nat, recs: seq<Record>): (h: seq<byte>)
    ensures |h| <= |stale|
  {
    if recs == [] then stale
    else if |stale| >= RECORDSIZ then stale[RECORDSIZ..]
    else Take((stale + RecBytes(recs[|recs| - 1]))[RECORDSIZ..], BUFSIZ - After(start))
  }

  /** What an accepted add appends: its record laid over what is still held. */
  function Appended(stale: seq<byte>, start: nat, recs: seq<Record>, b: seq<byte>): seq<byte> {
    Splice(LastLeaves(stale, start, recs), 0, b)
  }

  lemma {:induction false} SpliceShort(h: seq<byte>, b: seq<byte>)
    ensures |h| <= |b| ==> Splice(h, 0, b) == b
  {
    if |h| <= |b| {
      assert Splice(h, 0, b) == b;
    }
  }

  /** The part of a thread's and the table's state an add can touch. */
  datatype Snapshot = Snapshot(items: seq<Item>, recs: seq<Record>, locs: seq<byte>, table: seq<byte>,
                               held: seq<byte>, sp: nat)

  /** One entry longer, and one 8-byte field overwritten with the old length. */
  ghost predicate Spliced(f: seq<byte>, entry: seq<byte>, field: nat, g: seq<byte>) {
    field <= |f| <= MAXOFF && g == Splice(f + entry, field, Be64(|f|))
  }

  /** The locator file after an add: untouched when the locator is there already, else one
      entry longer and with one 8-byte field overwritten. */
  ghost predicate IndexBytes(rules: Rules, items: seq<Item>, f: seq<byte>, locator: seq<byte>, g: seq<byte>)
    requires |locator| < 0x1_0000
  {
    if Find(items, locator) < |items| then g == f
    else Spliced(f, Entry(locator), LinkField(items, Hash(locator), rules.addBase), g)
  }

  /** The adds that leave the index well formed. */
  predicate IndexKept(rules: Rules, items: seq<Item>, locator: seq<byte>) {
    rules.addBase || Find(items, locator) < |items| || LastIn(items, Hash(locator)) < 0
  }

  ghost predicate AddPost(rules: Rules, a: Snapshot, b: Snapshot, res: AddResult, time: i64, val: u64,
                          locator: seq<byte>)
    requires |locator| < 0x1_0000
  {
    var stale, start := Stale(rules, a.held), StartsAt(rules, a.sp);
    && res == AddOutcome(stale, start, a.recs, time)
    && (res == Rejected ==>
          && b.items == a.items && b.recs == a.recs && b.locs == a.locs && b.table == a.table
          && b.held == LastLeaves(stale, start, a.recs) && b.sp == AfterLast(start, a.recs))
    && (res != Rejected ==>
          && b.items == IndexAdd(a.items, locator).0
          && IndexBytes(rules, a.items, a.locs, locator, b.locs))
    && (res == Aborted ==> b.recs == a.recs && b.table == a.table)
    && (res == Added ==>
          && |b.recs| == |a.recs| + 1 && b.recs[..|a.recs|] == a.recs
          && b.recs[|a.recs|].time == time && b.recs[|a.recs|].val == val
          && b.recs[|a.recs|].idx == IndexAdd(a.items, locator).1
          && b.table == a.table + Appended(stale, start, a.recs, RecBytes(b.recs[|a.recs|]))
          && b.held == [] && b.sp == 0)
  }

  lemma {:induction false} ThreeSplices(h: seq<byte>, a: seq<byte>, b: seq<byte>, c: seq<byte>)
    requires |a| == |b| == |c| == 8
    ensures Splice(Splice(Splice(h, 0, a), 8, b), 16, c) == Splice(h, 0, a + b + c)
  {
    hide Splice;
    SpliceSplice(h, 0, a, b);
    SpliceSplice(h, 0, a + b, c);
  }

  /** The locators of a list of records. */
  function Locators(items: seq<Item>, recs: seq<Record>): (o: seq<seq<byte>>)
    ensures |o| == |recs| && forall i :: 0 <= i < |recs| ==> o[i] == LocOf(items, recs[i])
  {
    seq(|recs|, i requires 0 <= i < |recs| => LocOf(items, recs[i]))
  }

  lemma {:induction false} LocatorsAppend(items: seq<Item>, recs: seq<Record>, r: Record)
    ensures Locators(items, recs + [r]) == Locators(items, recs) + [LocOf(items, r)]
  {
    hide LocOf;
  }

  lemma {:induction false} FirstRecord(recs: seq<Record>)
    requires recs != []
    ensures RecOf(TabBytes(recs)[..RECORDSIZ]) == recs[0] && TabBytes(recs)[RECORDSIZ..] == TabBytes(recs[1..])
  {
    hide RecOf, RecBytes;
    RecRoundTrip(recs[0]);
    assert TabBytes(recs)[..RECORDSIZ] == RecBytes(recs[0]);
  }

  /** How many records a scan for `k` of them reads. */
  function Scanned(recs: seq<Record>, eq: Eq, k: nat): (n: nat)
    ensures n <= |recs|
  {
    if k == 0 || recs == [] then 0
    else 1 + Scanned(recs[1..], eq, if RecMatch(recs[0], eq) then k - 1 else k)
  }

  /** A scan for the first `k` records has `taken` these from the first `i`. */
  ghost predicate ScanAt(recs: seq<Record>, i: nat, eq: Eq, k: nat, taken: seq<Record>) {
    && i <= |recs| && |taken| <= k
    && Scan(recs, eq, k) == taken + Scan(recs[i..], eq, k - |taken|)
    && Scanned(recs, eq, k) == i + Scanned(recs[i..], eq, k - |taken|)
  }

  lemma {:induction false} ScanStarts(recs: seq<Record>, eq: Eq, k: nat)
    ensures ScanAt(recs, 0, eq, k, [])
  {
    hide RecMatch;
    assert recs[0..] == recs;
  }

  lemma {:induction false} ScanAdvances(recs: seq<Record>, i: nat, eq: Eq, k: nat, taken: seq<Record>)
    requires ScanAt(recs, i, eq, k, taken) && i < |recs| && |taken| < k
    ensures ScanAt(recs, i + 1, eq, k, if RecMatch(recs[i], eq) then taken + [recs[i]] else taken)
  {
    hide RecMatch;
    assert recs[i..][1..] == recs[i + 1..];
  }

  lemma {:induction false} ScanEnds(recs: seq<Record>, i: nat, eq: Eq, k: nat, taken: seq<Record>)
    requires ScanAt(recs, i, eq, k, taken)
    ensures i == |recs| || |taken| >= k ==> Scan(recs, eq, k) == taken && Scanned(recs, eq, k) == i
  {
    hide RecMatch;
  }

  /** The buffer and its window as a scan for `k` records leaves them. */
  ghost predicate ScanLeaves(recs: seq<Record>, eq: Eq, k: nat, held: seq<byte>, sp: nat) {
    held == Buffered(recs, Scanned(recs, eq, k)) && sp == Window(Scanned(recs, eq, k))
  }

  /** A scan reads every record if and only if the rows before the last one do not give it its `k`. */
  lemma {:induction false} ScannedAll(recs: seq<Record>, eq: Eq, k: nat)
    requires recs != [] && k > 0
    ensures Scanned(recs, eq, k) == |recs| <==> |Select(recs[..|recs| - 1], eq)| < k
  {
    hide RecMatch;
    if |recs| == 1 {
      assert recs[..0] == [];
    } else {
      var rest, k' := recs[1..], if RecMatch(recs[0], eq) then k - 1 else k;
      var front := recs[..|recs| - 1];
      assert front[0] == recs[0] && front[1..] == rest[..|rest| - 1];
      if k' > 0 {
        ScannedAll(rest, eq, k');
      }
    }
  }

  /** A scan that finds less than it may has read every record. */
  lemma {:induction false} ScannedShort(recs: seq<Record>, eq: Eq, k: nat)
    requires |Scan(recs, eq, k)| < k
    ensures Scanned(recs, eq, k) == |recs|
  {
    hide RecMatch;
    if recs != [] {
      ScannedShort(recs[1..], eq, if RecMatch(recs[0], eq) then k - 1 else k);
    }
  }

  /** Bytes are left behind unless all of the table was read, or nothing of it. */
  lemma {:induction false} BufferedNothing(recs: seq<Record>)
    ensures Buffered(recs, |recs|) == []
  {
    NoRecordLeft(recs[|recs|..]);
  }

  lemma {:induction false} BufferedExact(recs: seq<Record>, i: nat)
    requires i <= |recs|
    ensures Buffered(recs, i) == [] <==> i == 0 || i == |recs|
  {
    hide Window;
    NoRecordLeft(recs[i..]);
  }

  /** When a search empties the buffer, by what a caller knows of the table. */
  lemma {:induction false} SearchEmpties(recs: seq<Record>, eq: Eq, k: nat)
    ensures Buffered(recs, Scanned(recs, eq, k)) == [] <==>
            k == 0 || recs == [] || |Select(recs[..|recs| - 1], eq)| < k
  {
    hide Buffered, Select, RecMatch;
    BufferedExact(recs, Scanned(recs, eq, k));
    if recs != [] && k > 0 {
      ScannedAll(recs, eq, k);
    }
  }

  lemma {:induction false} SweepStarts(t: Table)
    requires t.tab.Valid() && t.tab.buf.sp == t.tab.buf.ep == 0
    ensures t.Swept(0)
  {
  }

  lemma {:induction false} SweepReady(t: Table, i: nat)
    requires t.tab.Valid() && t.Swept(i)
    ensures t.tab.buf.sp == Window(i) && (t.Filled() || |t.tab.buf.Held()| < RECORDSIZ)
    ensures t.tab.Stream() == [] ==> t.tab.buf.ep < BUFSIZ
  {
    hide Window;
  }

  lemma {:induction false} SweepAdvances(t: Table, i: nat)
    requires t.tab.Valid() && t.tab.buf.sp == After(Window(i)) && t.Filled()
    ensures t.Swept(i + 1)
  {
    hide After;
  }

  /** What reads have filled holds as much of the stream as there is room for. */
  lemma {:induction false} FilledHeld(t: Table)
    requires t.tab.Valid() && t.Filled()
    ensures t.tab.buf.Held() == Take(t.tab.Stream(), BUFSIZ - t.tab.buf.sp)
  {
    var h, u := t.tab.buf.Held(), t.tab.Unread();
    assert (h + u)[..|h|] == h && h + [] == h;
  }

  lemma {:induction false} SweptHeld(t: Table, i: nat, recs: seq<Record>)
    requires t.tab.Valid() && t.Swept(i) && i <= |recs| && t.tab.Stream() == TabBytes(recs[i..])
    ensures t.tab.buf.Held() == Buffered(recs, i) && t.tab.buf.sp == Window(i)
  {
    hide Window, TabBytes;
    if i > 0 {
      FilledHeld(t);
    }
  }

  lemma {:induction false} ScanBegins(t: Table, eq: Eq, k: nat)
    requires t.RecordsValid() && t.tab.buf.sp == t.tab.buf.ep == 0 && t.tab.pos == 0
    ensures t.Scanning(eq, k, 0, [], [])
  {
    hide TabBytes, ScanAt;
    assert t.base.recs[0..] == t.base.recs;
    ScanStarts(t.base.recs, eq, k);
    SweepStarts(t);
  }

  lemma {:induction false} TakenOut(t: Table, eq: Eq, k: nat, i: nat, taken: seq<Record>, out: seq<seq<byte>>)
    requires t.Scanning(eq, k, i, taken, out)
    ensures |out| == |taken| && t.RecordsValid() && out == Locators(t.base.items, taken)
  {
    hide TabBytes, ScanAt;
  }

  lemma {:induction false} QuotaMet(t: Table, i: nat, eq: Eq, k: nat, taken: seq<Record>, out: seq<seq<byte>>)
    requires t.Scanning(eq, k, i, taken, out) && |out| >= k
    ensures t.RecordsValid() && out == Locators(t.base.items, Scan(t.base.recs, eq, k))
    ensures ScanLeaves(t.base.recs, eq, k, t.tab.buf.Held(), t.tab.buf.sp)
  {
    hide Scan, TabBytes, Window, RecMatch, ScanAt, Buffered;
    SweptHeld(t, i, t.base.recs);
    ScanEnds(t.base.recs, i, eq, k, taken);
  }

  lemma {:induction false} NoRecordLeft(recs: seq<Record>)
    ensures recs == [] ==> TabBytes(recs) == []
    ensures recs != [] ==> |TabBytes(recs)| >= RECORDSIZ
  {
  }
}
