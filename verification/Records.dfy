/** The record file of kcndbd/kcndb_db.c, the query condition of lib/kcn_eq.c, and what a
    search selects, all on plain sequences. */
module Records {
  import opened Bytes
  import opened LocIndex

  const RECORDSIZ := 24
  const TIME_NOW: i64 := -1

  datatype Record = Record(time: i64, val: u64, idx: u64)

  function RecBytes(r: Record): (s: seq<byte>)
    ensures |s| == RECORDSIZ
  {
    Be64(ToU64(r.time)) + Be64(r.val) + Be64(r.idx)
  }

  function TabBytes(recs: seq<Record>): (s: seq<byte>)
    ensures |s| == RECORDSIZ * |recs|
  {
    if recs == [] then [] else RecBytes(recs[0]) + TabBytes(recs[1..])
  }

  lemma {:induction false} TabCons(r: Record, recs: seq<Record>)
    ensures TabBytes([r] + recs) == RecBytes(r) + TabBytes(recs)
  {
    hide RecBytes;
    assert ([r] + recs)[1..] == recs;
  }

  lemma {:induction false} TabAppend(a: seq<Record>, b: seq<Record>)
    ensures TabBytes(a + b) == TabBytes(a) + TabBytes(b)
  {
    hide RecBytes;
    if a == [] {
      assert a + b == b;
    } else {
      hide TabBytes;
      HeadTail(a);
      Regroup([a[0]], a[1..], b);
      TabAppend(a[1..], b);
      TabCons(a[0], a[1..]);
      TabCons(a[0], a[1..] + b);
      Regroup(RecBytes(a[0]), TabBytes(a[1..]), TabBytes(b));
    }
  }

  /** Offset 24 i of the file starts record i. */
  lemma {:induction false} TabFrom(recs: seq<Record>, i: nat)
    requires i <= |recs|
    ensures TabBytes(recs)[RECORDSIZ * i..] == TabBytes(recs[i..])
  {
    hide RecBytes, TabBytes;
    TabAppend(recs[..i], recs[i..]);
    assert recs == recs[..i] + recs[i..];
  }

  function RecOf(s: seq<byte>): Record
    requires |s| == RECORDSIZ
  {
    Record(ToI64(De64(s[..8])), De64(s[8..16]), De64(s[16..]))
  }

  lemma {:induction false} RecRoundTrip(r: Record)
    ensures RecOf(RecBytes(r)) == r
  {
    hide Be64, De64;
    var a, b, c := Be64(ToU64(r.time)), Be64(r.val), Be64(r.idx);
    ThreeParts([], a, b, c);
    assert [] + (a + b + c) == RecBytes(r);
    assert RecBytes(r)[..8] == a && RecBytes(r)[8..16] == b && RecBytes(r)[16..] == c;
    SignedRoundTrip(r.time);
  }

  /** A record on disk: time, value and locator offset, each in eight big-endian bytes. */
  lemma {:induction false} RecLayout(r: Record)
    ensures var s := RecBytes(r);
            && |s| == 24 && De64(s[8..16]) == r.val && De64(s[16..24]) == r.idx
            && De64(s[0..8]) == if r.time < 0 then r.time + 0x1_0000_0000_0000_0000 else r.time
  {
    hide De64, Be64;
    var a, b, c := Be64(ToU64(r.time)), Be64(r.val), Be64(r.idx);
    ThreeParts([], a, b, c);
    assert [] + (a + b + c) == RecBytes(r);
  }

  lemma {:induction false} RecBytesOf(s: seq<byte>)
    requires |s| == RECORDSIZ
    ensures RecBytes(RecOf(s)) == s
  {
    hide Be64, De64;
    Be64De64(s[..8]);
    Be64De64(s[8..16]);
    Be64De64(s[16..]);
    assert s == s[..8] + s[8..16] + s[16..];
  }

  datatype Op = LT | LE | EQ | GT | GE

  /** struct kcn_eq. */
  datatype Eq = Eq(kind: nat, op: Op, val: u64, start: i64, end: i64)

  predicate TimeMatch(t: i64, eq: Eq) {
    if eq.end != TIME_NOW && t > eq.end then false
    else if t < eq.start then false
    else true
  }

  predicate ValMatch(v: u64, eq: Eq) {
    match eq.op
    case LT => !(v >= eq.val)
    case LE => !(v > eq.val)
    case EQ => !(v != eq.val)
    case GT => !(v <= eq.val)
    case GE => !(v < eq.val)
  }

  predicate RecMatch(r: Record, eq: Eq) {
    TimeMatch(r.time, eq) && ValMatch(r.val, eq)
  }

  /** All records a query selects, in table order. */
  function Select(recs: seq<Record>, eq: Eq): seq<Record> {
    if recs == [] then []
    else (if RecMatch(recs[0], eq) then [recs[0]] else []) + Select(recs[1..], eq)
  }

  /** The first `k` of them, found by a scan that stops as soon as it has `k`. */
  function Scan(recs: seq<Record>, eq: Eq, k: nat): (o: seq<Record>)
    ensures |o| <= k
  {
    if k == 0 || recs == [] then []
    else if RecMatch(recs[0], eq) then [recs[0]] + Scan(recs[1..], eq, k - 1)
    else Scan(recs[1..], eq, k)
  }

  function Take<T>(s: seq<T>, k: nat): seq<T> {
    if k <= |s| then s[..k] else s
  }

  lemma {:induction false} ScanTakesFirst(recs: seq<Record>, eq: Eq, k: nat)
    ensures Scan(recs, eq, k) == Take(Select(recs, eq), k)
  {
    if k != 0 && recs != [] {
      if RecMatch(recs[0], eq) {
        ScanTakesFirst(recs[1..], eq, k - 1);
      } else {
        ScanTakesFirst(recs[1..], eq, k);
      }
    }
  }

  /** What a scan takes, told on the integers of the records and by their place in the table:
      every record inside the window whose value stands in the asked relation, in table order,
      up to the quota. */
  lemma {:induction false} ScanGives(recs: seq<Record>, eq: Eq, k: nat) returns (picks: seq<nat>)
    ensures |picks| == |Scan(recs, eq, k)| <= k
    ensures forall i :: 0 <= i < |picks| ==> picks[i] < |recs| && Scan(recs, eq, k)[i] == recs[picks[i]]
    ensures forall i, j :: 0 <= i < j < |picks| ==> picks[i] < picks[j]
    ensures forall j: nat :: j < |recs| ==>
              (j in picks <==>
               && eq.start <= recs[j].time && (eq.end == -1 || recs[j].time <= eq.end)
               && (match eq.op
                   case LT => recs[j].val < eq.val
                   case LE => recs[j].val <= eq.val
                   case EQ => recs[j].val == eq.val
                   case GT => recs[j].val > eq.val
                   case GE => recs[j].val >= eq.val)
               && (|picks| < k || (picks != [] && j <= picks[|picks| - 1])))
  {
    hide Scan, RecMatch;
    var wanted := iset j: nat | j < |recs| && RecMatch(recs[j], eq);
    assert recs[0..] == recs;
    picks := ScanPicks(recs, eq, k, wanted, 0);
    forall j: nat | j < |recs|
      ensures RecMatch(recs[j], eq) <==>
              && eq.start <= recs[j].time && (eq.end == -1 || recs[j].time <= eq.end)
              && (match eq.op
                  case LT => recs[j].val < eq.val
                  case LE => recs[j].val <= eq.val
                  case EQ => recs[j].val == eq.val
                  case GT => recs[j].val > eq.val
                  case GE => recs[j].val >= eq.val)
    {
      MatchMeans(recs[j], eq);
    }
  }

  lemma {:induction false} MatchMeans(r: Record, eq: Eq)
    ensures RecMatch(r, eq) <==>
            && eq.start <= r.time && (eq.end == -1 || r.time <= eq.end)
            && (match eq.op
                case LT => r.val < eq.val
                case LE => r.val <= eq.val
                case EQ => r.val == eq.val
                case GT => r.val > eq.val
                case GE => r.val >= eq.val)
  {
  }

  /** `picks` are the first `k` places in `wanted` from `lo` on and below `n`. */
  ghost predicate FirstPlaces(wanted: iset<nat>, n: nat, k: nat, lo: nat, picks: seq<nat>) {
    && |picks| <= k && (forall i :: 0 <= i < |picks| ==> lo <= picks[i] < n)
    && (forall i, j :: 0 <= i < j < |picks| ==> picks[i] < picks[j])
    && forall j: nat :: lo <= j < n ==>
         (j in picks <==> j in wanted && (|picks| < k || (picks != [] && j <= picks[|picks| - 1])))
  }

  lemma {:induction false} PlacesNone(wanted: iset<nat>, n: nat, k: nat, lo: nat)
    requires k == 0 || lo == n
    ensures FirstPlaces(wanted, n, k, lo, [])
  {
  }

  lemma {:induction false} PlacesSkip(wanted: iset<nat>, n: nat, k: nat, lo: nat, picks: seq<nat>)
    requires lo < n && lo !in wanted && FirstPlaces(wanted, n, k, lo + 1, picks)
    ensures FirstPlaces(wanted, n, k, lo, picks)
  {
  }

  lemma {:induction false} PlacesTake(wanted: iset<nat>, n: nat, k: nat, lo: nat, later: seq<nat>)
    requires lo < n && lo in wanted && k > 0 && FirstPlaces(wanted, n, k - 1, lo + 1, later)
    ensures FirstPlaces(wanted, n, k, lo, [lo] + later)
  {
    var picks := [lo] + later;
    assert picks[|picks| - 1] == if later == [] then lo else later[|later| - 1];
    forall j: nat | lo <= j < n
      ensures j in picks <==> j in wanted && (|picks| < k || j <= picks[|picks| - 1])
    {
      assert j in picks <==> j == lo || j in later;
    }
  }

  lemma {:induction false} ScanPicks(recs: seq<Record>, eq: Eq, k: nat, wanted: iset<nat>, lo: nat)
    returns (picks: seq<nat>)
    requires lo <= |recs| && forall j: nat :: j < |recs| ==> (j in wanted <==> RecMatch(recs[j], eq))
    ensures FirstPlaces(wanted, |recs|, k, lo, picks) && |picks| == |Scan(recs[lo..], eq, k)|
    ensures forall i :: 0 <= i < |picks| ==> picks[i] < |recs| && Scan(recs[lo..], eq, k)[i] == recs[picks[i]]
    decreases |recs| - lo
  {
    hide RecMatch, FirstPlaces;
    picks := [];
    if k == 0 || lo == |recs| {
      PlacesNone(wanted, |recs|, k, lo);
    } else {
      assert recs[lo..][0] == recs[lo] && recs[lo..][1..] == recs[lo + 1..];
      if RecMatch(recs[lo], eq) {
        var later := ScanPicks(recs, eq, k - 1, wanted, lo + 1);
        PlacesTake(wanted, |recs|, k, lo, later);
        picks := [lo] + later;
      } else {
        picks := ScanPicks(recs, eq, k, wanted, lo + 1);
        PlacesSkip(wanted, |recs|, k, lo, picks);
      }
    }
  }

  /** LT and GE split what the window holds, and so do LE and GT; the end
      TIME_NOW admits every later time. (GE with 0 asks for all of the window.) */
  lemma {:induction false} OperatorLaws(recs: seq<Record>, eq: Eq)
    ensures var window := multiset(Select(recs, eq.(op := GE, val := 0)));
            && multiset(Select(recs, eq.(op := LT))) + multiset(Select(recs, eq.(op := GE))) == window
            && multiset(Select(recs, eq.(op := LE))) + multiset(Select(recs, eq.(op := GT))) == window
    ensures Select(recs, eq.(end := -1)) == Select(recs, eq.(end := 0x7fff_ffff_ffff_ffff))
  {
    hide Select;
    forall r: Record {
      MatchSplits(r, eq);
    }
    SelectSplits(recs, eq.(op := GE, val := 0), eq.(op := LT), eq.(op := GE));
    SelectSplits(recs, eq.(op := GE, val := 0), eq.(op := LE), eq.(op := GT));
    SameSelect(recs, eq.(end := -1), eq.(end := 0x7fff_ffff_ffff_ffff));
  }

  lemma {:induction false} SelectSplits(recs: seq<Record>, all: Eq, x: Eq, y: Eq)
    requires forall r: Record :: RecMatch(r, all) <==> RecMatch(r, x) || RecMatch(r, y)
    requires forall r: Record :: !(RecMatch(r, x) && RecMatch(r, y))
    ensures multiset(Select(recs, x)) + multiset(Select(recs, y)) == multiset(Select(recs, all))
  {
    hide RecMatch, Select;
    if recs == [] {
      SelectNone();
    } else {
      SelectSplits(recs[1..], all, x, y);
      SelectCons(recs, all);
      SelectCons(recs, x);
      SelectCons(recs, y);
    }
  }

  lemma {:induction false} SameSelect(recs: seq<Record>, x: Eq, y: Eq)
    requires forall r: Record :: RecMatch(r, x) <==> RecMatch(r, y)
    ensures Select(recs, x) == Select(recs, y)
  {
    hide RecMatch;
    if recs != [] {
      SameSelect(recs[1..], x, y);
    }
  }

  /** EQ is LE and GE together. */
  lemma {:induction false} EqualIsBoth(recs: seq<Record>, eq: Eq)
    ensures Select(Select(recs, eq.(op := LE)), eq.(op := GE)) == Select(recs, eq.(op := EQ))
  {
    hide RecMatch, Select;
    SelectNone();
    if recs != [] {
      var r, le := recs[0], Select(recs[1..], eq.(op := LE));
      EqualIsBoth(recs[1..], eq);
      MatchSplits(r, eq);
      SelectCons(recs, eq.(op := LE));
      SelectCons(recs, eq.(op := EQ));
      SelectCons([r] + le, eq.(op := GE));
      assert [] + le == le && ([r] + le)[1..] == le;
    }
  }

  lemma {:induction false} MatchSplits(r: Record, eq: Eq)
    ensures RecMatch(r, eq.(op := GE, val := 0)) <==> RecMatch(r, eq.(op := LT)) || RecMatch(r, eq.(op := GE))
    ensures RecMatch(r, eq.(op := GE, val := 0)) <==> RecMatch(r, eq.(op := LE)) || RecMatch(r, eq.(op := GT))
    ensures !(RecMatch(r, eq.(op := LT)) && RecMatch(r, eq.(op := GE)))
    ensures !(RecMatch(r, eq.(op := LE)) && RecMatch(r, eq.(op := GT)))
    ensures RecMatch(r, eq.(op := EQ)) <==> RecMatch(r, eq.(op := LE)) && RecMatch(r, eq.(op := GE))
    ensures RecMatch(r, eq.(end := -1)) <==> RecMatch(r, eq.(end := 0x7fff_ffff_ffff_ffff))
  {
  }

  lemma {:induction false} SelectNone()
    ensures forall eq: Eq :: Select([], eq) == []
  {
  }

  lemma {:induction false} SelectCons(recs: seq<Record>, eq: Eq)
    requires recs != []
    ensures Select(recs, eq) == (if RecMatch(recs[0], eq) then [recs[0]] else []) + Select(recs[1..], eq)
    ensures multiset(Select(recs, eq)) ==
            (if RecMatch(recs[0], eq) then multiset{recs[0]} else multiset{}) + multiset(Select(recs[1..], eq))
  {
  }

  ghost predicate TimesSorted(recs: seq<Record>) {
    forall i, j :: 0 <= i < j < |recs| ==> recs[i].time <= recs[j].time
  }

  /** A record names a whole, linked entry of the locator file. */
  ghost predicate Named(items: seq<Item>, r: Record) {
    var i := ItemAt(items, r.idx);
    i >= 0 && items[i].linked
  }

  /** The locator bytes a search reports for a record. */
  function LocOf(items: seq<Item>, r: Record): seq<byte> {
    var i := ItemAt(items, r.idx);
    if i >= 0 then items[i].loc else []
  }
}
