/** lib/kcn_client.c: the client side of a query, and the conversation end to end. */
module Client {
  import opened Bytes
  import opened Errno
  import opened Buffer
  import opened Msg
  import opened Framing
  import S = Server

  datatype Loc = Loc(uri: seq<byte>, score: byte)

  /** struct kcn_info with the error of struct kcn_client_response; `errno` is the C variable. */
  datatype Info = Info(maxnlocs: nat, locs: seq<Loc>, errno: int)

  function Handle(s: Info, h: Header, body: seq<byte>): Verdict<Info> {
    if h.kind != TYPE_RESPONSE then Stop(s, false, EINVAL)
    else if |body| < RESPONSE_MINSIZ then Stop(s, false, EINVAL)
    else
      var r := DecodeResponse(body);
      if r.loc == [] then Stop(s, true, if r.error as int != EAGAIN then r.error as int else s.errno)
      else if s.maxnlocs == |s.locs| then Stop(s, true, ETOOMANYREFS)
      else More(s.(locs := s.locs + [Loc(r.loc, r.score)]), true)
  }

  /** Whatever a server sends, the result array is never overrun. */
  lemma {:induction false} NeverOverruns(b: seq<byte>, s: Info)
    requires |s.locs| <= s.maxnlocs
    ensures var s' := Framing.Drain(b, s, Handle).s;
            |s'.locs| <= s'.maxnlocs == s.maxnlocs && s.locs <= s'.locs
    decreases |b|
  {
    hide De16;
    match DecodeHeader(b)
    case Partial =>
    case Bad(_) =>
    case Whole(h) =>
      var v := Handle(s, h, b[HDRSIZ..HDRSIZ + h.len]);
      if v.More? {
        NeverOverruns(Unparsed(b, h, v.took), v.s);
      }
  }

  class Client {
    const maxnlocs: nat
    var locs: seq<Loc>
    var error: int

    constructor (maxnlocs: nat)
      ensures this.maxnlocs == maxnlocs && locs == [] && error == 0
    {
      this.maxnlocs, locs, error := maxnlocs, [], 0;
    }

    ghost function State(errno: int): Info
      reads this
    {
      Info(maxnlocs, locs, errno)
    }

    /** One response, its header already taken off the buffer. */
    method Take(kb: Buf, h: Header, errno: int) returns (go: bool, status: int)
      requires kb.Valid() && kb.cp == kb.sp && |locs| <= maxnlocs && h.len <= |kb.Held()|
      modifies this`locs, kb
      ensures kb.Valid() && kb.cp == kb.sp && |locs| <= maxnlocs
      ensures go == Handle(old(State(errno)), h, old(kb.Held())[..h.len]).More?
      ensures status == if go then errno else Handle(old(State(errno)), h, old(kb.Held())[..h.len]).status
      ensures State(errno) == Handle(old(State(errno)), h, old(kb.Held())[..h.len]).s
      ensures kb.Held() == if Handle(old(State(errno)), h, old(kb.Held())[..h.len]).took then old(kb.Held())[h.len..]
                           else old(kb.Held())
    {
      hide DecodeResponse;
      if h.kind != TYPE_RESPONSE {
        return false, EINVAL;
      }
      var e, kmr := ResponseDecode(kb, h);
      if e != 0 {
        return false, e;
      }
      if kmr.loc == [] {
        return false, if kmr.error as int != EAGAIN then kmr.error as int else errno;
      }
      if maxnlocs == |locs| {
        return false, ETOOMANYREFS;
      }
      locs := locs + [Loc(kmr.loc, kmr.score)];
      go, status := true, errno;
    }

    /** kcn_client_read; `errno` is the value of the C variable on entry. */
    method Read(kb: Buf, errno: int) returns (status: int)
      requires kb.Valid() && kb.cp == kb.sp && |locs| <= maxnlocs
      modifies this, kb
      ensures kb.Valid() && |locs| <= maxnlocs && error == status
      ensures var o := Framing.Drain(old(kb.Held()), old(State(errno)), Handle);
              && State(errno) == o.s && kb.Held() == o.rest
              && status == (if o.Waiting? then EAGAIN else o.status)
    {
      hide DecodeHeader, Handle, Framing.Drain;
      ghost var o := Framing.Drain(kb.Held(), State(errno), Handle);
      var go := true;
      status := errno;
      while go
        invariant kb.Valid() && |locs| <= maxnlocs
        invariant go ==> kb.cp == kb.sp && Framing.Drain(kb.Held(), State(errno), Handle) == o
        invariant !go ==> State(errno) == o.s && kb.Held() == o.rest
                          && status == (if o.Waiting? then EAGAIN else o.status)
        decreases go, kb.Len()
      {
        ghost var b, s := kb.Held(), State(errno);
        DrainTurn(b, s, Handle);
        var r := HeaderDecode(kb);
        match r {
          case Partial => go, status := false, EAGAIN;
          case Bad(e) => go, status := false, e;
          case Whole(h) =>
            go, status := Take(kb, h, errno);
        }
      }
      error := status;
    }
  }

  function Scored(locs: seq<seq<byte>>): (o: seq<Loc>)
    ensures |o| == |locs| && forall i :: 0 <= i < |o| ==> o[i] == Loc(locs[i], 0)
  {
    seq(|locs|, i requires 0 <= i < |locs| => Loc(locs[i], 0))
  }

  /** Locators up to the first empty one, which the client takes for the terminator. */
  function UpToEmpty(locs: seq<seq<byte>>): (o: seq<seq<byte>>)
    ensures |o| <= |locs| && o == locs[..|o|]
    ensures forall i :: 0 <= i < |o| ==> o[i] != []
    ensures |o| < |locs| ==> locs[|o|] == []
  {
    if locs == [] || locs[0] == [] then [] else [locs[0]] + UpToEmpty(locs[1..])
  }

  /** The client's loop on the answer to a query: locators are taken up to an empty one, which
      reads as the end of the answer. */
  lemma {:induction false} ReadsReply(locs: seq<seq<byte>>, rest: seq<byte>, s: Info)
    requires |s.locs| + |locs| <= s.maxnlocs && s.maxnlocs <= 255
    requires forall i :: 0 <= i < |locs| ==> |locs[i]| <= MAXLOCSIZ
    requires forall i :: 0 <= i < |locs| ==> locs[i] != []
    ensures Framing.Drain(Concat(S.Responses(locs)) + rest, s, Handle) ==
            Framing.Drain(rest, s.(locs := s.locs + Scored(locs)), Handle)
    decreases |locs|
  {
    hide Frame, DecodeHeader, ResponseBody, DecodeResponse, S.Response1, Framing.Drain, Handle;
    if locs == [] {
      assert Concat(S.Responses(locs)) + rest == rest;
      assert s.locs + Scored(locs) == s.locs;
    } else {
      var n := |locs| - 1;
      var before, last := locs[..n], locs[n];
      var frame := S.Response1(last);
      var s1 := s.(locs := s.locs + Scored(before));
      ConcatAppend(S.Responses(before), [frame]);
      OneFrame(frame);
      assert Concat(S.Responses(locs)) + rest == Concat(S.Responses(before)) + (frame + rest);
      ReadsReply(before, frame + rest, s);
      TakesOne(last, rest, s1);
      assert Scored(locs) == Scored(before) + [Loc(last, 0)];
      assert s1.locs + [Loc(last, 0)] == s.locs + Scored(locs);
    }
  }

  lemma {:induction false} OneFrame(m: seq<byte>)
    ensures Concat([m]) == m
  {
    assert [m][1..] == [] && Concat([m]) == m + Concat([m][1..]);
  }

  lemma {:induction false} TakesOne(loc: seq<byte>, rest: seq<byte>, s: Info)
    requires loc != [] && |loc| <= MAXLOCSIZ && |s.locs| < s.maxnlocs
    ensures Framing.Drain(S.Response1(loc) + rest, s, Handle) ==
            Framing.Drain(rest, s.(locs := s.locs + [Loc(loc, 0)]), Handle)
  {
    hide Frame, DecodeHeader, ResponseBody, DecodeResponse;
    var r := Response(0, 0, loc);
    DrainFrame(TYPE_RESPONSE, ResponseBody(r), rest, s, Handle);
    ResponseRoundTrip(r);
  }

  /** The terminator ends the answer with its status, whatever follows. */
  lemma {:induction false} Terminates(error: byte, rest: seq<byte>, s: Info)
    requires error as int != EAGAIN
    ensures Framing.Drain(S.Terminator(error) + rest, s, Handle) == Stopped(rest, s, error as int)
  {
    hide Frame, DecodeHeader, ResponseBody, DecodeResponse;
    var r := Response(error, 0, []);
    DrainFrame(TYPE_RESPONSE, ResponseBody(r), rest, s, Handle);
    ResponseRoundTrip(r);
  }

  /** Everything the server answers: the client ends with the locators up to the first empty
      one, and with the status of the query unless one of them was empty. */
  lemma {:induction false} ReadsAnswer(locs: seq<seq<byte>>, s: Info)
    requires s.locs == [] && |locs| <= s.maxnlocs <= 255
    requires forall i :: 0 <= i < |locs| ==> |locs[i]| <= MAXLOCSIZ
    ensures var o := Framing.Drain(Concat(S.Reply(locs)), s, Handle);
            && o.Stopped? && o.s == s.(locs := Scored(UpToEmpty(locs)))
            && o.status == (if locs == [] then ESRCH else 0)
            && (o.s.locs == Scored(locs) <==> forall i :: 0 <= i < |locs| ==> locs[i] != [])
  {
    hide Frame, DecodeHeader, Handle, S.Responses, S.Reply, S.Terminator, Concat, UpToEmpty, Framing.Drain;
    var got, t := UpToEmpty(locs), S.Terminator(if locs == [] then ESRCH else 0);
    var n := |got|;
    assert got == locs[..n];
    SplitReply(locs, n);
    var rest := Concat(S.Responses(locs[n..])) + t;
    ReadsReply(got, rest, s);
    assert s.locs + Scored(got) == Scored(got);
    var s1 := s.(locs := Scored(got));
    if n == |locs| {
      NoResponses(locs[n..], t);
      Terminates(if locs == [] then ESRCH else 0, [], s1);
      assert t + [] == t;
    } else {
      EmptyResponse(locs[n..], t, s1);
    }
    UpToEmptyExact(locs);
  }

  /** A server that sends more locators than were asked for: the client keeps the first ones and ends
      with ETOOMANYREFS at the next, whatever follows. */
  lemma {:induction false} TooMany(locs: seq<seq<byte>>, rest: seq<byte>, s: Info)
    requires s.locs == [] && s.maxnlocs < |locs| && s.maxnlocs <= 255
    requires forall i :: 0 <= i < |locs| ==> 0 < |locs[i]| <= MAXLOCSIZ
    ensures var n := s.maxnlocs;
            Framing.Drain(Concat(S.Responses(locs)) + rest, s, Handle) ==
            Stopped(Concat(S.Responses(locs[n + 1..])) + rest, s.(locs := Scored(locs[..n])), ETOOMANYREFS)
  {
    hide Frame, DecodeHeader, Handle, S.Responses, S.Response1, Framing.Drain;
    var n := s.maxnlocs;
    var first, next, more := locs[..n], locs[n..][..1], locs[n..][1..];
    SplitResponses(locs, n);
    SplitResponses(locs[n..], 1);
    assert next == [locs[n]] && more == locs[n + 1..];
    OneResponse(locs[n]);
    var last := Concat(S.Responses(more)) + rest;
    assert Concat(S.Responses(locs)) + rest == Concat(S.Responses(first)) + (S.Response1(locs[n]) + last);
    ReadsReply(first, S.Response1(locs[n]) + last, s);
    assert s.locs + Scored(first) == Scored(first);
    OneTooMany(locs[n], last, s.(locs := Scored(first)));
  }

  lemma {:induction false} OneResponse(loc: seq<byte>)
    ensures Concat(S.Responses([loc])) == S.Response1(loc)
  {
    hide S.Response1;
    assert [loc][..0] == [] && S.Responses([loc]) == [] + [S.Response1(loc)];
    OneFrame(S.Response1(loc));
  }

  lemma {:induction false} OneTooMany(loc: seq<byte>, rest: seq<byte>, s: Info)
    requires 0 < |loc| <= MAXLOCSIZ && |s.locs| == s.maxnlocs
    ensures Framing.Drain(S.Response1(loc) + rest, s, Handle) == Stopped(rest, s, ETOOMANYREFS)
  {
    hide Frame, DecodeHeader, ResponseBody, DecodeResponse;
    var r := Response(0, 0, loc);
    DrainFrame(TYPE_RESPONSE, ResponseBody(r), rest, s, Handle);
    ResponseRoundTrip(r);
  }

  /** The messages that end the conversation as invalid: any type but a response, and a response
      shorter than its two fixed bytes. */
  lemma {:induction false} Invalid(kind: byte, body: seq<byte>, rest: seq<byte>, s: Info)
    requires |body| <= MAXBODYSIZ && (kind != 2 || |body| < 2)
    ensures Framing.Drain(Frame(kind, body) + rest, s, Handle) == Stopped(body + rest, s, EINVAL)
  {
    hide Frame, DecodeHeader;
    DrainFrame(kind, body, rest, s, Handle);
  }

  lemma {:induction false} NoResponses(locs: seq<seq<byte>>, t: seq<byte>)
    requires locs == []
    ensures Concat(S.Responses(locs)) + t == t
  {
  }

  lemma {:induction false} UpToEmptyExact(locs: seq<seq<byte>>)
    ensures Scored(UpToEmpty(locs)) == Scored(locs) <==> forall i :: 0 <= i < |locs| ==> locs[i] != []
  {
    hide UpToEmpty;
    var got := UpToEmpty(locs);
    if |got| == |locs| {
      assert got == locs;
    } else {
      assert |Scored(got)| < |Scored(locs)|;
    }
  }

  lemma {:induction false} EmptyResponse(locs: seq<seq<byte>>, t: seq<byte>, s: Info)
    requires locs != [] && locs[0] == []
    ensures var o := Framing.Drain(Concat(S.Responses(locs)) + t, s, Handle);
            o.Stopped? && o.s == s && o.status == 0
  {
    hide Frame, DecodeHeader, Handle;
    SplitResponses(locs, 1);
    assert locs[..1] == [locs[0]] && locs[..1][..0] == [];
    assert S.Responses(locs[..1]) == [] + [S.Response1([])];
    OneFrame(S.Response1([]));
    var more := Concat(S.Responses(locs[1..])) + t;
    assert Concat(S.Responses(locs)) + t == S.Terminator(0) + more;
    Terminates(0, more, s);
  }

  lemma {:induction false} SplitResponses(locs: seq<seq<byte>>, n: nat)
    requires n <= |locs|
    ensures Concat(S.Responses(locs)) == Concat(S.Responses(locs[..n])) + Concat(S.Responses(locs[n..]))
    decreases |locs|
  {
    hide S.Response1;
    if n == |locs| {
      assert locs[..n] == locs && locs[n..] == [];
    } else {
      var m := |locs| - 1;
      SplitResponses(locs[..m], n);
      assert locs[..m][..n] == locs[..n] && locs[..m][n..] == locs[n..][..m - n];
      assert locs[n..][|locs[n..]| - 1] == locs[m] && |locs[n..]| - 1 == m - n;
      ConcatAppend(S.Responses(locs[..m]), [S.Response1(locs[m])]);
      ConcatAppend(S.Responses(locs[n..][..m - n]), [S.Response1(locs[m])]);
    }
  }

  lemma {:induction false} SplitReply(locs: seq<seq<byte>>, n: nat)
    requires n <= |locs|
    ensures Concat(S.Reply(locs)) ==
            Concat(S.Responses(locs[..n]))
            + (Concat(S.Responses(locs[n..])) + S.Terminator(if locs == [] then ESRCH else 0))
  {
    hide S.Response1, S.Terminator, S.Responses;
    var t := S.Terminator(if locs == [] then ESRCH else 0);
    SplitResponses(locs, n);
    ConcatAppend(S.Responses(locs), [t]);
    OneFrame(t);
  }
}
