/** The errno values the modelled code sets or tests (Linux numbering). */
module Errno {
  const ESRCH := 3
  const ENXIO := 6
  const E2BIG := 7
  const EAGAIN := 11
  const ENOMEM := 12
  const EINVAL := 22
  const ERANGE := 34
  const EOPNOTSUPP := 95
  const ESHUTDOWN := 108
  const ETOOMANYREFS := 109
}

/** lib/kcn_buf.c: a fixed array with a data window [sp, ep) and a cursor cp inside it.
    Every assert() of the C code is a precondition here. */
module Buffer {
  import opened Bytes
  import opened Errno

  /** What one read(2) or write(2) that was not interrupted gave back. */
  datatype Io = Moved(bs: seq<byte>) | Eof | Failed(errno: int)

  lemma {:induction false} SpliceGrows(h: seq<byte>, g: seq<byte>, off: nat, p: seq<byte>)
    requires off <= |h| <= |g| && h == g[..|h|]
    requires |g| == if |h| < off + |p| then off + |p| else |h|
    ensures Splice(g, off, p) == Splice(h, off, p)
  {
  }

  class Buf {
    const data: array<byte>
    var sp: nat
    var cp: nat
    var ep: nat

    ghost predicate Valid()
      reads this
    {
      sp <= cp <= ep <= data.Length
    }

    ghost function Held(): seq<byte>
      requires Valid()
      reads this, data
    {
      data[sp..ep]
    }

    /** Space one read may fill, after the realignment a full tail forces. */
    function Room(): nat
      requires Valid()
      reads this
    {
      if ep == data.Length then data.Length - (ep - sp) else data.Length - ep
    }

    constructor (size: nat)
      ensures Valid() && fresh(data) && data.Length == size && sp == cp == ep == 0
    {
      data := new byte[size];
      sp, cp, ep := 0, 0, 0;
    }

    function Len(): nat
      requires Valid()
      reads this
    {
      ep - sp
    }

    function HeadingData(): nat
      requires Valid()
      reads this
    {
      cp - sp
    }

    function TrailingData(): nat
      requires Valid()
      reads this
    {
      ep - cp
    }

    method Reset(headingSpace: nat)
      requires headingSpace <= data.Length
      modifies this
      ensures Valid() && sp == cp == ep == headingSpace
    {
      cp, sp, ep := headingSpace, headingSpace, headingSpace;
    }

    method Forward(len: nat)
      requires Valid() && len <= TrailingData()
      modifies `cp
      ensures Valid() && cp == old(cp) + len
    {
      cp := cp + len;
    }

    method Backward(len: nat)
      requires Valid() && len <= HeadingData()
      modifies `cp
      ensures Valid() && cp == old(cp) - len
    {
      cp := cp - len;
    }

    method Start()
      requires sp <= ep <= data.Length
      modifies `cp
      ensures Valid() && cp == sp
    {
      cp := sp;
    }

    method TrimHead(len: nat)
      requires Valid() && len <= Len()
      modifies `sp, `cp
      ensures Valid() && sp == old(sp) + len
      ensures cp == if old(cp) < sp then sp else old(cp)
      ensures Held() == old(Held())[len..]
    {
      sp := sp + len;
      if sp > cp {
        Start();
      }
    }

    method Realign()
      requires Valid()
      modifies this, data
      ensures Valid() && sp == 0 && cp == old(cp - sp)
      ensures Held() == old(Held())
    {
      var len := Len();
      forall i | 0 <= i < len {
        data[i] := data[sp + i];
      }
      cp := cp - sp;
      sp := 0;
      ep := len;
    }

    method Prepend(len: nat)
      requires Valid() && len <= sp
      modifies `sp, `cp
      ensures Valid() && sp == cp == old(sp) - len
    {
      sp := sp - len;
      cp := sp;
    }

    method Append(len: nat)
      requires Valid() && cp + len <= data.Length
      modifies `ep
      ensures Valid() && ep == if old(ep) < cp + len then cp + len else old(ep)
    {
      if TrailingData() >= len {
        return;
      }
      ep := ep + (len - TrailingData());
    }

    method Get8() returns (v: byte)
      requires Valid() && TrailingData() >= 1
      modifies `cp
      ensures Valid() && cp == old(cp) + 1 && v == old(data[cp])
    {
      v := data[cp];
      cp := cp + 1;
    }

    method Get16() returns (v: u16)
      requires Valid() && TrailingData() >= 2
      modifies `cp
      ensures Valid() && cp == old(cp) + 2 && v == De16(old(data[cp..cp + 2]))
    {
      v := data[cp] as int * 0x100 + data[cp + 1];
      cp := cp + 2;
    }

    method Get64() returns (v: u64)
      requires Valid() && TrailingData() >= 8
      modifies `cp
      ensures Valid() && cp == old(cp) + 8 && v == De64(old(data[cp..cp + 8]))
    {
      ghost var s := data[cp..cp + 8];
      De64Bytes(s);
      v := data[cp] as int * 0x100_0000_0000_0000 + data[cp + 1] as int * 0x1_0000_0000_0000
           + data[cp + 2] as int * 0x100_0000_0000 + data[cp + 3] as int * 0x1_0000_0000
           + data[cp + 4] as int * 0x100_0000 + data[cp + 5] as int * 0x1_0000
           + data[cp + 6] as int * 0x100 + data[cp + 7];
      cp := cp + 8;
    }

    /** memcpy over bytes already inside the window. */
    method Overwrite(p: seq<byte>)
      requires Valid() && cp + |p| <= ep
      modifies data
      ensures Held() == Splice(old(Held()), cp - sp, p)
    {
      forall i | 0 <= i < |p| {
        data[cp + i] := p[i];
      }
    }

    method Put(p: seq<byte>)
      requires Valid() && cp + |p| <= data.Length
      modifies `cp, `ep, data
      ensures Valid() && cp == old(cp) + |p|
      ensures ep == if old(ep) < cp then cp else old(ep)
      ensures Held() == Splice(old(Held()), old(cp - sp), p)
      ensures old(cp == ep) ==> Held() == old(Held()) + p
    {
      hide Splice;
      ghost var h, off := Held(), cp - sp;
      SubSlice(data[..], sp, if ep < cp + |p| then cp + |p| else ep, 0, |h|);
      Append(|p|);
      SpliceGrows(h, Held(), off, p);
      Overwrite(p);
      Forward(|p|);
      SpliceAtEnd(h, p);
    }

    method PutNull(len: nat)
      requires Valid() && cp + len <= data.Length
      modifies `cp, `ep, data
      ensures Valid() && cp == old(cp) + len
      ensures ep == if old(ep) < cp then cp else old(ep)
      ensures Held() == Splice(old(Held()), old(cp - sp), seq(len, _ => 0))
      ensures old(cp == ep) ==> Held() == old(Held()) + seq(len, _ => 0)
    {
      Put(seq(len, _ => 0));
    }

    method Put8(v: byte)
      requires Valid() && cp + 1 <= data.Length
      modifies `cp, `ep, data
      ensures Valid() && cp == old(cp) + 1
      ensures ep == if old(ep) < cp then cp else old(ep)
      ensures Held() == Splice(old(Held()), old(cp - sp), [v])
      ensures old(cp == ep) ==> Held() == old(Held()) + [v]
    {
      Put([v]);
    }

    method Put16(v: u16)
      requires Valid() && cp + 2 <= data.Length
      modifies `cp, `ep, data
      ensures Valid() && cp == old(cp) + 2
      ensures ep == if old(ep) < cp then cp else old(ep)
      ensures Held() == Splice(old(Held()), old(cp - sp), Be16(v))
      ensures old(cp == ep) ==> Held() == old(Held()) + Be16(v)
    {
      assert v / 0x100 % 0x100 == v / 0x100;
      Put([v / 0x100 % 0x100, v % 0x100]);
    }

    method Put64(v: u64)
      requires Valid() && cp + 8 <= data.Length
      modifies `cp, `ep, data
      ensures Valid() && cp == old(cp) + 8
      ensures ep == if old(ep) < cp then cp else old(ep)
      ensures Held() == Splice(old(Held()), old(cp - sp), Be64(v))
      ensures old(cp == ep) ==> Held() == old(Held()) + Be64(v)
    {
      Be64Bytes(v);
      Put([v / 0x100_0000_0000_0000 % 0x100, v / 0x1_0000_0000_0000 % 0x100,
           v / 0x100_0000_0000 % 0x100, v / 0x1_0000_0000 % 0x100,
           v / 0x100_0000 % 0x100, v / 0x1_0000 % 0x100,
           v / 0x100 % 0x100, v % 0x100]);
    }

    /** Input goes behind what is held. */
    method Fill(bs: seq<byte>)
      requires Valid() && ep + |bs| <= data.Length
      modifies `ep, data
      ensures Valid() && ep == old(ep) + |bs| && Held() == old(Held()) + bs
    {
      ghost var h := Held();
      forall i | 0 <= i < |bs| {
        data[ep + i] := bs[i];
      }
      assert data[sp..ep] == h;
      Append(TrailingData() + |bs|);
    }

    /** kcn_buf_read: one read(2), whose result the environment chooses. */
    method Read(r: Io) returns (error: int)
      requires Valid() && Room() > 0
      requires r.Moved? ==> 0 < |r.bs| <= Room()
      modifies this, data
      ensures Valid() && cp - sp == old(cp - sp)
      ensures sp == if old(ep) == data.Length then 0 else old(sp)
      ensures Held() == old(Held()) + if r.Moved? then r.bs else []
      ensures error == match r case Moved(_) => 0 case Eof => ESHUTDOWN case Failed(e) => e
    {
      if ep == data.Length {
        Realign();
      }
      match r {
        case Eof => error := ESHUTDOWN;
        case Failed(e) => error := e;
        case Moved(bs) =>
          Fill(bs);
          error := 0;
      }
    }
  }
}
