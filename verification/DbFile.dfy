/** kcndbd/kcndb_file.c: one descriptor on a shared file, with its own 4096-byte buffer. */
module DbFile {
  import opened Bytes
  import opened Errno
  import opened Buffer

  const BUFSIZ := 4096

  /** The bytes on disk, shared by every thread that opened the file. */
  class Disk {
    var content: seq<byte>

    constructor (bs: seq<byte>)
      ensures content == bs
    {
      content := bs;
    }
  }

  lemma {:induction false} SpliceInTwo(s: seq<byte>, off: nat, h: seq<byte>, n: nat)
    requires off <= |s| && n <= |h|
    ensures Splice(Splice(s, off, h[..n]), off + n, h[n..]) == Splice(s, off, h)
  {
    SpliceSplice(s, off, h[..n], h[n..]);
    assert h[..n] + h[n..] == h;
  }

  lemma {:induction false} SpliceNothing(s: seq<byte>, off: nat)
    requires off <= |s|
    ensures Splice(s, off, []) == s
  {
  }

  class File {
    const disk: Disk
    const buf: Buf
    var pos: nat

    ghost predicate Valid()
      reads this, buf
    {
      buf.Valid() && buf.data.Length == BUFSIZ
    }

    constructor (d: Disk)
      ensures Valid() && disk == d && fresh(buf) && fresh(buf.data)
      ensures pos == 0 && buf.sp == buf.cp == buf.ep == 0
    {
      disk := d;
      buf := new Buf(BUFSIZ);
      pos := 0;
    }

    /** What this descriptor has still to deliver: buffered bytes, then unread ones. */
    ghost function Stream(): seq<byte>
      requires Valid()
      reads this, disk, buf, buf.data
    {
      buf.Held() + Unread()
    }

    function Unread(): seq<byte>
      reads this, disk
    {
      if pos <= |disk.content| then disk.content[pos..] else []
    }

    method SeekHead(off: nat)
      modifies `pos
      ensures pos == off
    {
      pos := off;
    }

    /** One kcn_buf_read on the file: it delivers as much as fits, or what is left. */
    method ReadSome() returns (error: int)
      requires Valid() && buf.Room() > 0
      modifies `pos, buf, buf.data
      ensures Valid() && Stream() == old(Stream())
      ensures buf.cp - buf.sp == old(buf.cp - buf.sp)
      ensures buf.sp == if old(buf.ep) == BUFSIZ then 0 else old(buf.sp)
      ensures error == if old(Unread()) == [] then ESHUTDOWN else 0
      ensures error == 0 ==> |Unread()| < old(|Unread()|) && (Unread() == [] || buf.ep == BUFSIZ)
      ensures error != 0 ==> Unread() == []
    {
      var rest := Unread();
      var n := Min(buf.Room(), |rest|);
      ghost var held := buf.Held();
      if n == 0 {
        error := buf.Read(Eof);
      } else {
        error := buf.Read(Moved(rest[..n]));
        pos := pos + n;
        assert Unread() == rest[n..];
        Regroup(held, rest[..n], rest[n..]);
        SplitAt(rest, n);
      }
    }

    /** kcndb_file_ensure: true exactly when `len` bytes are to be had. */
    method Ensure(len: nat) returns (error: int)
      requires Valid() && len <= BUFSIZ
      modifies `pos, buf, buf.data
      ensures Valid() && Stream() == old(Stream())
      ensures buf.cp - buf.sp == old(buf.cp - buf.sp)
      ensures error == if old(|Stream()|) < len then ESHUTDOWN else 0
      ensures error == 0 ==> |buf.Held()| >= len
      ensures error != 0 ==> Unread() == []
      ensures old(|buf.Held()|) >= len ==>
                buf.Held() == old(buf.Held()) && buf.sp == old(buf.sp) && pos == old(pos)
      ensures old(|buf.Held()|) < len && error == 0 ==> Unread() == [] || buf.ep == BUFSIZ
      ensures buf.sp == old(buf.sp) || (buf.sp == 0 && old(buf.sp) + len > BUFSIZ)
      ensures old(Unread()) == [] && old(buf.ep) < BUFSIZ ==> buf.sp == old(buf.sp)
    {
      error := 0;
      while buf.Len() < len
        invariant Valid() && Stream() == old(Stream())
        invariant buf.cp - buf.sp == old(buf.cp - buf.sp)
        invariant old(|buf.Held()|) >= len ==>
                    buf.Held() == old(buf.Held()) && buf.sp == old(buf.sp) && pos == old(pos)
        invariant Unread() == old(Unread()) || Unread() == [] || buf.ep == BUFSIZ
        invariant Unread() == old(Unread()) ==> buf.Len() == old(buf.Len())
        invariant buf.sp == old(buf.sp) || (buf.sp == 0 && old(buf.sp) + len > BUFSIZ)
        invariant old(Unread()) == [] ==> buf.sp == old(buf.sp) && buf.ep == old(buf.ep) && Unread() == []
        decreases |Unread()|
      {
        error := ReadSome();
        if error != 0 {
          return;
        }
      }
    }

    /** One kcn_buf_write: the kernel takes some non-empty part of what is held. */
    method WriteSome() returns (n: nat)
      requires Valid() && pos <= |disk.content| && buf.Len() > 0
      modifies `pos, disk, buf
      ensures Valid() && 1 <= n <= old(buf.Len()) && pos == old(pos) + n <= |disk.content|
      ensures buf.Held() == old(buf.Held())[n..]
      ensures disk.content == Splice(old(disk.content), old(pos), old(buf.Held())[..n])
    {
      hide Splice;
      n :| 1 <= n <= buf.Len();
      var piece := buf.data[buf.sp..buf.sp + n];
      SubSlice(buf.data[..], buf.sp, buf.ep, 0, n);
      assert piece == buf.Held()[..n];
      disk.content := Splice(disk.content, pos, piece);
      pos := pos + n;
      buf.TrimHead(n);
    }

    /** kcndb_file_write: however the kernel cuts it up, the held bytes land at `pos`. */
    method Write()
      requires Valid() && pos <= |disk.content|
      modifies `pos, disk, buf
      ensures Valid() && buf.sp == buf.cp == buf.ep == 0
      ensures disk.content == Splice(old(disk.content), old(pos), old(buf.Held()))
      ensures pos == old(pos) + old(|buf.Held()|)
    {
      hide Splice;
      ghost var all := Splice(disk.content, pos, buf.Held());
      while buf.Len() > 0
        invariant Valid() && pos <= |disk.content|
        invariant Splice(disk.content, pos, buf.Held()) == all
        invariant pos + buf.Len() == old(pos) + old(buf.Len())
        decreases buf.Len()
      {
        ghost var c, p, h := disk.content, pos, buf.Held();
        var n := WriteSome();
        SpliceInTwo(c, p, h, n);
      }
      SpliceNothing(disk.content, pos);
      assert buf.Held() == [];
      buf.Reset(0);
    }

    method AppendAll()
      requires Valid()
      modifies `pos, disk, buf
      ensures Valid() && buf.sp == buf.cp == buf.ep == 0
      ensures disk.content == old(disk.content) + old(buf.Held())
    {
      pos := |disk.content|;
      Write();
    }
  }
}
