/** The rewrite buffer of aof.c: a list of fixed-size blocks, appended to at the end and drained from the front. */
module AofBuffers {
  import opened AofFormat

  const BLOCK_SIZE: nat := 10 * 1024 * 1024

  /** aofrwblock. */
  class Block {
    const buf: array<Byte>
    var used: nat
    var free: nat

    ghost predicate Valid()
      reads this
    {
      buf.Length == BLOCK_SIZE && used + free == BLOCK_SIZE
    }

    ghost function Data(): Bytes
      requires Valid()
      reads this, buf
    {
      buf[..used]
    }

    constructor ()
      ensures Valid() && used == 0 && fresh(buf)
    {
      buf := new Byte[BLOCK_SIZE];
      used, free := 0, BLOCK_SIZE;
    }

    /** The memcpy behind the bytes in use. */
    method Add(s: Bytes)
      requires Valid() && |s| <= free
      modifies this, buf
      ensures Valid() && Data() == old(Data()) + s && free == old(free) - |s|
    {
      for i := 0 to |s|
        invariant used == old(used) && free == old(free)
        invariant buf[..used] == old(buf[..used]) && buf[used..used + i] == s[..i]
      {
        buf[used + i] := s[i];
      }
      assert buf[..used + |s|] == buf[..used] + buf[used..used + |s|];
      used, free := used + |s|, free - |s|;
    }

    /** The memmove that drops the first n bytes. */
    method Drop(n: nat)
      requires Valid() && n <= used
      modifies this, buf
      ensures Valid() && Data() == old(Data())[n..]
    {
      var left := used - n;
      for i := 0 to left
        invariant used == old(used) && free == old(free)
        invariant buf[..i] == old(buf[n..n + i])
        invariant buf[n + i..used] == old(buf[n + i..used])
      {
        assert buf[n + i] == buf[n + i..used][0];
        ghost var rest := buf[n + i..used];
        buf[i] := buf[n + i];
        assert buf[n + (i + 1)..used] == rest[1..];
      }
      used, free := left, free + n;
    }
  }

  function Flat(pieces: seq<Bytes>): Bytes {
    if pieces == [] then [] else pieces[0] + Flat(pieces[1..])
  }

  lemma {:induction false} FlatLast(pieces: seq<Bytes>, last: Bytes)
    ensures Flat(pieces + [last]) == Flat(pieces) + last
  {
    if pieces == [] {
      assert pieces + [last] == [last] && [last][1..] == [];
    } else {
      assert (pieces + [last])[1..] == pieces[1..] + [last];
      FlatLast(pieces[1..], last);
    }
  }

  lemma FlatFilled(pieces: seq<Bytes>, s: Bytes, n: nat)
    requires pieces != [] && n <= |s|
    ensures var k := |pieces| - 1; Flat(pieces[k := pieces[k] + s[..n]]) + s[n..] == Flat(pieces) + s
  {
    hide Flat;
    var k := |pieces| - 1;
    var front := pieces[..k];
    assert pieces == front + [pieces[k]] && pieces[k := pieces[k] + s[..n]] == front + [pieces[k] + s[..n]];
    FlatLast(front, pieces[k]);
    FlatLast(front, pieces[k] + s[..n]);
    assert Flat(front) + (pieces[k] + s[..n]) + s[n..] == Flat(front) + pieces[k] + s;
  }

  /** aof_rewrite_buf_blocks; `pieces` is what the blocks hold, one by one. */
  class RewriteBuffer {
    var blocks: seq<Block>
    ghost var pieces: seq<Bytes>

    ghost predicate Valid()
      reads this, blocks, set b | b in blocks :: b.buf
    {
      && |pieces| == |blocks|
      && (forall i | 0 <= i < |blocks| :: blocks[i].Valid() && blocks[i].Data() == pieces[i])
      && (forall i, j | 0 <= i < j < |blocks| :: blocks[i] != blocks[j] && blocks[i].buf != blocks[j].buf)
    }

    ghost function Contents(): Bytes
      reads this
    {
      Flat(pieces)
    }

    /** aofRewriteBufferReset. */
    constructor ()
      ensures Valid() && Contents() == [] && blocks == []
    {
      blocks := [];
      pieces := [];
    }

    /** One piece of s into the last block. */
    method FillLast(s: Bytes) returns (rest: Bytes)
      requires Valid() && blocks != []
      modifies `pieces, blocks[|blocks| - 1], blocks[|blocks| - 1].buf
      ensures blocks == old(blocks) && Valid()
      ensures Contents() + rest == old(Contents()) + s
      ensures |rest| <= |s| && (rest != [] ==> blocks[|blocks| - 1].free == 0)
      ensures s != [] && old(blocks[|blocks| - 1].free) > 0 ==> |rest| < |s|
    {
      hide Flat;
      var k := |blocks| - 1;
      var block := blocks[k];
      var n := if block.free < |s| then block.free else |s|;
      block.Add(s[..n]);
      rest := s[n..];
      FlatFilled(pieces, s, n);
      pieces := pieces[k := pieces[k] + s[..n]];
    }

    /** A new block at the end. */
    method AddBlock()
      requires Valid()
      modifies this
      ensures Valid() && Contents() == old(Contents())
      ensures |blocks| == |old(blocks)| + 1 && blocks[..|blocks| - 1] == old(blocks)
      ensures fresh(blocks[|blocks| - 1]) && fresh(blocks[|blocks| - 1].buf) && blocks[|blocks| - 1].free == BLOCK_SIZE
    {
      var block := new Block();
      blocks := blocks + [block];
      FlatLast(pieces, []);
      pieces := pieces + [[]];
    }
  
    /** aofRewriteBufferAppend. */
    method Append(data: Bytes)
      requires Valid()
      modifies this, blocks, set b | b in blocks :: b.buf
      ensures Valid() && Contents() == old(Contents()) + data
      ensures forall b <- blocks :: b in old(blocks) || (fresh(b) && fresh(b.buf))
    {
      hide Flat;
      var s := data;
      while s != []
        invariant Valid() && Contents() + s == old(Contents()) + data
        invariant forall b <- blocks :: b in old(blocks) || (fresh(b) && fresh(b.buf))
        decreases |s|, if blocks == [] || blocks[|blocks| - 1].free == 0 then 1 else 0
      {
        if blocks != [] {
          s := FillLast(s);
        }
        if s != [] {
          AddBlock();
        }
      }
    }

    /** One write of the first block to the pipe: nwritten is what write(2) returned. */
    method DropFirst(nwritten: nat)
      requires Valid() && blocks != [] && nwritten <= blocks[0].used
      modifies `pieces, blocks[0], blocks[0].buf
      ensures blocks == old(blocks) && Valid()
      ensures old(Contents()) == old(blocks[0].buf[..nwritten]) + Contents()
      ensures blocks[0].used == old(blocks[0].used) - nwritten
    {
      hide Flat;
      var first := blocks[0];
      ghost var data := first.Data();
      assert first.buf[..nwritten] == data[..nwritten];
      assert forall i | 1 <= i < |blocks| :: blocks[i] != first && blocks[i].buf != first.buf;
      first.Drop(nwritten);
      assert forall i | 1 <= i < |blocks| :: blocks[i].Valid() && blocks[i].Data() == pieces[i];
      FlatDropped(pieces, nwritten);
      pieces := pieces[0 := data[nwritten..]];
    }

    /** An exhausted first block leaves the list. */
    method DeleteFirst()
      requires Valid() && blocks != [] && blocks[0].used == 0
      modifies this
      ensures Valid() && Contents() == old(Contents()) && blocks == old(blocks)[1..]
    {
      assert pieces[0] == [];
      assert [] + Flat(pieces[1..]) == Flat(pieces[1..]);
      blocks := blocks[1..];
      pieces := pieces[1..];
    }

    /** One turn of the loop with something to send; nothing is sent when write(2) fails or takes nothing. */
    method SendFirst() returns (data: Bytes)
      requires Valid() && blocks != [] && 0 < blocks[0].used
      modifies `pieces, blocks[0], blocks[0].buf
      ensures blocks == old(blocks) && Valid() && old(Contents()) == data + Contents()
      ensures blocks[0].used + |data| == old(blocks[0].used)
    {
      hide Flat;
      var nwritten: int :| -1 <= nwritten <= blocks[0].used;
      if nwritten <= 0 { return []; }
      data := blocks[0].buf[..nwritten];
      DropFirst(nwritten);
    }

    /** aofChildWriteDiffData: whatever write(2) returns, the bytes sent are the front of the buffer and nothing else is
        lost; once the child has asked to stop, nothing is sent. */
    method SendDiff(stop: bool) returns (sent: Bytes)
      requires Valid()
      modifies this, blocks, set b | b in blocks :: b.buf
      ensures Valid() && old(Contents()) == sent + Contents()
      ensures stop ==> sent == []
      ensures forall b <- blocks :: b in old(blocks)
    {
      hide Flat, Contents;
      sent := [];
      while true
        invariant Valid() && old(Contents()) == sent + Contents()
        invariant stop ==> sent == []
        invariant forall b <- blocks :: b in old(blocks)
        decreases |blocks|, if blocks == [] then 0 else blocks[0].used
      {
        if stop || blocks == [] { return; }
        if blocks[0].used > 0 {
          assert blocks[0] in old(blocks) && blocks[0].buf in (set b | b in old(blocks) :: b.buf);
          var data := SendFirst();
          if data == [] { return; }
          assert sent + (data + Contents()) == (sent + data) + Contents();
          sent := sent + data;
        }
        if blocks[0].used == 0 { DeleteFirst(); }
      }
    }

    /** aofRewriteBufferWrite: all of the buffer at once; a short write of any block is an error. */
    method WriteTo() returns (ok: bool, written: Bytes)
      requires Valid()
      ensures written <= Contents()
      ensures ok ==> written == Contents()
    {
      hide Flat;
      written := [];
      assert pieces[..0] == [] && pieces[..|pieces|] == pieces;
      FlatNothing();
      for i := 0 to |blocks|
        invariant written == Flat(pieces[..i])
      {
        FlatPrefix(pieces, i);
        if blocks[i].used > 0 {
          var nwritten: int :| -1 <= nwritten <= blocks[i].used;
          if nwritten != blocks[i].used {
            written := written + (if nwritten > 0 then blocks[i].buf[..nwritten] else []);
            FlatStarts(pieces, i, if nwritten > 0 then nwritten else 0);
            return false, written;
          }
        }
        written := written + blocks[i].buf[..blocks[i].used];
      }
      ok := true;
    }

    /** aofRewriteBufferSize. */
    method Size() returns (size: nat)
      requires Valid()
      ensures size == |Contents()|
    {
      hide Flat;
      size := 0;
      assert pieces[..0] == [] && pieces[..|pieces|] == pieces;
      FlatNothing();
      for i := 0 to |blocks|
        invariant size == |Flat(pieces[..i])|
      {
        FlatPrefix(pieces, i);
        size := size + blocks[i].used;
      }
    }
  }

  lemma FlatNothing()
    ensures Flat([]) == []
  {
  }

  lemma FlatDropped(pieces: seq<Bytes>, n: nat)
    requires pieces != [] && n <= |pieces[0]|
    ensures Flat(pieces) == pieces[0][..n] + Flat(pieces[0 := pieces[0][n..]])
  {
    assert pieces[0 := pieces[0][n..]][1..] == pieces[1..];
    assert pieces[0] == pieces[0][..n] + pieces[0][n..];
  }

  lemma FlatPrefix(pieces: seq<Bytes>, i: nat)
    requires i < |pieces|
    ensures Flat(pieces[..i + 1]) == Flat(pieces[..i]) + pieces[i]
  {
    FlatLast(pieces[..i], pieces[i]);
    assert pieces[..i + 1] == pieces[..i] + [pieces[i]];
  }

  lemma FlatStarts(pieces: seq<Bytes>, i: nat, n: nat)
    requires i < |pieces| && n <= |pieces[i]|
    ensures Flat(pieces[..i]) + pieces[i][..n] <= Flat(pieces)
  {
    hide Flat;
    FlatPrefix(pieces, i);
    FlatAppend(pieces[..i + 1], pieces[i + 1..]);
    assert pieces == pieces[..i + 1] + pieces[i + 1..];
  }

  lemma {:induction false} FlatAppend(a: seq<Bytes>, b: seq<Bytes>)
    ensures Flat(a + b) == Flat(a) + Flat(b)
  {
    if a == [] {
      assert a + b == b;
    } else {
      assert (a + b)[1..] == a[1..] + b;
      FlatAppend(a[1..], b);
    }
  }
}
