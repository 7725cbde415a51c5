/** Buffered streams: one buffer shared by reading and writing, with pushback and seek, over
    a seekable backend that may transfer less than it was asked to. */
module Estream {
  import opened Common
  import opened FlatFile
  import opened FlatRuns

  /** A seekable backend that never fails.  How much a single call transfers is left open. */
  class Backend {
    var data: seq<byte>
    var pos: nat

    constructor (data: seq<byte>)
      ensures this.data == data && pos == 0
    {
      this.data, pos := data, 0;
    }

    method Read(size: nat) returns (chunk: seq<byte>)
      modifies this
      ensures data == old(data) && pos == old(pos) + |chunk|
      ensures |chunk| <= size && chunk <= From(data, old(pos))
      ensures chunk == [] ==> size == 0 || From(data, pos) == []
    {
      var avail := From(data, pos);
      var most := Min(size, |avail|);
      var n: nat :| n <= most && (most > 0 ==> n > 0);
      chunk := avail[..n];
      pos := pos + n;
    }

    method Write(src: seq<byte>) returns (n: nat)
      modifies this
      ensures n <= |src| && (src != [] ==> n > 0)
      ensures data == Overwrite(old(data), old(pos), src[..n]) && pos == old(pos) + n
    {
      n :| n <= |src| && (src != [] ==> n > 0);
      data := Overwrite(data, pos, src[..n]);
      pos := pos + n;
    }

    method Seek(off: int, whence: Whence) returns (r: Option<nat>)
      modifies this
      ensures r == SeekTarget(Flat(data, old(pos)), off, whence)
      ensures data == old(data) && pos == (if r.Some? then r.value else old(pos))
    {
      r := SeekTarget(Flat(data, pos), off, whence);
      if r.Some? {
        pos := r.value;
      }
    }
  }

  class Stream {
    const io: Backend
    const buffer: array<byte>
    const unread: array<byte>
    const strategy: Strategy
    var dataLen: nat
    var dataOffset: nat
    var dataFlushed: nat
    var unreadLen: nat
    var writing: bool
    var offset: nat
    var eof: bool

    ghost predicate Shape()
      reads this
    {
      && buffer != unread
      && unread.Length == UNREAD_SIZE
      && (strategy.Unbuffered? <==> buffer.Length == 0)
      && dataOffset <= buffer.Length
      && dataLen <= buffer.Length
      && unreadLen <= UNREAD_SIZE
      && dataFlushed == 0
    }

    /** The buffer holds bytes the backend has not seen yet. */
    ghost predicate WriteShape()
      reads this, io
    {
      Shape() && dataLen == 0 && offset == io.pos
    }

    /** The buffer holds a copy of the bytes in front of the backend's position. */
    ghost predicate ReadShape()
      reads this, io, buffer
    {
      && Shape()
      && dataOffset <= dataLen
      && offset + dataLen == io.pos
      && (dataLen > 0 ==> io.pos <= |io.data| && buffer[..dataLen] == io.data[offset..io.pos])
    }

    ghost predicate Valid()
      reads this, io, buffer
    {
      if writing then WriteShape() else ReadShape()
    }

    /** The bytes still waiting in the buffer to be written. */
    ghost function Pending(): seq<byte>
      requires Shape()
      reads this, buffer
    {
      buffer[..dataOffset]
    }

    /** The backend's contents once the pending bytes have been written. */
    ghost function Total(): seq<byte>
      requires Shape()
      reads this, io, buffer
    {
      Overwrite(io.data, offset, Pending())
    }

    /** The flat file the stream stands for: the backend plus the pending bytes. */
    ghost function View(): Flat
      requires Valid()
      reads this, io, buffer
    {
      if writing then Flat(Total(), offset + dataOffset)
      else Flat(io.data, offset + dataOffset)
    }

    /** What was pushed back, innermost first. */
    ghost function Pushed(): (p: seq<byte>)
      requires Shape()
      reads this, unread
      ensures |p| == unreadLen
    {
      unread[..unreadLen]
    }

    constructor (io: Backend, strategy: Strategy, size: nat, writing: bool)
      requires strategy.Unbuffered? <==> size == 0
      ensures Valid() && fresh(buffer) && fresh(unread) && buffer.Length == size
      ensures this.io == io && this.strategy == strategy && this.writing == writing
      ensures View() == Flat(io.data, io.pos) && Pushed() == []
    {
      this.io, this.strategy, this.writing := io, strategy, writing;
      buffer := new byte[size](_ => 0);
      unread := new byte[UNREAD_SIZE](_ => 0);
      dataLen, dataOffset, dataFlushed, unreadLen := 0, 0, 0, 0;
      offset, eof := io.pos, false;
    }

    /** es_fill: replace the used-up buffer by the next chunk. */
    method Fill()
      requires ReadShape() && dataOffset == dataLen && buffer.Length > 0
      modifies this`dataLen, this`dataOffset, this`offset, this`eof, io, buffer
      ensures ReadShape() && io.data == old(io.data)
      ensures dataOffset == 0 <= dataLen && offset == old(offset + dataOffset)
      ensures dataLen == 0 ==> From(io.data, offset) == [] && eof
    {
      var chunk := io.Read(buffer.Length);
      forall i | 0 <= i < |chunk| {
        buffer[i] := chunk[i];
      }
      if chunk == [] {
        eof := true;
      }
      offset := offset + dataLen;
      dataLen := |chunk|;
      dataOffset := 0;
      assert buffer[..dataLen] == chunk;
    }

    /** es_flush: push the pending bytes to the backend, however short its writes are.  The
        assertion on the writing flag becomes `ok`. */
    method FlushBuffer() returns (ok: bool)
      requires WriteShape()
      modifies this`dataFlushed, this`dataOffset, this`offset, io
      ensures ok == writing
      ensures ok ==> WriteShape() && dataOffset == 0 && offset == old(offset + dataOffset)
      ensures ok ==> io.data == old(Total())
    {
      hide Overwrite;
      ok := writing;
      if !ok {
        return;
      }
      if dataOffset != 0 {
        ghost var data0, pending := io.data, Pending();
        var flushed := 0;
        OverwriteNothing(data0, offset);
        assert pending[..0] == [];
        while flushed < dataOffset
          invariant flushed <= dataOffset == |pending|
          invariant dataOffset == old(dataOffset) && offset == old(offset)
          invariant io.pos == offset + flushed
          invariant io.data == Overwrite(data0, offset, pending[..flushed])
        {
          assert buffer[flushed..dataOffset] == pending[flushed..];
          var n := io.Write(buffer[flushed..dataOffset]);
          OverwriteAppend(data0, offset, pending[..flushed], pending[flushed..][..n]);
          TakeMore(pending, flushed, n);
          flushed := flushed + n;
        }
        assert pending[..flushed] == pending;
        offset := offset + dataOffset;
        dataOffset := 0;
        dataFlushed := 0;
      } else {
        OverwriteNothing(io.data, offset);
        assert Pending() == [];
      }
    }

    static lemma TakeMore(s: seq<byte>, i: nat, n: nat)
      requires i + n <= |s|
      ensures s[..i] + s[i..][..n] == s[..i + n]
    {
    }

    /** es_read_nbf */
    method ReadUnbuffered(n: nat) returns (out: seq<byte>)
      requires ReadShape() && strategy.Unbuffered?
      modifies this`offset, io
      ensures ReadShape() && io.data == old(io.data)
      ensures (Flat(io.data, offset), out) == old(ReadFlat(Flat(io.data, offset), n))
    {
      out := [];
      ghost var p0 := io.pos;
      while |out| < n
        invariant |out| <= n && io.data == old(io.data) && io.pos == p0 + |out| && offset == p0
        invariant out <= From(io.data, p0)
      {
        var chunk := io.Read(n - |out|);
        if chunk == [] {
          break;
        }
        out := out + chunk;
      }
      offset := offset + |out|;
      ReadFlatIs(io.data, p0, n, out);
    }

    /** Deliver from the buffer what is there, up to the wanted number of bytes. */
    method TakeBuffered(want: nat) returns (chunk: seq<byte>)
      requires ReadShape() && dataOffset < dataLen
      modifies this`dataOffset
      ensures ReadShape() && |chunk| == Min(want, dataLen - old(dataOffset))
      ensures dataOffset == old(dataOffset) + |chunk| <= dataLen
      ensures chunk <= From(io.data, offset + old(dataOffset))
    {
      var take := Min(want, dataLen - dataOffset);
      chunk := buffer[dataOffset..dataOffset + take];
      assert chunk == buffer[..dataLen][dataOffset..dataOffset + take];
      SliceOfSlice(io.data, offset, io.pos, dataOffset, dataOffset + take);
      dataOffset := dataOffset + take;
    }

    /** es_read_fbf; es_read_lbf does the same. */
    method ReadBuffered(n: nat) returns (out: seq<byte>)
      requires ReadShape() && !strategy.Unbuffered?
      modifies this`dataLen, this`dataOffset, this`offset, this`eof, io, buffer
      ensures ReadShape() && io.data == old(io.data)
      ensures (Flat(io.data, offset + dataOffset), out) == old(ReadFlat(Flat(io.data, offset + dataOffset), n))
      ensures |out| < n ==> eof
    {
      out := [];
      assert dataOffset <= dataLen && buffer.Length > 0;
      hide ReadShape, From, ReadFlat;
      ghost var p0 := offset + dataOffset;
      NothingFrom(io.data, p0);
      while |out| < n
        invariant |out| <= n && io.data == old(io.data) && ReadShape()
        invariant dataOffset <= dataLen
        invariant offset + dataOffset == p0 + |out|
        invariant out <= From(io.data, p0)
      {
        if dataOffset == dataLen {
          Fill();
          if dataLen == 0 {
            break;
          }
        }
        var chunk := TakeBuffered(n - |out|);
        FromAppend(io.data, p0, out, chunk);
        out := out + chunk;
      }
      ReadFlatIs(io.data, p0, n, out);
    }

    static lemma NothingFrom(data: seq<byte>, pos: nat)
      ensures [] <= From(data, pos)
    {
    }

    /** The part of es_readn that takes back what was pushed back. */
    method ReadPushedBack(n: nat) returns (head: seq<byte>)
      requires !writing && ReadShape()
      modifies this`unreadLen
      ensures ReadShape() && |head| == Min(n, old(unreadLen))
      ensures head == Popped(old(Pushed()), |head|)
      ensures Pushed() == old(Pushed())[..old(unreadLen) - |head|]
    {
      head := [];
      while |head| < n && unreadLen > 0
        invariant |head| <= n && unreadLen == old(unreadLen) - |head|
        invariant ReadShape() && head == Popped(old(Pushed()), |head|)
      {
        head := head + [unread[unreadLen - 1]];
        unreadLen := unreadLen - 1;
      }
    }

    /** The switch from writing to reading, and the same at the start of es_seek. */
    method StopWriting()
      requires Valid()
      modifies this`dataFlushed, this`dataOffset, this`offset, this`writing, io
      ensures !writing && ReadShape()
      ensures View() == old(View())
    {
      hide Overwrite;
      if writing {
        var ok := FlushBuffer();
        writing := false;
      }
    }

    /** es_readn */
    method Readn(n: nat) returns (out: seq<byte>)
      requires Valid()
      modifies this, io, buffer
      ensures Valid() && !writing
      ensures (View(), Pushed(), out) == old(ReadRef(View(), Pushed(), n))
      ensures !strategy.Unbuffered? && |out| < n ==> eof
    {
      hide Overwrite, ReadFlat, From;
      StopWriting();
      var head := ReadPushedBack(n);
      var tail := ReadByStrategy(n - |head|);
      out := head + tail;
    }

    method ReadByStrategy(n: nat) returns (out: seq<byte>)
      requires !writing && ReadShape()
      modifies this`dataLen, this`dataOffset, this`offset, this`eof, io, buffer
      ensures ReadShape() && Pushed() == old(Pushed())
      ensures (View(), out) == old(ReadFlat(View(), n))
      ensures !strategy.Unbuffered? && |out| < n ==> eof
    {
      hide Overwrite, ReadFlat;
      if strategy.Unbuffered? {
        out := ReadUnbuffered(n);
      } else {
        out := ReadBuffered(n);
      }
    }

    /** es_unreadn: as many bytes as there is room for, on top of those already there. */
    method Unreadn(src: seq<byte>) returns (n: nat)
      requires Valid()
      modifies this`unreadLen, this`eof, unread
      ensures Valid() && View() == old(View())
      ensures n == Min(|src|, UNREAD_SIZE - old(unreadLen))
      ensures Pushed() == old(Pushed()) + src[..n]
    {
      hide Overwrite;
      var space := UNREAD_SIZE - unreadLen;
      n := Min(|src|, space);
      if n != 0 {
        forall i | 0 <= i < n {
          unread[unreadLen + i] := src[i];
        }
        unreadLen := unreadLen + n;
        eof := false;
      }
    }

    /** es_seek */
    method Seek(off: int, whence: Whence) returns (r: Option<nat>)
      requires Valid()
      modifies this, io
      ensures Valid() && !writing
      ensures r == SeekTarget(old(View()), RelativeTo(old(Pushed()), off, whence), whence)
      ensures View() == Flat(old(View().data), if r.Some? then r.value else old(View().pos))
      ensures Pushed() == if r.Some? then [] else old(Pushed())
      ensures r.Some? ==> WriteShape() && dataOffset == 0
    {
      hide Overwrite;
      StopWriting();
      var o := off;
      if whence == SeekCur {
        o := o - dataLen + dataOffset;
        o := o - unreadLen;
      }
      r := io.Seek(o, whence);
      if r.Some? {
        dataLen, dataOffset, unreadLen := 0, 0, 0;
        eof := false;
        offset := r.value;
      }
    }

    /** es_write_nbf */
    method WriteUnbuffered(src: seq<byte>)
      requires WriteShape() && dataOffset == 0
      modifies this`offset, io
      ensures WriteShape() && offset == old(offset) + |src|
      ensures io.data == old(Overwrite(io.data, offset, src))
    {
      hide Overwrite;
      ghost var data0 := io.data;
      var written := 0;
      OverwriteNothing(data0, offset);
      while written < |src|
        invariant written <= |src| && io.pos == offset + written && offset == old(offset)
        invariant io.data == Overwrite(data0, offset, src[..written])
      {
        var n := io.Write(src[written..]);
        OverwriteAppend(data0, offset, src[..written], src[written..][..n]);
        TakeMore(src, written, n);
        written := written + n;
      }
      assert src[..written] == src;
      offset := offset + written;
    }

    /** es_write_fbf: it aborts in the flush exactly when it overflows the buffer while the
        stream is still marked as reading. */
    method WriteBuffered(src: seq<byte>) returns (ok: bool)
      requires WriteShape() && buffer.Length > 0
      modifies this`dataFlushed, this`dataOffset, this`offset, io, buffer
      ensures ok <==> writing || old(dataOffset) + |src| <= buffer.Length
      ensures ok ==> WriteShape() && offset + dataOffset == old(offset + dataOffset) + |src|
      ensures ok && !writing ==> dataOffset == old(dataOffset) + |src|
      ensures ok ==> Total() == Overwrite(old(Total()), old(offset + dataOffset), src)
    {
      hide Overwrite;
      ghost var v0, p0 := Total(), offset + dataOffset;
      var written := 0;
      OverwriteNothing(v0, p0);
      ok := true;
      while written < |src|
        invariant written <= |src| && WriteShape() && buffer.Length > 0
        invariant offset + dataOffset == p0 + written
        invariant !writing ==> dataOffset == old(dataOffset) + written
        invariant Total() == Overwrite(v0, p0, src[..written])
      {
        if dataOffset == buffer.Length {
          ok := FlushBuffer();
          if !ok {
            return;
          }
          OverwriteNothing(io.data, offset);
          assert Pending() == [];
        }
        var n := Min(|src| - written, buffer.Length - dataOffset);
        var part := src[written..written + n];
        ghost var pending := Pending();
        forall i | 0 <= i < n {
          buffer[dataOffset + i] := part[i];
        }
        dataOffset := dataOffset + n;
        assert Pending() == pending + part;
        OverwriteAppend(io.data, offset, pending, part);
        OverwriteAppend(v0, p0, src[..written], part);
        assert src[..written] + part == src[..written + n];
        written := written + n;
      }
      assert src[..written] == src;
    }

    /** es_write_lbf: everything up to the last newline goes straight to the backend. */
    method WriteLineBuffered(src: seq<byte>) returns (ok: bool)
      requires WriteShape() && buffer.Length > 0 && (!writing ==> dataOffset == 0)
      modifies this`dataFlushed, this`dataOffset, this`offset, io, buffer
      ensures ok <==> writing || (LF !in src && |src| <= buffer.Length)
      ensures ok ==> WriteShape() && offset + dataOffset == old(offset + dataOffset) + |src|
      ensures ok && !writing ==> dataOffset == old(dataOffset) + |src|
      ensures ok ==> Total() == Overwrite(old(Total()), old(offset + dataOffset), src)
    {
      hide Overwrite;
      var nl := LastNewline(src);
      if nl > 0 {
        assert LF in src;
        ok := FlushBuffer();
        if !ok {
          return;
        }
        ghost var v0, p0 := io.data, offset;
        OverwriteNothing(v0, p0);
        WriteUnbuffered(src[..nl]);
        OverwriteNothing(io.data, offset);
        assert Pending() == [];
        ok := WriteBuffered(src[nl..]);
        OverwriteAppend(v0, p0, src[..nl], src[nl..]);
        assert src[..nl] + src[nl..] == src;
      } else {
        ok := WriteBuffered(src);
      }
    }

    /** memrchr: one more than the index of the last newline, 0 without one. */
    static method LastNewline(src: seq<byte>) returns (n: nat)
      ensures n <= |src| && LF !in src[n..]
      ensures n > 0 ==> src[n - 1] == LF
      ensures n == 0 ==> LF !in src
    {
      n := |src|;
      while n > 0 && src[n - 1] != LF
        invariant n <= |src| && LF !in src[n..]
      {
        n := n - 1;
        assert src[n..] == [src[n]] + src[n + 1..];
      }
      assert n == 0 ==> src[n..] == src;
    }

    /** es_writen.  A write that follows reading is refused if more was pushed back than stands
        in front of the position, and else seeks to where reading stopped. */
    method Writen(src: seq<byte>) returns (reply: Reply)
      requires Valid()
      modifies this, io, buffer
      ensures reply == old(WriteRef(AsRef(), src, strategy, buffer.Length)).1
      ensures !reply.Aborted? ==> Valid() && AsRef() == old(WriteRef(AsRef(), src, strategy, buffer.Length)).0
    {
      hide Overwrite;
      reply := Count(|src|);
      if !writing {
        var r := Seek(0, SeekCur);
        if r.None? {
          return Refused;
        }
        OverwriteNothing(io.data, offset);
        assert Pending() == [];
      }
      ghost var data, pos := Total(), offset + dataOffset;
      var ok := WriteByStrategy(src);
      if !ok {
        return Aborted;
      }
      ghost var total := Total();
      if src != [] {
        writing := true;
      }
      assert total == Total();
      if !writing {
        OverwriteNothing(data, pos);
        OverwriteNothing(io.data, offset);
        assert Pending() == [];
      }
    }

    method WriteByStrategy(src: seq<byte>) returns (ok: bool)
      requires WriteShape() && (!writing ==> dataOffset == 0)
      modifies this`dataFlushed, this`dataOffset, this`offset, io, buffer
      ensures ok <==> WriteAccepted(writing, strategy, buffer.Length, src)
      ensures ok ==> WriteShape() && offset + dataOffset == old(offset + dataOffset) + |src|
      ensures ok ==> Pushed() == old(Pushed())
      ensures ok && !writing && src == [] ==> dataOffset == 0
      ensures ok ==> Total() == Overwrite(old(Total()), old(offset + dataOffset), src)
    {
      hide Overwrite;
      match strategy {
        case Unbuffered =>
          OverwriteNothing(io.data, offset);
          assert Pending() == [];
          WriteUnbuffered(src);
          OverwriteNothing(io.data, offset);
          assert Pending() == [];
          ok := true;
        case LineBuffered =>
          ok := WriteLineBuffered(src);
        case FullyBuffered =>
          ok := WriteBuffered(src);
      }
    }

    /** es_offset_calculate */
    method Tell() returns (pos: int)
      requires Valid()
      ensures pos == Max(0, View().pos - |Pushed()|)
    {
      pos := offset + dataOffset;
      if pos < unreadLen {
        pos := 0;
      } else {
        pos := pos - unreadLen;
      }
    }

    /** es_getc with its fast path */
    method Getc() returns (c: Option<byte>)
      requires Valid()
      modifies this, io, buffer
      ensures Valid() && !writing
      ensures (View(), Pushed(), if c.Some? then [c.value] else []) == old(ReadRef(View(), Pushed(), 1))
    {
      if !writing && dataOffset < dataLen && unreadLen == 0 {
        assert buffer[dataOffset] == buffer[..dataLen][dataOffset] == io.data[offset + dataOffset];
        ReadFlatIs(io.data, offset + dataOffset, 1, [buffer[dataOffset]]);
        hide ReadFlat;
        c := Some(buffer[dataOffset]);
        dataOffset := dataOffset + 1;
        assert Popped([], 0) + [c.value] == [c.value];
      } else {
        hide ReadFlat, View, Pushed, Popped;
        var out := Readn(1);
        c := if out == [] then None else Some(out[0]);
        assert out == [] || out == [out[0]];
      }
    }

    /** es_putc with its fast path */
    method Putc(c: byte) returns (reply: Reply)
      requires Valid()
      modifies this, io, buffer
      ensures reply == old(WriteRef(AsRef(), [c], strategy, buffer.Length)).1
      ensures !reply.Aborted? ==> Valid() && AsRef() == old(WriteRef(AsRef(), [c], strategy, buffer.Length)).0
    {
      hide Overwrite;
      if writing && dataOffset < buffer.Length && c != LF {
        ghost var pending := Pending();
        buffer[dataOffset] := c;
        dataOffset := dataOffset + 1;
        assert Pending() == pending + [c];
        OverwriteAppend(io.data, offset, pending, [c]);
        reply := Count(1);
      } else {
        reply := Writen([c]);
      }
    }

    /** The reference state the stream stands for. */
    ghost function AsRef(): Ref
      requires Valid()
      reads this, io, buffer, unread
    {
      Ref(View(), writing, Pushed())
    }

    /** es_fflush while writing */
    method FlushWritten()
      requires Valid() && writing
      modifies this`dataFlushed, this`dataOffset, this`offset, io
      ensures Valid() && View() == old(View()) && Pushed() == old(Pushed())
    {
      hide Overwrite;
      var ok := FlushBuffer();
      OverwriteNothing(io.data, offset);
      assert Pending() == [];
    }

    /** One operation. */
    method Do(op: Op) returns (reply: Reply)
      requires Valid()
      modifies this, io, buffer, unread
      ensures reply == old(Step(AsRef(), op, strategy, buffer.Length)).1
      ensures !reply.Aborted? ==> Valid() && AsRef() == old(Step(AsRef(), op, strategy, buffer.Length)).0
    {
      hide Overwrite, ReadFlat, View, Pushed, Popped, WriteRef, ReadShape, WriteShape;
      match op
      case Read(n) =>
        var out := Readn(n);
        reply := Bytes(out);
      case Getc =>
        var c := this.Getc();
        reply := Bytes(if c.Some? then [c.value] else []);
      case Write(src) =>
        reply := Writen(src);
      case Putc(c) =>
        reply := this.Putc(c);
      case Seek(off, whence) =>
        var r := this.Seek(off, whence);
        reply := At(r);
      case PushBack(src) =>
        var n := Unreadn(src);
        reply := Count(n);
      case Flush =>
        if writing {
          FlushWritten();
        }
        reply := Count(0);
      case Tell =>
        var p := this.Tell();
        reply := At(Some(p));
    }

    /** Every run of operations answers as the reference does, and leaves the same contents,
        position and pushed back bytes. */
    method RunAll(ops: seq<Op>) returns (replies: seq<Reply>)
      requires Valid()
      modifies this, io, buffer, unread
      ensures replies == old(Run(AsRef(), ops, strategy, buffer.Length)).1
      ensures Aborted !in replies ==> Valid() && AsRef() == old(Run(AsRef(), ops, strategy, buffer.Length)).0
    {
      hide Step, Overwrite, View, Pushed;
      ghost var r0 := AsRef();
      replies := [];
      for i := 0 to |ops|
        invariant Valid()
        invariant Run(r0, ops[..i], strategy, buffer.Length) == (AsRef(), replies)
        invariant Aborted !in replies
      {
        RunSnoc(r0, ops[..i], ops[i], strategy, buffer.Length);
        assert ops[..i] + [ops[i]] == ops[..i + 1];
        assert ops[..i + 1] + ops[i + 1..] == ops;
        var reply := Do(ops[i]);
        replies := replies + [reply];
        if reply == Aborted {
          RunAborted(r0, ops[..i + 1], ops[i + 1..], strategy, buffer.Length);
          return;
        }
      }
      assert ops[..|ops|] == ops;
    }

    /** A run that pushes back nothing but what stands in front of the position answers as one
        byte array with one position, and leaves its contents and position. */
    method RunPlain(ops: seq<Op>) returns (replies: seq<Reply>)
      requires Valid() && Pushed() == [] && AllHonest(AsRef(), ops, strategy, buffer.Length)
      modifies this, io, buffer, unread
      ensures replies == old(PlainRun(Plain(View(), writing, UNREAD_SIZE), ops, strategy, buffer.Length)).1
      ensures Aborted !in replies ==>
                Valid() && InFront(AsRef())
                && PlainOf(AsRef()) == old(PlainRun(Plain(View(), writing, UNREAD_SIZE), ops, strategy,
                    buffer.Length)).0
    {
      hide Run, PlainRun, View, AllHonest;
      ghost var r := AsRef();
      assert InFront(r) && PlainOf(r) == Plain(View(), writing, UNREAD_SIZE);
      RunIsPlain(r, ops, strategy, buffer.Length);
      hide InFront, PlainOf, Pushed;
      replies := RunAll(ops);
    }
  }
}
