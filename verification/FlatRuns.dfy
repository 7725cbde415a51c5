/** Where only bytes are pushed back that stand in front of the position, the stack of pushed
    back bytes cannot be seen: the reference is one byte array with one position. */
module FlatRuns {
  import opened Common
  import opened FlatFile

  /** The byte array, its one position, the direction and the room for pushback. */
  datatype Plain = Plain(file: Flat, writing: bool, room: nat)

  function PlainRead(p: Plain, n: nat): (Plain, Reply) {
    var (f, got) := ReadFlat(p.file, n);
    (Plain(f, false, Min(UNREAD_SIZE, p.room + n)), Bytes(got))
  }

  function PlainWrite(p: Plain, src: seq<byte>, strategy: Strategy, size: nat): (Plain, Reply) {
    if !WriteAccepted(p.writing, strategy, size, src) then (p, Aborted)
    else
      (Plain(Flat(Overwrite(p.file.data, p.file.pos, src), p.file.pos + |src|), p.writing || src != [], UNREAD_SIZE),
       Count(|src|))
  }

  function PlainStep(p: Plain, op: Op, strategy: Strategy, size: nat): (Plain, Reply) {
    match op
    case Read(n) => PlainRead(p, n)
    case Getc => PlainRead(p, 1)
    case Write(src) => PlainWrite(p, src, strategy, size)
    case Putc(c) => PlainWrite(p, [c], strategy, size)
    case Seek(off, whence) =>
      (match SeekTarget(p.file, off, whence)
       case None => (p.(writing := false), At(None))
       case Some(t) => (Plain(Flat(p.file.data, t), false, UNREAD_SIZE), At(Some(t))))
    case PushBack(src) =>
      var n := Min(|src|, p.room);
      (Plain(p.file.(pos := Max(0, p.file.pos - n)), p.writing, p.room - n), Count(n))
    case Flush => (p, Count(0))
    case Tell => (p, At(Some(p.file.pos)))
  }

  function PlainRun(p: Plain, ops: seq<Op>, strategy: Strategy, size: nat): (Plain, seq<Reply>)
    decreases |ops|
  {
    if ops == [] then (p, []) else
    var (p1, reply) := PlainStep(p, ops[0], strategy, size);
    if reply.Aborted? then (p1, [reply]) else
    var (p2, rest) := PlainRun(p1, ops[1..], strategy, size);
    (p2, [reply] + rest)
  }

  /** Pushed back is, innermost first, what stands in front of the file's position. */
  predicate InFront(r: Ref) {
    && |r.pushed| <= Min(UNREAD_SIZE, r.file.pos)
    && (r.pushed != [] ==> r.file.pos <= |r.file.data| && !r.writing)
    && (forall i | 0 <= i < |r.pushed| && r.file.pos <= |r.file.data| :: r.pushed[i] == r.file.data[r.file.pos - 1 - i])
  }

  function PlainOf(r: Ref): Plain
    requires InFront(r)
  {
    Plain(Flat(r.file.data, r.file.pos - |r.pushed|), r.writing, UNREAD_SIZE - |r.pushed|)
  }

  /** Bytes are pushed back only while reading, and only those that stand in front of the
      position, the nearest first. */
  predicate Honest(r: Ref, op: Op) {
    op.PushBack? && op.src != [] ==>
      && !r.writing && |op.src| <= Logical(r) <= |r.file.data|
      && forall i | 0 <= i < |op.src| :: op.src[i] == r.file.data[Logical(r) - 1 - i]
  }

  predicate AllHonest(r: Ref, ops: seq<Op>, strategy: Strategy, size: nat)
    decreases |ops|
  {
    ops == [] || (Honest(r, ops[0]) && AllHonest(Step(r, ops[0], strategy, size).0, ops[1..], strategy, size))
  }

  lemma PoppedInFront(r: Ref, k: nat)
    requires InFront(r) && k <= |r.pushed|
    ensures Popped(r.pushed, k) <= From(r.file.data, Logical(r))
  {
    if k > 0 {
      assert From(r.file.data, Logical(r)) == r.file.data[Logical(r)..];
    }
  }

  lemma ReadIsPlain(r: Ref, n: nat)
    requires InFront(r)
    ensures
      var (f, pushed, got) := ReadRef(r.file, r.pushed, n);
      var r' := Ref(f, false, pushed);
      InFront(r') && (PlainOf(r'), Bytes(got)) == PlainRead(PlainOf(r), n)
  {
    hide ReadFlat, From;
    var k := Min(n, |r.pushed|);
    PoppedInFront(r, k);
    ReadFlatSplit(PlainOf(r).file, n, Popped(r.pushed, k));
    if k < |r.pushed| {
      ReadNothing(r.file);
    }
  }

  lemma ReadNothing(f: Flat)
    ensures ReadFlat(f, 0) == (f, [])
  {
  }

  lemma WriteIsPlain(r: Ref, src: seq<byte>, strategy: Strategy, size: nat)
    requires InFront(r)
    ensures
      var (r', reply) := WriteRef(r, src, strategy, size);
      InFront(r') && (PlainOf(r'), reply) == PlainWrite(PlainOf(r), src, strategy, size)
  {
    hide Overwrite;
  }

  lemma PushBackIsPlain(r: Ref, src: seq<byte>, strategy: Strategy, size: nat)
    requires InFront(r) && Honest(r, PushBack(src))
    ensures
      var (r', reply) := Step(r, PushBack(src), strategy, size);
      InFront(r') && (PlainOf(r'), reply) == PlainStep(PlainOf(r), PushBack(src), strategy, size)
  {
    var n := Min(|src|, UNREAD_SIZE - |r.pushed|);
    var r' := r.(pushed := r.pushed + src[..n]);
    if n == 0 {
      assert r' == r;
    } else {
      forall i | 0 <= i < |r'.pushed| ensures r'.pushed[i] == r.file.data[r.file.pos - 1 - i] {
        if i >= |r.pushed| {
          assert r'.pushed[i] == src[i - |r.pushed|];
        }
      }
      assert InFront(r');
    }
    hide InFront;
  }

  /** One honest operation is one operation on the plain file. */
  lemma StepIsPlain(r: Ref, op: Op, strategy: Strategy, size: nat)
    requires InFront(r) && Honest(r, op)
    ensures
      var (r', reply) := Step(r, op, strategy, size);
      InFront(r') && (PlainOf(r'), reply) == PlainStep(PlainOf(r), op, strategy, size)
  {
    hide ReadRef, PlainRead, WriteRef, PlainWrite;
    match op
    case Read(n) => ReadIsPlain(r, n);
    case Getc => ReadIsPlain(r, 1);
    case Write(src) => WriteIsPlain(r, src, strategy, size);
    case Putc(c) => WriteIsPlain(r, [c], strategy, size);
    case PushBack(src) => PushBackIsPlain(r, src, strategy, size);
    case _ =>
  }

  /** Every honest run answers as one byte array with one position, and leaves its contents and
      position. */
  lemma {:induction false} RunIsPlain(r: Ref, ops: seq<Op>, strategy: Strategy, size: nat)
    requires InFront(r) && AllHonest(r, ops, strategy, size)
    ensures
      var (r', replies) := Run(r, ops, strategy, size);
      InFront(r') && (PlainOf(r'), replies) == PlainRun(PlainOf(r), ops, strategy, size)
    decreases |ops|
  {
    hide Step, PlainStep, InFront, Honest;
    if ops != [] {
      StepIsPlain(r, ops[0], strategy, size);
      if !Step(r, ops[0], strategy, size).1.Aborted? {
        RunIsPlain(Step(r, ops[0], strategy, size).0, ops[1..], strategy, size);
      }
    }
  }

  /** What a read delivered may go back, the last byte first, as far as one likes. */
  lemma DeliveredIsHonest(r: Ref, n: nat, k: nat, strategy: Strategy, size: nat)
    requires InFront(r) && k <= |ReadRef(r.file, r.pushed, n).2|
    ensures
      var (r', reply) := Step(r, Read(n), strategy, size);
      reply == Bytes(ReadRef(r.file, r.pushed, n).2) && Honest(r', PushBack(Popped(reply.bytes, k)))
  {
    ReadIsPlain(r, n);
    var (r', reply) := Step(r, Read(n), strategy, size);
    hide InFront, ReadRef;
    var f := PlainOf(r).file;
    var got := ReadFlat(f, n).1;
    assert reply.bytes == got && Logical(r') == f.pos + |got| && r'.file.data == f.data;
    if k > 0 {
      assert got == f.data[f.pos..][..|got|];
      Delivered(f, got, k);
    }
  }

  lemma Delivered(f: Flat, got: seq<byte>, k: nat)
    requires 0 < k <= |got| && f.pos + |got| <= |f.data| && got == f.data[f.pos..][..|got|]
    ensures forall i | 0 <= i < k :: Popped(got, k)[i] == f.data[f.pos + |got| - 1 - i]
  {
    assert forall j | 0 <= j < |got| :: got[j] == f.data[f.pos + j];
  }

  /** A write where the assertion fails: two bytes behind a read, through a buffer of one. */
  lemma AbortedWrite(data: seq<byte>)
    ensures Run(Ref(Flat(data, 0), true, []), [Read(0), Write([1, 2])], FullyBuffered, 1).1 == [Bytes([]), Aborted]
  {
    var r := Ref(Flat(data, 0), true, []);
    var ops := [Read(0), Write([1, 2])];
    assert ops[1..] == [Write([1, 2])];
    ReadNothing(r.file);
    hide ReadFlat;
    assert Popped([], 0) + [] == [] && r.pushed[..0] == [];
    var r1 := Step(r, Read(0), FullyBuffered, 1).0;
    assert Step(r, Read(0), FullyBuffered, 1) == (Ref(r.file, false, []), Bytes([]));
    assert Step(r1, ops[1], FullyBuffered, 1) == (r1, Aborted);
    assert Run(r1, [Write([1, 2])], FullyBuffered, 1).1 == [Aborted];
  }

  /** Through a line-buffered stream of eight the byte 10 behind a read aborts, and no other
      byte does. */
  lemma LineFeedAborts(data: seq<byte>, c: byte)
    ensures Run(Ref(Flat(data, 0), true, []), [Read(0), Write([c])], LineBuffered, 8).1
         == [Bytes([]), if c == 10 then Aborted else Count(1)]
  {
    hide *;
    var r := Ref(Flat(data, 0), true, []);
    var r1 := Ref(r.file, false, []);
    EmptyRead(r);
    LineWrite(r.file, c);
    RunTwo(r, Read(0), Write([c]), LineBuffered, 8);
  }

  lemma EmptyRead(r: Ref)
    requires r.pushed == []
    ensures Step(r, Read(0), LineBuffered, 8) == (Ref(r.file, false, []), Bytes([]))
  {
    ReadNothing(r.file);
    hide ReadFlat;
    assert Popped([], 0) + [] == [] && r.pushed[..0] == [];
  }

  lemma LineWrite(file: Flat, c: byte)
    ensures Step(Ref(file, false, []), Write([c]), LineBuffered, 8).1 == if c == 10 then Aborted else Count(1)
  {
    assert WriteAccepted(false, LineBuffered, 8, [c]) <==> c != 10;
    hide WriteAccepted, Overwrite;
  }

  lemma RunTwo(r: Ref, a: Op, b: Op, strategy: Strategy, size: nat)
    requires !Step(r, a, strategy, size).1.Aborted?
    ensures Run(r, [a, b], strategy, size).1
         == [Step(r, a, strategy, size).1, Step(Step(r, a, strategy, size).0, b, strategy, size).1]
  {
    hide Step;
    var ops := [a, b];
    assert ops[1..] == [b] && [b][1..] == [];
    var (r1, first) := Step(r, a, strategy, size);
    var (r2, second) := Step(r1, b, strategy, size);
    assert Run(r2, [], strategy, size).1 == [];
    assert Run(r1, [b], strategy, size).1 == [second];
  }

  /** Of twenty bytes sixteen can be pushed back, and then no more. */
  lemma PushbackOfTwenty(r: Ref, src: seq<byte>, more: seq<byte>, strategy: Strategy, size: nat)
    requires r.pushed == [] && |src| == 20 && more != []
    ensures
      var (r1, reply) := Step(r, PushBack(src), strategy, size);
      reply == Count(16) && r1.pushed == src[..16] && Step(r1, PushBack(more), strategy, size) == (r1, Count(0))
  {
    assert [] + src[..16] == src[..16];
    assert src[..16] + more[..0] == src[..16];
  }

  /** Where a seek goes: from the start, from where reading stands, or from the end; never in
      front of the start. */
  lemma SeekGoes(r: Ref, off: int, whence: Whence, strategy: Strategy, size: nat)
    ensures
      var target := match whence
                    case SeekSet => off
                    case SeekCur => r.file.pos - |r.pushed| + off
                    case SeekEnd => |r.file.data| + off;
      var (r1, reply) := Step(r, Seek(off, whence), strategy, size);
      && r1.file.data == r.file.data && !r1.writing
      && if target < 0 then reply == At(None) && r1.file == r.file && r1.pushed == r.pushed
         else reply == At(Some(target)) && r1.file.pos == target && r1.pushed == []
  {
  }
}
