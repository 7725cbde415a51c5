/** The reference for buffered streams: a byte array with a position and a stack of bytes that
    were pushed back. */
module FlatFile {
  import opened Common

  /** The bytes a reader standing at `pos` can still get. */
  function From(data: seq<byte>, pos: nat): seq<byte> {
    if pos <= |data| then data[pos..] else []
  }

  lemma SliceOfSlice(s: seq<byte>, a: nat, b: nat, i: nat, j: nat)
    requires i <= j && a + j <= b <= |s|
    ensures s[a..b][i..j] == s[a + i..a + j]
  {
    forall k | 0 <= k < j - i ensures s[a..b][i..j][k] == s[a + i..a + j][k] {
      assert s[a..b][i + k] == s[a + i + k];
    }
  }

  lemma FromAppend(data: seq<byte>, pos: nat, head: seq<byte>, tail: seq<byte>)
    requires head <= From(data, pos) && tail <= From(data, pos + |head|)
    ensures head + tail <= From(data, pos)
  {
    if tail == [] {
      assert head + tail == head;
    } else {
      assert From(data, pos)[|head|..] == From(data, pos + |head|);
    }
  }

  function Padded(data: seq<byte>, n: nat): (r: seq<byte>)
    ensures |r| == Max(n, |data|)
    ensures data <= r
    ensures forall i | |data| <= i < |r| :: r[i] == 0
  {
    if n <= |data| then data else data + seq(n - |data|, _ => 0)
  }

  /** Writing `src` at `at`; a gap behind the end of the file reads as zero. */
  function Overwrite(data: seq<byte>, at: nat, src: seq<byte>): seq<byte> {
    if src == [] then data else
    var d := Padded(data, at + |src|);
    d[..at] + src + d[at + |src|..]
  }

  /** Byte k of the file after a write. */
  function ByteAfter(data: seq<byte>, at: nat, src: seq<byte>, k: nat): byte {
    if at <= k < at + |src| then src[k - at] else if k < |data| then data[k] else 0
  }

  lemma OverwriteBytes(data: seq<byte>, at: nat, src: seq<byte>)
    ensures |Overwrite(data, at, src)| == if src == [] then |data| else Max(|data|, at + |src|)
    ensures forall k | 0 <= k < |Overwrite(data, at, src)| :: Overwrite(data, at, src)[k] == ByteAfter(data, at, src, k)
  {
    if src != [] {
      var d := Padded(data, at + |src|);
      assert forall k | 0 <= k < |d| :: d[k] == if k < |data| then data[k] else 0;
    }
  }

  /** Two adjacent writes are one write of the concatenation. */
  lemma OverwriteAppend(data: seq<byte>, at: nat, a: seq<byte>, b: seq<byte>)
    ensures Overwrite(Overwrite(data, at, a), at + |a|, b) == Overwrite(data, at, a + b)
  {
    hide Overwrite;
    var d := Overwrite(data, at, a);
    OverwriteBytes(data, at, a);
    OverwriteBytes(d, at + |a|, b);
    OverwriteBytes(data, at, a + b);
    var l, r := Overwrite(d, at + |a|, b), Overwrite(data, at, a + b);
    assert |l| == |r|;
    forall k | 0 <= k < |l| ensures l[k] == r[k] {
      assert l[k] == ByteAfter(d, at + |a|, b, k) && r[k] == ByteAfter(data, at, a + b, k);
      if k < |d| {
        assert d[k] == ByteAfter(data, at, a, k);
      }
    }
  }

  lemma OverwriteNothing(data: seq<byte>, at: nat)
    ensures Overwrite(data, at, []) == data
  {
  }

  /** What is written is what is read back. */
  lemma ReadBack(data: seq<byte>, at: nat, src: seq<byte>)
    ensures src <= From(Overwrite(data, at, src), at)
  {
  }

  datatype Whence = SeekSet | SeekCur | SeekEnd

  datatype Flat = Flat(data: seq<byte>, pos: nat)

  datatype Strategy = Unbuffered | LineBuffered | FullyBuffered

  datatype Op =
    | Read(n: nat)
    | Getc
    | Write(src: seq<byte>)
    | Putc(c: byte)
    | Seek(off: int, whence: Whence)
    | PushBack(src: seq<byte>)
    | Flush                 // only done while writing
    | Tell

  /** `Refused` is an error return, `Aborted` a failed assertion. */
  datatype Reply = Bytes(bytes: seq<byte>) | Count(n: nat) | At(pos: Option<nat>) | Refused | Aborted

  /** The file, the direction of the last transfer, and the pushed back bytes, innermost first. */
  datatype Ref = Ref(file: Flat, writing: bool, pushed: seq<byte>)

  const LF: byte := 10
  const UNREAD_SIZE := 16

  /** Whether a write completes.  Switching from reading leaves the stream marked as reading
      until the write call returns, so the call must not need a flush. */
  predicate WriteAccepted(writing: bool, strategy: Strategy, size: nat, src: seq<byte>) {
    || writing
    || strategy.Unbuffered?
    || (|src| <= size && (strategy.LineBuffered? ==> LF !in src))
  }

  function SeekTarget(f: Flat, off: int, whence: Whence): Option<nat> {
    var t := match whence
             case SeekSet => off
             case SeekCur => f.pos + off
             case SeekEnd => |f.data| + off;
    if t < 0 then None else Some(t)
  }

  function ReadFlat(f: Flat, n: nat): (r: (Flat, seq<byte>))
    ensures r.0.data == f.data && r.0.pos == f.pos + |r.1| && |r.1| <= n
  {
    var avail := From(f.data, f.pos);
    var got := avail[..Min(n, |avail|)];
    (f.(pos := f.pos + |got|), got)
  }

  /** A reader that took as much as it wanted, or all there was, took what a flat read takes. */
  lemma ReadFlatIs(data: seq<byte>, pos: nat, n: nat, got: seq<byte>)
    requires got <= From(data, pos) && |got| <= n
    requires |got| < n ==> From(data, pos + |got|) == []
    ensures ReadFlat(Flat(data, pos), n) == (Flat(data, pos + |got|), got)
  {
    var avail := From(data, pos);
    assert got == avail[..Min(n, |avail|)];
  }

  /** A read split in two. */
  lemma ReadFlatSplit(f: Flat, n: nat, head: seq<byte>)
    requires |head| <= n && head <= From(f.data, f.pos)
    ensures var (f', tail) := ReadFlat(Flat(f.data, f.pos + |head|), n - |head|);
            ReadFlat(f, n) == (f', head + tail)
  {
    var (f', tail) := ReadFlat(Flat(f.data, f.pos + |head|), n - |head|);
    FromAppend(f.data, f.pos, head, tail);
    ReadFlatIs(f.data, f.pos, n, head + tail);
  }

  /** What comes back first: the last k bytes of the stack, the last one first. */
  function Popped(pushed: seq<byte>, k: nat): (r: seq<byte>)
    requires k <= |pushed|
    ensures |r| == k
  {
    seq(k, i requires 0 <= i < k => pushed[|pushed| - 1 - i])
  }

  /** A read takes what was pushed back first. */
  function ReadRef(f: Flat, pushed: seq<byte>, n: nat): (Flat, seq<byte>, seq<byte>) {
    var k := Min(n, |pushed|);
    var (f', got) := ReadFlat(f, n - k);
    (f', pushed[..|pushed| - k], Popped(pushed, k) + got)
  }

  /** The position that is reported and that a relative seek starts from. */
  function Logical(r: Ref): int {
    r.file.pos - |r.pushed|
  }

  function RelativeTo(pushed: seq<byte>, off: int, whence: Whence): int {
    if whence == SeekCur then off - |pushed| else off
  }

  /** A write; one that follows reading first seeks to where reading stopped. */
  function WriteRef(r: Ref, src: seq<byte>, strategy: Strategy, size: nat): (Ref, Reply) {
    if r.writing then
      (r.(file := Flat(Overwrite(r.file.data, r.file.pos, src), r.file.pos + |src|)), Count(|src|))
    else if Logical(r) < 0 then (r, Refused)
    else if !WriteAccepted(false, strategy, size, src) then (r, Aborted)
    else (Ref(Flat(Overwrite(r.file.data, Logical(r), src), Logical(r) + |src|), src != [], []), Count(|src|))
  }

  /** One operation.  Nothing here knows about the buffer except the size limit in
      WriteAccepted. */
  function Step(r: Ref, op: Op, strategy: Strategy, size: nat): (Ref, Reply) {
    match op
    case Read(n) =>
      var (f, pushed, got) := ReadRef(r.file, r.pushed, n);
      (Ref(f, false, pushed), Bytes(got))
    case Getc =>
      var (f, pushed, got) := ReadRef(r.file, r.pushed, 1);
      (Ref(f, false, pushed), Bytes(got))
    case Write(src) => WriteRef(r, src, strategy, size)
    case Putc(c) => WriteRef(r, [c], strategy, size)
    case Seek(off, whence) =>
      (match SeekTarget(r.file, RelativeTo(r.pushed, off, whence), whence)
       case None => (r.(writing := false), At(None))
       case Some(t) => (Ref(Flat(r.file.data, t), false, []), At(Some(t))))
    case PushBack(src) =>
      var n := Min(|src|, UNREAD_SIZE - Min(UNREAD_SIZE, |r.pushed|));
      (r.(pushed := r.pushed + src[..n]), Count(n))
    case Flush => (r, Count(0))
    case Tell => (r, At(Some(Max(0, Logical(r)))))
  }

  /** A whole run; it ends early when the process aborts. */
  function Run(r: Ref, ops: seq<Op>, strategy: Strategy, size: nat): (Ref, seq<Reply>)
    decreases |ops|
  {
    if ops == [] then (r, []) else
    var (r1, reply) := Step(r, ops[0], strategy, size);
    if reply.Aborted? then (r1, [reply]) else
    var (r2, rest) := Run(r1, ops[1..], strategy, size);
    (r2, [reply] + rest)
  }

  /** Running one operation more. */
  lemma {:induction false} RunSnoc(r: Ref, ops: seq<Op>, op: Op, strategy: Strategy, size: nat)
    requires Aborted !in Run(r, ops, strategy, size).1
    ensures var (r1, replies) := Run(r, ops, strategy, size);
            var (r2, reply) := Step(r1, op, strategy, size);
            Run(r, ops + [op], strategy, size) == (r2, replies + [reply])
    decreases |ops|
  {
    hide Step;
    if ops == [] {
      assert ops + [op] == [op];
      var (r1, reply) := Step(r, op, strategy, size);
      assert [reply] + [] == [reply] == [] + [reply];
      assert Run(r1, [], strategy, size) == (r1, []);
    } else {
      var (r1, reply) := Step(r, ops[0], strategy, size);
      assert reply == Run(r, ops, strategy, size).1[0];
      assert forall x :: x in Run(r1, ops[1..], strategy, size).1 ==> x in Run(r, ops, strategy, size).1;
      RunSnoc(r1, ops[1..], op, strategy, size);
      assert (ops + [op])[1..] == ops[1..] + [op];
      var (r2, rest) := Run(r1, ops[1..], strategy, size);
      var x := Step(r2, op, strategy, size).1;
      assert [reply] + (rest + [x]) == [reply] + rest + [x];
    }
  }

  /** An aborted run is not changed by operations behind the abort. */
  lemma {:induction false} RunAborted(r: Ref, ops: seq<Op>, more: seq<Op>, strategy: Strategy, size: nat)
    requires Aborted in Run(r, ops, strategy, size).1
    ensures Run(r, ops + more, strategy, size) == Run(r, ops, strategy, size)
    decreases |ops|
  {
    if ops != [] {
      assert (ops + more)[1..] == ops[1..] + more;
      var (r1, reply) := Step(r, ops[0], strategy, size);
      if !reply.Aborted? {
        RunAborted(r1, ops[1..], more, strategy, size);
      }
    }
  }
}
