/** Tag-length-value coding as the PKCS#12 writer and reader use it (X.690 section 8.1). */
module Der {
  import opened Common

  const INTEGER: byte := 2
  const OCTET_STRING: byte := 4
  const NULL_TAG: byte := 5
  const OBJECT_ID: byte := 6
  const SEQUENCE: byte := 16
  const SET: byte := 17
  const CONTEXT_0: byte := 0xa0
  const CONTEXT_0_PRIMITIVE: byte := 0x80

  const LIMIT := 65536
  const ULONG: nat := 0x1_0000_0000_0000_0000

  // ---------- writing ----------

  /** compute_tag_length; 0 reports an object that is too large. */
  function TagLength(n: nat): nat {
    if n < 128 then 2 else if n < 256 then 3 else if n < LIMIT then 4 else 0
  }

  function TagByte(tag: byte): byte {
    if tag == SEQUENCE then SEQUENCE + 0x20 else tag
  }

  /** store_tag_length */
  function Header(tag: byte, n: nat): (h: seq<byte>)
    ensures n < LIMIT ==> |h| == TagLength(n)
  {
    [TagByte(tag)]
    + if n < 128 then [n] else if n < 256 then [0x81, n] else if n < LIMIT then [0x82, n / 256, n % 256] else []
  }

  /** A complete object: its length field is the length of its contents. */
  function Tlv(tag: byte, content: seq<byte>): (t: seq<byte>)
    ensures |t| > |content|
    ensures |content| < LIMIT ==> |t| == TagLength(|content|) + |content|
  {
    Header(tag, |content|) + content
  }

  // ---------- reading ----------

  datatype TagInfo = TagInfo(cls: nat, constructed: bool, tag: nat, length: nat, nhdr: nat, ndef: bool)

  /** The continuation octets of a long tag; an unsigned long has 64 bits. */
  function ReadTag(s: seq<byte>, i: nat, acc: nat): (r: Option<(nat, nat)>)
    ensures r.Some? ==> i < r.value.1 <= |s|
    decreases |s| - i
  {
    if i >= |s| then None else
    var t := acc * 128 % ULONG + s[i] % 128;
    if s[i] >= 128 then ReadTag(s, i + 1, t) else Some((t, i + 1))
  }

  /** The octets of a long length. */
  function ReadLength(s: seq<byte>, i: nat, count: nat, acc: nat): (r: Option<(nat, nat)>)
    ensures r.Some? ==> r.value.1 == i + count && (i <= |s| ==> r.value.1 <= |s|)
    decreases count
  {
    if count == 0 then Some((acc, i))
    else if i >= |s| then None
    else ReadLength(s, i + 1, count - 1, acc * 256 % ULONG + s[i])
  }

  /** Length, whether it is indefinite, and where it ends. */
  function LengthField(s: seq<byte>, i: nat): (r: Option<(nat, bool, nat)>)
    ensures r.Some? ==> i < r.value.2 <= |s|
  {
    if i >= |s| then None
    else if s[i] < 0x80 then Some((s[i], false, i + 1))
    else if s[i] == 0x80 then Some((0, true, i + 1))
    else if s[i] == 0xff then None
    else
      match ReadLength(s, i + 1, s[i] - 0x80, 0)
      case None => None
      case Some(p) => Some((p.0, false, p.1))
  }

  function TagField(s: seq<byte>): (r: Option<(nat, nat)>)
    ensures r.Some? ==> 0 < r.value.1 <= |s|
  {
    if s == [] then None
    else if s[0] % 32 == 31 then ReadTag(s, 1, 0)
    else Some((s[0] % 32, 1))
  }

  /** What parse_tag reads at the start of s: the header, and what follows it. */
  function Decoded(s: seq<byte>): (r: Option<(TagInfo, seq<byte>)>)
    ensures r.Some? ==> |r.value.1| < |s| && r.value.0.length <= |r.value.1|
    ensures r.Some? ==> r.value.0.nhdr + |r.value.1| == |s|
  {
    match TagField(s)
    case None => None
    case Some(t) =>
      match LengthField(s, t.1)
      case None => None
      case Some(l) =>
        var cls := s[0] / 64;
        var length := if cls == 0 && t.0 == 0 then 0 else l.0;
        if length > |s| - l.2 then None
        else Some((TagInfo(cls, s[0] / 32 % 2 == 1, t.0, length, l.2, l.1), s[l.2..]))
  }

  function InfoOf(tag: byte, n: nat): TagInfo {
    var t := TagByte(tag);
    TagInfo(t / 64, t / 32 % 2 == 1, t % 32, n, TagLength(n), false)
  }

  /** A written header is read back, and what follows it is what was written behind it. */
  lemma HeaderDecodes(tag: byte, n: nat, tail: seq<byte>)
    requires n < LIMIT && n <= |tail| && tag % 32 != 31 && (tag >= 64 || tag % 32 != 0)
    ensures Decoded(Header(tag, n) + tail) == Some((InfoOf(tag, n), tail))
  {
    var s := Header(tag, n) + tail;
    assert s[0] == TagByte(tag);
    assert TagField(s) == Some((TagByte(tag) % 32, 1));
    LengthDecodes(tag, n, tail);
    assert s[TagLength(n)..] == tail;
    assert |s| - TagLength(n) == |tail|;
    var t := TagByte(tag);
    assert t == tag || (tag == 16 && t == 48);
    assert t >= 64 || t % 32 != 0;
  }

  lemma TlvDecodes(tag: byte, content: seq<byte>, tail: seq<byte>)
    requires |content| < LIMIT && tag % 32 != 31 && (tag >= 64 || tag % 32 != 0)
    ensures Decoded(Tlv(tag, content) + tail) == Some((InfoOf(tag, |content|), content + tail))
  {
    assert Tlv(tag, content) + tail == Header(tag, |content|) + (content + tail);
    HeaderDecodes(tag, |content|, content + tail);
  }

  lemma LengthDecodes(tag: byte, n: nat, tail: seq<byte>)
    requires n < LIMIT
    ensures LengthField(Header(tag, n) + tail, 1) == Some((n, false, TagLength(n)))
  {
    var s := Header(tag, n) + tail;
    if n < 128 {
      assert s[1] == n;
    } else if n < 256 {
      assert s[1] == 0x81 && s[2] == n;
      assert ReadLength(s, 3, 0, n) == Some((n, 3));
    } else {
      assert s[1] == 0x82 && s[2] == n / 256 && s[3] == n % 256;
      assert ReadLength(s, 4, 0, n) == Some((n, 4));
      assert ReadLength(s, 3, 1, n / 256) == Some((n, 4));
    }
  }

  /** The identifier octets of parse_tag. */
  method ReadTagField(s: seq<byte>) returns (ok: bool, tag: nat, i: nat)
    ensures ok == TagField(s).Some?
    ensures ok ==> (tag, i) == TagField(s).value
  {
    ok, tag, i := false, 0, 0;
    if |s| == 0 {
      return;
    }
    tag, i := s[0] % 32, 1;
    if tag == 0x1f {
      tag := 0;
      var more := true;
      while more
        invariant 1 <= i <= |s|
        invariant if more then ReadTag(s, 1, 0) == ReadTag(s, i, tag) else ReadTag(s, 1, 0) == Some((tag, i))
        decreases more, |s| - i
      {
        if i == |s| {
          return;
        }
        var c: int := s[i];
        tag := tag * 128 % ULONG + c % 128;
        i := i + 1;
        more := c >= 128;
      }
    }
    ok := true;
  }

  /** The length octets of parse_tag. */
  method ReadLengthField(s: seq<byte>, start: nat) returns (ok: bool, length: nat, ndef: bool, i: nat)
    requires start <= |s|
    ensures ok == LengthField(s, start).Some?
    ensures ok ==> (length, ndef, i) == LengthField(s, start).value
  {
    ok, length, ndef, i := false, 0, false, start;
    if i == |s| {
      return;
    }
    var c: int := s[i];
    i := i + 1;
    if c < 0x80 {
      length := c;
    } else if c == 0x80 {
      ndef := true;
    } else if c == 0xff {
      return;
    } else {
      var count := c - 0x80;
      while count > 0
        invariant 0 <= count && start < i <= |s|
        invariant ReadLength(s, start + 1, c - 0x80, 0) == ReadLength(s, i, count, length)
      {
        if i == |s| {
          return;
        }
        length := length * 256 % ULONG + s[i];
        i := i + 1;
        count := count - 1;
      }
    }
    ok := true;
  }

  /** parse_tag, with buffer and size as the bytes that are left. */
  method ParseTag(s: seq<byte>) returns (ok: bool, ti: TagInfo, rest: seq<byte>)
    ensures ok == Decoded(s).Some?
    ensures ok ==> (ti, rest) == Decoded(s).value
    ensures ok ==> |rest| < |s| && ti.length <= |rest| && ti.nhdr + |rest| == |s|
  {
    rest, ti := s, TagInfo(0, false, 0, 0, 0, false);
    var tag, length, i;
    var ndef;
    ok, tag, i := ReadTagField(s);
    if !ok {
      return;
    }
    ok, length, ndef, i := ReadLengthField(s, i);
    if !ok {
      return;
    }
    var cls := s[0] / 64;
    if cls == 0 && tag == 0 {
      length := 0;
    }
    ok := length <= |s| - i;
    if ok {
      ti, rest := TagInfo(cls, s[0] / 32 % 2 == 1, tag, length, i, ndef), s[i..];
    }
  }

  // ---------- big integers ----------

  /** Big-endian octets without leading zeros. */
  function Octets(n: nat): (s: seq<byte>)
    ensures n > 0 ==> s != [] && s[0] != 0
  {
    if n == 0 then [] else Octets(n / 256) + [n % 256]
  }

  /** gcry_mpi_print in standard format: two's complement, so a zero octet goes in front of a
      set sign bit. */
  function MpiPrint(n: nat): (s: seq<byte>)
    ensures n > 0 ==> s != []
  {
    var s := Octets(n);
    if s != [] && s[0] >= 128 then [0] + s else s
  }

  /** gcry_mpi_scan in unsigned format. */
  function MpiScan(s: seq<byte>): nat {
    if s == [] then 0 else MpiScan(s[..|s| - 1]) * 256 + s[|s| - 1]
  }

  lemma {:induction false} ScanOctets(n: nat)
    ensures MpiScan(Octets(n)) == n
  {
    if n > 0 {
      ScanOctets(n / 256);
      assert Octets(n)[..|Octets(n)| - 1] == Octets(n / 256);
    }
  }

  lemma {:induction false} ScanLeadingZero(s: seq<byte>)
    ensures MpiScan([0] + s) == MpiScan(s)
  {
    if s == [] {
      assert [0] + s == [0];
      assert [0][..0] == [];
    } else {
      assert ([0] + s)[..|s|] == [0] + s[..|s| - 1];
      ScanLeadingZero(s[..|s| - 1]);
    }
  }

  /** A positive number survives printing and scanning, and its text is not the single zero
      octet that the reader skips. */
  lemma MpiRoundTrip(n: nat)
    ensures MpiScan(MpiPrint(n)) == n
    ensures n > 0 ==> !(|MpiPrint(n)| == 1 && MpiPrint(n)[0] == 0)
  {
    ScanOctets(n);
    ScanLeadingZero(Octets(n));
  }

  // ---------- the output buffer ----------

  /** An allocated buffer with the position at which the next byte goes.  `target` is what is to
      be written and `rest` what of it is still to come. */
  class Writer {
    const buf: array<byte>
    var p: nat
    ghost const target: seq<byte>
    ghost var rest: seq<byte>

    ghost predicate Valid()
      reads this, buf
    {
      p <= |target| <= buf.Length && buf[..p] == target[..p] && rest == target[p..]
    }

    constructor (size: nat, ghost target: seq<byte>)
      requires size >= |target|
      ensures Valid() && fresh(buf) && p == 0 && rest == target && this.target == target && buf.Length == size
    {
      buf := new byte[size](_ => 0);
      p := 0;
      this.target := target;
      rest := target;
    }

    /** memcpy to the write position and advance it. */
    method Bytes(data: seq<byte>, ghost tail: seq<byte>)
      requires Valid() && rest == data + tail
      modifies this`p, this`rest, buf
      ensures Valid() && rest == tail && p == old(p) + |data|
      ensures buf[old(p)..p] == data && buf[..old(p)] == old(buf[..p])
    {
      assert |target[p..]| == |data| + |tail|;
      forall i | 0 <= i < |data| {
        buf[p + i] := data[i];
      }
      assert data == target[p..][..|data|];
      assert target[..p + |data|] == target[..p] + data;
      assert target[p + |data|..] == target[p..][|data|..];
      p := p + |data|;
      rest := tail;
    }

    /** store_tag_length at the write position, at the start of an object with this content. */
    method Open(tag: byte, n: nat, ghost content: seq<byte>, ghost more: seq<byte>)
      requires Valid() && n == |content| < LIMIT && rest == Tlv(tag, content) + more
      modifies this`p, this`rest, buf
      ensures Valid() && rest == content + more && p == old(p) + TagLength(n)
    {
      var t: int := tag;
      if t == SEQUENCE {
        t := t + 0x20;
      }
      var h: seq<byte> := [t];
      if n < 128 {
        h := h + [n];
      } else if n < 256 {
        h := h + [0x81, n];
      } else {
        h := h + [0x82, n / 256, n % 256];
      }
      assert h == Header(tag, n);
      assert Tlv(tag, content) + more == h + (content + more);
      Bytes(h, content + more);
    }

    /** A complete short object: its header and its contents. */
    method Put(tag: byte, content: seq<byte>, ghost more: seq<byte>)
      requires Valid() && |content| < LIMIT && rest == Tlv(tag, content) + more
      modifies this`p, this`rest, buf
      ensures Valid() && rest == more && p == old(p) + TagLength(|content|) + |content|
    {
      Open(tag, |content|, content, more);
      Bytes(content, more);
    }
  }
}
