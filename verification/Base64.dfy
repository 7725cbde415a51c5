/** The text format of base-64 armor, and the decoder's state machine, as functions. */
module Base64 {
  import opened Common
  import opened Crc24

  const LF: bv8 := 0x0a
  const CR: bv8 := 0x0d
  const TAB: bv8 := 0x09
  const BLANK: bv8 := 0x20
  const DASH: bv8 := 0x2d
  const PAD: bv8 := 0x3d

  const DASHES: seq<bv8> := [DASH, DASH, DASH, DASH, DASH]
  const BEGIN: seq<bv8> := DASHES + [0x42, 0x45, 0x47, 0x49, 0x4e, BLANK]
  const END: seq<bv8> := DASHES + [0x45, 0x4e, 0x44, BLANK]
  const PGP: seq<bv8> := [0x50, 0x47, 0x50, BLANK]

  /** bintoasc */
  function Ascii(v: bv8): bv8 {
    if v < 26 then v + 65 else if v < 52 then v + 71 else if v < 62 then v - 4
    else if v == 62 then 43 else 47
  }

  /** asctobin; 255 marks what is not in the alphabet. */
  function Binary(c: bv8): bv8 {
    if 65 <= c <= 90 then c - 65 else if 97 <= c <= 122 then c - 71 else if 48 <= c <= 57 then c + 4
    else if c == 43 then 62 else if c == 47 then 63 else 255
  }

  predicate IsSpace(c: bv8) {
    c == LF || c == BLANK || c == CR || c == TAB
  }

  predicate InAlphabet(c: bv8) {
    c != DASH && c != PAD && !IsSpace(c) && c & 0x80 == 0 && Binary(c) != 255
  }

  lemma AsciiBinary(v: bv8)
    requires v < 64
    ensures Binary(Ascii(v)) == v && InAlphabet(Ascii(v))
  {
    if v < 26 {
    } else if v < 52 {
    } else if v < 62 {
    } else {
      assert v == 62 || v == 63;
    }
  }

  // ---------- the four sextets of a group ----------

  function Sextet0(a: bv8): bv8 { (a >> 2) & 0x3f }
  function Sextet1(a: bv8, b: bv8): bv8 { (((a << 4) & 0x30) | ((b >> 4) & 0x0f)) & 0x3f }
  function Sextet2(b: bv8, c: bv8): bv8 { (((b << 2) & 0x3c) | ((c >> 6) & 0x03)) & 0x3f }
  function Sextet3(c: bv8): bv8 { c & 0x3f }

  function Quad(a: bv8, b: bv8, c: bv8): seq<bv8> {
    [Ascii(Sextet0(a)), Ascii(Sextet1(a, b)), Ascii(Sextet2(b, c)), Ascii(Sextet3(c))]
  }

  /** The accumulator between the characters of a group. */
  function Val0(c: bv8): bv8 { c << 2 }
  function Val1(v: bv8, c: bv8): bv8 { v | ((c >> 4) & 3) }
  function Val1'(c: bv8): bv8 { (c << 4) & 0xf0 }
  function Val2(v: bv8, c: bv8): bv8 { v | ((c >> 2) & 15) }
  function Val2'(c: bv8): bv8 { (c << 6) & 0xc0 }
  function Val3(v: bv8, c: bv8): bv8 { v | (c & 0x3f) }

  lemma SextetsAreSmall(a: bv8, b: bv8, c: bv8)
    ensures Sextet0(a) < 64 && Sextet1(a, b) < 64 && Sextet2(b, c) < 64 && Sextet3(c) < 64
  {
  }

  lemma FirstOctet(a: bv8, b: bv8)
    ensures Val1(Val0(Sextet0(a)), Sextet1(a, b)) == a
  {
  }

  lemma SecondOctet(a: bv8, b: bv8, c: bv8)
    ensures Val2(Val1'(Sextet1(a, b)), Sextet2(b, c)) == b
  {
  }

  lemma ThirdOctet(b: bv8, c: bv8)
    ensures Val3(Val2'(Sextet2(b, c)), Sextet3(c)) == c
  {
  }

  // ---------- the encoded text ----------

  /** The three kinds of output: no line feeds at all, bare lines, or lines between headers. */
  datatype Style = OneLine | Bare | Armored(title: seq<bv8>)

  function StyleOf(title: Option<seq<bv8>>): Style {
    match title
    case None => Bare
    case Some(t) => if t == [] then OneLine else Armored(t)
  }

  predicate UsesCrc(s: Style) {
    s.Armored? && PGP <= s.title
  }

  const QUADS_PER_LINE := 16

  function NextCount(q: nat): nat {
    if q + 1 >= QUADS_PER_LINE then 0 else q + 1
  }

  /** The line feed behind a quad that fills its line. */
  function Wrap(q: nat, s: Style): seq<bv8> {
    if q + 1 >= QUADS_PER_LINE && !s.OneLine? then [LF] else []
  }

  /** The full groups of the data; q quads already stand on the line. */
  function Body(data: seq<bv8>, q: nat, s: Style): seq<bv8> {
    if |data| < 3 then [] else
    Quad(data[0], data[1], data[2]) + Wrap(q, s) + Body(data[3..], NextCount(q), s)
  }

  function Count(n: nat, q: nat): nat {
    if n < 3 then q else Count(n - 3, NextCount(q))
  }

  function Rest(data: seq<bv8>): seq<bv8> {
    data[|data| - |data| % 3..]
  }

  /** The padded last quad. */
  function LastQuad(rest: seq<bv8>): seq<bv8>
    requires 1 <= |rest| <= 2
  {
    if |rest| == 1 then [Ascii(Sextet0(rest[0])), Ascii(Sextet1(rest[0], 0)), PAD, PAD]
    else [Ascii(Sextet0(rest[0])), Ascii(Sextet1(rest[0], rest[1])), Ascii(Sextet2(rest[1], 0)), PAD]
  }

  /** The last group and the end of the last line. */
  function Tail(rest: seq<bv8>, q: nat, s: Style): seq<bv8>
    requires |rest| <= 2
  {
    var quad := if rest == [] then [] else LastQuad(rest) + Wrap(q, s);
    var q' := if rest == [] then q else NextCount(q);
    quad + if q' != 0 && !s.OneLine? then [LF] else []
  }

  /** The three octets of a checksum, as they go into its quad. */
  function CrcQuad(c: bv32): seq<bv8> {
    Quad(((c >> 16) & 0xff) as bv8, ((c >> 8) & 0xff) as bv8, (c & 0xff) as bv8)
  }

  function Header(s: Style): seq<bv8> {
    if s.Armored? then BEGIN + s.title + DASHES + [LF] + (if UsesCrc(s) then [LF] else []) else []
  }

  function CrcLine(crc: bv32, s: Style): seq<bv8> {
    if UsesCrc(s) then [PAD] + CrcQuad(crc) + [LF] else []
  }

  function Footer(s: Style): seq<bv8> {
    if s.Armored? then END + s.title + DASHES + [LF] else []
  }

  /** Everything a finished encoder has written for this data. */
  function EncodedText(title: Option<seq<bv8>>, data: seq<bv8>): seq<bv8> {
    var s := StyleOf(title);
    if data == [] then [] else
    Header(s) + Body(data, 0, s) + Tail(Rest(data), Count(|data|, 0), s)
    + CrcLine(Crc(CRCINIT, data), s) + Footer(s)
  }

  ghost predicate SnocHolds(data: seq<bv8>, b: bv8, q: nat, s: Style) {
    var r := Rest(data);
    var q' := Count(|data|, q);
    if |r| == 2
    then Body(data + [b], q, s) == Body(data, q, s) + (Quad(r[0], r[1], b) + Wrap(q', s))
         && Rest(data + [b]) == [] && Count(|data| + 1, q) == NextCount(q')
    else Body(data + [b], q, s) == Body(data, q, s)
         && Rest(data + [b]) == r + [b] && Count(|data| + 1, q) == q'
  }

  /** One octet more either waits for its group or completes it. */
  lemma {:induction false} BodySnoc(data: seq<bv8>, b: bv8, q: nat, s: Style)
    ensures SnocHolds(data, b, q, s)
    decreases |data|
  {
    if |data| < 3 {
      BodySnocShort(data, b, q, s);
    } else {
      BodySnoc(data[3..], b, NextCount(q), s);
      BodySnocLong(data, b, q, s);
    }
  }

  lemma BodySnocShort(data: seq<bv8>, b: bv8, q: nat, s: Style)
    requires |data| < 3
    ensures SnocHolds(data, b, q, s)
  {
    hide Quad, Wrap, NextCount, Body, Rest, Count;
    ShortGroup(data, q, s);
    ShortGroup(data + [b], q, s);
    ShortGroup([], NextCount(q), s);
    if |data| == 2 {
      BodyUnfold(data + [b], q, s);
      assert (data + [b])[3..] == [];
      assert Quad(data[0], data[1], b) + Wrap(q, s) + [] == [] + (Quad(data[0], data[1], b) + Wrap(q, s));
    }
  }

  lemma ShortGroup(data: seq<bv8>, q: nat, s: Style)
    ensures |data| < 3 ==> Body(data, q, s) == [] && Rest(data) == data && Count(|data|, q) == q
    ensures |data| == 3 ==> Rest(data) == [] && Count(|data|, q) == NextCount(q)
  {
    hide NextCount;
  }

  lemma BodySnocLong(data: seq<bv8>, b: bv8, q: nat, s: Style)
    requires |data| >= 3 && SnocHolds(data[3..], b, NextCount(q), s)
    ensures SnocHolds(data, b, q, s)
  {
    hide Body, Rest, Quad, Wrap, NextCount, Count;
    assert (data + [b])[3..] == data[3..] + [b];
    RestDrops(data);
    RestDrops(data + [b]);
    BodyUnfold(data, q, s);
    BodyUnfold(data + [b], q, s);
    var x, y := Quad(data[0], data[1], data[2]) + Wrap(q, s), Body(data[3..], NextCount(q), s);
    var r, q' := Rest(data), Count(|data|, q);
    if |r| == 2 {
      var z := Quad(r[0], r[1], b) + Wrap(q', s);
      assert x + (y + z) == x + y + z;
    }
  }

  lemma BodyUnfold(data: seq<bv8>, q: nat, s: Style)
    requires |data| >= 3
    ensures Body(data, q, s) == Quad(data[0], data[1], data[2]) + Wrap(q, s) + Body(data[3..], NextCount(q), s)
    ensures Count(|data|, q) == Count(|data| - 3, NextCount(q))
  {
  }

  lemma RestDrops(data: seq<bv8>)
    requires |data| >= 3
    ensures Rest(data[3..]) == Rest(data)
  {
    assert (|data| - 3) % 3 == |data| % 3;
  }

  // ---------- the decoder ----------

  datatype Mode = Init | Idle | LfSeen | Begin | B64_0 | B64_1 | B64_2 | B64_3 | WaitEndTitle | WaitEnd

  /** struct b64state as the decoder uses it. */
  datatype Decoder = Decoder(mode: Mode, val: bv8, pos: nat, armored: bool, stop: bool, invalid: bool)

  function Started(armored: bool): Decoder {
    Decoder(if armored then Init else B64_0, 0, 0, armored, false, false)
  }

  /** A character in one of the four data states. */
  function StepData(d: Decoder, c: bv8): (Decoder, seq<bv8>) {
    if c == DASH && d.armored then (d.(mode := WaitEnd), [])
    else if c == PAD then
      (d.(mode := if d.armored then WaitEndTitle else WaitEnd), if d.mode == B64_1 then [d.val] else [])
    else if IsSpace(c) then (d, [])
    else if c & 0x80 != 0 || Binary(c) == 255 then (d.(invalid := true), [])
    else Accept(d, Binary(c))
  }

  function Accept(d: Decoder, v: bv8): (Decoder, seq<bv8>) {
    match d.mode
    case B64_0 => (d.(val := Val0(v), mode := B64_1), [])
    case B64_1 => (d.(val := Val1'(v), mode := B64_2), [Val1(d.val, v)])
    case B64_2 => (d.(val := Val2'(v), mode := B64_3), [Val2(d.val, v)])
    case _ => (d.(val := Val3(d.val, v), mode := B64_0), [Val3(d.val, v)])
  }

  function Step(d: Decoder, c: bv8): (Decoder, seq<bv8>) {
    match d.mode
    case Idle => (if c == LF then d.(mode := LfSeen, pos := 0) else d, [])
    case Init | LfSeen =>
      (if d.pos >= |BEGIN| || c != BEGIN[d.pos] then d.(mode := Idle)
       else if d.pos == 10 then d.(mode := Begin)
       else d.(mode := LfSeen, pos := d.pos + 1), [])
    case Begin => (if c == LF then d.(mode := B64_0) else d, [])
    case WaitEndTitle => (if c == DASH then d.(mode := WaitEnd) else d, [])
    case WaitEnd => (if c == LF then d.(stop := true) else d, [])
    case _ => StepData(d, c)
  }

  function Run(d: Decoder, text: seq<bv8>): (Decoder, seq<bv8>)
    decreases |text|
  {
    if text == [] || d.stop then (d, []) else
    var (d1, out1) := Step(d, text[0]);
    var (d2, out2) := Run(d1, text[1..]);
    (d2, out1 + out2)
  }

  /** Decoding in pieces is decoding the whole: no state is lost between the calls. */
  lemma {:induction false} RunAppend(d: Decoder, a: seq<bv8>, b: seq<bv8>)
    ensures var (d1, out1) := Run(d, a);
            var (d2, out2) := Run(d1, b);
            Run(d, a + b) == (d2, out1 + out2)
    decreases |a|
  {
    if a == [] {
      assert a + b == b;
      assert [] + Run(d, b).1 == Run(d, b).1;
    } else if d.stop {
      var none: seq<bv8> := [];
      assert none + none == none;
    } else {
      assert (a + b)[1..] == a[1..] + b;
      var (d1, out1) := Step(d, a[0]);
      RunAppend(d1, a[1..], b);
      var x, y := Run(d1, a[1..]).1, Run(Run(d1, a[1..]).0, b).1;
      assert out1 + (x + y) == out1 + x + y;
    }
  }

  lemma RunOne(d: Decoder, c: bv8)
    requires !d.stop
    ensures Run(d, [c]) == Step(d, c)
  {
    hide Step;
    var (d1, out1) := Step(d, c);
    assert [c][1..] == [];
    assert Run(d1, []) == (d1, []);
    assert out1 + [] == out1;
  }

  /** One octet more. */
  lemma RunExtend(d0: Decoder, text: seq<bv8>, s: nat, d: Decoder, done: seq<bv8>)
    requires s < |text| && !d.stop && Run(d0, text[..s]) == (d, done)
    ensures Run(d0, text[..s + 1]) == (Step(d, text[s]).0, done + Step(d, text[s]).1)
  {
    hide Run, Step;
    RunOne(d, text[s]);
    RunAppend(d0, text[..s], [text[s]]);
    assert text[..s] + [text[s]] == text[..s + 1];
  }

  /** Nothing more comes out at the end of the text or after the stop. */
  lemma RunDone(d0: Decoder, text: seq<bv8>, s: nat, d: Decoder, done: seq<bv8>)
    requires s <= |text| && (d.stop || s == |text|) && Run(d0, text[..s]) == (d, done)
    ensures Run(d0, text) == (d, done)
  {
    assert Run(d, text[s..]) == (d, []);
    hide Run;
    RunAppend(d0, text[..s], text[s..]);
    assert text[..s] + text[s..] == text;
    assert done + [] == done;
  }

  function Concat(chunks: seq<seq<bv8>>): seq<bv8> {
    if chunks == [] then [] else chunks[0] + Concat(chunks[1..])
  }

  lemma {:induction false} ConcatSnoc(chunks: seq<seq<bv8>>, c: seq<bv8>)
    ensures Concat(chunks + [c]) == Concat(chunks) + c
  {
    if chunks == [] {
      assert chunks + [c] == [c];
      assert [c][1..] == [];
      assert c + [] == c;
    } else {
      assert (chunks + [c])[1..] == chunks[1..] + [c];
      ConcatSnoc(chunks[1..], c);
      assert chunks[0] + (Concat(chunks[1..]) + c) == chunks[0] + Concat(chunks[1..]) + c;
    }
  }
}
