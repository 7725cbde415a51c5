/** Base-64 armor written out: the alphabet, groups of 24 bits and lines of 64 characters as in
    RFC 4648 and RFC 4880, and the checksum with its check value. */
module ArmorText {
  import opened Common
  import opened Crc24
  import opened Base64

  // ---------- characters ----------

  const UPPER := "ABCDEFGHIJKLMNOPQRSTUVWXYZ"
  const LOWER := "abcdefghijklmnopqrstuvwxyz"
  const DIGITS := "0123456789"
  const ALPHABET: string := UPPER + LOWER + DIGITS + "+/"

  lemma AlphabetSize()
    ensures |UPPER| == 26 && |LOWER| == 26 && |DIGITS| == 10 && |ALPHABET| == 64
  {
  }

  /** The characters in the order of table 1 of RFC 4648. */
  lemma AlphabetIs(v: bv8)
    requires v < 64
    ensures (v as int) < |ALPHABET| == 64 && Ascii(v) as char == ALPHABET[v as int]
  {
    AlphabetSize();
    var n := v as int;
    if v < 26 {
      UpperCase(v);
    } else if v < 52 {
      LowerCase(v);
    } else if v < 62 {
      Numbers(v);
    } else {
      Signs(v);
    }
  }

  lemma UpperCase(v: bv8)
    requires v < 26
    ensures (v as int) < |UPPER| && Ascii(v) as char == UPPER[v as int]
  {
    assert |UPPER| == 26;
    assert UPPER[v as int] as int == 65 + v as int;
  }

  lemma LowerCase(v: bv8)
    requires 26 <= v < 52
    ensures 0 <= v as int - 26 < |LOWER| && Ascii(v) as char == LOWER[v as int - 26]
  {
    assert |LOWER| == 26;
    assert LOWER[v as int - 26] as int == 71 + v as int;
  }

  lemma Numbers(v: bv8)
    requires 52 <= v < 62
    ensures 0 <= v as int - 52 < |DIGITS| && Ascii(v) as char == DIGITS[v as int - 52]
  {
    assert |DIGITS| == 10;
    assert DIGITS[v as int - 52] as int == v as int - 4;
  }

  lemma Signs(v: bv8)
    requires 62 <= v < 64
    ensures 0 <= v as int - 62 < 2 && Ascii(v) as char == "+/"[v as int - 62]
  {
    assert v == 62 || v == 63;
  }

  /** Octets as text. */
  function Chars(s: seq<bv8>): string {
    seq(|s|, i requires 0 <= i < |s| => s[i] as char)
  }

  // ---------- groups ----------

  /** Three octets as one number of 24 bits. */
  function Group(a: bv8, b: bv8, c: bv8): bv32 {
    (a as bv32 << 16) | (b as bv32 << 8) | (c as bv32)
  }

  function Digit(group: bv32, shift: nat): (d: bv8)
    requires shift <= 18
    ensures d < 64
  {
    ((group >> shift) & 63) as bv8
  }

  lemma SextetsAreDigits(a: bv8, b: bv8, c: bv8)
    ensures Sextet0(a) == Digit(Group(a, b, c), 18) && Sextet1(a, b) == Digit(Group(a, b, c), 12)
    ensures Sextet2(b, c) == Digit(Group(a, b, c), 6) && Sextet3(c) == Digit(Group(a, b, c), 0)
  {
  }

  /** The character of a digit. */
  function Sign(d: bv8): char
    requires d < 64
  {
    AlphabetIs(d);
    ALPHABET[d as int]
  }

  /** A quad is the four digits of its group in the alphabet. */
  lemma QuadIs(a: bv8, b: bv8, c: bv8)
    ensures
      var g := Group(a, b, c);
      Chars(Quad(a, b, c)) == [Sign(Digit(g, 18)), Sign(Digit(g, 12)), Sign(Digit(g, 6)), Sign(Digit(g, 0))]
  {
    hide Ascii, Sextet0, Sextet1, Sextet2, Sextet3, Digit, Group;
    SextetsAreDigits(a, b, c);
    var g := Group(a, b, c);
    AlphabetIs(Digit(g, 18));
    AlphabetIs(Digit(g, 12));
    AlphabetIs(Digit(g, 6));
    AlphabetIs(Digit(g, 0));
  }

  /** An incomplete group is filled up with zero bits; what these alone would give is "=". */
  lemma LastQuadIs(a: bv8, b: bv8)
    ensures LastQuad([a]) == Quad(a, 0, 0)[..2] + [PAD, PAD] && LastQuad([a, b]) == Quad(a, b, 0)[..3] + [PAD]
    ensures PAD as char == '='
  {
    hide Ascii, Sextet0, Sextet1, Sextet2, Sextet3;
  }

  // ---------- lines ----------

  /** All characters of the encoded data, without line feeds. */
  function Encoding(data: seq<bv8>): seq<bv8> {
    if data == [] then []
    else if |data| < 3 then LastQuad(data)
    else Quad(data[0], data[1], data[2]) + Encoding(data[3..])
  }

  /** Lines of 64 characters, where `used` characters already stand on the first one; the last
      line is complete, too. */
  function Lines(t: seq<bv8>, used: nat): seq<bv8>
    requires used < 64
    decreases |t|
  {
    if t == [] then (if used == 0 then [] else [LF])
    else if used == 63 then [t[0], LF] + Lines(t[1..], 0)
    else [t[0]] + Lines(t[1..], used + 1)
  }

  lemma LinesQuad(quad: seq<bv8>, rest: seq<bv8>, q: nat, s: Style)
    requires |quad| == 4 && q < 16 && !s.OneLine?
    ensures NextCount(q) < 16
    ensures Lines(quad + rest, 4 * q) == quad + Wrap(q, s) + Lines(rest, 4 * NextCount(q))
  {
    hide *;
    CountSmall(q);
    LinesStep(quad[0], quad[1..] + rest, 4 * q);
    LinesStep(quad[1], quad[2..] + rest, 4 * q + 1);
    LinesStep(quad[2], quad[3..] + rest, 4 * q + 2);
    LinesLast(quad[3], rest, q, s);
    QuadSplit(quad, rest, Wrap(q, s), Lines(rest, 4 * NextCount(q)));
  }

  lemma CountSmall(q: nat)
    requires q < 16
    ensures NextCount(q) < 16
  {
  }

  lemma LinesLast(c: bv8, rest: seq<bv8>, q: nat, s: Style)
    requires q < 16 && !s.OneLine?
    ensures NextCount(q) < 16
    ensures Lines([c] + rest, 4 * q + 3) == [c] + (Wrap(q, s) + Lines(rest, 4 * NextCount(q)))
  {
    LinesStep(c, rest, 4 * q + 3);
    hide Lines;
    if q < 15 {
      assert Wrap(q, s) == [] && [] + Lines(rest, 4 * q + 4) == Lines(rest, 4 * q + 4);
    }
  }

  lemma QuadSplit(quad: seq<bv8>, rest: seq<bv8>, wrap: seq<bv8>, end: seq<bv8>)
    requires |quad| == 4
    ensures quad + rest == [quad[0]] + (quad[1..] + rest) && quad[1..] + rest == [quad[1]] + (quad[2..] + rest)
    ensures quad[2..] + rest == [quad[2]] + (quad[3..] + rest) && quad[3..] + rest == [quad[3]] + rest
    ensures [quad[0]] + ([quad[1]] + ([quad[2]] + ([quad[3]] + (wrap + end)))) == quad + wrap + end
  {
    assert quad == [quad[0], quad[1], quad[2], quad[3]];
  }

  lemma LinesStep(c: bv8, rest: seq<bv8>, used: nat)
    requires used < 64
    ensures Lines([c] + rest, used)
         == [c] + (if used == 63 then [LF] + Lines(rest, 0) else Lines(rest, used + 1))
  {
    assert ([c] + rest)[1..] == rest;
    if used == 63 {
      assert [c] + ([LF] + Lines(rest, 0)) == [c, LF] + Lines(rest, 0);
    }
  }

  /** The code's counting of quads gives lines of 64 characters. */
  lemma {:induction false} LinesOfData(data: seq<bv8>, q: nat, s: Style)
    requires q < 16 && !s.OneLine?
    ensures Body(data, q, s) + Tail(Rest(data), Count(|data|, q), s) == Lines(Encoding(data), 4 * q)
    decreases |data|
  {
    hide Quad, LastQuad, Wrap, NextCount, Lines;
    if |data| < 3 {
      ShortGroup(data, q, s);
      ShortLines(data, q, s);
    } else {
      var quad, more := Quad(data[0], data[1], data[2]), data[3..];
      QuadLength(data[0], data[1], data[2]);
      LinesQuad(quad, Encoding(more), q, s);
      LinesOfData(more, NextCount(q), s);
      BodyUnfold(data, q, s);
      RestDrops(data);
      hide Body, Tail, Rest, Count, Encoding;
      var b, t := Body(more, NextCount(q), s), Tail(Rest(more), Count(|more|, NextCount(q)), s);
      assert quad + Wrap(q, s) + b + t == quad + Wrap(q, s) + (b + t);
      EncodingStep(data);
    }
  }

  lemma EncodingStep(data: seq<bv8>)
    requires |data| >= 3
    ensures Encoding(data) == Quad(data[0], data[1], data[2]) + Encoding(data[3..])
  {
  }

  lemma QuadLength(a: bv8, b: bv8, c: bv8)
    ensures |Quad(a, b, c)| == 4
  {
  }

  lemma ShortLines(data: seq<bv8>, q: nat, s: Style)
    requires |data| < 3 && q < 16 && !s.OneLine?
    ensures [] + Tail(data, q, s) == Lines(Encoding(data), 4 * q)
  {
    hide LastQuad, Wrap, NextCount;
    LinesEnd(q);
    if data != [] {
      var quad := LastQuad(data);
      LastQuadLength(data);
      LinesQuad(quad, [], q, s);
      assert quad + [] == quad;
      LinesEnd(NextCount(q));
    }
    hide Lines;
  }

  lemma LinesEnd(q: nat)
    requires q < 16
    ensures Lines([], 4 * q) == if q != 0 then [LF] else []
  {
  }

  lemma LastQuadLength(data: seq<bv8>)
    requires 1 <= |data| < 3
    ensures |LastQuad(data)| == 4
  {
  }

  /** Without lines there are no line feeds at all. */
  lemma {:induction false} OneLineOfData(data: seq<bv8>, q: nat)
    ensures Body(data, q, OneLine) + Tail(Rest(data), Count(|data|, q), OneLine) == Encoding(data)
    decreases |data|
  {
    hide Quad, LastQuad, NextCount;
    if |data| < 3 {
      ShortGroup(data, q, OneLine);
    } else {
      var quad, more := Quad(data[0], data[1], data[2]), data[3..];
      OneLineOfData(more, NextCount(q));
      BodyUnfold(data, q, OneLine);
      RestDrops(data);
      EncodingStep(data);
      hide Body, Tail, Rest, Count, Encoding;
      var b, t := Body(more, NextCount(q), OneLine), Tail(Rest(more), Count(|more|, NextCount(q)), OneLine);
      assert Wrap(q, OneLine) == [];
      assert quad + [] + b + t == quad + (b + t);
    }
  }

  // ---------- the checksum (RFC 4880 section 6.1) ----------

  const CHECKED: seq<bv8> := [0x31, 0x32, 0x33] + [0x34, 0x35, 0x36] + [0x37, 0x38, 0x39]

  /** The standard check value of this checksum: that of the nine digits "123456789". */
  lemma CheckValue()
    ensures Chars(CHECKED) == "123456789" && Crc(0xB704CE, CHECKED) == 0x21CF02
  {
    CheckedText();
    FirstSteps();
    LastSteps();
    hide Crc, OctetStep, Chars;
    CrcThree(0xB704CE, 0x31, 0x32, 0x33);
    CrcThree(0x09DF67, 0x34, 0x35, 0x36);
    CrcThree(0x341A7C, 0x37, 0x38, 0x39);
    CrcAppend(0xB704CE, [0x31, 0x32, 0x33], [0x34, 0x35, 0x36]);
    CrcAppend(0xB704CE, [0x31, 0x32, 0x33] + [0x34, 0x35, 0x36], [0x37, 0x38, 0x39]);
  }

  lemma CheckedText()
    ensures Chars(CHECKED) == "123456789"
  {
  }

  lemma CrcThree(c: bv32, a0: bv8, a1: bv8, a2: bv8)
    ensures Crc(c, [a0, a1, a2]) == OctetStep(OctetStep(OctetStep(c, a0), a1), a2)
  {
    hide OctetStep;
    var s := [a0, a1, a2];
    assert s[..2] == [a0, a1] && [a0, a1][..1] == [a0] && [a0][..0] == [];
    assert Crc(c, []) == c;
    assert Crc(c, [a0]) == OctetStep(c, a0);
    assert Crc(c, [a0, a1]) == OctetStep(OctetStep(c, a0), a1);
  }

  lemma FirstSteps()
    ensures OctetStep(0xB704CE, 0x31) == 0x2EBA48 && OctetStep(0x2EBA48, 0x32) == 0x4D6151
    ensures OctetStep(0x4D6151, 0x33) == 0x09DF67 && OctetStep(0x09DF67, 0x34) == 0xA2D343
    ensures OctetStep(0xA2D343, 0x35) == 0xBA353A
  {
  }

  lemma LastSteps()
    ensures OctetStep(0xBA353A, 0x36) == 0x341A7C && OctetStep(0x341A7C, 0x37) == 0x16E5F6
    ensures OctetStep(0x16E5F6, 0x38) == 0x51953C && OctetStep(0x51953C, 0x39) == 0x21CF02
  {
  }

  /** The checksum is written as one group. */
  lemma ChecksumQuadIs(c: bv32)
    requires c <= 0xffffff
    ensures Chars(CrcQuad(c)) == [Sign(Digit(c, 18)), Sign(Digit(c, 12)), Sign(Digit(c, 6)), Sign(Digit(c, 0))]
  {
    ChecksumGroup(c);
    hide Quad, Digit, Group;
    QuadIs(((c >> 16) & 0xff) as bv8, ((c >> 8) & 0xff) as bv8, (c & 0xff) as bv8);
  }

  lemma ChecksumGroup(c: bv32)
    requires c <= 0xffffff
    ensures Group(((c >> 16) & 0xff) as bv8, ((c >> 8) & 0xff) as bv8, (c & 0xff) as bv8) == c
  {
  }

  // ---------- the whole text ----------

  lemma CharsAppend(a: seq<bv8>, b: seq<bv8>)
    ensures Chars(a + b) == Chars(a) + Chars(b)
  {
  }

  lemma FixedTexts()
    ensures Chars(BEGIN) == "-----BEGIN " && Chars(END) == "-----END " && Chars(DASHES) == "-----"
    ensures Chars([LF]) == "\n" && Chars([PAD]) == "=" && Chars([]) == ""
  {
  }

  lemma PgpTitle(title: seq<bv8>)
    ensures PGP <= title <==> "PGP " <= Chars(title)
  {
    PgpOctets(title);
    assert Chars(PGP) == "PGP ";
    if PGP <= title {
      assert title == PGP + title[4..];
      CharsAppend(PGP, title[4..]);
    }
  }

  lemma PgpOctets(title: seq<bv8>)
    ensures "PGP " <= Chars(title) ==> PGP <= title
  {
    var s := Chars(title);
    if "PGP " <= s {
      assert s[0] == 'P' && s[1] == 'G' && s[2] == 'P' && s[3] == ' ';
      SameOctet(title[0], 0x50);
      SameOctet(title[1], 0x47);
      SameOctet(title[2], 0x50);
      SameOctet(title[3], 0x20);
    }
  }

  lemma SameOctet(a: bv8, b: bv8)
    ensures a as char == b as char <==> a == b
  {
  }

  /** Without a title only lines, with the empty title not even those. */
  lemma BareText(data: seq<bv8>)
    ensures EncodedText(None, data) == Lines(Encoding(data), 0)
    ensures EncodedText(Some([]), data) == Encoding(data)
  {
    LinesOfData(data, 0, Bare);
    OneLineOfData(data, 0);
    hide Body, Tail, Rest, Count, Crc;
    var a := Body(data, 0, Bare) + Tail(Rest(data), Count(|data|, 0), Bare);
    var b := Body(data, 0, OneLine) + Tail(Rest(data), Count(|data|, 0), OneLine);
    assert [] + Body(data, 0, Bare) == Body(data, 0, Bare) && a + [] + [] == a;
    assert [] + Body(data, 0, OneLine) == Body(data, 0, OneLine) && b + [] + [] == b;
    assert Encoding([]) == [] && Lines([], 0) == [];
  }

  /** With a title: header line, lines of 64 characters, and the end line; a title that begins
      with "PGP " adds the empty line and the line of the checksum over the data. */
  lemma ArmoredText(title: seq<bv8>, data: seq<bv8>)
    requires title != [] && data != []
    ensures
      var pgp := "PGP " <= Chars(title);
      Chars(EncodedText(Some(title), data))
      == "-----BEGIN " + Chars(title) + "-----" + "\n" + (if pgp then "\n" else "")
         + Chars(Lines(Encoding(data), 0))
         + (if pgp then "=" + Chars(CrcQuad(Crc(0xB704CE, data))) + "\n" else "")
         + "-----END " + Chars(title) + "-----" + "\n"
  {
    var s := Armored(title);
    PgpTitle(title);
    FixedTexts();
    LinesOfData(data, 0, s);
    hide Body, Tail, Rest, Count, Crc, Chars, CrcQuad, Lines, Encoding;
    var line := CrcLine(Crc(0xB704CE, data), s);
    var header, body, footer := Header(s), Lines(Encoding(data), 0), Footer(s);
    Pieces(header, Body(data, 0, s), Tail(Rest(data), Count(|data|, 0), s), line, footer);
    assert EncodedText(Some(title), data) == header + body + line + footer;
    HeaderText(title);
    FooterText(title);
    LineText(Crc(0xB704CE, data), title);
    CharsAppend(header + body + line, footer);
    CharsAppend(header + body, line);
    CharsAppend(header, body);
    FlatText(Chars(header), Chars(body), Chars(line), "-----END ", Chars(title), "-----", "\n");
  }

  lemma Pieces(a: seq<bv8>, b: seq<bv8>, c: seq<bv8>, d: seq<bv8>, e: seq<bv8>)
    ensures a + b + c + d + e == a + (b + c) + d + e
  {
  }

  lemma FlatText(a: string, b: string, c: string, d: string, e: string, f: string, g: string)
    ensures a + b + c + (d + e + f + g) == a + b + c + d + e + f + g
  {
  }

  lemma HeaderText(title: seq<bv8>)
    requires title != []
    ensures Chars(Header(Armored(title)))
         == "-----BEGIN " + Chars(title) + "-----" + "\n" + (if PGP <= title then "\n" else "")
  {
    FixedTexts();
    hide Chars;
    CharsAppend(BEGIN, title);
    CharsAppend(BEGIN + title, DASHES);
    CharsAppend(BEGIN + title + DASHES, [LF]);
    CharsAppend(BEGIN + title + DASHES + [LF], if PGP <= title then [LF] else []);
  }

  lemma FooterText(title: seq<bv8>)
    requires title != []
    ensures Chars(Footer(Armored(title))) == "-----END " + Chars(title) + "-----" + "\n"
  {
    FixedTexts();
    hide Chars;
    CharsAppend(END, title);
    CharsAppend(END + title, DASHES);
    CharsAppend(END + title + DASHES, [LF]);
  }

  lemma LineText(crc: bv32, title: seq<bv8>)
    ensures Chars(CrcLine(crc, Armored(title))) == if PGP <= title then "=" + Chars(CrcQuad(crc)) + "\n" else ""
  {
    FixedTexts();
    hide Chars, CrcQuad;
    CharsAppend([PAD], CrcQuad(crc));
    CharsAppend([PAD] + CrcQuad(crc), [LF]);
  }

  // ---------- the decoder's characters ----------

  /** Inside the data the decoder skips white space, takes a hyphen for the beginning of the end
      line if there are header lines, ends the data at an equals sign, takes the characters of
      the alphabet for their digits, and marks everything else as invalid. */
  lemma DecoderTakes(d: Decoder, c: bv8)
    requires d.mode in {B64_0, B64_1, B64_2, B64_3}
    ensures c as char in " \t\r\n" ==> Step(d, c) == (d, [])
    ensures c as char == '-' && d.armored ==> Step(d, c) == (d.(mode := WaitEnd), [])
    ensures c as char == '=' ==> Step(d, c).0 == d.(mode := if d.armored then WaitEndTitle else WaitEnd)
    ensures c as char !in " \t\r\n=-" && c as char !in ALPHABET ==> Step(d, c) == (d.(invalid := true), [])
    ensures forall v: bv8 | v < 64 && c == Ascii(v) :: Step(d, c) == Accept(d, v)
  {
    CodesOf(c);
    hide Accept;
    if c & 0x80 == 0 && Binary(c) != 255 {
      InTheAlphabet(c);
    }
    forall v: bv8 | v < 64 && c == Ascii(v) ensures Step(d, c) == Accept(d, v) {
      hide Ascii, Binary;
      AsciiBinary(v);
    }
  }

  lemma CodesOf(c: bv8)
    ensures c as char in " \t\r\n" <==> c == 0x20 || c == 0x09 || c == 0x0d || c == 0x0a
    ensures c as char == '-' <==> c == 0x2d
    ensures c as char == '=' <==> c == 0x3d
    ensures c as char in " \t\r\n=-" <==> c as char in " \t\r\n" || c as char == '=' || c as char == '-'
  {
    SameOctet(c, 0x20);
    SameOctet(c, 0x09);
    SameOctet(c, 0x0d);
    SameOctet(c, 0x0a);
    SameOctet(c, 0x2d);
    SameOctet(c, 0x3d);
    var s, t := " \t\r\n", " \t\r\n=-";
    assert s[0] in s && s[1] in s && s[2] in s && s[3] in s;
    assert t[0] in t && t[1] in t && t[2] in t && t[3] in t && t[4] in t && t[5] in t;
  }

  lemma InTheAlphabet(c: bv8)
    requires Binary(c) != 255
    ensures c as char in ALPHABET
  {
    var v := Binary(c);
    BinaryAscii(c);
    hide Binary, Ascii;
    AlphabetIs(v);
  }

  lemma BinaryAscii(c: bv8)
    requires Binary(c) != 255
    ensures Binary(c) < 64 && Ascii(Binary(c)) == c
  {
  }
}
