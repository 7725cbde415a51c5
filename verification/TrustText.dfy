/** Entries of the trust list written out: hexadecimal digits, colons, the characters that end a
    fingerprint, and the words of the flags. */
module TrustText {
  import opened Common
  import opened Sexp
  import opened Convert
  import opened Trustlist

  // ---------- hexadecimal digits ----------

  const LOWER := "0123456789abcdef"
  const UPPER := "0123456789ABCDEF"

  /** The value of a digit is its place in the row of digits, in either case. */
  lemma DigitIs(d: nat)
    requires d < 16
    ensures |LOWER| == 16 && |UPPER| == 16
    ensures IsHex(LOWER[d]) && IsHex(UPPER[d]) && DigitValue(LOWER[d]) == d && DigitValue(UPPER[d]) == d
    ensures ToHex(d) == UPPER[d] && Upper(LOWER[d]) == UPPER[d] && HexLower(d) == LOWER[d]
  {
  }

  /** No other character is a digit. */
  lemma OnlyDigits(c: char)
    requires IsHex(c)
    ensures 0 <= DigitValue(c) < 16 && |LOWER| == 16 && |UPPER| == 16
    ensures c == LOWER[DigitValue(c)] || c == UPPER[DigitValue(c)]
  {
  }

  /** Each pair of digits is one octet, the first digit the more significant one. */
  lemma {:induction false} OctetOfPair(s: Octets, i: nat)
    requires AllHex(s) && 2 * i + 1 < |s|
    ensures HexToBin(s)[i] as int == 16 * DigitValue(s[2 * i]) + DigitValue(s[2 * i + 1])
  {
    hide IsHex, DigitValue, Xtoi2;
    assert s[2 * i] in s && s[2 * i + 1] in s;
    if i == 0 {
      PairOctet(s[0], s[1]);
    } else {
      assert forall c | c in s[2..] :: c in s;
      OctetOfPair(s[2..], i - 1);
      assert s[2..][2 * (i - 1)] == s[2 * i] && s[2..][2 * (i - 1) + 1] == s[2 * i + 1];
    }
  }

  lemma PairOctet(a: char, b: char)
    requires IsHex(a) && IsHex(b)
    ensures Xtoi2(a, b) as int == 16 * DigitValue(a) + DigitValue(b)
  {
    OnlyDigits(a);
    OnlyDigits(b);
    hide IsHex, DigitValue;
  }

  /** A colon stands in every third place and the digits in order in the others. */
  lemma {:induction false} ColonsAt(s: Octets, i: nat)
    requires |s| % 2 == 0 && s != "" && i < |Colons(s)|
    ensures |Colons(s)| == |s| / 2 * 3 - 1
    ensures i % 3 == 2 ==> Colons(s)[i] == ':'
    ensures i % 3 != 2 ==> 2 * (i / 3) + i % 3 < |s| && Colons(s)[i] == s[2 * (i / 3) + i % 3]
  {
    if |s| > 2 {
      var more := Colons(s[2..]);
      assert Colons(s) == s[..2] + ":" + more;
      ColonsAt(s[2..], if i >= 3 then i - 3 else 0);
      hide Colons;
      if i >= 3 {
        assert Colons(s)[i] == more[i - 3];
      }
    }
  }

  // ---------- the end of a fingerprint ----------

  /** White space as isspace has it. */
  predicate White(c: char) {
    c in " \t\n\r" || c as int == 11 || c as int == 12
  }

  /** A fingerprint of forty digits with colons reads as its twenty octets when white space or
      the end follows. */
  lemma FingerprintRead(f: Octets, sp: char, tail: Octets)
    requires AllHex(f) && |f| == 40 && White(sp)
    ensures HexColon(Colons(f) + ([sp] + tail), 20) == Some((HexToBin(f), tail))
    ensures HexColon(Colons(f), 20) == Some((HexToBin(f), ""))
  {
    hide *;
    WhiteEnds(sp);
    FingerprintDigits(f, [sp] + tail);
    FingerprintDigits(f, "");
    ColonEnd(Colons(f) + ([sp] + tail), HexToBin(f), [sp] + tail);
    ColonEnd(Colons(f) + "", HexToBin(f), "");
    assert Colons(f) + "" == Colons(f);
    assert ([sp] + tail)[1..] == tail;
  }

  lemma WhiteEnds(sp: char)
    requires White(sp)
    ensures IsSpace(sp) && FPR_LEN == 20
  {
  }

  /** What may follow the digits. */
  lemma ColonEnd(s: Octets, bin: Octets, end: Octets)
    requires ColonDigits(s, 0, 20, false) == Some((bin, end)) && (end == "" || IsSpace(end[0]))
    ensures HexColon(s, 20) == Some((bin, if end == "" then "" else end[1..]))
  {
    hide ColonDigits, IsSpace;
  }

  lemma FingerprintDigits(f: Octets, end: Octets)
    requires AllHex(f) && |f| == 40
    ensures |f| == 2 * FPR_LEN && ColonDigits(Colons(f) + end, 0, FPR_LEN, false) == Some((HexToBin(f), end))
  {
    hide ColonDigits, Colons, HexToBin, IsHex, Xtoi2;
    FirstColon(f, end);
    assert f[0] in f && f[1] in f && forall c | c in f[2..] :: c in f;
    ColonsDecode(f[2..], 1, FPR_LEN, false, end);
    FirstOctet(f, Colons(f) + end, end);
  }

  // ---------- flags ----------

  /** A flag is any text without blanks and assignments. */
  predicate Word(w: Octets) {
    w != "" && forall c | c in w :: c != ' ' && c != '\t' && c != '='
  }

  /** Words, each behind a blank or tab. */
  function Words(ws: seq<Octets>, sep: char): Octets {
    if ws == [] then "" else [sep] + (ws[0] + Words(ws[1..], sep))
  }

  lemma {:induction false} WordLength(w: Octets, end: Octets)
    requires forall c | c in w :: c != ' ' && c != '\t' && c != '='
    requires end == "" || end[0] in " \t="
    ensures NameLength(w + end) == |w|
  {
    if w == "" {
      assert w + end == end;
    } else {
      assert w[0] in w && forall c | c in w[1..] :: c in w;
      assert (w + end)[1..] == w[1..] + end;
      WordLength(w[1..], end);
    }
  }

  /** One more word on the line. */
  lemma WordRead(w: Octets, sep: char, end: Octets, item: Item, err: bool)
    requires Word(w) && (sep == ' ' || sep == '\t') && (end == "" || end[0] == ' ' || end[0] == '\t')
    ensures Flags([sep] + (w + end), item, err)
         == Flags(end, if w == "relax" then item.(relax := true)
                       else if w == "cm" then item.(cm := true) else item, err)
  {
    WordLength(w, end);
    assert w[0] in w;
    var p := w + end;
    assert ([sep] + p)[1..] == p && p[0] == w[0];
    assert SkipBlanks(p) == p;
    assert SkipBlanks([sep] + p) == p;
    Drop(w, end);
    hide SkipBlanks, NameLength;
  }

  /** The words "relax" and "cm" are taken wherever they stand, all others are ignored. */
  lemma {:induction false} WordsRead(ws: seq<Octets>, sep: char, item: Item, err: bool)
    requires (forall w | w in ws :: Word(w)) && (sep == ' ' || sep == '\t')
    ensures Flags(Words(ws, sep), item, err)
         == (item.(relax := item.relax || "relax" in ws, cm := item.cm || "cm" in ws), err)
  {
    if ws == [] {
      NoFlags(item, err);
    } else {
      hide Word, Flags, Words;
      var w, rest := ws[0], ws[1..];
      assert Word(w) && forall w | w in rest :: w in ws;
      var item' := if w == "relax" then item.(relax := true) else if w == "cm" then item.(cm := true) else item;
      WordsStep(ws, sep);
      WordsHead(rest, sep);
      WordRead(w, sep, Words(rest, sep), item, err);
      WordsRead(rest, sep, item', err);
      assert forall x :: x in ws <==> x == w || x in rest;
    }
  }

  lemma WordsHead(ws: seq<Octets>, sep: char)
    ensures Words(ws, sep) == "" || Words(ws, sep)[0] == sep
  {
  }

  lemma WordsStep(ws: seq<Octets>, sep: char)
    requires ws != []
    ensures Words(ws, sep) == [sep] + (ws[0] + Words(ws[1..], sep))
  {
  }

  /** An assignment is an error, and the line is read on behind it. */
  lemma AssignmentRead(w: Octets, sep: char, end: Octets, item: Item, err: bool)
    requires Word(w) && (sep == ' ' || sep == '\t')
    ensures Flags([sep] + (w + ("=" + end)), item, err) == Flags(end, item, true)
  {
    WordLength(w, "=" + end);
    assert w[0] in w;
    var p := w + ("=" + end);
    assert ([sep] + p)[1..] == p && p[0] == w[0];
    assert SkipBlanks(p) == p;
    assert SkipBlanks([sep] + p) == p;
    assert p[|w|] == '=' && p[|w| + 1..] == end;
    hide SkipBlanks, NameLength;
  }

  // ---------- a whole entry ----------

  /** The line of a root certificate: "!" for one that is not trusted, the fingerprint, what it
      is good for, and further flags. */
  lemma EntryRead(f: Octets, trusted: bool, flag: char, ws: seq<Octets>, sep: char)
    requires AllHex(f) && |f| == 40 && flag != ' ' && flag != '\t'
    requires (forall w | w in ws :: Word(w)) && (sep == ' ' || sep == '\t')
    ensures
      var pgp, smime := flag == 'P' || flag == 'p' || flag == '*', flag == 'S' || flag == 's' || flag == '*';
      ParseLine((if trusted then "" else "!") + (Colons(f) + (" " + ([flag] + Words(ws, sep)))))
      == if pgp || smime
         then Entry(Item(HexToBin(f), !trusted, pgp, smime, "relax" in ws, "cm" in ws), false)
         else Bad
  {
    var p := Colons(f) + (" " + ([flag] + Words(ws, sep)));
    var line := (if trusted then "" else "!") + p;
    assert f[0] in f;
    assert p[0] == f[0];
    NotBang(f[0]);
    SkipNone(p);
    hide Colons, HexColon, HexToBin, IsHex, FirstFlag, Flags, SkipBlanks, Words, Word;
    if trusted {
      assert line == p;
    } else {
      assert line == "!" + p && line[1..] == p;
    }
    ParsedAsEntry(line);
    FingerprintRead(f, ' ', [flag] + Words(ws, sep));
    FlagRead(flag, Words(ws, sep));
    WordsHead(ws, sep);
    WordsRead(ws, sep, Item(HexToBin(f), !trusted, flag in "Pp*", flag in "Ss*", false, false), false);
    assert FPR_LEN == 20;
    hide ParseLine;
    EntryParts(line, p, f, trusted, flag, ws, sep);
  }

  lemma FlagRead(flag: char, more: Octets)
    requires flag != ' ' && flag != '\t'
    ensures SkipBlanks([flag] + more) == [flag] + more && Advance([flag] + more, 1) == more
    ensures FirstFlag([flag] + more)
         == if flag in "Pp*" || flag in "Ss*" then Some((flag in "Pp*", flag in "Ss*")) else None
  {
  }

  lemma EntryParts(line: Octets, p: Octets, f: Octets, trusted: bool, flag: char, ws: seq<Octets>, sep: char)
    requires line != "" && line == (if trusted then "" else "!") + p && p != "" && p[0] != '!' && SkipBlanks(p) == p
    requires ParseLine(line) == ParseEntry(line) && FPR_LEN == 20
    requires HexColon(p, 20) == Some((HexToBin(f), [flag] + Words(ws, sep)))
    requires SkipBlanks([flag] + Words(ws, sep)) == [flag] + Words(ws, sep)
    requires Advance([flag] + Words(ws, sep), 1) == Words(ws, sep)
    requires FirstFlag([flag] + Words(ws, sep))
          == if flag in "Pp*" || flag in "Ss*" then Some((flag in "Pp*", flag in "Ss*")) else None
    requires Words(ws, sep) == "" || IsBlank(Words(ws, sep)[0])
    requires
      var item := Item(HexToBin(f), !trusted, flag in "Pp*", flag in "Ss*", false, false);
      Flags(Words(ws, sep), item, false) == (item.(relax := "relax" in ws, cm := "cm" in ws), false)
    ensures ParseLine(line)
         == if flag in "Pp*" || flag in "Ss*"
            then Entry(Item(HexToBin(f), !trusted, flag in "Pp*", flag in "Ss*", "relax" in ws, "cm" in ws), false)
            else Bad
  {
    hide HexColon, HexToBin, FirstFlag, Flags, SkipBlanks, Words, ParseLine;
    assert if trusted then line == p else line[1..] == p;
  }

  // ---------- control characters ----------

  /** A name that is written out as one comment line has no control characters left, and only
      they are changed. */
  lemma {:induction false} NoControls(s: Octets)
    requires forall c | c in s :: c as int < 256
    ensures forall c | c in Sanitized(s) :: c as int >= 32 && c as int != 127
    ensures (forall c | c in s :: c as int >= 32 && c as int != 127) ==> Sanitized(s) == s
  {
    if s != "" {
      assert s[0] in s && forall c | c in s[1..] :: c in s;
      NoControls(s[1..]);
      QuotedShown(s[0]);
      hide Quoted;
    }
  }

  lemma QuotedShown(c: char)
    requires c as int < 256
    ensures forall d | d in Quoted(c) :: d as int >= 32 && d as int != 127
    ensures c as int >= 32 && c as int != 127 ==> Quoted(c) == [c]
  {
  }

  /** The escapes are those of C for the characters that have one, and else the code in
      hexadecimal. */
  lemma Escapes(c: char)
    requires c as int < 32 || c as int == 127
    ensures |LOWER| == 16
    ensures match c as int
            case 0 => Quoted(c) == "\\0"
            case 8 => Quoted(c) == "\\b"
            case 10 => Quoted(c) == "\\n"
            case 11 => Quoted(c) == "\\v"
            case 12 => Quoted(c) == "\\f"
            case 13 => Quoted(c) == "\\r"
            case n => Quoted(c) == "\\x" + [LOWER[n / 16], LOWER[n % 16]]
  {
    var n := c as int;
    DigitIs(n / 16);
    DigitIs(n % 16);
    assert n < 128 && n / 16 % 16 == n / 16;
    hide HexLower;
  }
}
