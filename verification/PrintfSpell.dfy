/** Writing a conversion the way section 7.19.6.1 of ISO C does, and that the parser reads back
    what was written. */
module PrintfSpell {
  import opened Common
  import opened Sexp
  import opened PrintfParse

  /** What can be asked for in a conversion.  Positions are 0 where they are left out. */
  datatype Wish = Wish(pos: nat, flags: Flags, width: int, widthPos: nat, precision: int, precisionPos: nat,
                       mod: LenMod, spec: ConSpec)
  {
    predicate Valid() {
      && spec != Unknown
      && (width > 0 || width == STAR_FIELD || width == NO_FIELD)
      && (precision >= 0 || precision == STAR_FIELD || precision == NO_FIELD)
      && (widthPos > 0 ==> width == STAR_FIELD && pos > 0)
      && (precisionPos > 0 ==> precision == STAR_FIELD && pos > 0)
    }
  }

  function Letter(c: ConSpec): char
    requires c != Unknown
  {
    match c
    case Decimal => 'd'
    case Octal => 'o'
    case Unsigned => 'u'
    case Hex => 'x'
    case HexUp => 'X'
    case Float => 'f'
    case FloatUp => 'F'
    case Exp => 'e'
    case ExpUp => 'E'
    case FOrG => 'g'
    case FOrGUp => 'G'
    case HexExp => 'a'
    case HexExpUp => 'A'
    case CharSpec => 'c'
    case StringSpec => 's'
    case Pointer => 'p'
    case BytesSoFar => 'n'
    case StrError => 'm'
  }

  function Modifier(m: LenMod): string {
    match m
    case NoMod => ""
    case CharMod => "hh"
    case Short => "h"
    case Long => "l"
    case LongLong => "ll"
    case IntMax => "j"
    case SizeT => "z"
    case PtrDiff => "t"
    case LongDbl => "L"
  }

  // ---------- each part in front of what follows it ----------

  function Lead(wanted: bool, c: char, tail: Octets): Octets {
    if wanted then [c] + tail else tail
  }

  function WithFlags(f: Flags, tail: Octets): Octets {
    Lead(f.grouping, '\'', Lead(f.left, '-', Lead(f.plus, '+', Lead(f.space, ' ',
      Lead(f.alt, '#', Lead(f.zero, '0', tail))))))
  }

  function WithPosition(pos: nat, tail: Octets): Octets {
    if pos == 0 then tail else Dec(pos) + ("$" + tail)
  }

  function WithField(n: int, pos: nat, tail: Octets): Octets
    requires n >= NO_FIELD || n == STAR_FIELD
  {
    if n == NO_FIELD then tail
    else if n == STAR_FIELD then "*" + WithPosition(pos, tail)
    else Dec(n) + tail
  }

  function WithPrecision(n: int, pos: nat, tail: Octets): Octets
    requires n >= NO_FIELD || n == STAR_FIELD
  {
    if n == NO_FIELD then tail else "." + WithField(n, pos, tail)
  }

  function WithLetter(m: LenMod, c: ConSpec, tail: Octets): Octets
    requires c != Unknown
  {
    Modifier(m) + ([Letter(c)] + tail)
  }

  /** The conversion as it stands behind the percent sign. */
  function Spell(w: Wish, tail: Octets): Octets
    requires w.Valid()
  {
    WithPosition(w.pos, WithFlags(w.flags, WithField(w.width, w.widthPos,
      WithPrecision(w.precision, w.precisionPos, WithLetter(w.mod, w.spec, tail)))))
  }

  // ---------- first characters ----------

  predicate Alphabetic(c: char) {
    'a' <= c <= 'z' || 'A' <= c <= 'Z'
  }

  /** A text that ends a number, and starts neither a field nor a flag. */
  predicate Plain(s: Octets) {
    s != "" && (Alphabetic(s[0]) || s[0] == '.')
  }

  predicate NonZero(s: Octets) {
    s != "" && '1' <= s[0] <= '9'
  }

  lemma {:induction false} DecHead(n: nat)
    requires n > 0
    ensures NonZero(Dec(n))
  {
    if n >= 10 {
      DecHead(n / 10);
    }
  }

  lemma NumberRead(n: nat, t: Octets)
    requires !IsDigit(At(t))
    ensures Digits(Dec(n) + t, 0) == (n, t)
  {
    DigitsOfDec(n, t);
    assert Digits(t, n) == (n, t);
  }

  /** A number in front that is not 0 is a number with a first digit of its own. */
  lemma NumberHead(n: nat, t: Octets)
    ensures n > 0 ==> NonZero(Dec(n) + t)
    ensures n == 0 ==> Dec(n) + t == "0" + t
    ensures IsDigit(At(Dec(n) + t))
  {
    if n > 0 {
      DecHead(n);
    }
  }

  lemma LetterHead(m: LenMod, c: ConSpec, tail: Octets)
    requires c != Unknown
    ensures var s := WithLetter(m, c, tail); s != "" && Alphabetic(s[0])
  {
  }

  lemma PrecisionHead(n: int, pos: nat, t: Octets)
    requires n >= NO_FIELD || n == STAR_FIELD
    requires t != "" && Alphabetic(t[0])
    ensures Plain(WithPrecision(n, pos, t))
  {
  }

  // ---------- each part is read back ----------

  lemma LettersRead(m: LenMod, c: ConSpec, tail: Octets)
    requires c != Unknown
    ensures LengthMod(WithLetter(m, c, tail)) == (m, [Letter(c)] + tail)
    ensures Conversion(Letter(c)) == c && Letter(c) != 'C' && Letter(c) != 'S'
  {
    LetterMeans(c);
    ModifierRead(m, Letter(c), tail);
  }

  lemma LetterMeans(c: ConSpec)
    requires c != Unknown
    ensures Conversion(Letter(c)) == c && Letter(c) !in "hljztLCS"
  {
  }

  lemma ModifierRead(m: LenMod, c: char, tail: Octets)
    requires c !in "hljztL"
    ensures LengthMod(Modifier(m) + ([c] + tail)) == (m, [c] + tail)
  {
    var t := [c] + tail;
    assert At(t) == c && t != "";
    ModifierSplit(m, t);
    NoModifier(c);
  }

  lemma NoModifier(c: char)
    requires c !in "hljztL"
    ensures c != 'h' && c != 'l' && c != 'j' && c != 'z' && c != 't' && c != 'L'
  {
    var s := "hljztL";
    assert s[0] in s && s[1] in s && s[2] in s && s[3] in s && s[4] in s && s[5] in s;
  }

  lemma ModifierSplit(m: LenMod, t: Octets)
    ensures
      var s := Modifier(m) + t;
      && (m == NoMod ==> s == t)
      && (m != NoMod && m != CharMod && m != LongLong ==> s[0] == Modifier(m)[0] && s[1..] == t)
      && (m == CharMod || m == LongLong ==> s[0] == s[1] == Modifier(m)[0] && s[2..] == t)
  {
  }

  lemma StarRead(pos: nat, positional: bool, t: Octets)
    requires Plain(t) && (pos > 0 ==> positional)
    ensures StarPosition(WithPosition(pos, t), positional) == Some((pos, t))
  {
    if pos > 0 {
      NumberHead(pos, "$" + t);
      NumberRead(pos, "$" + t);
      hide Digits, Dec;
      assert ("$" + t)[1..] == t;
    }
  }

  lemma FieldRead(n: int, pos: nat, positional: bool, none: int, t: Octets)
    requires Plain(t) && (pos > 0 ==> positional && n == STAR_FIELD)
    requires n >= 0 || n == STAR_FIELD || n == none == NO_FIELD
    ensures Field(WithField(n, pos, t), positional, none) == Some((n, pos, t))
  {
    var s := WithField(n, pos, t);
    if n == STAR_FIELD {
      StarRead(pos, positional, t);
      assert s[1..] == WithPosition(pos, t);
      hide StarPosition, WithPosition;
    } else if n >= 0 {
      NumberHead(n, t);
      NumberRead(n, t);
      hide Digits, Dec;
      assert n == 0 ==> s[1..] == t;
    }
  }

  lemma PrecisionRead(n: int, pos: nat, positional: bool, t: Octets)
    requires t != "" && Alphabetic(t[0]) && (pos > 0 ==> positional && n == STAR_FIELD)
    requires n >= NO_FIELD || n == STAR_FIELD
    ensures Precision(WithPrecision(n, pos, t), positional) == Some((n, pos, t))
  {
    if n != NO_FIELD {
      var s := WithField(n, pos, t);
      FieldRead(n, pos, positional, 0, t);
      if n >= 0 {
        NumberHead(n, t);
      }
      assert ("." + s)[1..] == s;
      hide Field, Dec;
    }
  }

  lemma FlagRead(wanted: bool, c: char, t: Octets, f: Flags)
    ensures wanted && c == '\'' ==> ParseFlags(Lead(wanted, c, t), f) == ParseFlags(t, f.(grouping := true))
    ensures wanted && c == '-' ==> ParseFlags(Lead(wanted, c, t), f) == ParseFlags(t, f.(left := true))
    ensures wanted && c == '+' ==> ParseFlags(Lead(wanted, c, t), f) == ParseFlags(t, f.(plus := true))
    ensures wanted && c == ' ' ==> ParseFlags(Lead(wanted, c, t), f) == ParseFlags(t, f.(space := true))
    ensures wanted && c == '#' ==> ParseFlags(Lead(wanted, c, t), f) == ParseFlags(t, f.(alt := true))
    ensures wanted && c == '0' ==> ParseFlags(Lead(wanted, c, t), f) == ParseFlags(t, f.(zero := true))
    ensures !wanted ==> Lead(wanted, c, t) == t
  {
    assert ([c] + t)[1..] == t;
  }

  const NO_FLAGS := Flags(false, false, false, false, false, false)

  lemma FlagsRead(f: Flags, t: Octets)
    requires NonZero(t) || Plain(t) || At(t) == '*'
    ensures ParseFlags(WithFlags(f, t), NO_FLAGS) == (f, t)
  {
    assert ParseFlags(t, f) == (f, t);
    hide ParseFlags, Lead;
    var zero := Lead(f.zero, '0', t);
    var alt := Lead(f.alt, '#', zero);
    var space := Lead(f.space, ' ', alt);
    var plus := Lead(f.plus, '+', space);
    var left := Lead(f.left, '-', plus);
    FlagRead(f.grouping, '\'', left, NO_FLAGS);
    FlagRead(f.left, '-', plus, NO_FLAGS.(grouping := f.grouping));
    FlagRead(f.plus, '+', space, Flags(f.grouping, f.left, false, false, false, false));
    FlagRead(f.space, ' ', alt, Flags(f.grouping, f.left, f.plus, false, false, false));
    FlagRead(f.alt, '#', zero, Flags(f.grouping, f.left, f.plus, f.space, false, false));
    FlagRead(f.zero, '0', t, Flags(f.grouping, f.left, f.plus, f.space, f.alt, false));
  }

  /** No flags: the field may look like a position, but no dollar sign follows. */
  lemma NoPosition(f: Flags, n: int, pos: nat, t: Octets)
    requires Plain(t) && (n > 0 || n == NO_FIELD || n == STAR_FIELD)
    ensures ArgPosition(WithFlags(f, WithField(n, pos, t))) == (0, WithFlags(f, WithField(n, pos, t)))
  {
    if f == NO_FLAGS && n > 0 {
      NumberRead(n, t);
      hide Digits, Dec;
    } else {
      FlaggedHead(f, WithField(n, pos, t));
    }
  }

  lemma FlaggedHead(f: Flags, t: Octets)
    requires f != NO_FLAGS || !NonZero(t)
    ensures !NonZero(WithFlags(f, t))
  {
  }

  lemma PositionRead(pos: nat, t: Octets)
    requires pos > 0
    ensures ArgPosition(WithPosition(pos, t)) == (pos, t)
  {
    NumberHead(pos, "$" + t);
    NumberRead(pos, "$" + t);
    hide Digits, Dec;
    assert ("$" + t)[1..] == t;
  }

  lemma FieldHead(n: int, pos: nat, t: Octets)
    requires Plain(t) && (n > 0 || n == NO_FIELD || n == STAR_FIELD)
    ensures var s := WithField(n, pos, t); NonZero(s) || Plain(s) || At(s) == '*'
  {
    if n > 0 {
      NumberHead(n, t);
    }
  }

  // ---------- the round trip ----------

  /** The conversion that a wish of this length stands for. */
  function Meant(w: Wish, length: nat): ArgSpec {
    ArgSpec(length, w.flags, w.width, w.precision, w.mod, w.spec, if w.spec == StrError then -1 else w.pos,
            w.widthPos, w.precisionPos, TypeOf(w.spec, w.mod))
  }

  /** The parser reads back every conversion that is written this way, whatever follows it. */
  lemma SpellRead(w: Wish, tail: Octets)
    requires w.Valid()
    ensures
      var s := Spell(w, tail);
      |s| > |tail| && ParseSpec(s) == Ok((Meant(w, |s| - |tail| + 1), tail))
  {
    hide WithPosition, WithFlags, WithField, WithPrecision, WithLetter;
    var s4 := WithLetter(w.mod, w.spec, tail);
    var s3 := WithPrecision(w.precision, w.precisionPos, s4);
    var s2 := WithField(w.width, w.widthPos, s3);
    var s1 := WithFlags(w.flags, s2);
    LetterHead(w.mod, w.spec, tail);
    LettersRead(w.mod, w.spec, tail);
    PrecisionHead(w.precision, w.precisionPos, s4);
    PrecisionRead(w.precision, w.precisionPos, w.pos != 0, s4);
    FieldHead(w.width, w.widthPos, s3);
    FieldRead(w.width, w.widthPos, w.pos != 0, NO_FIELD, s3);
    FlagsRead(w.flags, s2);
    if w.pos > 0 {
      PositionRead(w.pos, s1);
    } else {
      NoPosition(w.flags, w.width, w.widthPos, s3);
      NoPositionText(s1);
    }
    Assemble(w, tail, s1, s2, s3, s4);
  }

  lemma NoPositionText(t: Octets)
    ensures WithPosition(0, t) == t
  {
  }

  lemma Assemble(w: Wish, tail: Octets, s1: Octets, s2: Octets, s3: Octets, s4: Octets)
    requires w.Valid()
    requires ArgPosition(Spell(w, tail)) == (w.pos, s1) && ParseFlags(s1, NO_FLAGS) == (w.flags, s2)
    requires Field(s2, w.pos != 0, NO_FIELD) == Some((w.width, w.widthPos, s3))
    requires Precision(s3, w.pos != 0) == Some((w.precision, w.precisionPos, s4))
    requires LengthMod(s4) == (w.mod, [Letter(w.spec)] + tail)
    requires Conversion(Letter(w.spec)) == w.spec && Letter(w.spec) != 'C' && Letter(w.spec) != 'S'
    ensures
      var s := Spell(w, tail);
      |s| > |tail| && ParseSpec(s) == Ok((Meant(w, |s| - |tail| + 1), tail))
  {
    hide Spell, ArgPosition, ParseFlags, Field, Precision, LengthMod, Conversion, Letter, TypeOf;
    var t := [Letter(w.spec)] + tail;
    assert t[1..] == tail;
  }

  /** The other letters: "i" is "d", "C" is "lc" and "S" is "ls". */
  lemma Synonyms(tail: Octets)
    ensures Conversion('i') == Conversion('d')
    ensures ParseSpec("C" + tail).Ok? && ParseSpec("S" + tail).Ok?
    ensures
      var a := ParseSpec("C" + tail).value.0;
      a.conspec == CharSpec && a.lenmod == Long && ParseSpec("C" + tail).value.1 == tail
    ensures
      var a := ParseSpec("S" + tail).value.0;
      a.conspec == StringSpec && a.lenmod == Long && ParseSpec("S" + tail).value.1 == tail
  {
    Upper('C', tail);
    Upper('S', tail);
  }

  lemma Upper(c: char, tail: Octets)
    requires c == 'C' || c == 'S'
    ensures
      var r := ParseSpec([c] + tail);
      && r.Ok? && r.value.0.conspec == (if c == 'C' then CharSpec else StringSpec) && r.value.0.lenmod == Long
      && r.value.1 == tail
  {
    var s := [c] + tail;
    assert ArgPosition(s) == (0, s);
    assert ParseFlags(s, NO_FLAGS) == (NO_FLAGS, s);
    assert Field(s, false, NO_FIELD) == Some((NO_FIELD, 0, s));
    assert Precision(s, false) == Some((NO_FIELD, 0, s));
    assert LengthMod(s) == (NoMod, s);
    hide TypeOf;
    assert s[1..] == tail;
  }
}
