/** What the whole engine prints for a format with one conversion, from the characters of the
    format to the characters of the output. */
module PrintfResult {
  import opened Common
  import opened Sexp
  import opened PrintfParse
  import opened PrintfInteger
  import opened PrintfArgs
  import opened PrintfText
  import opened PrintfSpell

  /** Without positions: the arguments are taken in order. */
  predicate InOrder(w: Wish) {
    w.Valid() && w.pos == 0
  }

  function Format(w: Wish): Octets
    requires w.Valid()
  {
    "%" + Spell(w, "")
  }

  /** The stars take their arguments before the value does. */
  function Stars(w: Wish): nat {
    (if w.width == STAR_FIELD then 1 else 0) + (if w.precision == STAR_FIELD then 1 else 0)
  }

  function StarTypes(w: Wish): seq<ValType> {
    seq(Stars(w), _ => IntT)
  }

  function ReadTypes(w: Wish): seq<ValType> {
    StarTypes(w) + if w.spec == StrError then [] else [TypeOf(w.spec, w.mod)]
  }

  /** The conversion with its arguments counted through. */
  function Counted(w: Wish, length: nat): ArgSpec {
    Meant(w, length).(
      argPos := if w.spec == StrError then -1 else Stars(w) + 1,
      widthPos := if w.width == STAR_FIELD then 1 else 0,
      precisionPos := if w.precision == STAR_FIELD then Stars(w) else 0)
  }

  // ---------- between the scans ----------

  lemma OnePiece(w: Wish)
    requires w.Valid()
    ensures
      var a := Meant(w, |Format(w)|);
      Pieces(Format(w)) == Ok([Conv(a)]) && Convs([Conv(a)]) == [a] && AllParsed([a]) && |Format(w)| >= 2 + Stars(w)
  {
    hide Spell, ParseSpec, Meant, Convs, AllParsed;
    var s := Spell(w, "");
    SpellRead(w, "");
    NoPercent(w, |s| + 1);
    var a := Meant(w, |s| + 1);
    OnePieceText(s, a);
    ConvsOne(Conv(a));
    OneParsed(w);
  }

  lemma OnePieceText(s: Octets, a: ArgSpec)
    requires s != "" && s[0] != '%' && ParseSpec(s) == Ok((a, ""))
    ensures Pieces("%" + s) == Ok([Conv(a)])
  {
    hide ParseSpec;
    assert ("%" + s)[1..] == s;
    assert NextPiece("%" + s) == Ok((Conv(a), ""));
    hide NextPiece;
    assert Pieces("") == Ok([]);
    assert [Conv(a)] + [] == [Conv(a)];
  }

  /** A conversion does not begin with another percent sign, which has no meaning there. */
  lemma NoPercent(w: Wish, length: nat)
    requires w.Valid() && ParseSpec(Spell(w, "")) == Ok((Meant(w, length), ""))
    ensures Spell(w, "")[0] != '%'
  {
    hide Spell, Meant;
    var s := Spell(w, "");
    if s[0] == '%' {
      PercentUnknown(s);
      MeantIs(w, length);
    }
  }

  lemma MeantIs(w: Wish, length: nat)
    ensures Meant(w, length).conspec == w.spec
  {
  }

  lemma PercentUnknown(s: Octets)
    requires s != "" && s[0] == '%'
    ensures ParseSpec(s).Ok? && ParseSpec(s).value.0.conspec == Unknown
  {
    assert ArgPosition(s) == (0, s);
    assert ParseFlags(s, NO_FLAGS) == (NO_FLAGS, s);
    assert Field(s, false, NO_FIELD) == Some((NO_FIELD, 0, s));
    assert Precision(s, false) == Some((NO_FIELD, 0, s));
    assert LengthMod(s) == (NoMod, s);
  }

  lemma OneParsed(w: Wish)
    requires w.Valid()
    ensures AllParsed([Meant(w, |Format(w)|)]) && |Format(w)| >= 2 + Stars(w)
  {
    hide Spell, TypeOf;
    SpellRead(w, "");
  }

  lemma OneSlots(w: Wish, length: nat)
    requires InOrder(w)
    ensures FillAll([Meant(w, length)], 0) == ([Counted(w, length)], |ReadTypes(w)|)
    ensures MaxPos([Meant(w, length)], 0) == 0
    ensures Slots([Counted(w, length)]) == SlotsOf(Counted(w, length))
  {
    var a := Meant(w, length);
    assert [a][1..] == [] && [Counted(w, length)][1..] == [];
    hide TypeOf;
    assert FillOne(a, 0).1 == |ReadTypes(w)|;
    assert FillOne(a, 0).0 == Counted(w, length);
    assert [Counted(w, length)] + [] == [Counted(w, length)];
    assert FillAll([], |ReadTypes(w)|) == ([], |ReadTypes(w)|);
    assert Slots([]) == [] && MaxPos([], 0) == 0;
    assert SlotsOf(Counted(w, length)) + [] == SlotsOf(Counted(w, length));
  }

  /** The table of the types that are read. */
  lemma OneTable(w: Wish, length: nat)
    requires InOrder(w)
    ensures InRange(SlotsOf(Counted(w, length)), |ReadTypes(w)|)
    ensures PlaceAll(SlotsOf(Counted(w, length)), EmptyTable(|ReadTypes(w)|)) == Some(ReadTypes(w))
    ensures Readable(ReadTypes(w))
  {
    RecognisedTyped(w.spec, w.mod);
    hide TypeOf, PlaceAll;
    var a := Counted(w, length);
    var n := |ReadTypes(w)|;
    var value: seq<Slot> := if w.spec == StrError then [] else [Slot(n, a.vt)];
    var width: seq<Slot> := if w.width == STAR_FIELD then [Slot(1, IntT)] else [];
    var precision: seq<Slot> := if w.precision == STAR_FIELD then [Slot(Stars(w), IntT)] else [];
    assert SlotsOf(a) == value + (width + precision);
    var t0 := EmptyTable(n);
    var t1 := if w.spec == StrError then t0 else t0[n - 1 := a.vt];
    var t2 := if w.width == STAR_FIELD then t1[0 := IntT] else t1;
    var t3 := if w.precision == STAR_FIELD then t2[Stars(w) - 1 := IntT] else t2;
    PlaceUpToOne(value, t0);
    PlaceUpToOne(width, t1);
    PlaceUpToOne(precision, t2);
    PlaceThree(value, width, precision, t0, t1, t2);
    assert t3 == ReadTypes(w);
  }

  lemma PlaceUpToOne(s: seq<Slot>, table: seq<ValType>)
    requires |s| <= 1 && forall x | x in s :: 1 <= x.pos <= |table| && table[x.pos - 1] == Unsupported
    ensures PlaceAll(s, table) == Some(if s == [] then table else table[s[0].pos - 1 := s[0].vt])
  {
    if s != [] {
      assert s[0] in s && s[1..] == [];
    }
  }

  lemma PlaceThree(a: seq<Slot>, b: seq<Slot>, c: seq<Slot>, t0: seq<ValType>, t1: seq<ValType>, t2: seq<ValType>)
    requires InRange(a, |t0|) && InRange(b, |t0|) && InRange(c, |t0|)
    requires PlaceAll(a, t0) == Some(t1) && PlaceAll(b, t1) == Some(t2)
    ensures InRange(a + (b + c), |t0|) && PlaceAll(a + (b + c), t0) == PlaceAll(c, t2)
  {
    hide PlaceAll;
    PlaceAppend(b, c, t1);
    PlaceAppend(a, b + c, t0);
  }

  lemma OnePrepared(w: Wish)
    requires InOrder(w)
    ensures
      var length := |Format(w)|;
      && AllParsed([Meant(w, length)])
      && Prepare(Format(w), [Meant(w, length)]) == Some(([Counted(w, length)], ReadTypes(w)))
  {
    OnePiece(w);
    hide Format, Meant, Counted, FillAll, MaxPos, Slots, SlotsOf, PlaceAll, Readable;
    OneSlots(w, |Format(w)|);
    OneTable(w, |Format(w)|);
  }

  // ---------- one conversion from format to text ----------

  /** The value that the conversion itself takes. */
  function ItsValue(env: Env, w: Wish, values: seq<Value>): Value
    requires |values| >= |ReadTypes(w)|
  {
    if w.spec == StrError then VString(Some(env.errorText)) else values[Stars(w)]
  }

  /** The whole of estream_format for a format that is one conversion. */
  lemma OneConversion(env: Env, w: Wish, values: seq<Value>)
    requires InOrder(w) && |values| >= |ReadTypes(w)|
    ensures
      var a := Resolve(Counted(w, |Format(w)|), values);
      Formatted(env, Format(w), values)
      == match Converted(env, a, ItsValue(env, w, values), 0)
         case None => Out(Failed, "", [])
         case Some((t, stored)) => Out(Done, t, Stores(a, stored))
  {
    var length := |Format(w)|;
    var a, b := Meant(w, length), Counted(w, length);
    OnePiece(w);
    OnePrepared(w);
    var read := values[..|ReadTypes(w)|];
    ValuesRead(w, length, values);
    RenderOne(env, Conv(a), b, read);
    hide Format, Meant, Resolve, Converted, Prepare, Pieces, Convs, Render, Argument;
    ArgumentIs(env, w, length, values);
  }

  lemma ValuesRead(w: Wish, length: nat, values: seq<Value>)
    requires InOrder(w) && |values| >= |ReadTypes(w)|
    ensures Resolve(Counted(w, length), values[..|ReadTypes(w)|]) == Resolve(Counted(w, length), values)
    ensures Counted(w, length).conspec != Unknown
  {
    hide TypeOf;
  }

  lemma ArgumentIs(env: Env, w: Wish, length: nat, values: seq<Value>)
    requires InOrder(w) && |values| >= |ReadTypes(w)|
    ensures Argument(env, Resolve(Counted(w, length), values), values[..|ReadTypes(w)|]) == ItsValue(env, w, values)
  {
    hide TypeOf;
  }

  lemma RenderOne(env: Env, p: Piece, b: ArgSpec, values: seq<Value>)
    requires p.Conv? && b.conspec != Unknown
    ensures
      var a := Resolve(b, values);
      Render(env, [p], [b], values, 0)
      == match Converted(env, a, Argument(env, a, values), 0)
         case None => Out(Failed, "", [])
         case Some((t, stored)) => Out(Done, t, Stores(a, stored))
  {
    hide Resolve, Converted, Argument, Stores;
    assert [p][1..] == [] && [b][1..] == [];
    var a := Resolve(b, values);
    var c := Converted(env, a, Argument(env, a, values), 0);
    if c.Some? {
      var (t, stored) := c.value;
      assert Render(env, [], [], values, |t|) == Out(Done, "", []);
      assert t + "" == t && Stores(a, stored) + [] == Stores(a, stored);
    }
  }

  // ---------- numerals ----------

  const OCTAL := "01234567"
  const DECIMAL := "0123456789"
  const HEX := "0123456789abcdef"
  const HEX_UP := "0123456789ABCDEF"

  function PlaceOf(c: char, alphabet: string): (i: nat)
    ensures c in alphabet ==> i < |alphabet| && alphabet[i] == c
    ensures forall j | 0 <= j < |alphabet| && j < i :: alphabet[j] != c
  {
    if alphabet == "" || alphabet[0] == c then 0 else 1 + PlaceOf(c, alphabet[1..])
  }

  /** The number that a text of characters of an alphabet stands for, most significant first. */
  function ValueIn(t: string, alphabet: string): nat {
    if t == "" then 0 else ValueIn(t[..|t| - 1], alphabet) * |alphabet| + PlaceOf(t[|t| - 1], alphabet)
  }

  /** The usual way to write a number: no leading zero unless it is the only digit. */
  predicate Numeral(t: string, v: nat, alphabet: string) {
    && t != "" && (forall c | c in t :: c in alphabet)
    && ValueIn(t, alphabet) == v
    && (|t| > 1 ==> t[0] != '0')
  }

  function Alphabet(base: nat, upper: bool): string {
    if base == 8 then OCTAL else if base == 10 then DECIMAL else if upper then HEX_UP else HEX
  }

  lemma DigitPlace(d: nat, base: nat, upper: bool)
    requires base in {8, 10, 16} && d < base
    ensures
      var a := Alphabet(base, upper);
      && |a| == base && a[d] == DigitChar(d, upper) && DigitChar(d, upper) in a
      && (d > 0 ==> DigitChar(d, upper) != '0')
  {
  }

  lemma AllDifferent(base: nat, upper: bool, i: nat, j: nat)
    requires base in {8, 10, 16} && i < base && j < base && i != j
    ensures |Alphabet(base, upper)| == base && Alphabet(base, upper)[i] != Alphabet(base, upper)[j]
  {
    DigitPlace(i, base, upper);
    DigitPlace(j, base, upper);
    DigitValue(i, upper);
    DigitValue(j, upper);
    hide Alphabet;
  }

  lemma PlaceOfDigit(d: nat, base: nat, upper: bool)
    requires base in {8, 10, 16} && d < base
    ensures PlaceOf(DigitChar(d, upper), Alphabet(base, upper)) == d
  {
    DigitPlace(d, base, upper);
    var a := Alphabet(base, upper);
    var i := PlaceOf(DigitChar(d, upper), a);
    hide Alphabet, PlaceOf, DigitChar;
    if i != d {
      AllDifferent(base, upper, i, d);
    }
  }

  /** The digits that the engine makes are the numeral of the number. */
  lemma {:induction false} DigitsAreNumeral(v: nat, base: nat, upper: bool)
    requires base in {8, 10, 16}
    ensures Numeral(DigitText(v, base, upper), v, Alphabet(base, upper))
    ensures v > 0 ==> DigitText(v, base, upper)[0] != '0'
    decreases v
  {
    hide Alphabet, DigitChar, ValueIn, PlaceOf, DigitText;
    var a := Alphabet(base, upper);
    var d := DigitChar(v % base, upper);
    DigitPlace(v % base, base, upper);
    PlaceOfDigit(v % base, base, upper);
    DigitTextStep(v, base, upper);
    if v < base {
      ValueInSnoc("", d, a);
      ValueInNothing(a);
    } else {
      DivMod(v, base);
      DigitsAreNumeral(v / base, base, upper);
      ValueInSnoc(DigitText(v / base, base, upper), d, a);
    }
  }

  lemma ValueInSnoc(t: string, c: char, a: string)
    ensures ValueIn(t + [c], a) == ValueIn(t, a) * |a| + PlaceOf(c, a)
  {
    assert (t + [c])[..|t|] == t;
  }

  lemma ValueInNothing(a: string)
    ensures ValueIn("", a) == 0
  {
  }

  // ---------- integers ----------

  function Just(c: ConSpec): (w: Wish)
    requires c != Unknown
    ensures InOrder(w)
  {
    Wish(0, NO_FLAGS, NO_FIELD, 0, NO_FIELD, 0, NoMod, c)
  }

  lemma JustText(c: ConSpec)
    requires c != Unknown
    ensures Format(Just(c)) == "%" + [Letter(c)]
  {
    hide Letter;
    var t := [Letter(c)];
    assert t + "" == t && "" + t == t;
  }

  predicate OfInteger(c: ConSpec) {
    c == Decimal || c == Octal || c == Unsigned || c == Hex || c == HexUp
  }

  function Base(c: ConSpec): nat {
    if c == Octal then 8 else if c == Hex || c == HexUp then 16 else 10
  }

  function Abs(v: int): nat {
    if v < 0 then -v else v
  }

  /** A value of the type that is read arrives with its sign and its absolute value. */
  lemma MagnitudeIs(c: ConSpec, m: LenMod, v: int)
    requires OfInteger(c) && m != CharMod && Fits(TypeOf(c, m), VInt(v))
    requires if c == Decimal then v < 0x8000_0000_0000_0000 else v >= 0
    ensures Magnitude(c, TypeOf(c, m), v) == Some((v < 0, Abs(v))) && Abs(v) < SIZE_MOD
  {
  }

  lemma IntegerConverted(env: Env, w: Wish, length: nat, v: int)
    requires InOrder(w) && OfInteger(w.spec) && w.mod != CharMod && Stars(w) == 0
    requires Fits(TypeOf(w.spec, w.mod), VInt(v))
    requires if w.spec == Decimal then v < 0x8000_0000_0000_0000 else v >= 0
    ensures
      var a := Counted(w, length);
      && Resolve(a, [VInt(v)]) == a
      && Converted(env, a, VInt(v), 0) == Some((IntegerText(a, v < 0, Abs(v), env.sep), None))
  {
    MagnitudeIs(w.spec, w.mod, v);
    hide Magnitude, TypeOf, IntegerText, Fits;
  }

  /** An integer conversion with any flags, width, precision and modifier. */
  lemma OneInteger(env: Env, w: Wish, v: int)
    requires InOrder(w) && OfInteger(w.spec) && w.mod != CharMod && Stars(w) == 0
    requires Fits(TypeOf(w.spec, w.mod), VInt(v))
    requires if w.spec == Decimal then v < 0x8000_0000_0000_0000 else v >= 0
    ensures Formatted(env, Format(w), [VInt(v)])
         == Out(Done, IntegerText(Counted(w, |Format(w)|), v < 0, Abs(v), env.sep), [])
  {
    hide Formatted, Format, Converted, Counted, TypeOf, Fits, Resolve;
    OneConversion(env, w, [VInt(v)]);
    IntegerConverted(env, w, |Format(w)|, v);
  }

  lemma JustNumber(env: Env, c: ConSpec, v: int)
    requires OfInteger(c) && Fits(TypeOf(c, NoMod), VInt(v))
    ensures Formatted(env, Format(Just(c)), [VInt(v)])
         == Out(Done, (if v < 0 then "-" else "") + DigitText(Abs(v), Base(c), c == HexUp), [])
  {
    hide Formatted, Format, DigitText, IntegerText;
    var w := Just(c);
    assert -0x8000_0000 <= v <= 0xffff_ffff;
    OneInteger(env, w, v);
    PlainInteger(Counted(w, |Format(w)|), v < 0, Abs(v), env.sep);
  }

  lemma PlainInteger(a: ArgSpec, negative: bool, v: nat, sep: Option<char>)
    requires a.flags == NO_FLAGS && a.width == NO_FIELD && a.precision == NO_FIELD && v < SIZE_MOD
    requires OfInteger(a.conspec)
    ensures IntegerText(a, negative, v, sep)
         == (if negative then "-" else "") + DigitText(v, Base(a.conspec), a.conspec == HexUp)
  {
    hide DigitText, IntegerText;
    IntegerTextIsLayout(a, negative, v, sep);
    var t := NumberText(a, v, sep);
    var sign := SignText(a.flags, negative);
    assert Fill(' ', 0) == "" && Fill('0', 0) == "" && PrefixText(a) == "";
    assert "" + (sign + "" + "" + t) == sign + t;
  }

  /** The four unsigned conversions print the numeral of their argument, each in its alphabet. */
  lemma UnsignedPrinted(env: Env, v: nat)
    requires v <= 0xffff_ffff
    ensures
      var octal, decimal, hex, hexUp := Formatted(env, "%o", [VInt(v)]), Formatted(env, "%u", [VInt(v)]),
                                        Formatted(env, "%x", [VInt(v)]), Formatted(env, "%X", [VInt(v)]);
      && octal.status == decimal.status == hex.status == hexUp.status == Done
      && octal.stores == decimal.stores == hex.stores == hexUp.stores == []
      && Numeral(octal.text, v, "01234567")
      && Numeral(decimal.text, v, "0123456789")
      && Numeral(hex.text, v, "0123456789abcdef")
      && Numeral(hexUp.text, v, "0123456789ABCDEF")
  {
    hide Formatted, DigitText, Numeral, Format;
    JustText(Octal);
    JustText(Unsigned);
    JustText(Hex);
    JustText(HexUp);
    JustNumber(env, Octal, v);
    JustNumber(env, Unsigned, v);
    JustNumber(env, Hex, v);
    JustNumber(env, HexUp, v);
    DigitsAreNumeral(v, 8, false);
    DigitsAreNumeral(v, 10, false);
    DigitsAreNumeral(v, 16, false);
    DigitsAreNumeral(v, 16, true);
    NoSign(DigitText(v, 8, false));
    NoSign(DigitText(v, 10, false));
    NoSign(DigitText(v, 16, false));
    NoSign(DigitText(v, 16, true));
    assert "%" + "o" == "%o" && "%" + "u" == "%u" && "%" + "x" == "%x" && "%" + "X" == "%X";
  }

  lemma NoSign(t: string)
    ensures "" + t == t
  {
  }

  /** The signed conversions print a minus sign where there is one and the numeral of the
      absolute value. */
  lemma SignedPrinted(env: Env, v: int)
    requires -0x8000_0000 <= v <= 0x7fff_ffff
    ensures
      var o := Formatted(env, "%d", [VInt(v)]);
      && o.status.Done? && o.stores == [] && o == Formatted(env, "%i", [VInt(v)])
      && (v >= 0 ==> Numeral(o.text, v, "0123456789"))
      && (v < 0 ==> o.text != "" && o.text[0] == '-' && Numeral(o.text[1..], -v, "0123456789"))
  {
    hide Formatted, DigitText, Numeral, Format;
    JustText(Decimal);
    JustNumber(env, Decimal, v);
    var m := Abs(v);
    DigitsAreNumeral(m, 10, false);
    NoSign(DigitText(m, 10, false));
    assert ("-" + DigitText(m, 10, false))[1..] == DigitText(m, 10, false);
    assert "%" + "d" == "%d";
    SameInteger(env, v);
  }

  lemma SameInteger(env: Env, v: int)
    ensures Formatted(env, "%d", [VInt(v)]) == Formatted(env, "%i", [VInt(v)])
  {
    LetterPiece('d');
    LetterPiece('i');
    SameFormat(env, "%d", "%i", [VInt(v)]);
  }

  lemma LetterPiece(c: char)
    requires c == 'd' || c == 'i'
    ensures Pieces("%" + [c]) == Ok([Conv(Meant(Just(Decimal), 2))])
  {
    var s := [c];
    assert ArgPosition(s) == (0, s);
    assert ParseFlags(s, NO_FLAGS) == (NO_FLAGS, s);
    assert Field(s, false, NO_FIELD) == Some((NO_FIELD, 0, s));
    assert Precision(s, false) == Some((NO_FIELD, 0, s));
    assert LengthMod(s) == (NoMod, s);
    OnePieceText(s, Meant(Just(Decimal), 2));
  }

  /** Only the pieces of a format and its length, as a bound on positions, count. */
  lemma SameFormat(env: Env, f: Octets, g: Octets, values: seq<Value>)
    requires |f| == |g| && Pieces(f) == Pieces(g)
    ensures Formatted(env, f, values) == Formatted(env, g, values)
  {
    hide Pieces, Assign, PlaceAll, Render, Convs;
    if Pieces(f).Ok? {
      ConvsParsed(f);
    }
  }

  // ---------- flags, width and precision ----------

  function Sign(f: Flags, v: int): string {
    if v < 0 then "-" else if f.plus then "+" else if f.space then " " else ""
  }

  function Prefix(w: Wish): string {
    if w.flags.alt && w.spec == Hex then "0x" else if w.flags.alt && w.spec == HexUp then "0X" else ""
  }

  /** The digits of a value: none for zero with precision 0, a zero in front of alternate octal
      digits, separators between groups of three where they are asked for. */
  predicate Shown(d: string, w: Wish, v: nat, sep: Option<char>) {
    if v == 0 && w.precision == 0 then d == ""
    else if w.spec == Octal && w.flags.alt && v > 0 then
      d != "" && d[0] == '0' && Numeral(d[1..], v, "01234567")
    else if (w.spec == Decimal || w.spec == Unsigned) && w.flags.grouping && sep.Some? then
      Numeral(Without(d, sep.value), v, "0123456789") && d == Grouped(Without(d, sep.value), sep.value)
    else if w.spec == Octal then Numeral(d, v, "01234567")
    else if w.spec == Hex then Numeral(d, v, "0123456789abcdef")
    else if w.spec == HexUp then Numeral(d, v, "0123456789ABCDEF")
    else Numeral(d, v, "0123456789")
  }

  lemma NumberShown(w: Wish, a: ArgSpec, v: nat, sep: Option<char>)
    requires OfInteger(w.spec) && a.conspec == w.spec && a.flags == w.flags && a.precision == w.precision
    requires sep.Some? ==> !('0' <= sep.value <= '9')
    ensures Shown(NumberText(a, v, sep), w, v, sep)
  {
    hide DigitText, Grouped, Without, Numeral;
    if v == 0 && a.precision == 0 {
    } else if w.spec == Octal {
      var t := DigitText(v, 8, false);
      DigitsAreNumeral(v, 8, false);
      assert ("0" + t)[1..] == t;
      ZeroNumeral();
    } else if w.spec == Decimal || w.spec == Unsigned {
      DigitsAreNumeral(v, 10, false);
      DecimalDigits(v);
      if sep.Some? {
        GroupedDigits(DigitText(v, 10, false), sep.value);
      }
    } else {
      DigitsAreNumeral(v, 16, w.spec == HexUp);
    }
  }

  lemma ZeroNumeral()
    ensures DigitText(0, 8, false) == "0"
  {
  }

  /** Every integer conversion without stars: sign, prefix, zeros, digits and blanks, each where
      ISO C puts it; except for the two cases named by the requirements. */
  lemma IntegerLaidOut(env: Env, w: Wish, v: int)
    requires InOrder(w) && OfInteger(w.spec) && w.mod != CharMod && Stars(w) == 0
    requires w.width <= 0x7fff_ffff && w.precision <= 0x7fff_ffff
    requires Fits(TypeOf(w.spec, w.mod), VInt(v))
    requires if w.spec == Decimal then v < 0x8000_0000_0000_0000 else v >= 0
    requires env.sep.Some? ==> !('0' <= env.sep.value <= '9')
    requires !(Prefix(w) != "" && v == 0 && w.precision == 0)
    requires w.width > 0 ==> w.width - |Sign(w.flags, v)| - |Prefix(w)| - w.precision >= -0x8000_0000
    ensures
      var d := NumberText(Counted(w, |Format(w)|), Abs(v), env.sep);
      var fixed := |Sign(w.flags, v)| + |Prefix(w)| + |d|;
      var zeros := if w.flags.zero && w.precision == NO_FIELD && !w.flags.left then w.width - fixed
                   else w.precision - |d|;
      var body := Sign(w.flags, v) + Prefix(w) + Fill('0', zeros) + d;
      var pad := Fill(' ', w.width - |body|);
      && Shown(d, w, Abs(v), env.sep)
      && Formatted(env, Format(w), [VInt(v)]) == Out(Done, if w.flags.left then body + pad else pad + body, [])
  {
    hide Formatted, Format, NumberText, Shown, TypeOf, Fits, Fill, IntegerText, Layout, SignText, PrefixText, Sign,
      Prefix, Extra;
    var a := Counted(w, |Format(w)|);
    OneInteger(env, w, v);
    NumberShown(w, a, Abs(v), env.sep);
    MagnitudeIs(w.spec, w.mod, v);
    SignAndPrefix(w, a, v);
    IntegerTextIsLayout(a, v < 0, Abs(v), env.sep);
    NeverEmpty(a, Abs(v), env.sep);
    LayoutIs(a, v < 0, Abs(v), env.sep);
  }

  lemma SignAndPrefix(w: Wish, a: ArgSpec, v: int)
    requires OfInteger(w.spec) && a.conspec == w.spec && a.flags == w.flags && a.precision == w.precision
    requires !(Prefix(w) != "" && v == 0 && w.precision == 0)
    ensures SignText(a.flags, v < 0) == Sign(w.flags, v) && PrefixText(a) == Prefix(w)
    ensures Extra(a, v < 0, Abs(v)) == |Sign(w.flags, v)| + |Prefix(w)| <= 3
  {
  }

  lemma LayoutIs(a: ArgSpec, negative: bool, v: nat, sep: Option<char>)
    requires Extra(a, negative, v) == |SignText(a.flags, negative)| + |PrefixText(a)|
    requires NumberText(a, v, sep) == "" ==> a.precision == 0
    ensures
      var d := NumberText(a, v, sep);
      var fixed := |SignText(a.flags, negative)| + |PrefixText(a)| + |d|;
      var zeros := if a.flags.zero && a.precision == NO_FIELD && !a.flags.left then a.width - fixed
                   else a.precision - |d|;
      var body := SignText(a.flags, negative) + PrefixText(a) + Fill('0', zeros) + d;
      var pad := Fill(' ', a.width - |body|);
      Layout(a, negative, v, sep) == if a.flags.left then body + pad else pad + body
  {
    hide NumberText, SignText, PrefixText, Extra, Fill;
    var d := NumberText(a, v, sep);
    var fixed := |SignText(a.flags, negative)| + |PrefixText(a)| + |d|;
    var zeros := if a.flags.zero && a.precision == NO_FIELD && !a.flags.left then a.width - fixed
                 else a.precision - |d|;
    FillLength('0', zeros);
    FillLength(' ', a.width - fixed - Max(0, zeros));
  }

  // ---------- stars ----------

  predicate Floating(c: ConSpec) {
    c in {Float, FloatUp, Exp, ExpUp, FOrG, FOrGUp, HexExp, HexExpUp}
  }

  /** The wish with numbers for its stars; a negative width asks for the left side, a negative
      precision for none. */
  function Numbered(w: Wish, width: int, precision: int): Wish {
    var f := if w.width == STAR_FIELD && width < 0 then w.flags.(left := true) else w.flags;
    Wish(w.pos, f, if w.width == STAR_FIELD then Abs(width) else w.width, 0,
         if w.precision != STAR_FIELD then w.precision else if precision < 0 then NO_FIELD else precision, 0,
         w.mod, w.spec)
  }

  function StarValues(w: Wish, width: int, precision: int): (r: seq<Value>)
    ensures |r| == Stars(w)
  {
    (if w.width == STAR_FIELD then [VInt(width)] else [])
    + (if w.precision == STAR_FIELD then [VInt(precision)] else [])
  }

  /** Conversions that look the same print the same. */
  predicate Alike(a: ArgSpec, b: ArgSpec) {
    && a.flags == b.flags && a.width == b.width && a.precision == b.precision
    && a.conspec == b.conspec && a.vt == b.vt
  }

  lemma AlikePrintAlike(env: Env, a: ArgSpec, b: ArgSpec, v: Value)
    requires Alike(a, b) && !Floating(a.conspec)
    ensures Converted(env, a, v, 0) == Converted(env, b, v, 0)
  {
    hide IntegerText, DigitText, Fill, Magnitude;
    AlikeMagnitudes(env, a, b, if v.VInt? then v.i else 0);
  }

  lemma AlikeMagnitudes(env: Env, a: ArgSpec, b: ArgSpec, v: int)
    requires Alike(a, b)
    ensures Magnitude(a.conspec, a.vt, v) == Magnitude(b.conspec, b.vt, v)
    ensures
      var m := Magnitude(a.conspec, a.vt, v);
      m.Some? ==> IntegerText(a, m.value.0, m.value.1, env.sep) == IntegerText(b, m.value.0, m.value.1, env.sep)
  {
    hide Magnitude, IntegerText;
    var m := Magnitude(a.conspec, a.vt, v);
    if m.Some? {
      AlikeIntegers(a, b, m.value.0, m.value.1, env.sep);
    }
  }

  lemma AlikeIntegers(a: ArgSpec, b: ArgSpec, negative: bool, v: nat, sep: Option<char>)
    requires Alike(a, b)
    ensures IntegerText(a, negative, v, sep) == IntegerText(b, negative, v, sep)
  {
    hide DigitText, Grouped, Fill, SignText, ToSize, ToInt;
    assert NumberText(a, v, sep) == NumberText(b, v, sep);
    assert PrefixText(a) == PrefixText(b);
    assert Extra(a, negative, v) == Extra(b, negative, v);
    hide NumberText, PrefixText, Extra;
  }

  /** Width and precision may come from arguments, in front of the value and in this order. */
  lemma StarsAreNumbers(env: Env, w: Wish, width: int, precision: int, rest: seq<Value>)
    requires InOrder(w) && width != 0 && !Floating(w.spec) && w.spec != BytesSoFar
    requires |rest| >= if w.spec == StrError then 0 else 1
    ensures Numbered(w, width, precision).Valid()
    ensures Formatted(env, Format(w), StarValues(w, width, precision) + rest)
         == Formatted(env, Format(Numbered(w, width, precision)), rest)
  {
    var w' := Numbered(w, width, precision);
    var values := StarValues(w, width, precision) + rest;
    OneConversion(env, w, values);
    OneConversion(env, w', rest);
    StarsResolved(w, width, precision, rest, |Format(w)|, |Format(w')|);
    hide Formatted, Format, Converted, Counted, Resolve, TypeOf;
    var a, b := Resolve(Counted(w, |Format(w)|), values), Resolve(Counted(w', |Format(w')|), rest);
    AlikePrintAlike(env, a, b, ItsValue(env, w', rest));
    StoresNothing(env, a, ItsValue(env, w', rest));
  }

  lemma StoresNothing(env: Env, a: ArgSpec, v: Value)
    requires a.conspec != BytesSoFar
    ensures Converted(env, a, v, 0).Some? ==> Converted(env, a, v, 0).value.1.None?
  {
    hide DigitText, Grouped, Fill, Magnitude, IntegerText;
  }

  lemma StarsResolved(w: Wish, width: int, precision: int, rest: seq<Value>, n: nat, n': nat)
    requires InOrder(w) && width != 0
    ensures
      var w' := Numbered(w, width, precision);
      var values := StarValues(w, width, precision) + rest;
      var a, b := Resolve(Counted(w, n), values), Resolve(Counted(w', n'), rest);
      && Alike(a, b) && a.conspec == w.spec
      && forall i | 0 <= i < |rest| :: values[Stars(w) + i] == rest[i]
  {
    hide TypeOf;
    var values := StarValues(w, width, precision) + rest;
    var w' := Numbered(w, width, precision);
    assert Resolve(Counted(w', n'), rest) == Counted(w', n');
    if w.width == STAR_FIELD {
      assert values[0] == VInt(width);
      assert IntAt(values, 1) == width;
    }
    if w.precision == STAR_FIELD {
      assert values[Stars(w) - 1] == VInt(precision);
      assert IntAt(values, Stars(w)) == precision;
    }
  }

  // ---------- the types that are read ----------

  /** The number of octets of the integer that a modifier names. */
  function Width(m: LenMod): nat {
    match m
    case CharMod => 1
    case Short => 2
    case NoMod | LongDbl => 4
    case Long | LongLong | IntMax | SizeT | PtrDiff => 8
  }

  function Power256(k: nat): (p: nat)
    ensures p > 0
  {
    if k == 0 then 1 else 256 * Power256(k - 1)
  }

  /** Which arguments may be passed for an integer conversion: those of its width, signed or
      not as the letter says; except that "z" is always unsigned and "t" always signed. */
  lemma ArgumentRange(w: Wish, v: int)
    requires InOrder(w) && OfInteger(w.spec) && Stars(w) == 0
    ensures
      var signed := w.mod == PtrDiff || (w.spec == Decimal && w.mod != SizeT);
      var all: int := Power256(Width(w.mod));
      AllFit(ReadTypes(w), [VInt(v)]) <==> if signed then -all <= 2 * v < all else 0 <= v < all
  {
    hide Power256, Width, TypeOf, Fits;
    var types := ReadTypes(w);
    assert types == [TypeOf(w.spec, w.mod)];
    FitsRange(w.spec, w.mod, v);
    assert AllFit(types, [VInt(v)]) <==> Fits(types[0], VInt(v));
  }

  lemma FitsRange(c: ConSpec, m: LenMod, v: int)
    requires OfInteger(c)
    ensures
      var signed := m == PtrDiff || (c == Decimal && m != SizeT);
      var all: int := Power256(Width(m));
      Fits(TypeOf(c, m), VInt(v)) <==> if signed then -all <= 2 * v < all else 0 <= v < all
  {
    Powers();
    hide Power256;
  }

  /** "%n" stores the number of characters so far, reduced to the width of its target. */
  lemma StoredReduced(m: LenMod, n: nat)
    ensures
      var all: int := Power256(Width(m));
      var r := Stored(TypeOf(BytesSoFar, m), n);
      && r % all == n % all
      && if m == SizeT then 0 <= r < all else -all <= 2 * r < all
  {
    Powers();
    hide Power256;
    Reduced(n);
  }

  lemma Reduced(n: nat)
    ensures ((n + 0x80) % 0x100 - 0x80) % 0x100 == n % 0x100
    ensures ((n + 0x8000) % 0x1_0000 - 0x8000) % 0x1_0000 == n % 0x1_0000
    ensures ((n + 0x8000_0000) % 0x1_0000_0000 - 0x8000_0000) % 0x1_0000_0000 == n % 0x1_0000_0000
    ensures ((n + 0x8000_0000_0000_0000) % 0x1_0000_0000_0000_0000 - 0x8000_0000_0000_0000)
            % 0x1_0000_0000_0000_0000 == n % 0x1_0000_0000_0000_0000
  {
    ReducedBy(n, 0x80);
    ReducedBy(n, 0x8000);
    ReducedBy(n, 0x8000_0000);
    ReducedBy(n, 0x8000_0000_0000_0000);
  }

  lemma ReducedBy(n: nat, h: nat)
    requires h > 0
    ensures ((n + h) % (2 * h) - h) % (2 * h) == n % (2 * h)
  {
    var m := 2 * h;
    var q, p := (n + h) / m, n / m;
    assert (n + h) % m - h == n - m * q;
    assert m * (p - q) == m * p - m * q;
    SameRemainder((n + h) % m - h, m, p - q, n % m);
  }

  lemma SameRemainder(x: int, m: nat, k: int, r: nat)
    requires m > 0 && x == m * k + r && r < m
    ensures x % m == r
  {
    var e := k - x / m;
    assert x == m * (x / m) + x % m;
    assert m * e == m * k - m * (x / m);
    Steps(m, e);
  }

  lemma Steps(m: int, e: int)
    requires m > 0
    ensures e >= 1 ==> m * e >= m
    ensures e <= -1 ==> m * e <= -m
  {
  }

  lemma Powers()
    ensures Power256(1) == 0x100 && Power256(2) == 0x1_0000 && Power256(4) == 0x1_0000_0000
    ensures Power256(8) == 0x1_0000_0000_0000_0000
  {
    assert Power256(3) == 0x100_0000;
    assert Power256(5) == 0x100_0000_0000 && Power256(6) == 0x1_0000_0000_0000;
  }

  // ---------- other conversions and plain text ----------

  /** A string is cut to the precision and padded to the width. */
  lemma StringPrinted(env: Env, w: Wish, s: Option<Octets>)
    requires InOrder(w) && w.spec == StringSpec && Stars(w) == 0
    ensures
      var t := if s.Some? then s.value else "(null)";
      var cut := if 0 <= w.precision < |t| then t[..w.precision] else t;
      var pad := Fill(' ', w.width - |cut|);
      Formatted(env, Format(w), [VString(s)]) == Out(Done, if w.flags.left then cut + pad else pad + cut, [])
  {
    hide Formatted, Format, Converted, Counted, Resolve, TypeOf;
    OneConversion(env, w, [VString(s)]);
    JustResolved(w, |Format(w)|, [VString(s)]);
    StringConverted(env, Counted(w, |Format(w)|), s);
  }

  lemma StringConverted(env: Env, a: ArgSpec, s: Option<Octets>)
    requires a.conspec == StringSpec || a.conspec == StrError
    ensures
      var t := if s.Some? then s.value else "(null)";
      var cut := if 0 <= a.precision < |t| then t[..a.precision] else t;
      var pad := Fill(' ', a.width - |cut|);
      Converted(env, a, VString(s), 0) == Some((if a.flags.left then cut + pad else pad + cut, None))
  {
    hide Fill;
  }

  /** The message of "%m" takes no argument. */
  lemma MessagePrinted(env: Env)
    ensures Formatted(env, "%m", []) == Out(Done, env.errorText, [])
  {
    hide Formatted, Format, Converted, Counted, Resolve, TypeOf;
    var w := Just(StrError);
    OneConversion(env, w, []);
    JustText(StrError);
    JustResolved(w, |Format(w)|, []);
    StringConverted(env, Counted(w, |Format(w)|), Some(env.errorText));
    assert "%" + "m" == "%m";
    assert Fill(' ', -1 - |env.errorText|) == "";
    assert "" + env.errorText == env.errorText;
  }

  lemma CharPrinted(env: Env, c: char)
    requires c as int < 256
    ensures Formatted(env, "%c", [VInt(c as int)]) == Out(Done, [c], [])
  {
    hide Formatted, Format, Converted, Counted, Resolve, TypeOf;
    var w := Just(CharSpec);
    OneConversion(env, w, [VInt(c as int)]);
    JustText(CharSpec);
    JustResolved(w, |Format(w)|, [VInt(c as int)]);
    CharConverted(env, Counted(w, |Format(w)|), c);
    assert "%" + "c" == "%c";
  }

  lemma JustResolved(w: Wish, length: nat, values: seq<Value>)
    requires InOrder(w) && Stars(w) == 0
    ensures var a := Counted(w, length);
            Resolve(a, values) == a && a.conspec == w.spec && a.width == w.width && a.precision == w.precision
            && a.flags == w.flags
  {
    hide TypeOf;
  }

  lemma CharConverted(env: Env, a: ArgSpec, c: char)
    requires a.conspec == CharSpec && c as int < 256
    ensures Converted(env, a, VInt(c as int), 0) == Some(([c], None))
  {
  }

  /** A pointer is printed as sixteen hexadecimal digits behind "0x". */
  lemma PointerPrinted(env: Env, p: nat)
    requires p < SIZE_MOD
    ensures
      var o := Formatted(env, "%p", [VPointer(p)]);
      var t := DigitText(p, 16, false);
      && Numeral(t, p, "0123456789abcdef") && |t| <= 16
      && o == Out(Done, "0x" + Fill('0', 16 - |t|) + t, [])
  {
    hide Formatted, Format, Converted, Counted, Resolve, TypeOf, DigitText, Fill, Numeral, Power16;
    var w := Just(Pointer);
    OneConversion(env, w, [VPointer(p)]);
    JustText(Pointer);
    JustResolved(w, |Format(w)|, [VPointer(p)]);
    PointerConverted(env, Counted(w, |Format(w)|), p);
    DigitsAreNumeral(p, 16, false);
    Power16Is();
    SixteenDigits(p, 16);
    assert "%" + "p" == "%p";
  }

  lemma PointerConverted(env: Env, a: ArgSpec, p: nat)
    requires a.conspec == Pointer
    ensures
      var t := DigitText(p, 16, false);
      Converted(env, a, VPointer(p), 0) == Some(("0x" + Fill('0', 16 - |t|) + t, None))
  {
    hide DigitText, Fill;
  }

  lemma Power16Is()
    ensures Power16(16) == SIZE_MOD
  {
    assert Power16(8) == 0x1_0000_0000;
    assert Power16(12) == 0x1_0000 * Power16(8);
  }

  function Power16(k: nat): nat {
    if k == 0 then 1 else 16 * Power16(k - 1)
  }

  lemma {:induction false} SixteenDigits(v: nat, k: nat)
    requires k > 0 && v < Power16(k)
    ensures |DigitText(v, 16, false)| <= k
  {
    hide DigitChar;
    if v >= 16 {
      assert Power16(k) == 16 * Power16(k - 1);
      assert Power16(0) == 1 && Power16(1) == 16;
      SixteenDigits(v / 16, k - 1);
    }
  }

  lemma {:induction false} PlainPieces(t: Octets)
    requires '%' !in t
    ensures Pieces(t).Ok? && Convs(Pieces(t).value) == []
    ensures |Pieces(t).value| == |t| && forall i | 0 <= i < |t| :: Pieces(t).value[i] == Lit(t[i])
  {
    if t != "" {
      assert t[0] in t && forall c | c in t[1..] :: c in t;
      PlainPieces(t[1..]);
      var more := Pieces(t[1..]).value;
      assert ([Lit(t[0])] + more)[1..] == more;
    }
  }

  /** Text without a percent sign is printed as it is. */
  lemma PlainPrinted(env: Env, t: Octets)
    requires '%' !in t
    ensures t != "" ==> Formatted(env, t, []) == Out(Done, t, [])
  {
    if t != "" {
      PlainPieces(t);
      RenderPlain(env, Pieces(t).value, t, 0);
      NoArguments(t);
      hide Pieces, Convs, Render, Prepare;
    }
  }

  lemma NoArguments(t: Octets)
    requires t != ""
    ensures AllParsed([]) && Prepare(t, []) == Some(([], []))
  {
  }

  lemma {:induction false} RenderPlain(env: Env, ps: seq<Piece>, t: Octets, n: nat)
    requires |ps| == |t| && forall i | 0 <= i < |t| :: ps[i] == Lit(t[i])
    ensures Render(env, ps, [], [], n) == Out(Done, t, [])
    decreases |ps|
  {
    if t != "" {
      RenderPlain(env, ps[1..], t[1..], n + 1);
      assert [t[0]] + t[1..] == t;
    }
  }

  lemma PercentPrinted(env: Env)
    ensures Formatted(env, "%%", []) == Out(Done, "%", [])
  {
    var s := "%%";
    assert s[1..] == "%" && s[2..] == "" && Pieces("") == Ok([]);
    assert NextPiece(s) == Ok((Percent, ""));
    assert [Percent] + [] == [Percent];
    assert Pieces(s) == Ok([Percent]);
    hide NextPiece, Pieces;
    ConvsOne(Percent);
    NoArguments(s);
    hide Prepare, Convs;
    assert [Percent][1..] == [] && Render(env, [], [], [], 1) == Out(Done, "", []);
    assert "%" + "" == "%";
  }
}
