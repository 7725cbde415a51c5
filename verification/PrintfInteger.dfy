/** estream-printf.c: the text of an integer conversion.  Lengths are size_t, width and
    precision are int, and the code compares the two directly. */
module PrintfInteger {
  import opened Common
  import opened PrintfParse

  // ---------- C arithmetic ----------

  const SIZE_MOD: nat := 0x1_0000_0000_0000_0000
  const INT_MOD: nat := 0x1_0000_0000
  const INT_LIMIT: nat := 0x8000_0000

  /** int to size_t */
  function ToSize(x: int): nat {
    x % SIZE_MOD
  }

  /** size_t to int */
  function ToInt(x: nat): int {
    (x + INT_LIMIT) % INT_MOD - INT_LIMIT
  }

  const INT_MAX: nat := 0x7fff_ffff

  lemma SizeWraps(x: int)
    requires -0x1_0000_0000 <= x < 0x1_0000_0000
    ensures ToSize(x) == if x >= 0 then x else x + SIZE_MOD
  {
  }

  /** A negative int compares as huge. */
  lemma SizeGreater(x: int, n: nat)
    requires -0x1_0000_0000 <= x < 0x1_0000_0000 && n < 0x1_0000_0000
    ensures ToSize(x) > n <==> x > n || x < 0
  {
    SizeWraps(x);
  }

  lemma SizeSub(x: int, n: nat)
    requires -0x9000_0000 <= x < 0x8000_0000 && n < 0x6000_0000
    ensures ToSize(ToSize(x) - n) == ToSize(x - n)
  {
    SizeWraps(x);
    SizeWraps(x - n);
    if x < 0 {
      assert ToSize(x) - n == (x - n) + SIZE_MOD;
    }
  }

  lemma IntBack(x: int)
    requires -0x8000_0000 <= x < 0x8000_0000
    ensures ToInt(ToSize(x)) == x
  {
    SizeWraps(x);
    if x < 0 {
      assert (x + SIZE_MOD) + INT_LIMIT == (x + INT_LIMIT) + 0x1_0000_0000 * INT_MOD;
    }
  }

  /** A size below the range of int comes out at the other end. */
  lemma IntWraps(x: int)
    requires -0x9000_0000 <= x < -0x8000_0000
    ensures ToInt(ToSize(x)) == x + INT_MOD
  {
    SizeWraps(x);
    assert (x + SIZE_MOD) + INT_LIMIT == (x + INT_LIMIT + INT_MOD) + 0xffff_ffff * INT_MOD;
  }

  // ---------- digits ----------

  function DigitChar(d: nat, upper: bool): char
    requires d < 16
  {
    if d < 10 then ('0' as int + d) as char
    else if upper then ('A' as int + d - 10) as char
    else ('a' as int + d - 10) as char
  }

  function CharValue(c: char): nat {
    if '0' <= c <= '9' then c as int - '0' as int
    else if 'A' <= c <= 'F' then c as int - 'A' as int + 10
    else if 'a' <= c <= 'f' then c as int - 'a' as int + 10
    else 0
  }

  /** The digits of a number, at least one. */
  function DigitText(v: nat, base: nat, upper: bool): (t: string)
    requires 2 <= base <= 16
    ensures t != ""
    decreases v
  {
    if v < base then [DigitChar(v, upper)] else DigitText(v / base, base, upper) + [DigitChar(v % base, upper)]
  }

  /** The number that digits stand for. */
  function NumberOf(t: string, base: nat): nat {
    if t == "" then 0 else NumberOf(t[..|t| - 1], base) * base + CharValue(t[|t| - 1])
  }

  lemma DigitValue(d: nat, upper: bool)
    requires d < 16
    ensures CharValue(DigitChar(d, upper)) == d
  {
  }

  lemma {:induction false} NumberOfDigits(v: nat, base: nat, upper: bool)
    requires 2 <= base <= 16
    ensures NumberOf(DigitText(v, base, upper), base) == v
    decreases v
  {
    hide *;
    DigitTextStep(v, base, upper);
    if v < base {
      DigitValue(v, upper);
      NumberAppend("", DigitChar(v, upper), base);
      NumberOfNothing(base);
    } else {
      DivMod(v, base);
      DigitValue(v % base, upper);
      NumberOfDigits(v / base, base, upper);
      NumberAppend(DigitText(v / base, base, upper), DigitChar(v % base, upper), base);
    }
  }

  lemma DigitTextStep(v: nat, base: nat, upper: bool)
    requires 2 <= base <= 16
    ensures DigitText(v, base, upper)
         == if v < base then "" + [DigitChar(v, upper)]
             else DigitText(v / base, base, upper) + [DigitChar(v % base, upper)]
  {
    hide DigitChar;
  }

  lemma DivMod(v: nat, base: nat)
    requires 2 <= base <= v
    ensures v / base * base + v % base == v && v / base < v && v % base < base
  {
    MulMono(base, 2, v / base);
    assert base * (v / base) == v / base * base;
  }

  lemma NumberAppend(t: string, c: char, base: nat)
    ensures NumberOf(t + [c], base) == NumberOf(t, base) * base + CharValue(c)
  {
    assert (t + [c])[..|t|] == t;
  }

  lemma NumberOfNothing(base: nat)
    ensures NumberOf("", base) * base == 0
  {
  }

  /** The digits of a 64-bit number fit the buffer of 100 characters, separators included. */
  lemma {:induction false} FewDigits(v: nat, base: nat, upper: bool, k: nat)
    requires 8 <= base <= 16 && v < Power8(k) && k > 0
    ensures |DigitText(v, base, upper)| <= k
    decreases k
  {
    hide DigitChar;
    assert Power8(0) == 1 && Power8(1) == 8;
    if v >= base {
      assert v / base < Power8(k - 1) by {
        SmallerQuotient(v, base, Power8(k - 1));
      }
      FewDigits(v / base, base, upper, k - 1);
    }
  }

  lemma SmallerQuotient(v: nat, base: nat, p: nat)
    requires base >= 8 && v < 8 * p
    ensures v / base < p
  {
    MulMono(v / base, p, base);
    MulMono(base, 8, p);
    assert v >= base * (v / base);
  }

  lemma MulMono(a: nat, b: nat, c: nat)
    ensures a >= b ==> c * a >= c * b && a * c >= b * c
  {
  }

  function Power8(k: nat): nat {
    if k == 0 then 1 else 8 * Power8(k - 1)
  }

  // ---------- separators ----------

  /** A separator in front of every three digits from the right. */
  function Grouped(t: string, sep: char): string
    decreases |t|
  {
    if |t| <= 3 then t else Grouped(t[..|t| - 3], sep) + ([sep] + t[|t| - 3..])
  }

  function Without(t: string, sep: char): string {
    if t == "" then "" else (if t[0] == sep then "" else [t[0]]) + Without(t[1..], sep)
  }

  lemma {:induction false} WithoutAppend(a: string, b: string, sep: char)
    ensures Without(a + b, sep) == Without(a, sep) + Without(b, sep)
  {
    if a == "" {
      assert a + b == b;
    } else {
      assert (a + b)[1..] == a[1..] + b;
      WithoutAppend(a[1..], b, sep);
    }
  }

  lemma {:induction false} WithoutNone(a: string, sep: char)
    requires sep !in a
    ensures Without(a, sep) == a
  {
    if a != "" {
      assert a[0] in a && forall c | c in a[1..] :: c in a;
      WithoutNone(a[1..], sep);
    }
  }

  /** Removing the separators leaves the digits. */
  lemma {:induction false} GroupedDigits(t: string, sep: char)
    requires sep !in t
    ensures Without(Grouped(t, sep), sep) == t
    decreases |t|
  {
    hide *;
    GroupedStep(t, sep);
    if |t| <= 3 {
      WithoutNone(t, sep);
    } else {
      var front, last := t[..|t| - 3], t[|t| - 3..];
      assert forall c | c in front :: c in t;
      assert forall c | c in last :: c in t;
      GroupedDigits(front, sep);
      WithoutAppend(Grouped(front, sep), [sep] + last, sep);
      WithoutSep(last, sep);
      WithoutNone(last, sep);
      assert front + last == t;
    }
  }

  lemma GroupedStep(t: string, sep: char)
    ensures Grouped(t, sep) == if |t| <= 3 then t else Grouped(t[..|t| - 3], sep) + ([sep] + t[|t| - 3..])
  {
  }

  lemma WithoutSep(t: string, sep: char)
    ensures Without([sep] + t, sep) == Without(t, sep)
  {
    assert ([sep] + t)[1..] == t;
    assert "" + Without(t, sep) == Without(t, sep);
  }

  /** One digit more in front. */
  lemma {:induction false} GroupedFront(d: char, t: string, sep: char)
    ensures Grouped([d] + t, sep) == if |t| > 0 && |t| % 3 == 0 then [d] + ([sep] + Grouped(t, sep))
        else [d] + Grouped(t, sep)
    decreases |t|
  {
    hide Grouped;
    var s := [d] + t;
    GroupedStep(s, sep);
    GroupedStep(t, sep);
    if |t| == 3 {
      assert s[..1] == [d] && s[1..] == t;
      GroupedStep([d], sep);
    } else if |t| > 3 {
      var front, last := t[..|t| - 3], t[|t| - 3..];
      assert s[..|s| - 3] == [d] + front && s[|s| - 3..] == last;
      GroupedFront(d, front, sep);
      FrontAssoc([d], [sep], Grouped(front, sep), [sep] + last);
    }
  }

  lemma FrontAssoc(a: string, b: string, c: string, d: string)
    ensures (a + c) + d == a + (c + d)
    ensures (a + (b + c)) + d == a + (b + (c + d))
  {
  }

  // ---------- the value ----------

  /** The argument as an unsigned long long, and whether a minus sign goes in front; no result
      for the types that are not supported. */
  function Magnitude(conspec: ConSpec, vt: ValType, v: int): Option<(bool, nat)> {
    if conspec == Decimal then
      if vt in {ShortT, IntT, LongT, LongLongT, SizeTT, IntMaxT, PtrDiffT} then
        var a := ToSigned(v);
        Some(if a < 0 then (true, -a) else (false, a))
      else None
    else
      if vt in {UShortT, UIntT, ULongT, ULongLongT, SizeTT, UIntMaxT, PtrDiffT} then Some((false, v % SIZE_MOD))
      else None
  }

  /** Conversion to long long. */
  function ToSigned(v: int): int {
    (v + 0x8000_0000_0000_0000) % SIZE_MOD - 0x8000_0000_0000_0000
  }

  function SignText(f: Flags, negative: bool): string {
    if negative then "-" else if f.plus then "+" else if f.space then " " else ""
  }

  predicate IsHex(c: ConSpec) {
    c == Hex || c == HexUp
  }

  function PrefixText(arg: ArgSpec): string {
    if arg.flags.alt && IsHex(arg.conspec) then if arg.conspec == Hex then "0x" else "0X" else ""
  }

  /** The digits of the number as they are printed.  `sep` is the locale's separator. */
  function NumberText(arg: ArgSpec, v: nat, sep: Option<char>): string {
    if v == 0 && arg.precision == 0 then ""
    else if arg.conspec == Decimal || arg.conspec == Unsigned then
      var t := DigitText(v, 10, false);
      if arg.flags.grouping && sep.Some? then Grouped(t, sep.value) else t
    else if arg.conspec == Octal then
      var t := DigitText(v, 8, false);
      if arg.flags.alt && t[0] != '0' then "0" + t else t
    else DigitText(v, 16, arg.conspec == HexUp)
  }

  /** "#" with zero and precision 0: no digits, and a prefix that the code does not count. */
  predicate Bare(arg: ArgSpec, v: nat) {
    arg.flags.alt && IsHex(arg.conspec) && v == 0 && arg.precision == 0
  }

  // ---------- the layout, as the code computes it ----------

  function Fill(c: char, n: int): string {
    if n <= 0 then "" else seq(n, _ => c)
  }

  /** The number of characters the code reserves for sign and prefix. */
  function Extra(arg: ArgSpec, negative: bool, v: nat): nat {
    |SignText(arg.flags, negative)|
    + if arg.flags.alt && IsHex(arg.conspec) && !(v == 0 && arg.precision == 0) then 2 else 0
  }

  /** n_prec */
  function PrecisionDigits(arg: ArgSpec, extra: nat, n: nat): int {
    if arg.flags.zero && arg.precision == NO_FIELD && !arg.flags.left && n != 0 && ToSize(arg.width - extra) > n then
      ToInt(ToSize(ToSize(arg.width - extra) - n))
    else if arg.precision > 0 && ToSize(arg.precision) > n then ToInt(ToSize(ToSize(arg.precision) - n))
    else 0
  }

  /** The count given to pad_out in front, 0 if it is not called. */
  function FrontPad(arg: ArgSpec, extra: nat, n: nat, prec: int): int {
    if !arg.flags.left && arg.width >= 0 && ToSize(arg.width - extra) > n
       && ToSize(ToSize(arg.width - extra) - n) >= ToSize(prec)
    then ToInt(ToSize(ToSize(ToSize(arg.width - extra) - n) - ToSize(prec)))
    else 0
  }

  /** The count given to pad_out behind, 0 if it is not called. */
  function BackPad(arg: ArgSpec, extra: nat, n: nat, prec: int): int {
    if arg.flags.left && arg.width >= 0 && ToSize(arg.width - extra - prec) > n
    then ToInt(ToSize(ToSize(arg.width - extra - prec) - n))
    else 0
  }

  /** The whole output of pr_integer. */
  function IntegerText(arg: ArgSpec, negative: bool, v: nat, sep: Option<char>): string {
    var p := NumberText(arg, v, sep);
    var extra := Extra(arg, negative, v);
    var prec := PrecisionDigits(arg, extra, |p|);
    Fill(' ', FrontPad(arg, extra, |p|, prec))
    + SignText(arg.flags, negative) + PrefixText(arg) + Fill('0', prec) + p
    + Fill(' ', BackPad(arg, extra, |p|, prec))
  }

  // ---------- what the layout amounts to ----------

  predicate FieldsFit(arg: ArgSpec) {
    NO_FIELD <= arg.width <= INT_MAX && NO_FIELD <= arg.precision <= INT_MAX
  }

  /** The count of padding that the code computes is below the range of int. */
  predicate PadWraps(arg: ArgSpec, extra: nat) {
    arg.width >= 0 && arg.width - extra - arg.precision < -0x8000_0000
  }

  /** The intended number of leading zeros. */
  function Zeros(arg: ArgSpec, extra: nat, n: nat): nat {
    if arg.flags.zero && arg.precision == NO_FIELD && !arg.flags.left && n != 0
    then Max(0, arg.width - extra - n)
    else Max(0, arg.precision - n)
  }

  lemma PrecisionDigitsIs(arg: ArgSpec, extra: nat, n: nat)
    requires FieldsFit(arg) && extra <= 3 && n <= 100
    ensures
      var prec := PrecisionDigits(arg, extra, n);
      && Max(0, prec) == Zeros(arg, extra, n) && -104 <= prec <= INT_MAX
      && (prec <= 0 || prec == arg.width - extra - n || prec == arg.precision - n)
      && (prec < 0 ==> prec == arg.width - extra - n && arg.width <= extra)
      && (PadWraps(arg, extra) ==> prec == arg.precision - n)
  {
    hide ToSize, ToInt;
    SizeGreater(arg.width - extra, n);
    SizeSub(arg.width - extra, n);
    IntBack(arg.width - extra - n);
    SizeGreater(arg.precision, n);
    SizeSub(arg.precision, n);
    IntBack(arg.precision - n);
  }

  lemma FrontPadIs(arg: ArgSpec, extra: nat, n: nat, prec: int)
    requires FieldsFit(arg) && extra <= 3 && n <= 100 && -104 <= prec <= INT_MAX
    requires prec < 0 ==> prec == arg.width - extra - n
    requires prec <= 0 || prec == arg.width - extra - n || prec == arg.precision - n
    ensures
      var d := arg.width - extra - n;
      Max(0, FrontPad(arg, extra, n, prec))
      == if arg.flags.left || arg.width < 0 then 0
         else if d - prec < -0x8000_0000 then d - prec + INT_MOD
         else Max(0, d - Max(0, prec))
  {
    var d := arg.width - extra - n;
    SizeGreater(arg.width - extra, n);
    SizeSub(arg.width - extra, n);
    hide ToInt;
    if ToSize(d) >= ToSize(prec) {
      PadSize(d, prec);
      if d - prec < -0x8000_0000 {
        IntWraps(d - prec);
      } else {
        IntBack(d - prec);
      }
    }
    SizeWraps(d);
    SizeWraps(prec);
    hide ToSize;
  }

  lemma PadSize(d: int, prec: int)
    requires -0x1000 <= d < 0x8000_0000 && -0x1000 <= prec < 0x8000_0000 && ToSize(d) >= ToSize(prec)
    ensures ToSize(ToSize(d) - ToSize(prec)) == ToSize(d - prec)
  {
    SizeWraps(d);
    SizeWraps(prec);
    SizeWraps(d - prec);
    assert ToSize(d) - ToSize(prec) == if d < 0 && prec >= 0 then d - prec + SIZE_MOD else d - prec;
  }

  lemma BackPadIs(arg: ArgSpec, extra: nat, n: nat, prec: int)
    requires FieldsFit(arg) && extra <= 3 && n <= 100 && 0 <= prec <= INT_MAX
    ensures
      var d := arg.width - extra - n;
      Max(0, BackPad(arg, extra, n, prec))
      == if !arg.flags.left || arg.width < 0 then 0
         else if d - prec < -0x8000_0000 then d - prec + INT_MOD
         else Max(0, d - prec)
  {
    hide ToSize, ToInt;
    var d := arg.width - extra - n;
    SizeGreater(arg.width - extra - prec, n);
    SizeSub(arg.width - extra - prec, n);
    if d - prec < -0x8000_0000 {
      IntWraps(d - prec);
    } else {
      IntBack(d - prec);
    }
  }

  // ---------- theorems about the whole text ----------

  /** The digits read back give the number; with grouping, after the separators are removed. */
  lemma NumberReadsBack(arg: ArgSpec, v: nat, sep: Option<char>)
    requires sep.Some? ==> !('0' <= sep.value <= '9')
    ensures
      var p := NumberText(arg, v, sep);
      var base := if arg.conspec == Decimal || arg.conspec == Unsigned then 10 else if arg.conspec == Octal then 8
          else 16;
      var digits := if base == 10 && arg.flags.grouping && sep.Some? then Without(p, sep.value) else p;
      && NumberOf(digits, base) == v
      && (base == 10 && arg.flags.grouping && sep.Some? ==> p == Grouped(digits, sep.value))
  {
    hide DigitText, Grouped, Without;
    if v == 0 && arg.precision == 0 {
      NoDigits(sep);
    } else if arg.conspec == Decimal || arg.conspec == Unsigned {
      NumberOfDigits(v, 10, false);
      if sep.Some? {
        DecimalDigits(v);
        GroupedDigits(DigitText(v, 10, false), sep.value);
      }
    } else if arg.conspec == Octal {
      NumberOfDigits(v, 8, false);
      LeadingZero(DigitText(v, 8, false), 8);
    } else {
      NumberOfDigits(v, 16, arg.conspec == HexUp);
    }
  }

  lemma NoDigits(sep: Option<char>)
    ensures sep.Some? ==> Without("", sep.value) == "" == Grouped("", sep.value)
  {
  }

  lemma {:induction false} DecimalDigits(v: nat)
    ensures forall c | c in DigitText(v, 10, false) :: '0' <= c <= '9'
  {
    if v >= 10 {
      DecimalDigits(v / 10);
    }
  }

  lemma {:induction false} LeadingZero(t: string, base: nat)
    ensures NumberOf("0" + t, base) == NumberOf(t, base)
  {
    if t == "" {
      assert "0" + t == "0" && "0"[..0] == "";
      NumberOfNothing(base);
    } else {
      var front := t[..|t| - 1];
      assert ("0" + t)[..|t|] == "0" + front;
      LeadingZero(front, base);
    }
  }

  /** A 64-bit number has at most 27 characters with its separators, so the buffer holds it. */
  lemma NumberFits(arg: ArgSpec, v: nat, sep: Option<char>)
    requires v < SIZE_MOD
    ensures |NumberText(arg, v, sep)| <= 100
  {
    hide DigitText, Grouped;
    Power8Is22();
    hide Power8;
    FewDigits(v, 10, false, 22);
    FewDigits(v, 8, false, 22);
    FewDigits(v, 16, arg.conspec == HexUp, 22);
    if sep.Some? {
      GroupedLength(DigitText(v, 10, false), sep.value);
    }
  }

  lemma Power8Is22()
    ensures Power8(22) == 4 * SIZE_MOD
  {
    assert Power8(11) == 0x2_0000_0000;
    assert Power8(22) == 0x800_0000 * Power8(13);
  }

  lemma {:induction false} GroupedLength(t: string, sep: char)
    ensures |Grouped(t, sep)| <= 2 * |t|
    decreases |t|
  {
    if |t| > 3 {
      GroupedLength(t[..|t| - 3], sep);
    }
  }

  lemma FillLength(c: char, n: int)
    ensures |Fill(c, n)| == Max(0, n) && Fill(c, n) == Fill(c, Max(0, n))
  {
  }

  /** What the code prints, without its arithmetic: padding to the width on the left or on the
      right, sign, prefix, leading zeros for the precision or for a zero-padded width, digits. */
  function Layout(arg: ArgSpec, negative: bool, v: nat, sep: Option<char>): string {
    var p := NumberText(arg, v, sep);
    var extra := Extra(arg, negative, v);
    var zeros := Zeros(arg, extra, |p|);
    var pad := Max(0, arg.width - extra - zeros - |p|);
    var body := SignText(arg.flags, negative) + PrefixText(arg) + Fill('0', zeros) + p;
    if arg.flags.left then body + Fill(' ', pad) else Fill(' ', pad) + body
  }

  /** The padding in front and behind, and that of the layout. */
  lemma PadsAre(arg: ArgSpec, extra: nat, n: nat)
    requires FieldsFit(arg) && extra <= 3 && n <= 100
    ensures
      var prec := PrecisionDigits(arg, extra, n);
      var pad := Max(0, arg.width - extra - Max(0, prec) - n);
      var front, back := Max(0, FrontPad(arg, extra, n, prec)), Max(0, BackPad(arg, extra, n, prec));
      && Max(0, prec) == Zeros(arg, extra, n)
      && (arg.flags.left ==> front == 0) && (!arg.flags.left ==> back == 0)
      && (!PadWraps(arg, extra) ==> front + back == pad)
      && (PadWraps(arg, extra) ==> pad == 0 < front + back)
  {
    var prec := PrecisionDigits(arg, extra, n);
    PrecisionDigitsIs(arg, extra, n);
    FrontPadIs(arg, extra, n, prec);
    if arg.flags.left {
      LeftHasNoZeroPad(arg, extra, n);
      BackPadIs(arg, extra, n, prec);
    }
    hide PrecisionDigits;
  }

  /** Despite comparing negative ints as huge sizes, the code prints exactly that layout, unless
      the count of its padding falls below the range of int. */
  lemma IntegerTextIsLayout(arg: ArgSpec, negative: bool, v: nat, sep: Option<char>)
    requires FieldsFit(arg) && v < SIZE_MOD
    ensures IntegerText(arg, negative, v, sep) == Layout(arg, negative, v, sep)
        <==> !PadWraps(arg, Extra(arg, negative, v))
  {
    var n := |NumberText(arg, v, sep)|;
    var extra := Extra(arg, negative, v);
    var prec := PrecisionDigits(arg, extra, n);
    NumberFits(arg, v, sep);
    assert extra <= 3;
    hide NumberText, PrecisionDigits, FrontPad, BackPad, Zeros, Fill, Extra;
    PadsAre(arg, extra, n);
    var front, back := FrontPad(arg, extra, n, prec), BackPad(arg, extra, n, prec);
    FillLength(' ', front);
    FillLength(' ', back);
    FillLength('0', prec);
    var pad := Max(0, arg.width - extra - Max(0, prec) - n);
    FillLength(' ', pad);
    hide PadWraps;
    Pads(Fill(' ', front), SignText(arg.flags, negative), PrefixText(arg), Fill('0', prec), NumberText(arg, v, sep),
        Fill(' ', back));
  }

  lemma Pads(front: string, a: string, b: string, c: string, d: string, back: string)
    ensures front + a + b + c + d + back == front + (a + b + c + d) + back
    ensures front == "" ==> front + (a + b + c + d) + back == (a + b + c + d) + back
    ensures back == "" ==> front + (a + b + c + d) + back == front + (a + b + c + d)
  {
  }

  lemma LeftHasNoZeroPad(arg: ArgSpec, extra: nat, n: nat)
    requires arg.flags.left && FieldsFit(arg) && n <= 100
    ensures PrecisionDigits(arg, extra, n) >= 0
  {
    hide ToSize, ToInt;
    SizeGreater(arg.precision, n);
    SizeSub(arg.precision, n);
    IntBack(arg.precision - n);
  }

  /** The length of the output is the width or what sign, prefix, precision and digits need,
      exactly unless an uncounted prefix meets a width that would have had room for it. */
  lemma LayoutLength(arg: ArgSpec, negative: bool, v: nat, sep: Option<char>)
    requires FieldsFit(arg)
    ensures
      var n := |NumberText(arg, v, sep)|;
      var fixed := |SignText(arg.flags, negative)| + |PrefixText(arg)|;
      |Layout(arg, negative, v, sep)| == Max(arg.width, fixed + Max(arg.precision, n))
      <==> !(Bare(arg, v) && arg.width > |SignText(arg.flags, negative)|)
  {
    var n := |NumberText(arg, v, sep)|;
    var extra := Extra(arg, negative, v);
    var zeros := Zeros(arg, extra, n);
    var pad := Max(0, arg.width - extra - zeros - n);
    FillLength('0', zeros);
    FillLength(' ', pad);
    assert Bare(arg, v) ==> n == 0 && zeros == 0;
    NeverEmpty(arg, v, sep);
    hide NumberText, Fill;
  }

  lemma NeverEmpty(arg: ArgSpec, v: nat, sep: Option<char>)
    ensures NumberText(arg, v, sep) == "" <==> v == 0 && arg.precision == 0
  {
    if sep.Some? {
      GroupedNonEmpty(DigitText(v, 10, false), sep.value);
    }
    hide DigitText, Grouped;
  }

  lemma GroupedNonEmpty(t: string, sep: char)
    requires t != ""
    ensures Grouped(t, sep) != ""
  {
  }

  /** The alternate form of zero with precision 0 in a field of five: seven characters. */
  lemma BareZero()
    ensures
      var arg := ArgSpec(5, Flags(false, false, false, false, true, false), 5, 0, NoMod, Hex, 1, 0, 0, UIntT);
      Layout(arg, false, 0, None) == "     0x"
  {
    assert Fill(' ', 5) == "     " && Fill('0', 0) == "";
  }

  /** A conversion whose padding wraps: a signed alternate one in a field of width 0 with the
      largest precision. */
  lemma PaddingWraps()
    ensures
      var arg := ArgSpec(9, Flags(false, false, true, false, true, false), 0, INT_MAX, NoMod, Hex, 1, 0, 0, UIntT);
      FieldsFit(arg) && IntegerText(arg, false, 1, None) != Layout(arg, false, 1, None)
  {
    var arg := ArgSpec(9, Flags(false, false, true, false, true, false), 0, INT_MAX, NoMod, Hex, 1, 0, 0, UIntT);
    assert Extra(arg, false, 1) == 3;
    hide IntegerText, Layout;
    IntegerTextIsLayout(arg, false, 1, None);
  }
}
