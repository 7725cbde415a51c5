/** estream-printf.c: parsing a format into its conversions. */
module PrintfParse {
  import opened Common
  import opened Sexp

  const NO_FIELD := -1
  const STAR_FIELD := -2

  datatype Flags = Flags(grouping: bool, left: bool, plus: bool, space: bool, alt: bool, zero: bool)

  datatype LenMod = NoMod | CharMod | Short | Long | LongLong | IntMax | SizeT | PtrDiff | LongDbl

  datatype ConSpec =
    | Unknown | Decimal | Octal | Unsigned | Hex | HexUp
    | Float | FloatUp | Exp | ExpUp | FOrG | FOrGUp | HexExp | HexExpUp
    | CharSpec | StringSpec | Pointer | StrError | BytesSoFar

  datatype ValType =
    | Unsupported
    | SCharT | UCharT | ShortT | UShortT | IntT | UIntT | LongT | ULongT | LongLongT | ULongLongT
    | DoubleT | LongDoubleT | StringT | IntMaxT | UIntMaxT | SizeTT | PtrDiffT | PointerT
    | SCharPtr | ShortPtr | IntPtr | LongPtr | LongLongPtr | IntMaxPtr | SizePtr | PtrDiffPtr

  /** One conversion.  Position 0 is none; the argument position of "%m" is -1. */
  datatype ArgSpec = ArgSpec(
    length: nat, flags: Flags, width: int, precision: int, lenmod: LenMod, conspec: ConSpec,
    argPos: int, widthPos: nat, precisionPos: nat, vt: ValType)

  /** compute_type */
  function TypeOf(c: ConSpec, m: LenMod): ValType {
    match c
    case Unknown => Unsupported
    case Decimal =>
      (match m
       case CharMod => SCharT case Short => ShortT case Long => LongT case LongLong => LongLongT
       case IntMax => IntMaxT case SizeT => SizeTT case PtrDiff => PtrDiffT case _ => IntT)
    case Octal | Unsigned | Hex | HexUp =>
      (match m
       case CharMod => UCharT case Short => UShortT case Long => ULongT case LongLong => ULongLongT
       case IntMax => UIntMaxT case SizeT => SizeTT case PtrDiff => PtrDiffT case _ => UIntT)
    case Float | FloatUp | Exp | ExpUp | FOrG | FOrGUp | HexExp | HexExpUp =>
      if m == LongDbl then LongDoubleT else DoubleT
    case CharSpec => IntT
    case StringSpec | StrError => StringT
    case Pointer => PointerT
    case BytesSoFar =>
      (match m
       case CharMod => SCharPtr case Short => ShortPtr case Long => LongPtr case LongLong => LongLongPtr
       case IntMax => IntMaxPtr case SizeT => SizePtr case PtrDiff => PtrDiffPtr case _ => IntPtr)
  }

  /** A conversion that the parser recognises has a type that can be read. */
  lemma RecognisedTyped(c: ConSpec, m: LenMod)
    ensures TypeOf(c, m) == Unsupported <==> c == Unknown
  {
  }

  // ---------- one conversion ----------

  function StartsNumber(s: Octets): bool {
    '1' <= At(s) <= '9'
  }

  /** n$ in front, or nothing. */
  function ArgPosition(s: Octets): (r: (nat, Octets))
    ensures |r.1| <= |s|
  {
    if StartsNumber(s) && At(Digits(s, 0).1) == '$' then (Digits(s, 0).0, Digits(s, 0).1[1..]) else (0, s)
  }

  function ParseFlags(s: Octets, f: Flags): (r: (Flags, Octets))
    ensures |r.1| <= |s|
  {
    if s == "" then (f, s)
    else if s[0] == '\'' then ParseFlags(s[1..], f.(grouping := true))
    else if s[0] == '-' then ParseFlags(s[1..], f.(left := true))
    else if s[0] == '+' then ParseFlags(s[1..], f.(plus := true))
    else if s[0] == ' ' then ParseFlags(s[1..], f.(space := true))
    else if s[0] == '#' then ParseFlags(s[1..], f.(alt := true))
    else if s[0] == '0' then ParseFlags(s[1..], f.(zero := true))
    else (f, s)
  }

  /** After a star: its own position, which only a positional conversion may have. */
  function StarPosition(s: Octets, positional: bool): (r: Option<(nat, Octets)>)
    ensures r.Some? ==> |r.value.1| <= |s|
  {
    if positional && StartsNumber(s) then
      if At(Digits(s, 0).1) == '$' then Some((Digits(s, 0).0, Digits(s, 0).1[1..])) else None
    else Some((0, s))
  }

  /** A star or a number; a zero may not be followed by another. */
  function Field(s: Octets, positional: bool, none: int): (r: Option<(int, nat, Octets)>)
    ensures r.Some? ==> |r.value.2| <= |s| && (r.value.0 == STAR_FIELD && none != STAR_FIELD ==> |r.value.2| < |s|)
    ensures r.Some? ==> r.value.0 >= 0 || r.value.0 == STAR_FIELD || r.value.0 == none
  {
    if At(s) == '*' then
      var (pos, rest) :- StarPosition(s[1..], positional);
      Some((STAR_FIELD, pos, rest))
    else if IsDigit(At(s)) then
      if At(s) == '0' && At(s[1..]) == '0' then None else Some((Digits(s, 0).0, 0, Digits(s, 0).1))
    else Some((none, 0, s))
  }

  function Precision(s: Octets, positional: bool): (r: Option<(int, nat, Octets)>)
    ensures r.Some? ==> |r.value.2| <= |s| && (r.value.0 == STAR_FIELD ==> |r.value.2| + 2 <= |s|)
  {
    if At(s) != '.' then Some((NO_FIELD, 0, s))
    else
      var (p, pos, rest) :- Field(s[1..], positional, 0);
      Some((if At(s[1..]) == '-' then NO_FIELD else p, pos, rest))
  }

  function LengthMod(s: Octets): (r: (LenMod, Octets))
    ensures |r.1| <= |s|
  {
    match At(s)
    case 'h' => if At(s[1..]) == 'h' then (CharMod, s[2..]) else (Short, s[1..])
    case 'l' => if At(s[1..]) == 'l' then (LongLong, s[2..]) else (Long, s[1..])
    case 'j' => (IntMax, s[1..])
    case 'z' => (SizeT, s[1..])
    case 't' => (PtrDiff, s[1..])
    case 'L' => (LongDbl, s[1..])
    case _ => (NoMod, s)
  }

  function Conversion(c: char): ConSpec {
    match c
    case 'd' | 'i' => Decimal
    case 'o' => Octal
    case 'u' => Unsigned
    case 'x' => Hex
    case 'X' => HexUp
    case 'f' => Float
    case 'F' => FloatUp
    case 'e' => Exp
    case 'E' => ExpUp
    case 'g' => FOrG
    case 'G' => FOrGUp
    case 'a' => HexExp
    case 'A' => HexExpUp
    case 'c' | 'C' => CharSpec
    case 's' | 'S' => StringSpec
    case 'p' => Pointer
    case 'n' => BytesSoFar
    case 'm' => StrError
    case _ => Unknown
  }

  /** Einval is the reported error; a format that ends within a conversion has no meaning. */
  datatype FormatError = Einval | Truncated

  /** A conversion from behind its percent sign on, and what follows it. */
  function ParseSpec(s: Octets): (r: Result<(ArgSpec, Octets), FormatError>)
    ensures r.Ok? ==>
      var (a, rest) := r.value;
      && |rest| < |s|
      && a.length == |s| - |rest| + 1
      && a.length >= 2 + (if a.width == STAR_FIELD then 1 else 0) + (if a.precision == STAR_FIELD then 1 else 0)
      && a.vt == TypeOf(a.conspec, a.lenmod) && a.argPos >= -1
      && (a.argPos == -1 <==> a.conspec == StrError)
  {
    var (pos, s1) := ArgPosition(s);
    var (flags, s2) := ParseFlags(s1, Flags(false, false, false, false, false, false));
    match Field(s2, pos != 0, NO_FIELD)
    case None => Err(Einval)
    case Some((width, widthPos, s3)) =>
      match Precision(s3, pos != 0)
      case None => Err(Einval)
      case Some((precision, precisionPos, s4)) =>
        var (mod, s5) := LengthMod(s4);
        if s5 == "" then Err(Truncated)
        else
          var c := s5[0];
          var spec := Conversion(c);
          var mod' := if c == 'C' || c == 'S' then Long else mod;
          Ok((ArgSpec(|s| - |s5| + 2, flags, width, precision, mod', spec,
                      if spec == StrError then -1 else pos, widthPos, precisionPos, TypeOf(spec, mod')),
              s5[1..]))
  }

  // ---------- a whole format ----------

  /** The pieces of a format in order. */
  datatype Piece = Lit(c: char) | Percent | Conv(arg: ArgSpec)

  /** The first piece and what follows it. */
  function NextPiece(s: Octets): (r: Result<(Piece, Octets), FormatError>)
    requires s != ""
    ensures r.Ok? ==> |r.value.1| < |s|
  {
    if s[0] != '%' then Ok((Lit(s[0]), s[1..]))
    else if s[1..] == "" then Err(Einval)
    else if s[1] == '%' then Ok((Percent, s[2..]))
    else
      var (arg, rest) :- ParseSpec(s[1..]);
      Ok((Conv(arg), rest))
  }

  function Pieces(s: Octets): Result<seq<Piece>, FormatError>
    decreases |s|
  {
    if s == "" then Ok([])
    else
      var (p, rest) :- NextPiece(s);
      var more :- Pieces(rest);
      Ok([p] + more)
  }

  /** The conversions among the pieces. */
  function Convs(ps: seq<Piece>): seq<ArgSpec> {
    if ps == [] then []
    else (match ps[0]
          case Conv(arg) => [arg]
          case _ => []) + Convs(ps[1..])
  }

  lemma {:induction false} ConvsAppend(a: seq<Piece>, b: seq<Piece>)
    ensures Convs(a + b) == Convs(a) + Convs(b)
  {
    if a == [] {
      assert a + b == b;
    } else {
      assert (a + b)[1..] == a[1..] + b;
      ConvsAppend(a[1..], b);
    }
  }

  lemma ConvsOne(p: Piece)
    ensures Convs([p]) == match p { case Conv(arg) => [arg] case _ => [] }
  {
    assert [p][1..] == [];
  }

  // ---------- the scanning code ----------

  method ScanNumber(s: Octets) returns (n: nat, rest: Octets)
    ensures (n, rest) == Digits(s, 0)
  {
    n, rest := 0, s;
    while rest != "" && '0' <= rest[0] <= '9'
      invariant Digits(s, 0) == Digits(rest, n)
      decreases |rest|
    {
      n := 10 * n + (rest[0] as int - '0' as int);
      rest := rest[1..];
    }
  }

  method ScanArgPosition(s: Octets) returns (pos: nat, rest: Octets)
    ensures (pos, rest) == ArgPosition(s)
  {
    hide Digits;
    pos, rest := 0, s;
    if '1' <= At(s) <= '9' {
      pos, rest := ScanNumber(s);
      if At(rest) == '$' {
        rest := rest[1..];
      } else {
        pos, rest := 0, s;
      }
    }
  }

  method ScanFlags(s: Octets) returns (f: Flags, rest: Octets)
    ensures (f, rest) == ParseFlags(s, Flags(false, false, false, false, false, false))
  {
    f, rest := Flags(false, false, false, false, false, false), s;
    while rest != ""
      invariant ParseFlags(s, Flags(false, false, false, false, false, false)) == ParseFlags(rest, f)
      decreases |rest|
    {
      match rest[0] {
        case '\'' => f := f.(grouping := true);
        case '-' => f := f.(left := true);
        case '+' => f := f.(plus := true);
        case ' ' => f := f.(space := true);
        case '#' => f := f.(alt := true);
        case '0' => f := f.(zero := true);
        case _ => return;
      }
      rest := rest[1..];
    }
  }

  method ScanField(s: Octets, positional: bool, none: int) returns (ok: bool, v: int, pos: nat, rest: Octets)
    ensures ok <==> Field(s, positional, none).Some?
    ensures ok ==> (v, pos, rest) == Field(s, positional, none).value
  {
    hide Digits;
    ok, v, pos, rest := true, none, 0, s;
    if At(s) == '*' {
      v := STAR_FIELD;
      rest := s[1..];
      if positional && '1' <= At(rest) <= '9' {
        pos, rest := ScanNumber(rest);
        if At(rest) != '$' {
          ok := false;
          return;
        }
        rest := rest[1..];
      }
    } else if '0' <= At(s) <= '9' {
      if s[0] == '0' && At(s[1..]) == '0' {
        ok := false;
        return;
      }
      v, rest := ScanNumber(s);
    }
  }

  method ScanSpec(s: Octets) returns (r: Result<(ArgSpec, Octets), FormatError>)
    ensures r == ParseSpec(s)
  {
    hide Field, ParseFlags, ArgPosition, Conversion, TypeOf;
    var argPos, flags, cur;
    argPos, cur := ScanArgPosition(s);
    flags, cur := ScanFlags(cur);
    var ok, width, widthPos;
    ok, width, widthPos, cur := ScanField(cur, argPos != 0, NO_FIELD);
    if !ok {
      return Err(Einval);
    }
    var precision, precisionPos := NO_FIELD, 0;
    if At(cur) == '.' {
      var ignore := At(cur[1..]) == '-';
      ok, precision, precisionPos, cur := ScanField(cur[1..], argPos != 0, 0);
      if !ok {
        return Err(Einval);
      }
      if ignore {
        precision := NO_FIELD;
      }
    }
    var (modifier, behind) := LengthMod(cur);
    var mod := modifier;
    cur := behind;
    if cur == "" {
      return Err(Truncated);
    }
    var c := cur[0];
    var conspec := Conversion(c);
    if c == 'C' || c == 'S' {
      mod := Long;
    }
    var pos: int := argPos;
    if conspec == StrError {
      pos := -1;
    }
    return Ok((ArgSpec(|s| - |cur| + 2, flags, width, precision, mod, conspec, pos, widthPos, precisionPos,
        TypeOf(conspec, mod)), cur[1..]));
  }

  method ScanPiece(s: Octets) returns (r: Result<(Piece, Octets), FormatError>)
    requires s != ""
    ensures r == NextPiece(s)
  {
    hide ParseSpec;
    if s[0] != '%' {
      return Ok((Lit(s[0]), s[1..]));
    }
    var t := s[1..];
    if t == "" {
      return Err(Einval);
    }
    if t[0] == '%' {
      return Ok((Percent, t[1..]));
    }
    var spec := ScanSpec(t);
    if spec.Err? {
      return Err(spec.error);
    }
    return Ok((Conv(spec.value.0), spec.value.1));
  }

  /** The pieces that are done in front of those of the rest. */
  function After(done: seq<Piece>, r: Result<seq<Piece>, FormatError>): Result<seq<Piece>, FormatError> {
    if r.Ok? then Ok(done + r.value) else r
  }

  lemma AfterNothing(r: Result<seq<Piece>, FormatError>)
    ensures After([], r) == r
  {
    if r.Ok? {
      assert [] + r.value == r.value;
    }
  }

  lemma PiecesStep(s: Octets)
    requires s != ""
    ensures NextPiece(s).Err? ==> Pieces(s) == Err(NextPiece(s).error)
    ensures NextPiece(s).Ok? ==> Pieces(s) == After([NextPiece(s).value.0], Pieces(NextPiece(s).value.1))
  {
    hide NextPiece;
  }

  lemma AfterAfter(a: seq<Piece>, b: seq<Piece>, r: Result<seq<Piece>, FormatError>)
    ensures After(a, After(b, r)) == After(a + b, r)
  {
    if r.Ok? {
      assert a + (b + r.value) == (a + b) + r.value;
    }
  }

  lemma AfterError(done: seq<Piece>, e: FormatError)
    ensures After(done, Err(e)) == Err(e)
  {
  }

  lemma AfterStep(done: seq<Piece>, s: Octets)
    requires s != ""
    ensures NextPiece(s).Err? ==> After(done, Pieces(s)) == Err(NextPiece(s).error)
    ensures NextPiece(s).Ok? ==>
              After(done, Pieces(s)) == After(done + [NextPiece(s).value.0], Pieces(NextPiece(s).value.1))
  {
    hide *;
    PiecesStep(s);
    if NextPiece(s).Ok? {
      AfterAfter(done, [NextPiece(s).value.0], Pieces(NextPiece(s).value.1));
    } else {
      AfterError(done, NextPiece(s).error);
    }
  }

  /** parse_format */
  method ParseFormat(format: Octets) returns (r: Result<seq<ArgSpec>, FormatError>)
    ensures r == match Pieces(format) { case Ok(ps) => Ok(Convs(ps)) case Err(e) => Err(e) }
  {
    hide NextPiece, Pieces, After;
    var args: seq<ArgSpec> := [];
    var cur := format;
    ghost var done: seq<Piece> := [];
    AfterNothing(Pieces(format));
    while cur != ""
      invariant args == Convs(done)
      invariant Pieces(format) == After(done, Pieces(cur))
      decreases |cur|
    {
      AfterStep(done, cur);
      var next := ScanPiece(cur);
      if next.Err? {
        return Err(next.error);
      }
      var (piece, rest) := next.value;
      ConvsAppend(done, [piece]);
      ConvsOne(piece);
      if piece.Conv? {
        args := args + [piece.arg];
      }
      done := done + [piece];
      cur := rest;
    }
    NoMorePieces(done);
    return Ok(args);
  }

  lemma NoMorePieces(done: seq<Piece>)
    ensures After(done, Pieces("")) == Ok(done)
  {
    assert done + [] == done;
  }

  // ---------- the rest of a text ----------

  /** The end of a text, from some position on. */
  predicate Suffix(r: Octets, s: Octets) {
    |r| <= |s| && r == s[|s| - |r|..]
  }

  lemma SuffixOfSuffix(a: Octets, b: Octets, c: Octets)
    requires Suffix(a, b) && Suffix(b, c)
    ensures Suffix(a, c)
  {
  }

  lemma SuffixTail(s: Octets, k: nat)
    requires k <= |s|
    ensures Suffix(s[k..], s) && Suffix(s, s)
  {
  }

  lemma {:induction false} DigitsSuffix(s: Octets, acc: nat)
    ensures Suffix(Digits(s, acc).1, s)
  {
    SuffixTail(s, 0);
    if s != "" && IsDigit(s[0]) {
      var acc' := acc * 10 + (s[0] as int - '0' as int);
      DigitsSuffix(s[1..], acc');
      SuffixTail(s, 1);
      hide Suffix;
      SuffixOfSuffix(Digits(s[1..], acc').1, s[1..], s);
    }
  }

  lemma {:induction false} FlagsSuffix(s: Octets, f: Flags)
    ensures Suffix(ParseFlags(s, f).1, s)
  {
    SuffixTail(s, 0);
    if s != "" {
      SuffixTail(s, 1);
      hide Suffix;
      FlagsSuffix(s[1..], f.(grouping := true));
      FlagsSuffix(s[1..], f.(left := true));
      FlagsSuffix(s[1..], f.(plus := true));
      FlagsSuffix(s[1..], f.(space := true));
      FlagsSuffix(s[1..], f.(alt := true));
      FlagsSuffix(s[1..], f.(zero := true));
      if ParseFlags(s, f).1 != s {
        SuffixOfSuffix(ParseFlags(s, f).1, s[1..], s);
      }
    }
  }

  lemma DollarSuffix(s: Octets)
    ensures At(Digits(s, 0).1) == '$' ==> Suffix(Digits(s, 0).1[1..], s)
  {
    DigitsSuffix(s, 0);
    var r := Digits(s, 0).1;
    if At(r) == '$' {
      SuffixTail(r, 1);
      hide Suffix;
      SuffixOfSuffix(r[1..], r, s);
    }
  }

  lemma FieldSuffix(s: Octets, positional: bool, none: int)
    ensures Field(s, positional, none).Some? ==> Suffix(Field(s, positional, none).value.2, s)
  {
    hide Digits;
    SuffixTail(s, 0);
    DigitsSuffix(s, 0);
    if At(s) == '*' {
      SuffixTail(s, 1);
      SuffixTail(s[1..], 0);
      DollarSuffix(s[1..]);
      hide Suffix, Digits, StarPosition;
      if StarPosition(s[1..], positional).Some? {
        SuffixOfSuffix(StarPosition(s[1..], positional).value.1, s[1..], s);
      }
    }
  }

  lemma PrecisionSuffix(s: Octets, positional: bool)
    ensures Precision(s, positional).Some? ==> Suffix(Precision(s, positional).value.2, s)
  {
    SuffixTail(s, 0);
    if At(s) == '.' {
      SuffixTail(s, 1);
      FieldSuffix(s[1..], positional, 0);
      hide Suffix, Field;
      if Field(s[1..], positional, 0).Some? {
        SuffixOfSuffix(Field(s[1..], positional, 0).value.2, s[1..], s);
      }
    }
  }

  lemma ModSuffix(s: Octets)
    ensures Suffix(LengthMod(s).1, s)
  {
  }

  /** What follows a conversion is the text from its length on. */
  lemma SpecSuffix(s: Octets)
    requires ParseSpec(s).Ok?
    ensures Suffix(ParseSpec(s).value.1, s)
  {
    DollarSuffix(s);
    SuffixTail(s, 0);
    var s1 := ArgPosition(s).1;
    var positional := ArgPosition(s).0 != 0;
    hide Suffix, Digits, ParseFlags, Field, Precision, LengthMod;
    FlagsSuffix(s1, Flags(false, false, false, false, false, false));
    var s2 := ParseFlags(s1, Flags(false, false, false, false, false, false)).1;
    SuffixOfSuffix(s2, s1, s);
    FieldSuffix(s2, positional, NO_FIELD);
    var s3 := Field(s2, positional, NO_FIELD).value.2;
    SuffixOfSuffix(s3, s2, s);
    PrecisionSuffix(s3, positional);
    var s4 := Precision(s3, positional).value.2;
    SuffixOfSuffix(s4, s3, s);
    ModSuffix(s4);
    var s5 := LengthMod(s4).1;
    SuffixOfSuffix(s5, s4, s);
    SuffixTail(s5, 1);
    SuffixOfSuffix(s5[1..], s5, s);
  }
}
