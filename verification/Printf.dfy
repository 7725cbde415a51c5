/** estream-printf.c as code: output sinks, the conversions, the second scan of the format and
    the entry points. */
module Printf {
  import opened Common
  import opened Sexp
  import opened PrintfParse
  import opened PrintfInteger
  import opened PrintfArgs
  import opened PrintfText

  // ---------- sinks ----------

  /** Where output goes: into a buffer of fixed size, where what does not fit is only counted,
      or into a buffer that grows. */
  class Sink {
    const limit: Option<nat>
    var buffer: array<char>
    var used: nat
    var count: nat
    ghost var written: Octets

    ghost predicate Valid()
      reads this, buffer
    {
      && count == |written|
      && used <= buffer.Length
      && (match limit
          case Some(n) => buffer.Length == n && used == Min(n, |written|)
          case None => used == |written| && used < buffer.Length)
      && buffer[..used] == written[..used]
    }

    /** fixed_buffer_parm_s */
    constructor Fixed(buf: array<char>)
      ensures Valid() && written == "" && buffer == buf && limit == Some(buf.Length)
    {
      limit, buffer, used, count, written := Some(buf.Length), buf, 0, 0, "";
    }

    /** dynamic_buffer_parm_s */
    constructor Dynamic()
      ensures Valid() && written == "" && limit == None && fresh(buffer)
    {
      limit, used, count, written := None, 0, 0, "";
      buffer := new char[512](_ => '\0');
    }

    /** The output function of the sink. */
    method Out(data: Octets)
      requires Valid()
      modifies this, buffer
      ensures Valid() && written == old(written) + data
      ensures limit.Some? ==> buffer == old(buffer)
      ensures buffer == old(buffer) || fresh(buffer)
    {
      if limit.Some? {
        FixedOut(data);
      } else {
        DynamicOut(data);
      }
    }

    /** fixed_buffer_out */
    method FixedOut(data: Octets)
      requires Valid() && limit.Some?
      modifies this`used, this`count, this`written, buffer
      ensures Valid() && written == old(written) + data
    {
      count := count + |data|;
      ghost var before := written;
      written := written + data;
      assert written[..used] == before[..used];
      var start := used;
      var n := if used + |data| < buffer.Length then |data| else Min(|data|, buffer.Length - used);
      var i := 0;
      while i < n
        invariant 0 <= i <= n && used == start + i && start + n <= buffer.Length
        invariant count == |written| && written == before + data
        invariant start == Min(buffer.Length, |before|)
        invariant buffer[..used] == written[..used]
        modifies this`used, buffer
        decreases n - i
      {
        assert i < |data|;
        assert start == |before|;
        buffer[used] := data[i];
        assert written[used] == data[i];
        used := used + 1;
        i := i + 1;
      }
    }

    /** dynamic_buffer_out */
    method DynamicOut(data: Octets)
      requires Valid() && limit.None?
      modifies this`used, this`count, this`written, this`buffer, buffer
      ensures Valid() && written == old(written) + data
      ensures buffer == old(buffer) || fresh(buffer)
    {
      if used + |data| >= buffer.Length {
        Grow(|data|);
      }
      assert buffer[..used] == written;
      ghost var before := written;
      forall i | 0 <= i < |data| {
        buffer[used + i] := data[i];
      }
      assert buffer[..used] == before;
      assert buffer[used..used + |data|] == data;
      assert buffer[..used + |data|] == buffer[..used] + buffer[used..used + |data|];
      used := used + |data|;
      count := count + |data|;
      written := written + data;
    }

    /** A larger buffer with the same contents. */
    method Grow(n: nat)
      requires Valid() && limit.None?
      modifies this`buffer
      ensures Valid() && fresh(buffer) && buffer.Length == old(buffer.Length) + n + 512
    {
      var bigger := new char[buffer.Length + n + 512](_ => '\0');
      forall i | 0 <= i < used {
        bigger[i] := buffer[i];
      }
      assert bigger[..used] == buffer[..used];
      buffer := bigger;
    }
  }

  /** pad_out, in chunks of at most 32. */
  method PadOut(sink: Sink, c: char, count: int, nbytes: nat) returns (n: nat)
    requires sink.Valid()
    modifies sink, sink.buffer
    ensures sink.Valid() && sink.written == old(sink.written) + Fill(c, count)
    ensures n == nbytes + |Fill(c, count)|
    ensures sink.limit.Some? ==> sink.buffer == old(sink.buffer)
    ensures sink.buffer == old(sink.buffer) || fresh(sink.buffer)
  {
    hide Sink.Valid;
    n := nbytes;
    var left := count;
    ghost var start := sink.written;
    assert start + "" == start;
    while left > 0
      invariant sink.Valid()
      invariant sink.limit.Some? ==> sink.buffer == old(sink.buffer)
      invariant sink.buffer == old(sink.buffer) || fresh(sink.buffer)
      invariant left >= 0 || left == count
      invariant sink.written == start + Fill(c, count - Max(0, left))
      invariant n == nbytes + Max(0, count) - Max(0, left)
    {
      var k := if left <= 32 then left else 32;
      FillSplit(c, count - left, k);
      Assoc(start, Fill(c, count - left), Fill(c, k));
      sink.Out(seq(k, _ => c));
      n := n + k;
      left := left - k;
    }
  }

  lemma FillSplit(c: char, a: int, b: int)
    requires a >= 0 && b > 0
    ensures Fill(c, a) + Fill(c, b) == Fill(c, a + b) && Fill(c, b) == seq(b, _ => c)
  {
  }

  // ---------- numbers ----------

  /** The digits, built backwards. */
  method BuildDigits(v: nat, base: nat, upper: bool) returns (p: string)
    requires 2 <= base <= 16
    ensures p == DigitText(v, base, upper)
  {
    hide DigitChar;
    p := "";
    var rest: nat := v;
    var more := true;
    while more
      invariant DigitText(v, base, upper) == if more then DigitText(rest, base, upper) + p else p
      decreases more, rest
    {
      ghost var before := p;
      p := [DigitChar(rest % base, upper)] + p;
      if rest >= base {
        Assoc(DigitText(rest / base, base, upper), [DigitChar(rest % base, upper)], before);
        DivMod(rest, base);
      } else {
        SmallQuotient(rest, base);
      }
      rest := rest / base;
      more := rest != 0;
    }
  }

  lemma SmallQuotient(a: nat, b: nat)
    requires a < b
    ensures a / b == 0 && a % b == a
  {
  }

  /** Decimal digits with a separator in front of every third, built backwards. */
  method BuildDecimal(v: nat, grouping: bool, sep: Option<char>) returns (p: string)
    ensures p == Separated(DigitText(v, 10, false), grouping, sep)
  {
    hide DigitChar, DigitText, Separated, InGroup;
    p := "";
    var rest: nat := v;
    var more := true;
    var group := -1;
    ghost var t := "";
    NothingSeparated(grouping, sep);
    while more
      invariant DigitText(v, 10, false) == if more then DigitText(rest, 10, false) + t else t
      invariant p == Separated(t, grouping, sep)
      invariant grouping && sep.Some? ==> group == InGroup(|t|)
      decreases more, rest
    {
      SeparatedFront(DigitChar(rest % 10, false), t, grouping, sep);
      GroupCount(|t|);
      if grouping {
        group := group + 1;
        if group == 3 && sep.Some? {
          p := [sep.value] + p;
          group := 0;
        }
      }
      p := [DigitChar(rest % 10, false)] + p;
      LastDigit(rest, t);
      t := [DigitChar(rest % 10, false)] + t;
      rest := rest / 10;
      more := rest != 0;
    }
  }

  function Separated(t: string, grouping: bool, sep: Option<char>): string {
    if grouping && sep.Some? then Grouped(t, sep.value) else t
  }

  lemma NothingSeparated(grouping: bool, sep: Option<char>)
    ensures Separated("", grouping, sep) == "" && InGroup(0) == -1
  {
  }

  lemma SeparatedFront(d: char, t: string, grouping: bool, sep: Option<char>)
    ensures Separated([d] + t, grouping, sep)
         == (if grouping && sep.Some? && InGroup(|t|) + 1 == 3 then [d] + ([sep.value] + Separated(t, grouping, sep))
             else [d] + Separated(t, grouping, sep))
  {
    hide Grouped;
    if sep.Some? {
      GroupedFront(d, t, sep.value);
    }
  }

  /** The place of the first of `n` digits in its group, counted from the right. */
  function InGroup(n: nat): int {
    if n == 0 then -1 else (n - 1) % 3
  }

  lemma GroupCount(n: nat)
    ensures InGroup(n + 1) == if InGroup(n) + 1 == 3 then 0 else InGroup(n) + 1
  {
  }

  /** The last digit goes in front of those behind it. */
  lemma LastDigit(v: nat, t: string)
    ensures DigitText(v, 10, false) + t
         == (if v / 10 != 0 then DigitText(v / 10, 10, false) else "") + ([DigitChar(v % 10, false)] + t)
  {
    hide DigitChar;
    if v >= 10 {
      Assoc(DigitText(v / 10, 10, false), [DigitChar(v % 10, false)], t);
    } else {
      assert "" + ([DigitChar(v, false)] + t) == [DigitChar(v, false)] + t;
    }
  }

  method BuildNumber(a: ArgSpec, v: nat, sep: Option<char>) returns (p: string)
    ensures p == NumberText(a, v, sep)
  {
    hide DigitText, Grouped;
    if v == 0 && a.precision == 0 {
      return "";
    }
    if a.conspec == Decimal || a.conspec == Unsigned {
      p := BuildDecimal(v, a.flags.grouping, sep);
    } else if a.conspec == Octal {
      p := BuildDigits(v, 8, false);
      if a.flags.alt && p[0] != '0' {
        p := "0" + p;
      }
    } else {
      p := BuildDigits(v, 16, a.conspec == HexUp);
    }
  }

  /** The output part of pr_integer: padding, sign, prefix, zeros, digits, padding. */
  method PutParts(sink: Sink, front: int, sign: string, prefix: string, prec: int, p: string, back: int, nbytes: nat)
    returns (n: nat)
    requires sink.Valid()
    modifies sink, sink.buffer
    ensures sink.Valid()
    ensures sink.written == old(sink.written) + (Fill(' ', front) + sign + prefix + Fill('0', prec) + p
        + Fill(' ', back))
    ensures n == nbytes + |Fill(' ', front) + sign + prefix + Fill('0', prec) + p + Fill(' ', back)|
    ensures sink.limit.Some? ==> sink.buffer == old(sink.buffer)
    ensures sink.buffer == old(sink.buffer) || fresh(sink.buffer)
  {
    hide Sink.Valid, Fill;
    ghost var w := sink.written;
    n := PadOut(sink, ' ', front, nbytes);
    ghost var t := Fill(' ', front);
    if sign != "" {
      sink.Out(sign);
      n := n + |sign|;
    }
    Onto(w, t, sign);
    t := t + sign;
    if prefix != "" {
      sink.Out(prefix);
      n := n + |prefix|;
    }
    Onto(w, t, prefix);
    t := t + prefix;
    n := PadOut(sink, '0', prec, n);
    Onto(w, t, Fill('0', prec));
    t := t + Fill('0', prec);
    sink.Out(p);
    n := n + |p|;
    Onto(w, t, p);
    t := t + p;
    n := PadOut(sink, ' ', back, n);
    Onto(w, t, Fill(' ', back));
  }

  /** pr_integer */
  method PrInteger(sink: Sink, a: ArgSpec, v: int, sep: Option<char>, nbytes: nat) returns (ok: bool, n: nat)
    requires sink.Valid()
    modifies sink, sink.buffer
    ensures ok == Magnitude(a.conspec, a.vt, v).Some?
    ensures sink.Valid()
    ensures ok ==> (
      var text := IntegerText(a, Magnitude(a.conspec, a.vt, v).value.0, Magnitude(a.conspec, a.vt, v).value.1, sep);
      sink.written == old(sink.written) + text && n == nbytes + |text|)
    ensures !ok ==> sink.written == old(sink.written) && n == nbytes
    ensures sink.limit.Some? ==> sink.buffer == old(sink.buffer)
    ensures sink.buffer == old(sink.buffer) || fresh(sink.buffer)
  {
    hide Sink.Valid, NumberText, FrontPad, BackPad, PrecisionDigits, Fill, Magnitude;
    n := nbytes;
    var m := Magnitude(a.conspec, a.vt, v);
    ok := m.Some?;
    if !ok {
      return;
    }
    var (negative, number) := m.value;
    var sign := SignText(a.flags, negative);
    var extra: nat := |sign|;
    var p := BuildNumber(a, number, sep);
    if a.flags.alt && IsHex(a.conspec) && !(number == 0 && a.precision == 0) {
      extra := extra + 2;
    }
    var prec := PrecisionDigits(a, extra, |p|);
    var prefix := "";
    if a.flags.alt && (a.conspec == Hex || a.conspec == HexUp) {
      prefix := if a.conspec == Hex then "0x" else "0X";
    }
    n := PutParts(sink, FrontPad(a, extra, |p|, prec), sign, prefix, prec, p, BackPad(a, extra, |p|, prec), n);
  }

  lemma Onto(w: string, t: string, u: string)
    ensures (w + t) + u == w + (t + u)
    ensures u == "" ==> w + t == w + (t + u)
  {
  }

  /** pr_string */
  method PrString(sink: Sink, a: ArgSpec, value: Option<Octets>, nbytes: nat) returns (n: nat)
    requires sink.Valid()
    modifies sink, sink.buffer
    ensures sink.Valid() && sink.written == old(sink.written) + StringText(a, value)
        && n == nbytes + |StringText(a, value)|
    ensures sink.limit.Some? ==> sink.buffer == old(sink.buffer)
    ensures sink.buffer == old(sink.buffer) || fresh(sink.buffer)
  {
    hide Sink.Valid, Fill;
    var s := if value.Some? then value.value else "(null)";
    var k := |s|;
    if a.precision >= 0 {
      k := 0;
      while k < |s| && k < a.precision
        invariant 0 <= k <= |s| && k <= a.precision
      {
        k := k + 1;
      }
    }
    var t := s[..k];
    ghost var start := sink.written;
    n := nbytes;
    NoFill(' ', a.width - k);
    ghost var pad := Fill(' ', a.width - k);
    if !a.flags.left && a.width >= 0 && a.width > k {
      n := PadOut(sink, ' ', a.width - k, n);
    }
    sink.Out(t);
    n := n + k;
    if a.flags.left && a.width >= 0 && a.width > k {
      n := PadOut(sink, ' ', a.width - k, n);
    }
    assert (if 0 <= a.precision < |s| then s[..a.precision] else s) == t;
    PadAround(start, pad, t);
  }

  lemma NoFill(c: char, n: int)
    ensures n <= 0 ==> Fill(c, n) == ""
  {
  }

  lemma PadAround(w: string, pad: string, t: string)
    ensures (w + pad) + t == w + (pad + t) && (w + t) + pad == w + (t + pad)
    ensures pad == "" ==> w + t == w + (pad + t) && w + t == w + (t + pad)
  {
  }

  /** pr_pointer, whose digits are padded to sixteen. */
  method PrPointer(sink: Sink, p: nat, nbytes: nat) returns (n: nat)
    requires sink.Valid()
    modifies sink, sink.buffer
    ensures sink.Valid() && sink.written == old(sink.written) + PointerText(p) && n == nbytes + |PointerText(p)|
    ensures sink.limit.Some? ==> sink.buffer == old(sink.buffer)
    ensures sink.buffer == old(sink.buffer) || fresh(sink.buffer)
  {
    hide Sink.Valid, DigitText;
    var digits := BuildDigits(p, 16, false);
    var t := digits;
    while |t| < 16
      invariant |digits| <= |t| && (|t| <= 16 || t == digits)
      invariant t == Fill('0', |t| - |digits|) + digits
      modifies {}
      decreases 16 - |t|
    {
      MoreZeros(|t| - |digits|, digits);
      t := "0" + t;
    }
    t := "0x" + t;
    assert t == PointerText(p) by {
      ZerosTo16(digits, t);
    }
    sink.Out(t);
    n := nbytes + |t|;
  }

  lemma MoreZeros(k: nat, t: string)
    ensures "0" + (Fill('0', k) + t) == Fill('0', k + 1) + t
  {
  }

  lemma ZerosTo16(digits: string, t: string)
    requires exists k: nat :: t == "0x" + (Fill('0', k) + digits) && (k + |digits| == 16 || (k == 0 && |digits| >= 16))
    ensures t == "0x" + Fill('0', 16 - |digits|) + digits
  {
    var k: nat :| t == "0x" + (Fill('0', k) + digits) && (k + |digits| == 16 || (k == 0 && |digits| >= 16));
    assert Fill('0', k) == Fill('0', 16 - |digits|);
  }

  // ---------- one conversion ----------

  /** Stars are replaced by their values; the types in the table are what was asserted. */
  method ApplyStars(arg: ArgSpec, table: seq<ValType>, values: seq<Value>) returns (a: ArgSpec)
    requires Fitting(arg, table) && AllFit(table, values)
    ensures a == Resolve(arg, values)
  {
    a := arg;
    if arg.width == STAR_FIELD {
      assert table[arg.widthPos - 1] == IntT;
      assert Fits(table[arg.widthPos - 1], values[arg.widthPos - 1]);
      var w := values[arg.widthPos - 1].i;
      a := a.(width := w);
      if w < 0 {
        a := a.(width := -w, flags := a.flags.(left := true));
      }
    }
    if arg.precision == STAR_FIELD {
      assert table[arg.precisionPos - 1] == IntT;
      assert Fits(table[arg.precisionPos - 1], values[arg.precisionPos - 1]);
      var p := values[arg.precisionPos - 1].i;
      a := a.(precision := if p < 0 then NO_FIELD else p);
    }
  }

  /** The switch of do_format. */
  method FormatOne(sink: Sink, env: Env, a: ArgSpec, v: Value, nbytes: nat)
    returns (ok: bool, n: nat, stored: Option<int>)
    requires sink.Valid() && a.conspec != Unknown
    requires a.vt == TypeOf(a.conspec, a.lenmod) && Fits(a.vt, v)
    modifies sink, sink.buffer
    ensures sink.Valid() && ok == Converted(env, a, v, nbytes).Some?
    ensures ok ==>
      var c := Converted(env, a, v, nbytes).value;
      sink.written == old(sink.written) + c.0 && n == nbytes + |c.0| && stored == c.1
    ensures !ok ==> sink.written == old(sink.written)
    ensures sink.limit.Some? ==> sink.buffer == old(sink.buffer)
    ensures sink.buffer == old(sink.buffer) || fresh(sink.buffer)
  {
    hide Sink.Valid, IntegerText, StringText, PointerText, Stored, Magnitude;
    ok, n, stored := true, nbytes, None;
    match a.conspec {
      case Decimal | Octal | Unsigned | Hex | HexUp =>
        ok, n := PrInteger(sink, a, v.i, env.sep, nbytes);
      case Float | FloatUp | Exp | ExpUp | FOrG | FOrGUp | HexExp | HexExpUp =>
        var t := env.float(a, v);
        sink.Out(t);
        n := n + |t|;
      case CharSpec =>
        sink.Out([(v.i % 256) as char]);
        n := n + 1;
      case StringSpec | StrError =>
        n := PrString(sink, a, v.s, nbytes);
      case Pointer =>
        n := PrPointer(sink, v.p, nbytes);
      case BytesSoFar =>
        stored := Some(Stored(a.vt, nbytes));
        assert sink.written + "" == sink.written;
    }
  }

  // ---------- the second scan ----------

  /** A conversion of a parsed format with its filled-in positions. */
  predicate Ready(conv: ArgSpec, arg: ArgSpec, table: seq<ValType>) {
    Parsed(conv) && SameShape(conv, arg) && Fitting(arg, table)
  }

  predicate AllReady(convs: seq<ArgSpec>, args: seq<ArgSpec>, table: seq<ValType>) {
    |convs| == |args| && forall i | 0 <= i < |convs| :: Ready(convs[i], args[i], table)
  }

  /** The conversion at the scan position: its values are applied and its text is printed.  The
      assertion about the type of its value fails exactly for an unknown conversion. */
  method FormatNext(sink: Sink, env: Env, ghost conv: ArgSpec, arg: ArgSpec, table: seq<ValType>, values: seq<Value>,
                    nbytes: nat)
    returns (status: Status, n: nat, stores: seq<(int, int)>)
    requires sink.Valid() && Ready(conv, arg, table) && AllFit(table, values)
    modifies sink, sink.buffer
    ensures sink.Valid()
    ensures
      var a := Resolve(arg, values);
      var c := Converted(env, a, Argument(env, a, values), nbytes);
      && status == (if arg.conspec == Unknown then Aborted else if c.Some? then Done else Failed)
      && (status.Done? ==>
            && sink.written == old(sink.written) + c.value.0 && n == nbytes + |c.value.0|
            && stores == Stores(a, c.value.1))
      && (!status.Done? ==> sink.written == old(sink.written) && stores == [])
    ensures sink.limit.Some? ==> sink.buffer == old(sink.buffer)
    ensures sink.buffer == old(sink.buffer) || fresh(sink.buffer)
  {
    hide Sink.Valid, Converted, AllFit;
    var a := ApplyStars(arg, table, values);
    assert a.argPos == arg.argPos && a.vt == arg.vt && a.conspec == arg.conspec && a.lenmod == arg.lenmod;
    RecognisedTyped(a.conspec, a.lenmod);
    n, stores := nbytes, [];
    var v := VString(Some(env.errorText));
    if !(a.argPos == -1 && a.conspec == StrError) {
      if a.vt != table[a.argPos - 1] {
        status := Aborted;
        return;
      }
      FitsAt(table, values, a.argPos);
      v := values[a.argPos - 1];
    }
    assert v == Argument(env, a, values);
    var ok, stored;
    ok, n, stored := FormatOne(sink, env, a, v, nbytes);
    status := if ok then Done else Failed;
    stores := if ok && stored.Some? then [(a.argPos, stored.value)] else [];
  }

  lemma FitsAt(table: seq<ValType>, values: seq<Value>, pos: int)
    requires AllFit(table, values) && 1 <= pos <= |table|
    ensures pos <= |values| && Fits(table[pos - 1], values[pos - 1])
  {
  }

  /** One step of the scan over the pieces that are left. */
  lemma RenderStep(env: Env, p: Piece, rest: seq<Piece>, args: seq<ArgSpec>, values: seq<Value>, n: nat)
    ensures p.Lit? ==>
              Render(env, [p] + rest, args, values, n)
              == Prepend([p.c], [], Render(env, rest, args, values, n + 1))
    ensures p.Percent? ==>
              Render(env, [p] + rest, args, values, n)
              == Prepend("%", [], Render(env, rest, args, values, n + 1))
    ensures p.Conv? && args != [] ==>
      var a := Resolve(args[0], values);
      var c := Converted(env, a, Argument(env, a, values), n);
      Render(env, [p] + rest, args, values, n)
      == if args[0].conspec == Unknown then Out(Aborted, "", [])
         else if c.None? then Out(Failed, "", [])
         else Prepend(c.value.0, Stores(a, c.value.1), Render(env, rest, args[1..], values, n + |c.value.0|))
  {
    hide Resolve, Converted, Argument, Prepend, Stores;
    assert ([p] + rest)[1..] == rest;
  }

  /** The second scan stops at the same places as the first. */
  lemma ScanAgrees(s: Octets)
    requires s != "" && Pieces(s).Ok?
    ensures
      var p := Pieces(s).value[0];
      var rest := Pieces(s).value[1..];
      && Pieces(s).value == [p] + rest
      && (s[0] != '%' ==> p == Lit(s[0]) && Pieces(s[1..]) == Ok(rest))
      && (s[0] == '%' ==> |s| >= 2)
      && (s[0] == '%' && s[1] == '%' ==> p == Percent && Pieces(s[2..]) == Ok(rest))
      && (s[0] == '%' && s[1] != '%' ==> p.Conv? && p.arg.length <= |s| && Pieces(s[p.arg.length..]) == Ok(rest))
  {
    var (p, more) := NextPiece(s).value;
    var ps := Pieces(more).value;
    assert Pieces(s).value == [p] + ps;
    assert ([p] + ps)[1..] == ps;
    if s[0] == '%' && s[1] != '%' {
      var t := s[1..];
      SpecSuffix(t);
      hide ParseSpec, Pieces;
      var (arg, rest) := ParseSpec(t).value;
      assert rest == t[|t| - |rest|..];
      assert s[arg.length..] == rest;
    }
  }

  lemma ReadyStep(convs: seq<ArgSpec>, args: seq<ArgSpec>, table: seq<ValType>)
    requires AllReady(convs, args, table) && convs != []
    ensures args != [] && Ready(convs[0], args[0], table) && AllReady(convs[1..], args[1..], table)
  {
  }

  /** What is printed and stored so far in front of what is still to come. */
  ghost predicate Progress(all: Out, done: Octets, stores: seq<(int, int)>, env: Env, rem: seq<Piece>,
                           args: seq<ArgSpec>, values: seq<Value>)
  {
    all == Prepend(done, stores, Render(env, rem, args, values, |done|))
  }

  lemma ProgressChar(all: Out, done: Octets, stores: seq<(int, int)>, env: Env, p: Piece, rest: seq<Piece>,
                     args: seq<ArgSpec>, values: seq<Value>)
    requires !p.Conv? && Progress(all, done, stores, env, [p] + rest, args, values)
    ensures Progress(all, done + (if p.Lit? then [p.c] else "%"), stores, env, rest, args, values)
  {
    hide Render, Prepend;
    RenderStep(env, p, rest, args, values, |done|);
    var c := if p.Lit? then [p.c] else "%";
    PrependTwice(done, stores, c, [], Render(env, rest, args, values, |done| + 1));
    assert stores + [] == stores;
  }

  lemma ProgressConv(all: Out, done: Octets, stores: seq<(int, int)>, env: Env, p: Piece, rest: seq<Piece>,
                     args: seq<ArgSpec>, values: seq<Value>)
    requires p.Conv? && args != [] && Progress(all, done, stores, env, [p] + rest, args, values)
    ensures
      var a := Resolve(args[0], values);
      var c := Converted(env, a, Argument(env, a, values), |done|);
      if args[0].conspec == Unknown then all == Out(Aborted, done, stores)
      else if c.None? then all == Out(Failed, done, stores)
      else Progress(all, done + c.value.0, stores + Stores(a, c.value.1), env, rest, args[1..], values)
  {
    hide Render, Prepend, Resolve, Converted, Argument, Stores;
    RenderStep(env, p, rest, args, values, |done|);
    var a := Resolve(args[0], values);
    var c := Converted(env, a, Argument(env, a, values), |done|);
    if args[0].conspec == Unknown || c.None? {
      PrependParts(done, stores, Out(Aborted, "", []));
      PrependParts(done, stores, Out(Failed, "", []));
      assert done + "" == done && stores + [] == stores;
    } else {
      PrependTwice(done, stores, c.value.0, Stores(a, c.value.1),
          Render(env, rest, args[1..], values, |done| + |c.value.0|));
    }
  }

  lemma ProgressStart(env: Env, ps: seq<Piece>, args: seq<ArgSpec>, values: seq<Value>)
    ensures Progress(Render(env, ps, args, values, 0), "", [], env, ps, args, values)
  {
    PrependNothing(Render(env, ps, args, values, 0));
  }

  lemma ProgressEnd(all: Out, done: Octets, stores: seq<(int, int)>, env: Env, args: seq<ArgSpec>, values: seq<Value>)
    requires Progress(all, done, stores, env, [], args, values)
    ensures all == Out(Done, done, stores)
  {
    assert done + "" == done && stores + [] == stores;
  }

  /** do_format: the format is scanned a second time, each conversion by its recorded length. */
  method DoFormat(sink: Sink, env: Env, format: Octets, args: seq<ArgSpec>, table: seq<ValType>, values: seq<Value>,
                  ghost ps: seq<Piece>)
    returns (status: Status, nbytes: nat, stores: seq<(int, int)>)
    requires sink.Valid() && sink.written == ""
    requires Pieces(format) == Ok(ps) && AllReady(Convs(ps), args, table) && AllFit(table, values)
    modifies sink, sink.buffer
    ensures sink.Valid()
    ensures Out(status, sink.written, stores) == Render(env, ps, args, values, 0)
    ensures status.Done? ==> nbytes == |sink.written|
    ensures sink.limit.Some? ==> sink.buffer == old(sink.buffer)
    ensures sink.buffer == old(sink.buffer) || fresh(sink.buffer)
  {
    hide Sink.Valid, Render, Prepend, Resolve, Converted, Argument, Stores, Pieces, Progress, AllReady, AllFit, Ready,
        Convs;
    ghost var all := Render(env, ps, args, values, 0);
    nbytes, stores := 0, [];
    var s, pending, argIdx := format, "", 0;
    ghost var rem := ps;
    ProgressStart(env, ps, args, values);
    assert args[0..] == args;
    EmptyTail(sink.written);
    while s != ""
      invariant sink.Valid() && nbytes == |sink.written| && argIdx <= |args|
      invariant Pieces(s) == Ok(rem) && AllReady(Convs(rem), args[argIdx..], table)
      invariant Progress(all, sink.written + pending, stores, env, rem, args[argIdx..], values)
      invariant sink.limit.Some? ==> sink.buffer == old(sink.buffer)
      invariant sink.buffer == old(sink.buffer) || fresh(sink.buffer)
      decreases |s|
    {
      ScanAgrees(s);
      ghost var p, rest := rem[0], rem[1..];
      ConvsSplit(p, rest);
      if s[0] != '%' {
        ProgressChar(all, sink.written + pending, stores, env, p, rest, args[argIdx..], values);
        Assoc(sink.written, pending, [s[0]]);
        pending := pending + [s[0]];
        s := s[1..];
        rem := rest;
        continue;
      }
      nbytes := Flush(sink, pending, nbytes);
      pending := "";
      if s[1] == '%' {
        ProgressChar(all, sink.written, stores, env, p, rest, args[argIdx..], values);
        sink.Out("%");
        nbytes := nbytes + 1;
        s := s[2..];
        rem := rest;
        EmptyTail(sink.written);
        continue;
      }
      ReadyStep([p.arg] + Convs(rest), args[argIdx..], table);
      assert argIdx < |args|;
      var arg := args[argIdx];
      ReadyLength(p.arg, arg, table);
      s := s[arg.length..];
      ProgressConv(all, sink.written, stores, env, p, rest, args[argIdx..], values);
      assert args[argIdx..][1..] == args[argIdx + 1..];
      var n, st;
      status, n, st := FormatNext(sink, env, p.arg, arg, table, values, nbytes);
      if !status.Done? {
        return;
      }
      nbytes := n;
      stores := stores + st;
      argIdx := argIdx + 1;
      rem := rest;
      EmptyTail(sink.written);
    }
    NoPieces();
    ProgressEnd(all, sink.written + pending, stores, env, args[argIdx..], values);
    nbytes := Flush(sink, pending, nbytes);
    status := Done;
  }

  /** Literal text up to the scan position is printed at once. */
  method Flush(sink: Sink, text: Octets, nbytes: nat) returns (n: nat)
    requires sink.Valid()
    modifies sink, sink.buffer
    ensures sink.Valid() && sink.written == old(sink.written) + text && n == nbytes + |text|
    ensures sink.limit.Some? ==> sink.buffer == old(sink.buffer)
    ensures sink.buffer == old(sink.buffer) || fresh(sink.buffer)
  {
    hide Sink.Valid;
    n := nbytes;
    EmptyTail(sink.written);
    if text != "" {
      sink.Out(text);
      n := n + |text|;
    }
  }

  lemma ReadyLength(conv: ArgSpec, arg: ArgSpec, table: seq<ValType>)
    requires Ready(conv, arg, table)
    ensures arg.length == conv.length >= 2
  {
  }

  lemma EmptyTail(s: Octets)
    ensures s + "" == s
  {
  }

  lemma NoPieces()
    ensures Pieces("") == Ok([])
  {
  }

  lemma ConvsSplit(p: Piece, rest: seq<Piece>)
    ensures Convs([p] + rest) == if p.Conv? then [p.arg] + Convs(rest) else Convs(rest)
    ensures p.Conv? ==> ([p.arg] + Convs(rest))[0] == p.arg && ([p.arg] + Convs(rest))[1..] == Convs(rest)
  {
    assert ([p] + rest)[1..] == rest;
    assert [] + Convs(rest) == Convs(rest);
  }
}
