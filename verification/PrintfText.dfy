/** estream-printf.c: the text that a format and its values stand for. */
module PrintfText {
  import opened Common
  import opened Sexp
  import opened PrintfParse
  import opened PrintfInteger
  import opened PrintfArgs

  // ---------- values ----------

  datatype Value = VInt(i: int) | VString(s: Option<Octets>) | VPointer(p: nat) | VDouble(id: int) | VOut

  /** What the environment contributes: the separator of thousands, the text of floating-point
      conversions, which sprintf makes, and the message for the current errno. */
  datatype Env = Env(sep: Option<char>, float: (ArgSpec, Value) -> Octets, errorText: Octets)

  predicate Between(v: Value, low: int, high: int) {
    v.VInt? && low <= v.i <= high
  }

  /** A value of the type that is read for a slot. */
  predicate Fits(vt: ValType, v: Value) {
    match vt
    case Unsupported => false
    case SCharT => Between(v, -128, 127)
    case UCharT => Between(v, 0, 255)
    case ShortT => Between(v, -0x8000, 0x7fff)
    case UShortT => Between(v, 0, 0xffff)
    case IntT => Between(v, -0x8000_0000, 0x7fff_ffff)
    case UIntT => Between(v, 0, 0xffff_ffff)
    case LongT | LongLongT | IntMaxT | PtrDiffT => Between(v, -0x8000_0000_0000_0000, 0x7fff_ffff_ffff_ffff)
    case ULongT | ULongLongT | UIntMaxT | SizeTT => Between(v, 0, 0xffff_ffff_ffff_ffff)
    case DoubleT | LongDoubleT => v.VDouble?
    case StringT => v.VString?
    case PointerT => v.VPointer? && v.p < SIZE_MOD
    case _ => v.VOut?
  }

  predicate AllFit(table: seq<ValType>, values: seq<Value>) {
    |values| >= |table| && forall i | 0 <= i < |table| :: Fits(table[i], values[i])
  }

  function ValueAt(values: seq<Value>, pos: int): Value {
    if 1 <= pos <= |values| then values[pos - 1] else VInt(0)
  }

  function IntAt(values: seq<Value>, pos: int): int {
    if ValueAt(values, pos).VInt? then ValueAt(values, pos).i else 0
  }

  // ---------- one conversion ----------

  /** Stars replaced by their values; a negative width means left justification and a negative
      precision none. */
  function Resolve(a: ArgSpec, values: seq<Value>): ArgSpec {
    var w := IntAt(values, a.widthPos);
    var a1 :=
      if a.width != STAR_FIELD then a
      else if w < 0 then a.(width := -w, flags := a.flags.(left := true))
      else a.(width := w);
    var p := IntAt(values, a.precisionPos);
    if a.precision != STAR_FIELD then a1 else a1.(precision := if p < 0 then NO_FIELD else p)
  }

  function Padded(a: ArgSpec, text: Octets): Octets {
    var pad := Fill(' ', a.width - |text|);
    if a.flags.left then text + pad else pad + text
  }

  function StringText(a: ArgSpec, s: Option<Octets>): Octets {
    var t := if s.Some? then s.value else "(null)";
    Padded(a, if 0 <= a.precision < |t| then t[..a.precision] else t)
  }

  /** Sixteen hexadecimal digits. */
  function PointerText(p: nat): Octets {
    var t := DigitText(p, 16, false);
    "0x" + Fill('0', 16 - |t|) + t
  }

  /** The bytes so far in the width of the target. */
  function Stored(vt: ValType, n: nat): int {
    match vt
    case SCharPtr => (n + 128) % 256 - 128
    case ShortPtr => (n + 0x8000) % 0x1_0000 - 0x8000
    case IntPtr => ToInt(n)
    case SizePtr => n % SIZE_MOD
    case _ => ToSigned(n)
  }

  /** The text of a conversion and, for "%n", what is stored; no result if the type is not
      supported by the conversion. */
  function Converted(env: Env, a: ArgSpec, v: Value, n: nat): Option<(Octets, Option<int>)> {
    match a.conspec
    case Unknown => None
    case Decimal | Octal | Unsigned | Hex | HexUp =>
      var (negative, m) :- Magnitude(a.conspec, a.vt, if v.VInt? then v.i else 0);
      Some((IntegerText(a, negative, m, env.sep), None))
    case Float | FloatUp | Exp | ExpUp | FOrG | FOrGUp | HexExp | HexExpUp => Some((env.float(a, v), None))
    case CharSpec => Some(([((if v.VInt? then v.i else 0) % 256) as char], None))
    case StringSpec | StrError => Some((StringText(a, if v.VString? then v.s else None), None))
    case Pointer => Some((PointerText(if v.VPointer? then v.p else 0), None))
    case BytesSoFar => Some(("", Some(Stored(a.vt, n))))
  }

  function Argument(env: Env, a: ArgSpec, values: seq<Value>): Value {
    if a.argPos == -1 && a.conspec == StrError then VString(Some(env.errorText)) else ValueAt(values, a.argPos)
  }

  // ---------- the whole ----------

  /** An assertion of do_format that fails ends the program. */
  datatype Status = Done | Failed | Aborted

  /** How formatting ends, the text, and what was stored through which argument. */
  datatype Out = Out(status: Status, text: Octets, stores: seq<(int, int)>)

  function Prepend(t: Octets, stores: seq<(int, int)>, o: Out): Out {
    Out(o.status, t + o.text, stores + o.stores)
  }

  function Stores(a: ArgSpec, stored: Option<int>): seq<(int, int)> {
    if stored.Some? then [(a.argPos, stored.value)] else []
  }

  /** The pieces of a format with their arguments, after `n` octets of output. */
  function Render(env: Env, ps: seq<Piece>, args: seq<ArgSpec>, values: seq<Value>, n: nat): Out {
    if ps == [] then Out(Done, "", [])
    else
      match ps[0]
      case Lit(c) => Prepend([c], [], Render(env, ps[1..], args, values, n + 1))
      case Percent => Prepend("%", [], Render(env, ps[1..], args, values, n + 1))
      case Conv(_) =>
        if args == [] then Out(Failed, "", [])
        else if args[0].conspec == Unknown then Out(Aborted, "", [])
        else
          var a := Resolve(args[0], values);
          match Converted(env, a, Argument(env, a, values), n)
          case None => Out(Failed, "", [])
          case Some((t, stored)) => Prepend(t, Stores(a, stored), Render(env, ps[1..], args[1..], values, n + |t|))
  }

  /** estream_format as a function: on an invalid format nothing is printed; at an unknown
      conversion the assertion about its type fails. */
  function Formatted(env: Env, format: Octets, values: seq<Value>): Out {
    match Pieces(format)
    case Err(_) => Out(Failed, "", [])
    case Ok(ps) =>
      ConvsParsed(format);
      match Prepare(format, Convs(ps))
      case None => Out(Failed, "", [])
      case Some((args, table)) => Render(env, ps, args, values[..Min(|values|, |table|)], 0)
  }

  lemma PrependTwice(t: Octets, s: seq<(int, int)>, u: Octets, r: seq<(int, int)>, o: Out)
    ensures Prepend(t, s, Prepend(u, r, o)) == Prepend(t + u, s + r, o)
  {
    assert t + (u + o.text) == (t + u) + o.text;
    assert s + (r + o.stores) == (s + r) + o.stores;
  }

  lemma PrependNothing(o: Out)
    ensures Prepend("", [], o) == o
  {
    assert "" + o.text == o.text && [] + o.stores == o.stores;
  }

  /** Output goes on behind the pieces that are done. */
  lemma {:induction false} RenderSplit(env: Env, ps: seq<Piece>, qs: seq<Piece>, args: seq<ArgSpec>, more: seq<ArgSpec>,
                                       values: seq<Value>, n: nat)
    requires |Convs(ps)| == |args|
    ensures
      var r := Render(env, ps, args, values, n);
      Render(env, ps + qs, args + more, values, n)
      == if r.status.Done? then Prepend(r.text, r.stores, Render(env, qs, more, values, n + |r.text|)) else r
  {
    hide Resolve, Converted, Argument, Prepend;
    if ps == [] {
      assert ps + qs == qs && args + more == more;
      PrependNothing(Render(env, qs, more, values, n));
    } else {
      var p, rest := ps[0], ps[1..];
      assert (ps + qs)[1..] == rest + qs && (ps + qs)[0] == p;
      ConvsOfTail(ps);
      if p.Conv? {
        assert (args + more)[1..] == args[1..] + more && (args + more)[0] == args[0];
        if args[0].conspec == Unknown {
          return;
        }
        var a := Resolve(args[0], values);
        var c := Converted(env, a, Argument(env, a, values), n);
        if c.Some? {
          var (t, stored) := c.value;
          RenderSplit(env, rest, qs, args[1..], more, values, n + |t|);
          var r := Render(env, rest, args[1..], values, n + |t|);
          PrependParts(t, Stores(a, stored), r);
          PrependTwice(t, Stores(a, stored), r.text, r.stores, Render(env, qs, more, values, n + |t| + |r.text|));
        }
      } else {
        var c := if p.Percent? then "%" else [p.c];
        RenderSplit(env, rest, qs, args, more, values, n + 1);
        var r := Render(env, rest, args, values, n + 1);
        PrependParts(c, [], r);
        PrependTwice(c, [], r.text, r.stores, Render(env, qs, more, values, n + 1 + |r.text|));
      }
    }
  }

  predicate HasUnknown(args: seq<ArgSpec>) {
    exists a | a in args :: a.conspec == Unknown
  }

  /** Only an unknown conversion aborts, and none is ever got over. */
  lemma {:induction false} RenderAborts(env: Env, ps: seq<Piece>, args: seq<ArgSpec>, values: seq<Value>, n: nat)
    requires |Convs(ps)| == |args|
    ensures
      var status := Render(env, ps, args, values, n).status;
      && (status.Aborted? ==> HasUnknown(args))
      && (HasUnknown(args) ==> !status.Done?)
  {
    hide Resolve, Converted, Argument, Stores;
    if ps != [] {
      ConvsOfTail(ps);
      if ps[0].Conv? {
        assert forall b | b in args :: b == args[0] || b in args[1..];
        var a := Resolve(args[0], values);
        var c := Converted(env, a, Argument(env, a, values), n);
        if args[0].conspec != Unknown && c.Some? {
          RenderAborts(env, ps[1..], args[1..], values, n + |c.value.0|);
        }
      } else {
        RenderAborts(env, ps[1..], args, values, n + 1);
      }
    }
  }

  /** The whole engine aborts only on a format with an unknown conversion whose positions pass
      the checks; and such a format is never formatted to its end. */
  lemma AbortedOnlyByUnknown(env: Env, format: Octets, values: seq<Value>)
    requires Pieces(format).Ok?
    ensures
      var args := Convs(Pieces(format).value);
      && AllParsed(args)
      && (Formatted(env, format, values).status.Aborted? ==> Prepare(format, args).Some? && !Recognised(args))
      && (Prepare(format, args).Some? && !Recognised(args) ==> !Formatted(env, format, values).status.Done?)
  {
    var ps := Pieces(format).value;
    var args := Convs(ps);
    ConvsParsed(format);
    if format == "" {
      assert Render(env, [], [], values[..0], 0) == Out(Done, "", []);
    } else if Prepare(format, args).Some? {
      MatchIffRecognised(format);
      hide Pieces, Convs, Prepare, Render;
      var (filled, table) := Prepare(format, args).value;
      RenderAborts(env, ps, filled, values[..Min(|values|, |table|)], 0);
      UnknownShapes(args, filled);
    }
  }

  lemma UnknownShapes(args: seq<ArgSpec>, filled: seq<ArgSpec>)
    requires AllParsed(args) && SameShapes(args, filled)
    ensures HasUnknown(filled) <==> !Recognised(args)
  {
    if HasUnknown(filled) {
      var b :| b in filled && b.conspec == Unknown;
      var i :| 0 <= i < |filled| && filled[i] == b;
      assert SameShape(args[i], filled[i]) && Parsed(args[i]) && args[i] in args;
      RecognisedTyped(args[i].conspec, args[i].lenmod);
    }
    if !Recognised(args) {
      var a :| a in args && a.vt == Unsupported;
      var i :| 0 <= i < |args| && args[i] == a;
      assert SameShape(args[i], filled[i]) && Parsed(args[i]) && filled[i] in filled;
      RecognisedTyped(a.conspec, a.lenmod);
    }
  }

  lemma PrependParts(t: Octets, s: seq<(int, int)>, o: Out)
    ensures Prepend(t, s, o).status == o.status && Prepend(t, s, o).text == t + o.text
        && Prepend(t, s, o).stores == s + o.stores
  {
  }

  lemma ConvsOfTail(ps: seq<Piece>)
    requires ps != []
    ensures |Convs(ps)| == (if ps[0].Conv? then 1 else 0) + |Convs(ps[1..])|
  {
  }

  /** "%n" stores the length of everything printed before it. */
  lemma BytesSoFarStored(env: Env, ps: seq<Piece>, qs: seq<Piece>, args: seq<ArgSpec>, a: ArgSpec, more: seq<ArgSpec>,
                         values: seq<Value>)
    requires |Convs(ps)| == |args| && a.conspec == BytesSoFar
    ensures
      var r := Render(env, ps, args, values, 0);
      var all := Render(env, ps + ([Conv(a)] + qs), args + ([a] + more), values, 0);
      r.status.Done? ==>
        && |all.stores| > |r.stores| && all.stores[|r.stores|] == (a.argPos, Stored(a.vt, |r.text|))
        && r.text <= all.text
  {
    hide Render, Stored;
    RenderSplit(env, ps, [Conv(a)] + qs, args, [a] + more, values, 0);
    var r := Render(env, ps, args, values, 0);
    StoredFirst(env, qs, a, more, values, |r.text|);
  }

  lemma StoredFirst(env: Env, qs: seq<Piece>, a: ArgSpec, more: seq<ArgSpec>, values: seq<Value>, n: nat)
    requires a.conspec == BytesSoFar
    ensures
      var o := Render(env, [Conv(a)] + qs, [a] + more, values, n);
      |o.stores| > 0 && o.stores[0] == (a.argPos, Stored(a.vt, n))
  {
    hide Stored;
    var b := Resolve(a, values);
    assert b.argPos == a.argPos && b.vt == a.vt && b.conspec == a.conspec;
    assert ([Conv(a)] + qs)[0] == Conv(a) && ([a] + more)[0] == a;
  }

  /** The largest count that the target of a "%n" can hold. */
  function Capacity(vt: ValType): nat {
    match vt
    case SCharPtr => 0x7f
    case ShortPtr => 0x7fff
    case IntPtr => 0x7fff_ffff
    case _ => 0x7fff_ffff_ffff_ffff
  }

  /** What is stored is the count itself whenever the target can hold it. */
  lemma StoredExact(vt: ValType, n: nat)
    requires n <= Capacity(vt)
    ensures Stored(vt, n) == n
  {
  }
}
