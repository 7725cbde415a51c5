/** estream-printf.c: the entry points, from the format string to the caller's buffer. */
module PrintfEntry {
  import opened Common
  import opened Sexp
  import opened PrintfParse
  import opened PrintfArgs
  import opened PrintfText
  import opened Printf

  // ---------- positions ----------

  method FindMaxPos(args: seq<ArgSpec>) returns (n: nat)
    ensures n == MaxPos(args, 0)
  {
    n := 0;
    var i := 0;
    assert args[0..] == args;
    while i < |args|
      invariant i <= |args| && MaxPos(args, 0) == MaxPos(args[i..], n)
    {
      assert args[i..][1..] == args[i + 1..];
      var a := args[i];
      if a.argPos != -1 && a.argPos > n {
        n := a.argPos;
      }
      if a.widthPos > n {
        n := a.widthPos;
      }
      if a.precisionPos > n {
        n := a.precisionPos;
      }
      i := i + 1;
    }
  }

  /** All positions are made up, counting on. */
  method FillPositions(args: seq<ArgSpec>) returns (filled: seq<ArgSpec>, n: nat)
    ensures (filled, n) == FillAll(args, 0)
  {
    filled, n := [], 0;
    var i := 0;
    assert args[0..] == args && [] + FillAll(args, 0).0 == FillAll(args, 0).0;
    while i < |args|
      invariant i <= |args|
      invariant FillAll(args, 0) == (filled + FillAll(args[i..], n).0, FillAll(args[i..], n).1)
    {
      assert args[i..][1..] == args[i + 1..];
      var a := args[i];
      ghost var b := FillOne(a, n);
      if a.width == STAR_FIELD {
        n := n + 1;
        a := a.(widthPos := n);
      }
      if a.precision == STAR_FIELD {
        n := n + 1;
        a := a.(precisionPos := n);
      }
      if a.argPos != -1 {
        n := n + 1;
        a := a.(argPos := n);
      }
      assert (a, n) == b;
      ghost var rest := FillAll(args[i + 1..], n).0;
      assert filled + ([a] + rest) == (filled + [a]) + rest;
      filled := filled + [a];
      i := i + 1;
    }
    assert filled + [] == filled;
  }

  method CheckFilled(args: seq<ArgSpec>) returns (ok: bool)
    ensures ok == AllFilled(args)
  {
    var i := 0;
    while i < |args|
      invariant i <= |args| && forall j | 0 <= j < i :: Filled(args[j])
    {
      var a := args[i];
      if a.argPos == 0 || (a.width == STAR_FIELD && a.widthPos == 0)
          || (a.precision == STAR_FIELD && a.precisionPos == 0) {
        assert a in args && !Filled(a);
        return false;
      }
      i := i + 1;
    }
    return true;
  }

  // ---------- the table ----------

  lemma PlaceOne(s: Slot, table: seq<ValType>)
    requires 1 <= s.pos <= |table|
    ensures PlaceAll([s], table) == if table[s.pos - 1] != Unsupported then None else Some(table[s.pos - 1 := s.vt])
  {
    assert [s][1..] == [];
  }

  method Place(s: Slot, table: seq<ValType>) returns (ok: bool, r: seq<ValType>)
    requires 1 <= s.pos <= |table|
    ensures ok == PlaceAll([s], table).Some?
    ensures ok ==> Some(r) == PlaceAll([s], table)
    ensures |r| == |table|
  {
    PlaceOne(s, table);
    ok, r := table[s.pos - 1] == Unsupported, table;
    if ok {
      r := r[s.pos - 1 := s.vt];
    }
  }

  /** The value, the width and the precision of one conversion. */
  method PlaceArg(a: ArgSpec, table: seq<ValType>) returns (ok: bool, r: seq<ValType>)
    requires InRange(SlotsOf(a), |table|)
    ensures ok == PlaceAll(SlotsOf(a), table).Some?
    ensures ok ==> Some(r) == PlaceAll(SlotsOf(a), table)
    ensures |r| == |table|
  {
    hide PlaceAll;
    ok, r := true, table;
    var value: seq<Slot> := if a.argPos != -1 then [Slot(a.argPos, a.vt)] else [];
    var width: seq<Slot> := if a.width == STAR_FIELD then [Slot(a.widthPos, IntT)] else [];
    var precision: seq<Slot> := if a.precision == STAR_FIELD then [Slot(a.precisionPos, IntT)] else [];
    assert SlotsOf(a) == value + (width + precision);
    assert forall s | s in value :: s in SlotsOf(a);
    assert forall s | s in width :: s in SlotsOf(a);
    assert forall s | s in precision :: s in SlotsOf(a);
    PlaceAppend(value, width + precision, table);
    PlaceNone(table);
    if a.argPos != -1 {
      ok, r := Place(value[0], r);
      if !ok {
        return;
      }
    }
    PlaceAppend(width, precision, r);
    PlaceNone(r);
    if a.width == STAR_FIELD {
      ok, r := Place(width[0], r);
      if !ok {
        return;
      }
    }
    PlaceNone(r);
    if a.precision == STAR_FIELD {
      ok, r := Place(precision[0], r);
    }
  }

  lemma PlaceNone(table: seq<ValType>)
    ensures PlaceAll([], table) == Some(table)
  {
  }

  method BuildTable(args: seq<ArgSpec>, n: nat) returns (ok: bool, table: seq<ValType>)
    requires InRange(Slots(args), n)
    ensures ok == PlaceAll(Slots(args), EmptyTable(n)).Some?
    ensures ok ==> Some(table) == PlaceAll(Slots(args), EmptyTable(n))
  {
    hide PlaceAll, SlotsOf;
    ok, table := true, EmptyTable(n);
    var i := 0;
    assert args[0..] == args;
    while i < |args|
      invariant i <= |args| && |table| == n && InRange(Slots(args[i..]), n)
      invariant PlaceAll(Slots(args), EmptyTable(n)) == PlaceAll(Slots(args[i..]), table)
    {
      assert args[i..][1..] == args[i + 1..];
      assert Slots(args[i..]) == SlotsOf(args[i]) + Slots(args[i + 1..]);
      assert forall s | s in SlotsOf(args[i]) :: s in Slots(args[i..]);
      assert forall s | s in Slots(args[i + 1..]) :: s in Slots(args[i..]);
      PlaceAppend(SlotsOf(args[i]), Slots(args[i + 1..]), table);
      ok, table := PlaceArg(args[i], table);
      if !ok {
        return;
      }
      i := i + 1;
    }
    PlaceNone(table);
  }

  /** read_values: each place of the table reads the next argument, unless its type is missing. */
  method ReadValues(table: seq<ValType>, values: seq<Value>) returns (ok: bool, read: seq<Value>)
    requires Readable(table) ==> |values| >= |table|
    ensures ok == Readable(table)
    ensures ok ==> read == values[..|table|]
  {
    read := [];
    var i := 0;
    while i < |table|
      invariant i <= |table| && (forall j | 0 <= j < i :: table[j] != Unsupported)
      invariant i <= |values| ==> read == values[..i]
      invariant |read| == i
    {
      if table[i] == Unsupported {
        return false, read;
      }
      var v := if i < |values| then values[i] else VInt(0);
      read := read + [v];
      i := i + 1;
    }
    ok := true;
  }

  // ---------- estream_format ----------

  /** What the callers have to guarantee: the format does not end within a conversion, and the
      arguments have the types that are read. */
  ghost predicate Usable(format: Octets, values: seq<Value>) {
    && Pieces(format) != Err(Truncated)
    && (Pieces(format).Ok? ==>
          var args := Convs(Pieces(format).value);
          && AllParsed(args)
          && (Prepare(format, args).Some? ==> AllFit(Prepare(format, args).value.1, values)))
  }

  /** The checks between the two scans. */
  method PrepareArgs(format: Octets, args: seq<ArgSpec>) returns (ok: bool, filled: seq<ArgSpec>, table: seq<ValType>)
    requires AllParsed(args)
    ensures ok ==> Assign(args).Some? && Assign(args).value.1 < |format| && filled == Assign(args).value.0
                   && InRange(Slots(filled), Assign(args).value.1)
                   && Some(table) == PlaceAll(Slots(filled), EmptyTable(Assign(args).value.1))
    ensures !ok ==> Prepare(format, args).None?
  {
    hide FillAll, MaxPos, PlaceAll, AllFilled;
    table := [];
    var n := FindMaxPos(args);
    filled := args;
    if n == 0 {
      filled, n := FillPositions(args);
    } else {
      ok := CheckFilled(args);
      if !ok {
        return;
      }
    }
    AssignedInRange(args);
    if n >= |format| {
      ok := false;
      return;
    }
    ok, table := BuildTable(filled, n);
  }

  lemma ArgsReady(format: Octets, args: seq<ArgSpec>, filled: seq<ArgSpec>, table: seq<ValType>)
    requires format != "" && Pieces(format).Ok? && args == Convs(Pieces(format).value) && AllParsed(args)
    requires Prepare(format, args) == Some((filled, table))
    ensures AllReady(args, filled, table)
  {
    MatchIffRecognised(format);
    hide Prepare, Pieces, Convs;
    forall i | 0 <= i < |args| ensures Ready(args[i], filled[i], table) {
      assert args[i] in args && filled[i] in filled;
      assert SameShape(args[i], filled[i]);
    }
  }

  /** estream_format */
  method EstreamFormat(sink: Sink, env: Env, format: Octets, values: seq<Value>)
    returns (status: Status, stores: seq<(int, int)>)
    requires sink.Valid() && sink.written == "" && Usable(format, values)
    modifies sink, sink.buffer
    ensures sink.Valid()
    ensures Out(status, sink.written, stores) == Formatted(env, format, values)
    ensures sink.limit.Some? ==> sink.buffer == old(sink.buffer)
    ensures sink.buffer == old(sink.buffer) || fresh(sink.buffer)
  {
    hide Sink.Valid, Pieces, Assign, PlaceAll, Render, AllFit, Convs, AllParsed;
    stores := [];
    var args := ParseFormat(format);
    if args.Err? {
      return Failed, [];
    }
    status := Failed;
    var ok, filled, table;
    ok, filled, table := PrepareArgs(format, args.value);
    if !ok {
      return;
    }
    FitLength(table, values);
    var read;
    ok, read := ReadValues(table, values);
    if !ok {
      return;
    }
    assert Prepare(format, args.value) == Some((filled, table));
    ArgsReady(format, args.value, filled, table);
    FitPrefix(table, values);
    var nbytes;
    status, nbytes, stores := DoFormat(sink, env, format, filled, table, read, Pieces(format).value);
  }

  lemma FitLength(table: seq<ValType>, values: seq<Value>)
    ensures AllFit(table, values) ==> |values| >= |table|
  {
  }

  lemma FitPrefix(table: seq<ValType>, values: seq<Value>)
    requires AllFit(table, values)
    ensures AllFit(table, values[..|table|]) && Min(|values|, |table|) == |table|
  {
  }

  // ---------- buffers ----------

  /** A buffer that holds as much of a text as fits in front of a NUL. */
  predicate Holds(buf: seq<char>, text: Octets) {
    && |buf| > 0
    && (var k := Min(|text|, |buf| - 1); buf[..k] == text[..k] && buf[k] == '\0')
  }

  /** estream_vsnprintf: the result counts the whole text, whatever the buffer holds. */
  method VSnPrintf(env: Env, buf: array<char>, format: Octets, values: seq<Value>)
    returns (rc: int, stores: seq<(int, int)>, aborted: bool)
    requires Usable(format, values)
    modifies buf
    ensures
      var o := Formatted(env, format, values);
      && stores == o.stores && aborted == o.status.Aborted?
      && rc == (if o.status.Done? then |o.text| else -1)
      && (o.status.Done? && buf.Length > 0 ==> Holds(buf[..], o.text))
  {
    hide Formatted, Usable;
    var sink := new Sink.Fixed(buf);
    var status;
    status, stores := EstreamFormat(sink, env, format, values);
    if !status.Done? {
      return -1, stores, status.Aborted?;
    }
    ghost var text := sink.written;
    sink.Out("\0");
    if buf.Length > 0 && sink.count >= buf.Length {
      buf[buf.Length - 1] := '\0';
    }
    if buf.Length > 0 {
      ghost var k := Min(|text|, buf.Length - 1);
      assert buf[..k] == sink.written[..k];
      assert sink.written[..k] == text[..k];
    }
    return sink.count - 1, stores, false;
  }

  /** estream_vasprintf: the whole text and a NUL in a new buffer. */
  method VAsPrintf(env: Env, format: Octets, values: seq<Value>)
    returns (rc: int, buf: array?<char>, stores: seq<(int, int)>, aborted: bool)
    requires Usable(format, values)
    ensures
      var o := Formatted(env, format, values);
      && stores == o.stores && aborted == o.status.Aborted?
      && rc == (if o.status.Done? then |o.text| else -1)
      && (o.status.Done? <==> buf != null)
      && (buf != null ==> fresh(buf) && buf.Length > |o.text| && buf[..|o.text|] == o.text && buf[|o.text|] == '\0')
  {
    hide Formatted, Usable;
    var sink := new Sink.Dynamic();
    var status;
    status, stores := EstreamFormat(sink, env, format, values);
    if !status.Done? {
      return -1, null, stores, status.Aborted?;
    }
    ghost var text := sink.written;
    sink.Out("\0");
    assert sink.used > 0;
    assert sink.buffer[..sink.used] == text + "\0";
    assert sink.buffer[..|text|] == sink.buffer[..sink.used][..|text|];
    assert sink.buffer[|text|] == sink.buffer[..sink.used][|text|];
    return sink.used - 1, sink.buffer, stores, false;
  }

  /** The same format and values through both: the same result, and the fixed buffer holds the
      beginning of what the growing one holds; and if one aborts, so does the other. */
  method BothSinks(env: Env, buf: array<char>, format: Octets, values: seq<Value>)
    returns (rc: int, whole: array?<char>, aborted: bool)
    requires Usable(format, values) && buf.Length > 0
    modifies buf
    ensures whole != null ==> 0 <= rc < whole.Length && whole[rc] == '\0' && Holds(buf[..], whole[..rc])
    ensures whole == null <==> rc == -1
    ensures aborted <==> Formatted(env, format, values).status.Aborted?
  {
    hide Formatted, Usable, Holds;
    var stores, rc', aborted';
    rc, whole, stores, aborted := VAsPrintf(env, format, values);
    rc', stores, aborted' := VSnPrintf(env, buf, format, values);
    assert rc' == rc && aborted' == aborted;
  }
}
