/** estream-printf.c: positions of arguments and the table of their types. */
module PrintfArgs {
  import opened Common
  import opened Sexp
  import opened PrintfParse

  /** A place in the argument list that a conversion uses, and the type it expects there. */
  datatype Slot = Slot(pos: int, vt: ValType)

  /** The slots of one conversion, in the order in which the table is built. */
  function SlotsOf(a: ArgSpec): seq<Slot> {
    (if a.argPos != -1 then [Slot(a.argPos, a.vt)] else [])
    + ((if a.width == STAR_FIELD then [Slot(a.widthPos, IntT)] else [])
       + (if a.precision == STAR_FIELD then [Slot(a.precisionPos, IntT)] else []))
  }

  function Slots(args: seq<ArgSpec>): seq<Slot> {
    if args == [] then [] else SlotsOf(args[0]) + Slots(args[1..])
  }

  // ---------- a bijection onto 1..n ----------

  function Positions(slots: seq<Slot>): set<int> {
    if slots == [] then {} else {slots[0].pos} + Positions(slots[1..])
  }

  predicate Distinct(slots: seq<Slot>) {
    slots == [] || (slots[0].pos !in Positions(slots[1..]) && Distinct(slots[1..]))
  }

  function Range(a: nat, b: nat): (r: set<int>)
    ensures forall p :: p in r <==> a < p <= b
  {
    if b <= a then {} else Range(a, b - 1) + {b}
  }

  /** Every position from 1 to n is used by exactly one slot, and no other is used. */
  predicate Bijective(slots: seq<Slot>, n: nat) {
    Distinct(slots) && Positions(slots) == Range(0, n)
  }

  lemma {:induction false} PositionsAppend(a: seq<Slot>, b: seq<Slot>)
    ensures Positions(a + b) == Positions(a) + Positions(b)
    ensures Distinct(a + b) <==> Distinct(a) && Distinct(b) && Positions(a) !! Positions(b)
  {
    if a == [] {
      assert a + b == b;
    } else {
      assert (a + b)[1..] == a[1..] + b;
      PositionsAppend(a[1..], b);
    }
  }

  lemma {:induction false} PositionsCount(slots: seq<Slot>)
    ensures |Positions(slots)| <= |slots|
  {
    if slots != [] {
      PositionsCount(slots[1..]);
    }
  }

  lemma {:induction false} RangeCount(n: nat)
    ensures |Range(0, n)| == n
  {
    if n == 0 {
      assert Range(0, 0) == {};
    } else {
      RangeCount(n - 1);
      assert Range(0, n) == Range(0, n - 1) + {n};
    }
  }

  // ---------- assigning positions ----------

  function MaxPos(args: seq<ArgSpec>, n: nat): nat {
    if args == [] then n
    else
      var a := args[0];
      var n1 := if a.argPos != -1 && a.argPos > n then a.argPos else n;
      var n2 := if a.widthPos > n1 then a.widthPos else n1;
      var n3 := if a.precisionPos > n2 then a.precisionPos else n2;
      MaxPos(args[1..], n3)
  }

  /** Consecutive positions for one conversion: width, precision, value. */
  function FillOne(a: ArgSpec, n: nat): (ArgSpec, nat) {
    var n1 := if a.width == STAR_FIELD then n + 1 else n;
    var n2 := if a.precision == STAR_FIELD then n1 + 1 else n1;
    var n3 := if a.argPos != -1 then n2 + 1 else n2;
    (a.(widthPos := if a.width == STAR_FIELD then n1 else a.widthPos,
        precisionPos := if a.precision == STAR_FIELD then n2 else a.precisionPos,
        argPos := if a.argPos != -1 then n3 else -1),
     n3)
  }

  function FillAll(args: seq<ArgSpec>, n: nat): (seq<ArgSpec>, nat) {
    if args == [] then ([], n)
    else
      var (a, n1) := FillOne(args[0], n);
      var (rest, n2) := FillAll(args[1..], n1);
      ([a] + rest, n2)
  }

  predicate Filled(a: ArgSpec) {
    a.argPos != 0 && (a.width == STAR_FIELD ==> a.widthPos != 0) && (a.precision == STAR_FIELD ==> a.precisionPos != 0)
  }

  predicate AllFilled(args: seq<ArgSpec>) {
    forall a | a in args :: Filled(a)
  }

  /** Either no position is given and all are made up, or all that are needed must be given. */
  function Assign(args: seq<ArgSpec>): Option<(seq<ArgSpec>, nat)> {
    var n := MaxPos(args, 0);
    if n == 0 then Some(FillAll(args, 0))
    else if AllFilled(args) then Some((args, n))
    else None
  }

  // ---------- the table ----------

  /** A slot may be put only where the table has no type yet. */
  function PlaceAll(slots: seq<Slot>, table: seq<ValType>): (r: Option<seq<ValType>>)
    requires forall s | s in slots :: 1 <= s.pos <= |table|
    ensures r.Some? ==> |r.value| == |table|
  {
    if slots == [] then Some(table)
    else
      assert slots[0] in slots && forall s | s in slots[1..] :: s in slots;
      if table[slots[0].pos - 1] != Unsupported then None
      else PlaceAll(slots[1..], table[slots[0].pos - 1 := slots[0].vt])
  }

  function EmptyTable(n: nat): seq<ValType> {
    seq(n, _ => Unsupported)
  }

  predicate Readable(table: seq<ValType>) {
    forall i | 0 <= i < |table| :: table[i] != Unsupported
  }

  predicate Recognised(args: seq<ArgSpec>) {
    forall a | a in args :: a.vt != Unsupported
  }

  predicate Typed(slots: seq<Slot>) {
    forall s | s in slots :: s.vt != Unsupported
  }

  predicate InRange(slots: seq<Slot>, n: nat) {
    forall s | s in slots :: 1 <= s.pos <= n
  }

  /** The positions that the table has free. */
  predicate Free(slots: seq<Slot>, table: seq<ValType>)
    requires InRange(slots, |table|)
  {
    forall s | s in slots :: table[s.pos - 1] == Unsupported
  }

  lemma {:induction false} PlaceAppend(a: seq<Slot>, b: seq<Slot>, table: seq<ValType>)
    requires InRange(a, |table|) && InRange(b, |table|)
    ensures InRange(a + b, |table|)
    ensures PlaceAll(a + b, table) == if PlaceAll(a, table).None? then None else PlaceAll(b, PlaceAll(a, table).value)
  {
    if a == [] {
      assert a + b == b;
    } else {
      assert (a + b)[1..] == a[1..] + b;
      assert a[0] in a && forall s | s in a[1..] :: s in a;
      if table[a[0].pos - 1] == Unsupported {
        PlaceAppend(a[1..], b, table[a[0].pos - 1 := a[0].vt]);
      }
    }
  }

  lemma {:induction false} InPositions(slots: seq<Slot>, p: int)
    ensures p in Positions(slots) <==> exists s | s in slots :: s.pos == p
  {
    if slots != [] {
      InPositions(slots[1..], p);
      if p in Positions(slots) {
        if slots[0].pos == p {
          assert slots[0] in slots;
        } else {
          var s :| s in slots[1..] && s.pos == p;
          assert s in slots;
        }
      }
      assert forall s | s in slots :: s == slots[0] || s in slots[1..];
    }
  }

  lemma SameLength(slots: seq<Slot>, n: nat, m: nat)
    requires InRange(slots, n) && n == m
    ensures InRange(slots, m)
  {
  }

  lemma FreeStep(s: Slot, rest: seq<Slot>, table: seq<ValType>)
    requires InRange([s] + rest, |table|) && s.vt != Unsupported && InRange(rest, |table|)
    requires 1 <= s.pos <= |table| && table[s.pos - 1] == Unsupported
    ensures Free(rest, table[s.pos - 1 := s.vt]) <==> Free(rest, table) && s.pos !in Positions(rest)
  {
    InPositions(rest, s.pos);
  }

  lemma {:induction false} PositionsInRange(slots: seq<Slot>, n: nat)
    requires InRange(slots, n)
    ensures Positions(slots) <= Range(0, n)
  {
    forall p | p in Positions(slots) ensures p in Range(0, n) {
      InPositions(slots, p);
    }
  }

  // ---------- slots without a type ----------

  function TypedOnly(slots: seq<Slot>): seq<Slot> {
    if slots == [] then []
    else (if slots[0].vt != Unsupported then [slots[0]] else []) + TypedOnly(slots[1..])
  }

  /** Every slot without a type comes before a typed slot at its position. */
  predicate UnknownFirst(slots: seq<Slot>) {
    slots == []
    || ((slots[0].vt == Unsupported ==> slots[0].pos in Positions(TypedOnly(slots[1..]))) && UnknownFirst(slots[1..]))
  }

  /** No slot follows a typed slot at its position. */
  predicate NoClash(slots: seq<Slot>) {
    slots == []
    || ((slots[0].vt != Unsupported ==> slots[0].pos !in Positions(slots[1..])) && NoClash(slots[1..]))
  }

  lemma TypedOnlySplit(slots: seq<Slot>)
    requires slots != []
    ensures
      Positions(TypedOnly(slots))
      == (if slots[0].vt != Unsupported then {slots[0].pos} else {}) + Positions(TypedOnly(slots[1..]))
    ensures
      Distinct(TypedOnly(slots))
      <==> Distinct(TypedOnly(slots[1..]))
           && (slots[0].vt != Unsupported ==> slots[0].pos !in Positions(TypedOnly(slots[1..])))
  {
    var t := TypedOnly(slots[1..]);
    if slots[0].vt != Unsupported {
      assert ([slots[0]] + t)[1..] == t && ([slots[0]] + t)[0] == slots[0];
    } else {
      assert [] + t == t;
    }
  }

  lemma {:induction false} TypedOnlyFewer(slots: seq<Slot>)
    ensures |TypedOnly(slots)| <= |slots|
    ensures Positions(TypedOnly(slots)) <= Positions(slots)
  {
    if slots != [] {
      hide TypedOnly;
      TypedOnlyFewer(slots[1..]);
      TypedOnlySplit(slots);
      TypedOnlyLength(slots);
    }
  }

  lemma TypedOnlyLength(slots: seq<Slot>)
    requires slots != []
    ensures |TypedOnly(slots)| <= 1 + |TypedOnly(slots[1..])|
  {
  }

  lemma {:induction false} AllTyped(slots: seq<Slot>)
    requires Typed(slots)
    ensures TypedOnly(slots) == slots && UnknownFirst(slots)
  {
    if slots != [] {
      assert slots[0] in slots && forall t | t in slots[1..] :: t in slots;
      AllTyped(slots[1..]);
    }
  }

  lemma InRangeSplit(slots: seq<Slot>, n: nat)
    requires slots != [] && InRange(slots, n)
    ensures InRange(slots[1..], n) && 1 <= slots[0].pos <= n
  {
    assert slots[0] in slots && forall t | t in slots[1..] :: t in slots;
  }

  lemma FreeSplit(slots: seq<Slot>, table: seq<ValType>)
    requires slots != [] && InRange(slots, |table|) && InRange(slots[1..], |table|) && 1 <= slots[0].pos <= |table|
    ensures Free(slots, table) <==> table[slots[0].pos - 1] == Unsupported && Free(slots[1..], table)
  {
    assert slots[0] in slots && forall t | t in slots[1..] :: t in slots;
    assert forall t | t in slots :: t == slots[0] || t in slots[1..];
  }

  /** The places that are taken in the end are those that were taken, with the same types, and
      the typed slots', with theirs. */
  predicate Takes(slots: seq<Slot>, before: seq<ValType>, after: seq<ValType>) {
    && |after| == |before|
    && (forall i | 0 <= i < |before| ::
          after[i] != Unsupported <==> before[i] != Unsupported || i + 1 in Positions(TypedOnly(slots)))
    && (forall i | 0 <= i < |before| :: before[i] != Unsupported ==> after[i] == before[i])
    && (forall s | s in slots && s.vt != Unsupported && 1 <= s.pos <= |after| :: after[s.pos - 1] == s.vt)
  }

  /** Placing any slots succeeds exactly if none follows a typed one at its position. */
  lemma {:induction false} PlaceAllSlots(slots: seq<Slot>, table: seq<ValType>)
    requires InRange(slots, |table|)
    ensures PlaceAll(slots, table).Some? <==> NoClash(slots) && Free(slots, table)
    ensures PlaceAll(slots, table).Some? ==> Takes(slots, table, PlaceAll(slots, table).value)
  {
    if slots != [] {
      hide Positions, InRange, Free, Takes, TypedOnly;
      var s, rest := slots[0], slots[1..];
      InRangeSplit(slots, |table|);
      FreeSplit(slots, table);
      assert slots == [s] + rest;
      if table[s.pos - 1] == Unsupported {
        var table' := table[s.pos - 1 := s.vt];
        SameLength(rest, |table|, |table'|);
        PlaceAllSlots(rest, table');
        if s.vt != Unsupported {
          FreeStep(s, rest, table);
        } else {
          assert table' == table;
        }
        if PlaceAll(slots, table).Some? {
          TakesStep(slots, table, PlaceAll(rest, table').value);
        }
      }
    } else {
      TakesNothing(table);
    }
  }

  lemma TakesNothing(table: seq<ValType>)
    ensures InRange([], |table|) && Free([], table) && Takes([], table, table)
  {
  }

  lemma TakesStep(slots: seq<Slot>, table: seq<ValType>, after: seq<ValType>)
    requires slots != [] && 1 <= slots[0].pos <= |table| && table[slots[0].pos - 1] == Unsupported
    requires Takes(slots[1..], table[slots[0].pos - 1 := slots[0].vt], after)
    ensures Takes(slots, table, after)
  {
    TypedOnlySplit(slots);
    hide TypedOnly, Positions;
    assert forall t | t in slots :: t == slots[0] || t in slots[1..];
  }

  /** The two ways to say it are the same for slots whose typed positions are all there. */
  lemma {:induction false} ClashIffLate(slots: seq<Slot>, seen: set<int>, n: nat)
    requires InRange(slots, n) && Range(0, n) <= seen + Positions(TypedOnly(slots))
    requires NoClash(slots) && forall s | s in slots :: s.pos !in seen
    ensures Distinct(TypedOnly(slots)) && UnknownFirst(slots)
  {
    if slots != [] {
      hide Positions, TypedOnly, Distinct;
      var s, rest := slots[0], slots[1..];
      assert s in slots;
      InRangeSplit(slots, n);
      TypedOnlySplit(slots);
      TypedOnlyFewer(rest);
      var seen' := if s.vt != Unsupported then seen + {s.pos} else seen;
      forall t | t in rest ensures t.pos !in seen' {
        assert t in slots;
        InPositions(rest, t.pos);
      }
      ClashIffLate(rest, seen', n);
      assert s.pos in Range(0, n);
    } else {
      NoneLate();
    }
  }

  lemma NoneLate()
    ensures Distinct(TypedOnly([])) && UnknownFirst([])
  {
  }

  lemma {:induction false} LateNoClash(slots: seq<Slot>)
    requires Distinct(TypedOnly(slots)) && UnknownFirst(slots)
    ensures NoClash(slots) && Positions(slots) == Positions(TypedOnly(slots))
  {
    if slots != [] {
      TypedOnlySplit(slots);
      hide TypedOnly, Distinct;
      LateNoClash(slots[1..]);
    }
  }

  /** The table can be built and read exactly if the typed slots are a bijection and every
      other slot comes before the typed one at its position. */
  lemma TableIffTypedBijective(slots: seq<Slot>, n: nat)
    requires InRange(slots, n)
    ensures
      var t := PlaceAll(slots, EmptyTable(n));
      t.Some? && Readable(t.value) <==> Bijective(TypedOnly(slots), n) && UnknownFirst(slots)
  {
    hide PlaceAll, TypedOnly, Positions, Distinct, UnknownFirst, NoClash;
    var t := PlaceAll(slots, EmptyTable(n));
    PlaceAllSlots(slots, EmptyTable(n));
    PositionsInRange(slots, n);
    TypedOnlyFewer(slots);
    assert Free(slots, EmptyTable(n));
    if t.Some? && Readable(t.value) {
      forall p | p in Range(0, n) ensures p in Positions(TypedOnly(slots)) {
        assert t.value[p - 1] != Unsupported;
      }
      ClashIffLate(slots, {}, n);
    }
    if Bijective(TypedOnly(slots), n) && UnknownFirst(slots) {
      LateNoClash(slots);
      forall i | 0 <= i < n ensures t.value[i] != Unsupported {
        assert i + 1 in Range(0, n);
      }
    }
  }

  /** With a type for every slot, exactly if the positions are a bijection. */
  lemma TableIffBijective(slots: seq<Slot>, n: nat)
    requires Typed(slots) && InRange(slots, n)
    ensures
      var t := PlaceAll(slots, EmptyTable(n));
      t.Some? && Readable(t.value) <==> Bijective(slots, n)
  {
    hide PlaceAll, TypedOnly, UnknownFirst, Positions;
    TableIffTypedBijective(slots, n);
    AllTyped(slots);
  }

  // ---------- positions that are made up ----------

  /** Two conversions that differ in their positions only. */
  predicate SameShape(a: ArgSpec, b: ArgSpec) {
    b == a.(argPos := b.argPos, widthPos := b.widthPos, precisionPos := b.precisionPos)
        && (a.argPos == -1 <==> b.argPos == -1)
  }

  predicate SameShapes(a: seq<ArgSpec>, b: seq<ArgSpec>) {
    |a| == |b| && forall i | 0 <= i < |a| :: SameShape(a[i], b[i])
  }

  lemma FillOneIs(a: ArgSpec, n: nat)
    requires a.argPos >= -1
    ensures
      var (b, k) := FillOne(a, n);
      && SameShape(a, b) && b.argPos >= -1 && k == n + |SlotsOf(a)|
      && Distinct(SlotsOf(b)) && Positions(SlotsOf(b)) == Range(n, k)
  {
    var (b, k) := FillOne(a, n);
    var value: seq<Slot> := if a.argPos != -1 then [Slot(k, a.vt)] else [];
    var width: seq<Slot> := if a.width == STAR_FIELD then [Slot(n + 1, IntT)] else [];
    var precision: seq<Slot> := if a.precision == STAR_FIELD then [Slot(n + 1 + |width|, IntT)] else [];
    assert SlotsOf(b) == value + (width + precision);
    AtMostOne(value);
    AtMostOne(width);
    AtMostOne(precision);
    hide Positions, Distinct;
    PositionsAppend(width, precision);
    PositionsAppend(value, width + precision);
    assert Positions(SlotsOf(b)) == Range(n, k);
  }

  lemma AtMostOne(s: seq<Slot>)
    requires |s| <= 1
    ensures Distinct(s) && Positions(s) == if s == [] then {} else {s[0].pos}
  {
  }

  /** Made-up positions are consecutive. */
  lemma {:induction false} FillAllIs(args: seq<ArgSpec>, n: nat)
    requires forall a | a in args :: a.argPos >= -1
    ensures
      var (filled, k) := FillAll(args, n);
      && SameShapes(args, filled) && k == n + |Slots(args)|
      && Distinct(Slots(filled)) && Positions(Slots(filled)) == Range(n, k)
  {
    if args != [] {
      hide FillOne, SlotsOf, Distinct, Positions, SameShape;
      var a, rest := args[0], args[1..];
      assert a in args && forall b | b in rest :: b in args;
      var (b, k) := FillOne(a, n);
      var (more, m) := FillAll(rest, k);
      FillOneIs(a, n);
      FillAllIs(rest, k);
      assert FillAll(args, n) == ([b] + more, m);
      assert ([b] + more)[1..] == more;
      PositionsAppend(SlotsOf(b), Slots(more));
      assert Range(n, k) + Range(k, m) == Range(n, m);
    } else {
      NoSlots(n);
    }
  }

  lemma NoSlots(n: nat)
    ensures Distinct([]) && Positions([]) == Range(n, n)
  {
  }

  // ---------- how many there are ----------

  function Total(args: seq<ArgSpec>): nat {
    if args == [] then 0 else args[0].length + Total(args[1..])
  }

  /** What the parser guarantees of a conversion. */
  predicate Parsed(a: ArgSpec) {
    && a.argPos >= -1 && (a.argPos == -1 <==> a.conspec == StrError)
    && a.vt == TypeOf(a.conspec, a.lenmod)
    && a.length >= 2 + (if a.width == STAR_FIELD then 1 else 0) + (if a.precision == STAR_FIELD then 1 else 0)
  }

  predicate AllParsed(args: seq<ArgSpec>) {
    forall a | a in args :: Parsed(a)
  }

  lemma {:induction false} ConvsParsed(s: Octets)
    requires Pieces(s).Ok?
    ensures AllParsed(Convs(Pieces(s).value)) && Total(Convs(Pieces(s).value)) <= |s|
    decreases |s|
  {
    if s != "" {
      var (p, rest) := NextPiece(s).value;
      var more := Pieces(rest).value;
      ConvsParsed(rest);
      assert ([p] + more)[1..] == more;
      PieceParsed(s);
      hide NextPiece, Parsed;
      if p.Conv? {
        assert Convs([p] + more) == [p.arg] + Convs(more);
        assert ([p.arg] + Convs(more))[1..] == Convs(more);
      } else {
        assert Convs([p] + more) == [] + Convs(more);
        assert [] + Convs(more) == Convs(more);
      }
    }
  }

  lemma PieceParsed(s: Octets)
    requires s != "" && NextPiece(s).Ok?
    ensures
      var (p, rest) := NextPiece(s).value;
      if p.Conv? then Parsed(p.arg) && p.arg.length == |s| - |rest| else |rest| < |s|
  {
    hide ParseSpec;
  }

  lemma {:induction false} FewSlots(args: seq<ArgSpec>)
    requires AllParsed(args)
    ensures |Slots(args)| + |args| <= Total(args)
  {
    if args != [] {
      assert args[0] in args && forall a | a in args[1..] :: a in args;
      assert |SlotsOf(args[0])| + 1 <= args[0].length;
      hide SlotsOf;
      FewSlots(args[1..]);
    }
  }

  // ---------- ranges ----------

  lemma {:induction false} MaxPosIs(args: seq<ArgSpec>, n: nat)
    ensures MaxPos(args, n) >= n
    ensures forall a | a in args ::
              a.argPos <= MaxPos(args, n) && a.widthPos <= MaxPos(args, n) && a.precisionPos <= MaxPos(args, n)
  {
    if args != [] {
      var a := args[0];
      var n1 := if a.argPos != -1 && a.argPos > n then a.argPos else n;
      var n2 := if a.widthPos > n1 then a.widthPos else n1;
      var n3 := if a.precisionPos > n2 then a.precisionPos else n2;
      MaxPosIs(args[1..], n3);
      assert forall b | b in args :: b == a || b in args[1..];
    }
  }

  lemma {:induction false} SlotIn(args: seq<ArgSpec>, s: Slot)
    ensures s in Slots(args) <==> exists a | a in args :: s in SlotsOf(a)
  {
    if args != [] {
      hide SlotsOf;
      SlotIn(args[1..], s);
      assert forall a | a in args :: a == args[0] || a in args[1..];
      if s in SlotsOf(args[0]) {
        assert args[0] in args;
      } else if s in Slots(args[1..]) {
        var a :| a in args[1..] && s in SlotsOf(a);
        assert a in args;
      }
    }
  }

  lemma SlotsTyped(args: seq<ArgSpec>)
    requires Recognised(args)
    ensures Typed(Slots(args))
  {
    forall s | s in Slots(args) ensures s.vt != Unsupported {
      SlotIn(args, s);
    }
  }

  /** Assigned positions are all within the table. */
  lemma AssignedInRange(args: seq<ArgSpec>)
    requires AllParsed(args) && Assign(args).Some?
    ensures InRange(Slots(Assign(args).value.0), Assign(args).value.1)
    ensures SameShapes(args, Assign(args).value.0)
  {
    var (filled, n) := Assign(args).value;
    var slots := Slots(filled);
    if MaxPos(args, 0) == 0 {
      FillAllIs(args, 0);
      forall s | s in slots ensures 1 <= s.pos <= n {
        InPositions(slots, s.pos);
      }
    } else {
      MaxPosIs(args, 0);
      forall s | s in slots ensures 1 <= s.pos <= n {
        SlotIn(args, s);
      }
    }
  }

  // ---------- the theorem ----------

  /** Everything between parsing and formatting: positions, length check, table, reading. */
  function Prepare(format: Octets, args: seq<ArgSpec>): (r: Option<(seq<ArgSpec>, seq<ValType>)>)
    requires AllParsed(args)
  {
    var (filled, n) :- Assign(args);
    if n >= |format| then None
    else
      AssignedInRange(args);
      var table :- PlaceAll(Slots(filled), EmptyTable(n));
      if Readable(table) then Some((filled, table)) else None
  }

  /** The assertions of do_format about one conversion. */
  predicate Matches(a: ArgSpec, table: seq<ValType>) {
    && (a.argPos != -1 ==> 1 <= a.argPos <= |table| && table[a.argPos - 1] == a.vt)
    && (a.width == STAR_FIELD ==> 1 <= a.widthPos <= |table| && table[a.widthPos - 1] == IntT)
    && (a.precision == STAR_FIELD ==> 1 <= a.precisionPos <= |table| && table[a.precisionPos - 1] == IntT)
  }

  predicate AllMatch(args: seq<ArgSpec>, table: seq<ValType>) {
    forall a | a in args :: Matches(a, table)
  }

  /** What holds of any conversion when formatting is reached: all its positions are in the
      table, and all types are right but that of a value which has none. */
  predicate Fitting(a: ArgSpec, table: seq<ValType>) {
    && (a.argPos != -1 ==> 1 <= a.argPos <= |table| && table[a.argPos - 1] != Unsupported)
    && (a.argPos == -1 || a.vt != Unsupported ==> Matches(a, table))
    && (a.width == STAR_FIELD ==> 1 <= a.widthPos <= |table| && table[a.widthPos - 1] == IntT)
    && (a.precision == STAR_FIELD ==> 1 <= a.precisionPos <= |table| && table[a.precisionPos - 1] == IntT)
  }

  predicate AllFitting(args: seq<ArgSpec>, table: seq<ValType>) {
    forall a | a in args :: Fitting(a, table)
  }

  /** When formatting is reached at all, for every format that parses: without positions exactly
      if every conversion is recognised; with positions exactly if those of the recognised
      values, widths and precisions are a bijection onto 1..n and each unknown conversion comes
      before the slot that has its position. */
  lemma ReachedIffBijective(format: Octets)
    requires format != "" && Pieces(format).Ok?
    ensures
      var args := Convs(Pieces(format).value);
      var n := MaxPos(args, 0);
      && AllParsed(args)
      && (Prepare(format, args).Some? <==>
            if n == 0 then Recognised(args) else Bijective(TypedOnly(Slots(args)), n) && UnknownFirst(Slots(args)))
      && (Recognised(args) ==> TypedOnly(Slots(args)) == Slots(args) && UnknownFirst(Slots(args)))
  {
    var args := Convs(Pieces(format).value);
    var n := MaxPos(args, 0);
    ConvsParsed(format);
    FewSlots(args);
    hide Pieces, Convs, Parsed, FillAll, SlotsOf, Slots, MaxPos, Bijective, Readable, PlaceAll, Total;
    if n == 0 {
      Automatic(format, args);
    } else {
      Positional(format, args, n);
    }
    if Recognised(args) {
      SlotsTyped(args);
      AllTyped(Slots(args));
    }
  }

  /** Once formatting is reached, the assertions about positions and types all hold exactly if
      every conversion is recognised; otherwise only the type of an unknown one is wrong. */
  lemma MatchIffRecognised(format: Octets)
    requires format != "" && Pieces(format).Ok?
    ensures
      var args := Convs(Pieces(format).value);
      && AllParsed(args)
      && (Prepare(format, args).Some? ==>
            var (filled, table) := Prepare(format, args).value;
            && SameShapes(args, filled) && AllFitting(filled, table)
            && (AllMatch(filled, table) <==> Recognised(args)))
  {
    var args := Convs(Pieces(format).value);
    ConvsParsed(format);
    hide Pieces, Convs, FillAll, SlotsOf, Slots, MaxPos, PlaceAll, Total, Parsed;
    if Prepare(format, args).Some? {
      AssignedInRange(args);
      var (filled, table) := Prepare(format, args).value;
      TableFits(filled, Assign(args).value.1);
      FittingMatch(args, filled, table);
    }
  }

  /** With a readable table, an unknown conversion cannot find its own type there. */
  lemma FittingMatch(args: seq<ArgSpec>, filled: seq<ArgSpec>, table: seq<ValType>)
    requires AllParsed(args) && SameShapes(args, filled) && AllFitting(filled, table)
    ensures AllMatch(filled, table) <==> Recognised(args)
  {
    if Recognised(args) {
      ShapesRecognised(args, filled);
    } else {
      var a :| a in args && a.vt == Unsupported;
      var i :| 0 <= i < |args| && args[i] == a;
      assert Parsed(a) && SameShape(args[i], filled[i]) && filled[i] in filled;
      assert Fitting(filled[i], table) && !Matches(filled[i], table);
    }
  }

  lemma ShapesRecognised(a: seq<ArgSpec>, b: seq<ArgSpec>)
    requires SameShapes(a, b) && Recognised(a)
    ensures Recognised(b)
  {
    forall x | x in b ensures x.vt != Unsupported {
      var i :| 0 <= i < |b| && b[i] == x;
      assert SameShape(a[i], b[i]) && a[i] in a;
    }
  }

  lemma Automatic(format: Octets, args: seq<ArgSpec>)
    requires AllParsed(args) && MaxPos(args, 0) == 0
    requires |Slots(args)| < |format|
    ensures Prepare(format, args).Some? <==> Recognised(args)
  {
    hide FillAll, SlotsOf, Slots, MaxPos, Distinct, Positions, PlaceAll, TypedOnly, UnknownFirst;
    AllAtLeast(args);
    FillAllIs(args, 0);
    var (filled, k) := FillAll(args, 0);
    AssignedInRange(args);
    TableIffTypedBijective(Slots(filled), k);
    if Recognised(args) {
      ShapesRecognised(args, filled);
      SlotsTyped(filled);
      AllTyped(Slots(filled));
    }
    if UnknownFirst(Slots(filled)) {
      DistinctTyped(Slots(filled));
      TypedRecognised(args, filled);
    }
  }

  /** Where all positions differ, nothing without a type comes before a typed slot at its own. */
  lemma {:induction false} DistinctTyped(slots: seq<Slot>)
    requires Distinct(slots) && UnknownFirst(slots)
    ensures Typed(slots)
  {
    if slots != [] {
      DistinctTyped(slots[1..]);
      TypedOnlyFewer(slots[1..]);
      assert forall t | t in slots :: t == slots[0] || t in slots[1..];
    }
  }

  lemma TypedRecognised(args: seq<ArgSpec>, filled: seq<ArgSpec>)
    requires AllParsed(args) && SameShapes(args, filled) && Typed(Slots(filled))
    ensures Recognised(args)
  {
    hide SlotsOf, Slots;
    forall a | a in args ensures a.vt != Unsupported {
      var i :| 0 <= i < |args| && args[i] == a;
      assert Parsed(a) && SameShape(args[i], filled[i]) && filled[i] in filled;
      OwnSlots(filled[i]);
      SlotIn(filled, Slot(filled[i].argPos, filled[i].vt));
    }
  }

  lemma AllAtLeast(args: seq<ArgSpec>)
    requires AllParsed(args)
    ensures forall a | a in args :: a.argPos >= -1
  {
    forall a | a in args ensures a.argPos >= -1 {
      assert Parsed(a);
    }
  }

  lemma Positional(format: Octets, args: seq<ArgSpec>, n: nat)
    requires AllParsed(args) && n == MaxPos(args, 0) > 0
    requires |Slots(args)| < |format|
    ensures Prepare(format, args).Some? <==> Bijective(TypedOnly(Slots(args)), n) && UnknownFirst(Slots(args))
  {
    hide SlotsOf, Slots, MaxPos, Distinct, Positions, PlaceAll, Filled, TypedOnly, UnknownFirst;
    if AllFilled(args) {
      AssignedInRange(args);
      TableIffTypedBijective(Slots(args), n);
      if Bijective(TypedOnly(Slots(args)), n) {
        PositionsCount(TypedOnly(Slots(args)));
        TypedOnlyFewer(Slots(args));
        RangeCount(n);
      }
    }
    BijectiveFilled(args, n);
  }

  lemma BijectiveFilled(args: seq<ArgSpec>, n: nat)
    ensures Bijective(TypedOnly(Slots(args)), n) && UnknownFirst(Slots(args)) ==> AllFilled(args)
  {
    if Bijective(TypedOnly(Slots(args)), n) && UnknownFirst(Slots(args)) {
      LateNoClash(Slots(args));
      hide Slots, SlotsOf, TypedOnly, Positions, UnknownFirst;
      forall a | a in args ensures Filled(a) {
        OwnSlots(a);
        forall s | s in SlotsOf(a) ensures s.pos >= 1 {
          SlotIn(args, s);
          InPositions(Slots(args), s.pos);
        }
      }
    }
  }

  lemma TableFits(args: seq<ArgSpec>, n: nat)
    requires InRange(Slots(args), n) && PlaceAll(Slots(args), EmptyTable(n)).Some?
    requires Readable(PlaceAll(Slots(args), EmptyTable(n)).value)
    ensures AllFitting(args, PlaceAll(Slots(args), EmptyTable(n)).value)
  {
    hide PlaceAll, Slots, SlotsOf, TypedOnly, Positions;
    var slots := Slots(args);
    var table := PlaceAll(slots, EmptyTable(n)).value;
    PlaceAllSlots(slots, EmptyTable(n));
    forall a | a in args ensures Fitting(a, table) {
      forall s | s in SlotsOf(a)
        ensures 1 <= s.pos <= n && table[s.pos - 1] != Unsupported
        ensures s.vt != Unsupported ==> table[s.pos - 1] == s.vt
      {
        SlotIn(args, s);
      }
      OwnSlots(a);
    }
  }

  lemma OwnSlots(a: ArgSpec)
    ensures a.argPos != -1 ==> Slot(a.argPos, a.vt) in SlotsOf(a)
    ensures a.width == STAR_FIELD ==> Slot(a.widthPos, IntT) in SlotsOf(a)
    ensures a.precision == STAR_FIELD ==> Slot(a.precisionPos, IntT) in SlotsOf(a)
  {
  }

  // ---------- a format where an assertion fails ----------

  const PLAIN := Flags(false, false, false, false, false, false)

  /** A conversion at the first position, without flags, width, precision and modifier. */
  function FirstArg(c: char): ArgSpec {
    ArgSpec(4, PLAIN, NO_FIELD, NO_FIELD, NoMod, Conversion(c), 1, 0, 0, TypeOf(Conversion(c), NoMod))
  }

  lemma FirstArgParsed(c: char, s: Octets)
    requires c == 'y' || c == 'd'
    ensures ParseSpec("1$" + ([c] + s)) == Ok((FirstArg(c), s))
  {
    var t := [c] + s;
    var all := "1$" + t;
    assert all == "1" + ("$" + t) && all[1..] == "$" + t && ("$" + t)[1..] == t && t[1..] == s;
    assert Digits("$" + t, 1) == (1, "$" + t);
    assert Digits(all, 0) == Digits(all[1..], 1);
    assert ArgPosition(all) == (1, t);
    assert ParseFlags(t, PLAIN) == (PLAIN, t);
    assert Field(t, true, NO_FIELD) == Some((NO_FIELD, 0, t));
    assert Precision(t, true) == Some((NO_FIELD, 0, t));
    assert LengthMod(t) == (NoMod, t);
  }

  lemma FirstArgPiece(c: char, s: Octets)
    requires c == 'y' || c == 'd'
    ensures NextPiece("%1$" + ([c] + s)) == Ok((Conv(FirstArg(c)), s))
  {
    FirstArgParsed(c, s);
    hide ParseSpec;
    var all := "%1$" + ([c] + s);
    assert all[1..] == "1$" + ([c] + s) && all[0] == '%' && all[1] == '1';
  }

  lemma PiecesBehind(c: char, s: Octets, ps: seq<Piece>)
    requires (c == 'y' || c == 'd') && Pieces(s) == Ok(ps)
    ensures Pieces("%1$" + ([c] + s)) == Ok([Conv(FirstArg(c))] + ps)
  {
    FirstArgPiece(c, s);
    hide NextPiece, FirstArg;
  }

  const MISMATCH := "%1$y%1$d"

  lemma MismatchText()
    ensures MISMATCH == "%1$" + (['y'] + ("%1$" + (['d'] + "")))
  {
  }

  lemma MismatchPieces()
    ensures Pieces(MISMATCH) == Ok([Conv(FirstArg('y')), Conv(FirstArg('d'))])
  {
    hide FirstArg;
    assert Pieces("") == Ok([]);
    hide Pieces;
    var b := Conv(FirstArg('d'));
    PiecesBehind('d', "", []);
    assert [b] + [] == [b];
    PiecesBehind('y', "%1$" + (['d'] + ""), [b]);
    MismatchText();
    assert [Conv(FirstArg('y'))] + [b] == [Conv(FirstArg('y')), b];
  }

  lemma MismatchConvs()
    ensures Convs([Conv(FirstArg('y')), Conv(FirstArg('d'))]) == [FirstArg('y'), FirstArg('d')]
  {
    hide FirstArg;
    var a, b := FirstArg('y'), FirstArg('d');
    assert [Conv(a), Conv(b)][1..] == [Conv(b)] && [Conv(b)][1..] == [];
    assert Convs([Conv(b)]) == [b] + [];
  }

  lemma TwoSlots(a: ArgSpec, b: ArgSpec)
    requires a == FirstArg('y') && b == FirstArg('d')
    ensures MaxPos([a, b], 0) == 1
    ensures Slots([a, b]) == [Slot(1, Unsupported), Slot(1, IntT)]
  {
    assert [a, b][1..] == [b] && [b][1..] == [];
    assert MaxPos([], 1) == 1 && MaxPos([b], 1) == MaxPos([], 1);
    assert SlotsOf(a) == [Slot(1, Unsupported)] && SlotsOf(b) == [Slot(1, IntT)];
    assert Slots([b]) == [Slot(1, IntT)] + Slots([]);
  }

  lemma SecondTakesPlace()
    ensures PlaceAll([Slot(1, Unsupported), Slot(1, IntT)], EmptyTable(1)) == Some([IntT])
  {
    assert EmptyTable(1) == [Unsupported];
    assert [Unsupported][0 := Unsupported] == [Unsupported] && [Unsupported][0 := IntT] == [IntT];
    assert [Slot(1, Unsupported), Slot(1, IntT)][1..] == [Slot(1, IntT)] && [Slot(1, IntT)][1..] == [];
    assert PlaceAll([Slot(1, IntT)], [Unsupported]) == Some([IntT]);
  }

  /** Without the condition that every conversion is recognised the claim is false: an unknown
      conversion leaves its place in the table free, another one can take it, and formatting is
      reached with a type that does not match. */
  lemma UnknownConversionMismatch()
    ensures Pieces(MISMATCH).Ok?
    ensures
      var args := Convs(Pieces(MISMATCH).value);
      && AllParsed(args) && args == [FirstArg('y'), FirstArg('d')]
      && Prepare(MISMATCH, args) == Some((args, [IntT]))
      && !Matches(args[0], [IntT])
  {
    hide *;
    MismatchPieces();
    assert |MISMATCH| > 1 by {
      MismatchText();
    }
    MismatchOf(MISMATCH);
  }

  lemma MismatchOf(format: Octets)
    requires Pieces(format) == Ok([Conv(FirstArg('y')), Conv(FirstArg('d'))]) && |format| > 1
    ensures
      var args := Convs(Pieces(format).value);
      && AllParsed(args) && args == [FirstArg('y'), FirstArg('d')]
      && Prepare(format, args) == Some((args, [IntT]))
      && !Matches(args[0], [IntT])
  {
    hide *;
    MismatchConvs();
    ConvsParsed(format);
    FirstArgTypes();
    MismatchPrepared(format, FirstArg('y'), FirstArg('d'));
  }

  lemma FirstArgTypes()
    ensures !Matches(FirstArg('y'), [IntT])
  {
  }

  lemma MismatchPrepared(format: Octets, a: ArgSpec, b: ArgSpec)
    requires a == FirstArg('y') && b == FirstArg('d') && AllParsed([a, b]) && |format| > 1
    ensures Prepare(format, [a, b]) == Some(([a, b], [IntT]))
  {
    hide PlaceAll, Slots, MaxPos, AllFilled, FirstArg, AllParsed;
    TwoSlots(a, b);
    SecondTakesPlace();
    TwoFilled(a, b);
  }

  lemma TwoFilled(a: ArgSpec, b: ArgSpec)
    requires a == FirstArg('y') && b == FirstArg('d')
    ensures AllFilled([a, b])
  {
  }
}
