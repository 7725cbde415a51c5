/** The decoder gives back exactly the data whatever style it was written in. */
module ArmorRoundTrip {
  import opened Common
  import opened Base64
  import Crc24

  /** Between groups, inside the base-64 lines. */
  predicate Ready(d: Decoder) {
    d.mode == B64_0 && !d.stop && !d.invalid
  }

  /** Still inside the base-64 text, at the same kind of place. */
  predicate Same(d: Decoder, d': Decoder) {
    d'.armored == d.armored && d'.stop == d.stop && d'.invalid == d.invalid && d'.pos == d.pos
  }

  lemma StepSextet(d: Decoder, v: bv8)
    requires v < 64 && d.mode in {B64_0, B64_1, B64_2, B64_3}
    ensures Step(d, Ascii(v)) == Accept(d, v)
  {
    hide Accept, Ascii, Binary;
    AsciiBinary(v);
  }

  /** The text of one quad, character by character. */
  lemma RunFour(d: Decoder, c0: bv8, c1: bv8, c2: bv8, c3: bv8)
    requires !d.stop
    requires var d1 := Step(d, c0).0;
             var d2 := Step(d1, c1).0;
             !d1.stop && !d2.stop && !Step(d2, c2).0.stop
    ensures var d1 := Step(d, c0).0;
            var d2 := Step(d1, c1).0;
            var d3 := Step(d2, c2).0;
            Run(d, [c0, c1, c2, c3])
            == (Step(d3, c3).0, Step(d, c0).1 + Step(d1, c1).1 + Step(d2, c2).1 + Step(d3, c3).1)
  {
    hide Step;
    var d1 := Step(d, c0).0;
    var d2 := Step(d1, c1).0;
    var d3 := Step(d2, c2).0;
    RunOne(d, c0);
    RunOne(d1, c1);
    RunOne(d2, c2);
    RunOne(d3, c3);
    RunAppend(d, [c0], [c1]);
    RunAppend(d, [c0, c1], [c2]);
    RunAppend(d, [c0, c1, c2], [c3]);
    assert [c0] + [c1] == [c0, c1];
    assert [c0, c1] + [c2] == [c0, c1, c2];
    assert [c0, c1, c2] + [c3] == [c0, c1, c2, c3];
  }

  lemma RunQuad(d: Decoder, a: bv8, b: bv8, c: bv8)
    requires Ready(d)
    ensures var (d', out) := Run(d, Quad(a, b, c));
            Ready(d') && Same(d, d') && out == [a, b, c]
  {
    hide Run, Step, Ascii, Sextet0, Sextet1, Sextet2, Sextet3, Val0, Val1, Val1', Val2, Val2', Val3;
    SextetsAreSmall(a, b, c);
    FirstOctet(a, b);
    SecondOctet(a, b, c);
    ThirdOctet(b, c);
    StepSextet(d, Sextet0(a));
    var d1 := Step(d, Ascii(Sextet0(a))).0;
    StepSextet(d1, Sextet1(a, b));
    var d2 := Step(d1, Ascii(Sextet1(a, b))).0;
    StepSextet(d2, Sextet2(b, c));
    var d3 := Step(d2, Ascii(Sextet2(b, c))).0;
    StepSextet(d3, Sextet3(c));
    RunFour(d, Ascii(Sextet0(a)), Ascii(Sextet1(a, b)), Ascii(Sextet2(b, c)), Ascii(Sextet3(c)));
  }

  /** White space between groups is skipped. */
  lemma RunLf(d: Decoder)
    requires Ready(d)
    ensures Run(d, [LF]) == (d, [])
  {
    RunOne(d, LF);
  }

  lemma {:induction false} RunBody(d: Decoder, data: seq<bv8>, q: nat, s: Style)
    requires Ready(d)
    ensures var (d', out) := Run(d, Body(data, q, s));
            Ready(d') && Same(d, d') && out == data[..|data| - |data| % 3]
    decreases |data|
  {
    hide Run;
    if |data| < 3 {
      RunNothing(d);
    } else {
      var quad, wrap, more := Quad(data[0], data[1], data[2]), Wrap(q, s), Body(data[3..], NextCount(q), s);
      hide Quad;
      RunQuad(d, data[0], data[1], data[2]);
      var d1 := Run(d, quad).0;
      if wrap == [] {
        RunNothing(d1);
      } else {
        RunLf(d1);
      }
      RunAppend(d, quad, wrap);
      RunBody(d1, data[3..], NextCount(q), s);
      RunAppend(d, quad + wrap, more);
      assert (|data| - 3) % 3 == |data| % 3;
      assert data[..|data| - |data| % 3] == data[..3] + data[3..][..|data| - 3 - |data| % 3];
      assert data[..3] == [data[0], data[1], data[2]];
    }
  }

  lemma RunNothing(d: Decoder)
    ensures Run(d, []) == (d, [])
  {
  }

  /** Where the decoder may be once all data is out: still reading (nothing was padded), or
      waiting for the end line, or done. */
  predicate Drained(d: Decoder, armored: bool) {
    && d.armored == armored
    && !d.invalid
    && (d.mode == B64_0 || d.mode == WaitEndTitle || (!armored && d.mode == WaitEnd))
    && (d.stop ==> !armored)
  }

  lemma RunLastQuad(d: Decoder, rest: seq<bv8>)
    requires Ready(d) && 1 <= |rest| <= 2
    ensures var (d', out) := Run(d, LastQuad(rest));
            && out == rest && !d'.stop && !d'.invalid && d'.armored == d.armored
            && d'.mode == (if d.armored then WaitEndTitle else WaitEnd)
  {
    hide Run, Step, Ascii, Sextet0, Sextet1, Sextet2, Sextet3, Val0, Val1, Val1', Val2, Val2', Val3;
    var a, b := rest[0], if |rest| == 2 then rest[1] else 0;
    SextetsAreSmall(a, b, 0);
    FirstOctet(a, b);
    SecondOctet(a, b, 0);
    StepSextet(d, Sextet0(a));
    var d1 := Step(d, Ascii(Sextet0(a))).0;
    StepSextet(d1, Sextet1(a, b));
    var d2 := Step(d1, Ascii(Sextet1(a, b))).0;
    if |rest| == 1 {
      StepPad(d2);
      var d3 := Step(d2, PAD).0;
      StepPadAgain(d3);
      RunFour(d, Ascii(Sextet0(a)), Ascii(Sextet1(a, b)), PAD, PAD);
    } else {
      StepSextet(d2, Sextet2(b, 0));
      var d3 := Step(d2, Ascii(Sextet2(b, 0))).0;
      StepPad(d3);
      RunFour(d, Ascii(Sextet0(a)), Ascii(Sextet1(a, b)), Ascii(Sextet2(b, 0)), PAD);
    }
  }

  lemma StepPad(d: Decoder)
    requires d.mode in {B64_0, B64_2, B64_3}
    ensures Step(d, PAD) == (d.(mode := if d.armored then WaitEndTitle else WaitEnd), [])
  {
  }

  lemma StepPadAgain(d: Decoder)
    requires d.mode == WaitEndTitle || d.mode == WaitEnd
    ensures Step(d, PAD) == (d, [])
  {
  }

  /** Line feeds behind the data change nothing but may stop an unarmored decoder. */
  lemma RunLineEnd(d: Decoder, armored: bool)
    requires Drained(d, armored)
    ensures var (d', out) := Run(d, [LF]); Drained(d', armored) && out == [] && (d.mode == B64_0 && !d.stop ==> d' == d)
  {
    if d.stop {
    } else {
      RunOne(d, LF);
    }
  }

  lemma RunTail(d: Decoder, rest: seq<bv8>, q: nat, s: Style)
    requires Ready(d) && |rest| <= 2
    ensures var (d', out) := Run(d, Tail(rest, q, s));
            Drained(d', d.armored) && out == rest
  {
    hide Run;
    var quad := if rest == [] then [] else LastQuad(rest);
    var wrap := if rest == [] then [] else Wrap(q, s);
    var q' := if rest == [] then q else NextCount(q);
    var end := if q' != 0 && !s.OneLine? then [LF] else [];
    assert Tail(rest, q, s) == quad + wrap + end;
    hide Tail, LastQuad;
    if rest == [] {
      RunNothing(d);
    } else {
      RunLastQuad(d, rest);
    }
    var d1 := Run(d, quad).0;
    RunOptionalLf(d1, wrap, d.armored);
    RunAppend(d, quad, wrap);
    var d2 := Run(d1, wrap).0;
    RunOptionalLf(d2, end, d.armored);
    RunAppend(d, quad + wrap, end);
  }

  lemma RunOptionalLf(d: Decoder, lf: seq<bv8>, armored: bool)
    requires Drained(d, armored) && (lf == [] || lf == [LF])
    ensures var (d', out) := Run(d, lf); Drained(d', armored) && out == []
  {
    hide Run;
    if lf == [] {
      RunNothing(d);
    } else {
      RunLineEnd(d, armored);
    }
  }

  /** Characters that do not matter in the present mode. */
  predicate Ignored(m: Mode, c: bv8) {
    (m == Begin && c != LF) || (m == WaitEndTitle && c != DASH) || (m == WaitEnd && c != LF)
  }

  lemma {:induction false} RunIgnored(d: Decoder, text: seq<bv8>)
    requires forall c | c in text :: Ignored(d.mode, c)
    ensures Run(d, text) == (d, [])
  {
    if text != [] && !d.stop {
      assert Ignored(d.mode, text[0]);
      assert Step(d, text[0]) == (d, []);
      RunIgnored(d, text[1..]);
      var none: seq<bv8> := [];
      assert none + none == none;
    }
  }

  /** The header line is recognised and leads to the data. */
  lemma RunHeader(s: Style)
    requires s.Armored? && LF !in s.title
    ensures var (d', out) := Run(Started(true), Header(s));
            Ready(d') && d'.armored && out == []
  {
    hide Run, Step;
    var d := Started(true);
    RunBegin(|BEGIN|);
    assert BEGIN[..|BEGIN|] == BEGIN;
    var d1 := Run(d, BEGIN).0;
    RunIgnored(d1, s.title + DASHES);
    RunAppend(d, BEGIN, s.title + DASHES);
    RunBeginLf(d1);
    RunAppend(d, BEGIN + (s.title + DASHES), [LF]);
    var d2 := Run(d1, [LF]).0;
    var more: seq<bv8> := if UsesCrc(s) then [LF] else [];
    if UsesCrc(s) {
      RunLf(d2);
    } else {
      RunNothing(d2);
    }
    RunAppend(d, BEGIN + (s.title + DASHES) + [LF], more);
    assert BEGIN + (s.title + DASHES) + [LF] + more == Header(s);
  }

  lemma RunBeginLf(d: Decoder)
    requires d.mode == Begin && !d.stop
    ensures Run(d, [LF]) == (d.(mode := B64_0), [])
  {
    RunOne(d, LF);
  }

  /** Behind the first `k` characters of the header line. */
  predicate Begun(d: Decoder, k: nat) {
    && d.armored && !d.stop && !d.invalid
    && (if k == 0 then d == Started(true)
        else if k < |BEGIN| then d.mode == LfSeen && d.pos == k
        else d.mode == Begin)
  }

  lemma StepBegin(d: Decoder, k: nat)
    requires k < |BEGIN| && Begun(d, k)
    ensures Begun(Step(d, BEGIN[k]).0, k + 1) && Step(d, BEGIN[k]).1 == []
  {
    assert |BEGIN| == 11;
    hide StepData;
  }

  lemma {:induction false} RunBegin(k: nat)
    requires k <= |BEGIN|
    ensures Begun(Run(Started(true), BEGIN[..k]).0, k) && Run(Started(true), BEGIN[..k]).1 == []
  {
    hide Run, Step;
    if k == 0 {
      RunNothing(Started(true));
    } else {
      var start, c := BEGIN[..k - 1], BEGIN[k - 1];
      RunBegin(k - 1);
      var d := Run(Started(true), start).0;
      StepBegin(d, k - 1);
      RunOne(d, c);
      RunAppend(Started(true), start, [c]);
      assert start + [c] == BEGIN[..k];
    }
  }

  /** Checksum line and end line produce nothing, whatever the checksum is. */
  lemma RunTrailer(d: Decoder, crc: bv32, s: Style)
    requires Drained(d, s.Armored?)
    requires s.Armored? ==> LF !in s.title
    ensures var (d', out) := Run(d, CrcLine(crc, s) + Footer(s));
            out == [] && !d'.invalid
  {
    hide Run, Step;
    if !s.Armored? {
      assert CrcLine(crc, s) + Footer(s) == [];
      RunNothing(d);
    } else {
      var line := CrcLine(crc, s);
      RunCrcLine(d, crc, s);
      var d1 := Run(d, line).0;
      RunDash(d1);
      var rest := DASHES[1..] + END[5..] + s.title + DASHES;
      var d2 := Run(d1, [DASH]).0;
      RunIgnored(d2, rest);
      RunWaitEndLf(d2);
      RunAppend(d2, rest, [LF]);
      RunAppend(d1, [DASH], rest + [LF]);
      assert [DASH] + (rest + [LF]) == Footer(s);
      RunAppend(d, line, Footer(s));
    }
  }

  lemma RunDash(d: Decoder)
    requires d.armored && !d.stop && (d.mode == B64_0 || d.mode == WaitEndTitle)
    ensures Run(d, [DASH]) == (d.(mode := WaitEnd), [])
  {
    RunOne(d, DASH);
  }

  lemma RunWaitEndLf(d: Decoder)
    requires d.mode == WaitEnd && !d.stop
    ensures Run(d, [LF]) == (d.(stop := true), [])
  {
    RunOne(d, LF);
  }

  lemma RunCrcLine(d: Decoder, crc: bv32, s: Style)
    requires Drained(d, true) && s.Armored?
    ensures var (d', out) := Run(d, CrcLine(crc, s));
            out == [] && Drained(d', true)
  {
    hide Run, Step, Quad, CrcQuad;
    if !UsesCrc(s) {
      RunNothing(d);
    } else {
      var quad := CrcQuad(crc);
      var line := [PAD] + quad + [LF];
      if d.mode == B64_0 {
        StepPad(d);
      } else {
        StepPadAgain(d);
      }
      RunOne(d, PAD);
      var d1 := Run(d, [PAD]).0;
      CrcQuadHasNoDash(crc);
      RunIgnored(d1, quad + [LF]);
      RunAppend(d, [PAD], quad + [LF]);
      assert [PAD] + (quad + [LF]) == line;
    }
  }

  lemma CrcQuadHasNoDash(crc: bv32)
    ensures DASH !in CrcQuad(crc)
  {
    hide Quad;
    QuadHasNoDash(((crc >> 16) & 0xff) as bv8, ((crc >> 8) & 0xff) as bv8, (crc & 0xff) as bv8);
  }

  lemma QuadHasNoDash(a: bv8, b: bv8, c: bv8)
    ensures DASH !in Quad(a, b, c)
  {
    hide Ascii, Binary, Sextet0, Sextet1, Sextet2, Sextet3;
    SextetsAreSmall(a, b, c);
    AsciiBinary(Sextet0(a));
    AsciiBinary(Sextet1(a, b));
    AsciiBinary(Sextet2(b, c));
    AsciiBinary(Sextet3(c));
  }

  /** The header, if there is one, and the complete groups. */
  lemma RunGroups(data: seq<bv8>, s: Style)
    requires s.Armored? ==> LF !in s.title
    ensures var (d, out) := Run(Started(s.Armored?), Header(s) + Body(data, 0, s));
            Ready(d) && d.armored == s.Armored? && out == data[..|data| - |data| % 3]
  {
    hide Run, Header, Body;
    var d := Started(s.Armored?);
    if s.Armored? {
      RunHeader(s);
    } else {
      NoHeader(s);
      RunNothing(d);
    }
    RunBody(Run(d, Header(s)).0, data, 0, s);
    RunAppend(d, Header(s), Body(data, 0, s));
  }

  /** The octets left over, the checksum line and the end line. */
  lemma RunEnd(d: Decoder, rest: seq<bv8>, q: nat, crc: bv32, s: Style)
    requires Ready(d) && d.armored == s.Armored? && |rest| <= 2
    requires s.Armored? ==> LF !in s.title
    ensures var (d', out) := Run(d, Tail(rest, q, s) + (CrcLine(crc, s) + Footer(s)));
            out == rest && !d'.invalid
  {
    hide Run, Tail, CrcLine, Footer, Drained;
    RunTail(d, rest, q, s);
    RunTrailer(Run(d, Tail(rest, q, s)).0, crc, s);
    RunAppend(d, Tail(rest, q, s), CrcLine(crc, s) + Footer(s));
    assert rest + [] == rest;
  }

  /** Round trip: decoding what was encoded gives the data back and finds nothing invalid. */
  lemma DecodeEncoded(title: Option<seq<bv8>>, data: seq<bv8>)
    requires title.Some? ==> LF !in title.value
    ensures var (d, out) := Run(Started(StyleOf(title).Armored?), EncodedText(title, data));
            out == data && !d.invalid
  {
    hide Run, Body, Tail, CrcLine, Footer, Header;
    var s := StyleOf(title);
    var d := Started(s.Armored?);
    if data == [] {
      RunNothing(d);
    } else {
      var crc := Crc24.Crc(Crc24.CRCINIT, data);
      var front := Header(s) + Body(data, 0, s);
      var end := Tail(Rest(data), Count(|data|, 0), s) + (CrcLine(crc, s) + Footer(s));
      assert front + end == EncodedText(title, data);
      hide EncodedText;
      RunGroups(data, s);
      RunEnd(Run(d, front).0, Rest(data), Count(|data|, 0), crc, s);
      RunAppend(d, front, end);
      assert data[..|data| - |data| % 3] + Rest(data) == data;
    }
  }

  lemma NoHeader(s: Style)
    requires !s.Armored?
    ensures Header(s) == []
  {
  }
}
