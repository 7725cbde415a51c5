/** The streaming encoder and the in-place decoder of base-64 armor. */
module Base64Codec {
  import opened Common
  import opened Crc24
  import opened Base64
  import ArmorRoundTrip

  /** The running checksum, where there is one, is that of the data. */
  ghost predicate Checked(s: Style, crc: bv32, data: seq<bv8>) {
    UsesCrc(s) ==> crc == Crc(CRCINIT, data) && Mask(crc) == crc
  }

  /** struct b64state as the encoder uses it; `out` is the stream written to. */
  class Encoder {
    const title: Option<seq<bv8>>
    const style: Style
    const radbuf: array<bv8>
    var out: seq<bv8>
    var didHeader: bool
    var idx: nat
    var quadCount: nat
    var crc: bv32
    ghost var data: seq<bv8>

    ghost predicate Valid()
      reads this, radbuf
    {
      && style == StyleOf(title)
      && (didHeader <==> data != [])
      && out == (if data == [] then [] else Header(style)) + Body(data, 0, style)
      && Checked(style, crc, data)
      && Collected(data)
    }

    /** The incomplete group waits in radbuf. */
    ghost predicate Collected(data: seq<bv8>)
      reads this, radbuf
    {
      radbuf.Length == 4 && idx <= 2 && radbuf[..idx] == Rest(data) && quadCount == Count(|data|, 0)
    }

    /** b64enc_start */
    constructor (title: Option<seq<bv8>>)
      ensures Valid() && fresh(radbuf) && data == [] && this.title == title
    {
      this.title := title;
      style := StyleOf(title);
      radbuf := new bv8[4](_ => 0);
      out, didHeader, idx, quadCount, data := [], false, 0, 0, [];
      crc := CRCINIT;
      new;
      InitIsMasked();
    }

    /** b64enc_write */
    method Write(buffer: seq<bv8>)
      requires Valid()
      modifies this`out, this`didHeader, this`idx, this`quadCount, this`crc, this`data, radbuf
      ensures Valid() && data == old(data) + buffer
    {
      assert |buffer| == 0 ==> data + buffer == data;
      if |buffer| == 0 {
        return;
      }
      hide Body, Rest, Count, Header, Checked;
      if !didHeader {
        WriteHeader();
      }
      WriteCheck(buffer);
      WriteGroups(buffer);
      data := data + buffer;
    }

    method WriteCheck(buffer: seq<bv8>)
      requires Checked(style, crc, data)
      modifies this`crc
      ensures Checked(style, crc, data + buffer)
    {
      hide Crc, Mask;
      if UsesCrc(style) {
        CrcAppend(CRCINIT, data, buffer);
        crc := Update(crc, buffer);
      }
    }

    method WriteHeader()
      requires out == []
      modifies this`out, this`didHeader
      ensures out == Header(style) + Body([], 0, style) && didHeader
    {
      didHeader := true;
      if style.Armored? {
        out := out + BEGIN;
        out := out + style.title;
        out := out + DASHES + [LF];
        if UsesCrc(style) {
          out := out + [LF];
        }
      }
      assert out == Header(style) + [];
    }

    /** The loop over the octets. */
    method WriteGroups(buffer: seq<bv8>)
      requires Collected(data) && out == Header(style) + Body(data, 0, style)
      modifies this`out, this`idx, this`quadCount, radbuf
      ensures Collected(data + buffer) && out == Header(style) + Body(data + buffer, 0, style)
    {
      hide Quad, Header, Body, Rest, Count, Wrap;
      assert data + buffer[..0] == data;
      for n := 0 to |buffer|
        invariant Collected(data + buffer[..n])
        invariant out == Header(style) + Body(data + buffer[..n], 0, style)
      {
        ghost var sofar := data + buffer[..n];
        BodySnoc(sofar, buffer[n], 0, style);
        assert sofar + [buffer[n]] == data + buffer[..n + 1];
        radbuf[idx] := buffer[n];
        idx := idx + 1;
        assert radbuf[..idx] == Rest(sofar) + [buffer[n]];
        if idx > 2 {
          assert radbuf[0] == Rest(sofar)[0] && radbuf[1] == Rest(sofar)[1];
          EmitQuad(Quad(radbuf[0], radbuf[1], radbuf[2]));
          idx := 0;
        }
      }
      assert buffer[..|buffer|] == buffer;
    }

    /** Put out a quad, and the line feed behind the last one of a line. */
    method EmitQuad(quad: seq<bv8>)
      modifies this`out, this`quadCount
      ensures out == old(out) + (quad + Wrap(old(quadCount), style))
      ensures quadCount == NextCount(old(quadCount))
    {
      out := out + quad;
      quadCount := quadCount + 1;
      if quadCount >= 64 / 4 {
        quadCount := 0;
        if !style.OneLine? {
          out := out + [LF];
        }
      }
    }

    /** b64enc_finish */
    method Finish()
      requires Valid()
      modifies this`out, this`idx, this`quadCount
      ensures out == EncodedText(title, data)
    {
      if !didHeader {
        NoBody(style);
        return;
      }
      hide Body, Rest, Count, Crc, Header, CrcLine, Footer, Tail;
      ghost var head, tail := out, Tail(Rest(data), quadCount, style);
      FinishGroup();
      WriteCrc();
      WriteFooter();
      ghost var line, foot := CrcLine(crc, style), Footer(style);
      CrcLineOnlyIfUsed(crc, Crc(CRCINIT, data), style);
      assert out == head + tail + line + foot;
    }

    /** The padded last group and the end of its line. */
    method FinishGroup()
      requires Collected(data)
      modifies this`out, this`idx, this`quadCount
      ensures out == old(out) + Tail(Rest(data), old(quadCount), style)
    {
      hide Rest, Count, Quad, Wrap, Sextet0, Sextet1, Sextet2, Ascii;
      ghost var before, rest := out, radbuf[..idx];
      ghost var q := quadCount;
      if idx != 0 {
        var quad;
        if idx == 1 {
          quad := [Ascii(Sextet0(radbuf[0])), Ascii(Sextet1(radbuf[0], 0)), PAD, PAD];
        } else {
          quad := [Ascii(Sextet0(radbuf[0])), Ascii(Sextet1(radbuf[0], radbuf[1])), Ascii(Sextet2(radbuf[1], 0)), PAD];
        }
        assert quad == LastQuad(rest);
        idx := 0;
        EmitQuad(quad);
      } else {
        assert out == before + [];
      }
      ghost var middle := out;
      if quadCount != 0 && !style.OneLine? {
        out := out + [LF];
      } else {
        assert out == middle + [];
      }
      assert out == before + Tail(rest, q, style);
    }

    method WriteCrc()
      modifies this`out
      ensures out == old(out) + CrcLine(crc, style)
    {
      hide CrcQuad;
      ghost var before := out;
      if UsesCrc(style) {
        out := out + [PAD];
        out := out + CrcQuad(crc);
        out := out + [LF];
        assert out == before + CrcLine(crc, style);
      } else {
        assert out == before + [];
      }
    }

    method WriteFooter()
      modifies this`out
      ensures out == old(out) + Footer(style)
    {
      ghost var before := out;
      if style.Armored? {
        out := out + END;
        out := out + style.title;
        out := out + DASHES + [LF];
        assert out == before + Footer(style);
      } else {
        assert out == before + [];
      }
    }
  }

  lemma NoBody(s: Style)
    ensures Body([], 0, s) == []
  {
  }

  lemma CrcLineOnlyIfUsed(a: bv32, b: bv32, s: Style)
    requires UsesCrc(s) ==> a == b
    ensures CrcLine(a, s) == CrcLine(b, s)
  {
  }

  lemma InitIsMasked()
    ensures Mask(CRCINIT) == CRCINIT
  {
  }

  /** struct b64state as the decoder uses it. */
  class DecoderState {
    var mode: Mode
    var val: bv8
    var pos: nat
    var armored: bool
    var stop: bool
    var invalid: bool

    function View(): Decoder
      reads this
    {
      Decoder(mode, val, pos, armored, stop, invalid)
    }

    /** b64dec_start, without a title or with the empty one */
    constructor (armored: bool)
      ensures View() == Started(armored)
    {
      mode := if armored then Init else B64_0;
      val, pos, stop, invalid := 0, 0, false, false;
      this.armored := armored;
    }

    /** One turn of the switch.  In mode Init the position is still 0. */
    method Feed(c: bv8) returns (emit: Option<bv8>)
      modifies this
      ensures (View(), if emit.Some? then [emit.value] else []) == Base64.Step(old(View()), c)
    {
      hide StepData;
      emit := None;
      if mode == Idle {
        if c == LF {
          mode := LfSeen;
          pos := 0;
        }
      } else if mode == Init || mode == LfSeen {
        mode := LfSeen;
        if pos >= |BEGIN| || c != BEGIN[pos] {
          mode := Idle;
        } else if pos == 10 {
          mode := Begin;
        } else {
          pos := pos + 1;
        }
      } else if mode == Begin {
        if c == LF {
          mode := B64_0;
        }
      } else if mode == WaitEndTitle {
        if c == DASH {
          mode := WaitEnd;
        }
      } else if mode == WaitEnd {
        if c == LF {
          stop := true;
        }
      } else {
        emit := FeedData(c);
      }
    }

    /** The four data states. */
    method FeedData(c: bv8) returns (emit: Option<bv8>)
      requires mode in {B64_0, B64_1, B64_2, B64_3}
      modifies this
      ensures (View(), if emit.Some? then [emit.value] else []) == StepData(old(View()), c)
    {
      hide Binary, Val0, Val1, Val1', Val2, Val2', Val3;
      emit := None;
      if c == DASH && armored {
        mode := WaitEnd;
      } else if c == PAD {
        if mode == B64_1 {
          emit := Some(val);
        }
        mode := if armored then WaitEndTitle else WaitEnd;
      } else if c == LF || c == BLANK || c == CR || c == TAB {
      } else if c & 0x80 != 0 || Binary(c) == 255 {
        invalid := true;
      } else if mode == B64_0 {
        val := Val0(Binary(c));
        mode := B64_1;
      } else if mode == B64_1 {
        emit := Some(Val1(val, Binary(c)));
        val := Val1'(Binary(c));
        mode := B64_2;
      } else if mode == B64_2 {
        emit := Some(Val2(val, Binary(c)));
        val := Val2'(Binary(c));
        mode := B64_3;
      } else {
        val := Val3(val, Binary(c));
        emit := Some(val);
        mode := B64_0;
      }
    }

    /** b64dec_proc: decoding in place.  Nothing at or behind the write position is touched,
        so every octet is read before it can be overwritten. */
    method Proc(buffer: array<bv8>, length: nat) returns (eof: bool, n: nat)
      requires length <= buffer.Length
      modifies this, buffer
      ensures eof == old(stop) && n <= length
      ensures (View(), buffer[..n]) == Run(old(View()), old(buffer[..length]))
      ensures buffer[n..] == old(buffer[n..])
    {
      hide Base64.Step, Run;
      n := 0;
      eof := stop;
      ghost var text := buffer[..length];
      ghost var d0 := View();
      NothingRun(d0, text);
      if stop {
        RunDone(d0, text, 0, d0, []);
        return;
      }
      var s := 0;
      while s < length && !stop
        invariant n <= s <= length
        invariant buffer[n..] == old(buffer[n..])
        invariant (View(), buffer[..n]) == Run(d0, text[..s])
      {
        ghost var d, done := View(), buffer[..n];
        assert buffer[s] == buffer[n..][s - n] == text[s];
        RunExtend(d0, text, s, d, done);
        var emit := Feed(buffer[s]);
        if emit.Some? {
          buffer[n] := emit.value;
          n := n + 1;
        }
        assert buffer[..n] == done + if emit.Some? then [emit.value] else [];
        s := s + 1;
      }
      RunDone(d0, text, s, View(), buffer[..n]);
    }

    static lemma NothingRun(d: Decoder, text: seq<bv8>)
      ensures Run(d, text[..0]) == (d, [])
    {
      assert text[..0] == [];
    }
  }

  /** Encoding in any pieces gives the text of the whole. */
  method EncodeChunks(title: Option<seq<bv8>>, chunks: seq<seq<bv8>>) returns (text: seq<bv8>)
    ensures text == EncodedText(title, Concat(chunks))
  {
    hide Body, Rest, Count, Checked, Header, EncodedText;
    var e := new Encoder(title);
    for i := 0 to |chunks|
      invariant e.Valid() && e.title == title && fresh(e) && fresh(e.radbuf)
      invariant e.data == Concat(chunks[..i])
    {
      e.Write(chunks[i]);
      ConcatSnoc(chunks[..i], chunks[i]);
      assert chunks[..i] + [chunks[i]] == chunks[..i + 1];
    }
    assert chunks[..|chunks|] == chunks;
    e.Finish();
    text := e.out;
  }

  /** However the data is cut, with a title that starts with "PGP " the running checksum is
      the CRC-24 of the whole, computed bit by bit. */
  method ChecksumOfChunks(title: Option<seq<bv8>>, chunks: seq<seq<bv8>>) returns (crc: bv32)
    requires UsesCrc(StyleOf(title))
    ensures crc == Crc(0xB704CE, Concat(chunks)) && Mask(crc) == crc
  {
    hide Body, Rest, Count, Header, Crc, Mask;
    var e := new Encoder(title);
    for i := 0 to |chunks|
      invariant e.Valid() && e.title == title && fresh(e) && fresh(e.radbuf)
      invariant e.data == Concat(chunks[..i])
    {
      e.Write(chunks[i]);
      ConcatSnoc(chunks[..i], chunks[i]);
      assert chunks[..i] + [chunks[i]] == chunks[..i + 1];
    }
    assert chunks[..|chunks|] == chunks;
    crc := e.crc;
  }

  /** Decoding in any pieces gives what decoding the whole gives. */
  method DecodeChunks(armored: bool, chunks: seq<seq<bv8>>) returns (out: seq<bv8>, invalid: bool)
    ensures var (d, o) := Run(Started(armored), Concat(chunks)); out == o && invalid == d.invalid
  {
    hide Run;
    var d := new DecoderState(armored);
    out := [];
    ArmorRoundTrip.RunNothing(Started(armored));
    for i := 0 to |chunks|
      invariant fresh(d) && (d.View(), out) == Run(Started(armored), Concat(chunks[..i]))
    {
      var c := chunks[i];
      var buffer := new bv8[|c|](k requires 0 <= k < |c| => c[k]);
      assert buffer[..|c|] == c;
      var eof, n := d.Proc(buffer, |c|);
      out := out + buffer[..n];
      RunAppend(Started(armored), Concat(chunks[..i]), c);
      ConcatSnoc(chunks[..i], c);
      assert chunks[..i] + [c] == chunks[..i + 1];
    }
    assert chunks[..|chunks|] == chunks;
    invalid := d.invalid;
  }

  /** The data survives any way of cutting it for the encoder and any way of cutting the text
      for the decoder. */
  method Transport(title: Option<seq<bv8>>, chunks: seq<seq<bv8>>, cut: seq<seq<bv8>>)
    returns (out: seq<bv8>, invalid: bool)
    requires title.Some? ==> LF !in title.value
    requires Concat(cut) == EncodedText(title, Concat(chunks))
    ensures out == Concat(chunks) && !invalid
  {
    ArmorRoundTrip.DecodeEncoded(title, Concat(chunks));
    out, invalid := DecodeChunks(StyleOf(title).Armored?, cut);
  }
}
