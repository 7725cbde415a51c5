/** convert.c: hexadecimal text and octets. */
module Convert {
  import opened Common
  import opened Sexp

  predicate IsHex(c: char) {
    '0' <= c <= '9' || 'A' <= c <= 'F' || 'a' <= c <= 'f'
  }

  predicate AllHex(s: Octets) {
    forall c | c in s :: IsHex(c)
  }

  function Upper(c: char): char {
    if 'a' <= c <= 'f' then (c as int - 32) as char else c
  }

  function Uppercase(s: Octets): (r: Octets)
    ensures |r| == |s|
  {
    seq(|s|, i requires 0 <= i < |s| => Upper(s[i]))
  }

  /** xtoi_1, for any character. */
  function DigitValue(c: char): int {
    if c <= '9' then c as int - '0' as int
    else if c <= 'F' then c as int - 'A' as int + 10
    else c as int - 'a' as int + 10
  }

  /** xtoi_2, stored in an unsigned char. */
  function Xtoi2(a: char, b: char): (c: char)
    ensures c as int < 256
  {
    ((DigitValue(a) * 16 + DigitValue(b)) % 256) as char
  }

  /** tohex */
  function ToHex(v: nat): char
    requires v < 16
  {
    if v < 10 then ('0' as int + v) as char else ('A' as int + v - 10) as char
  }

  function HighHex(c: char): char {
    ToHex(c as int / 16 % 16)
  }

  function LowHex(c: char): char {
    ToHex(c as int % 16)
  }

  /** Two digits make one octet; an odd digit at the end is dropped. */
  function HexToBin(s: Octets): (r: Octets)
    ensures |r| == |s| / 2
  {
    if |s| < 2 then "" else [Xtoi2(s[0], s[1])] + HexToBin(s[2..])
  }

  function BinToHex(b: Octets): (r: Octets)
    ensures |r| == 2 * |b|
  {
    if b == "" then "" else [HighHex(b[0]), LowHex(b[0])] + BinToHex(b[1..])
  }

  lemma HexPair(a: char, b: char)
    requires IsHex(a) && IsHex(b)
    ensures HighHex(Xtoi2(a, b)) == Upper(a) && LowHex(Xtoi2(a, b)) == Upper(b)
  {
    hide ToHex, DigitValue, Upper, IsHex;
    HexValue(a);
    HexValue(b);
    var x, y := DigitValue(a), DigitValue(b);
    assert Xtoi2(a, b) as int == x * 16 + y;
    assert (x * 16 + y) / 16 % 16 == x && (x * 16 + y) % 16 == y;
  }

  lemma HexValue(a: char)
    requires IsHex(a)
    ensures 0 <= DigitValue(a) < 16 && ToHex(DigitValue(a)) == Upper(a)
  {
  }

  /** Converting hex digits to octets and back only changes their case. */
  lemma {:induction false} HexRoundTrip(s: Octets)
    requires AllHex(s)
    ensures BinToHex(HexToBin(s)) == Uppercase(s[..|s| / 2 * 2])
  {
    if |s| < 2 {
      assert BinToHex("") == "";
      assert s[..|s| / 2 * 2] == "";
    } else {
      var a, b, rest := s[0], s[1], s[2..];
      hide Upper, Uppercase, Xtoi2, HighHex, LowHex, IsHex;
      assert a in s && b in s && forall c | c in rest :: c in s;
      HexPair(a, b);
      HexRoundTrip(rest);
      var t := HexToBin(s);
      assert t[0] == Xtoi2(a, b) && t[1..] == HexToBin(rest);
      PairUppercase(s);
    }
  }

  lemma PairUppercase(s: Octets)
    requires |s| >= 2
    ensures Uppercase(s[..|s| / 2 * 2]) == [Upper(s[0]), Upper(s[1])] + Uppercase(s[2..][..|s[2..]| / 2 * 2])
  {
    hide Upper;
    var n, m := |s| / 2 * 2, |s[2..]| / 2 * 2;
    assert n == m + 2;
    assert s[..n] == [s[0], s[1]] + s[2..][..m];
  }

  /** bin2hex and bin2hexcolon without colons */
  method Bin2Hex(b: Octets) returns (r: Octets)
    ensures r == BinToHex(b)
  {
    hide *;
    r := "";
    var i := 0;
    while i < |b|
      invariant i <= |b| && BinToHex(b) == r + BinToHex(b[i..])
    {
      BinToHexStep(b, i, r);
      var c := b[i] as int;
      r := r + [ToHex(c / 16 % 16)];
      r := r + [ToHex(c % 16)];
      i := i + 1;
    }
    NothingToHex(b);
  }

  lemma BinToHexStep(b: Octets, i: nat, r: Octets)
    requires i < |b|
    ensures r + BinToHex(b[i..])
         == r + [ToHex(b[i] as int / 16 % 16)] + [ToHex(b[i] as int % 16)] + BinToHex(b[i + 1..])
  {
    hide ToHex;
    var high, low, more := HighHex(b[i]), LowHex(b[i]), BinToHex(b[i + 1..]);
    assert b[i..][1..] == b[i + 1..];
    hide BinToHex;
    assert r + ([high, low] + more) == r + [high] + [low] + more;
  }

  lemma NothingToHex(b: Octets)
    ensures b[|b|..] == "" && BinToHex("") == ""
  {
  }

  // ---------- hexcolon2bin ----------

  predicate IsSpace(c: char) {
    c == ' ' || '\t' <= c <= '\r'
  }

  /** The loop of hexcolon2bin with `i` octets done: the octets and what follows them. */
  function ColonDigits(s: Octets, i: nat, length: nat, colon: bool): Option<(Octets, Octets)>
    decreases length - i
  {
    if i >= length then Some(("", s))
    else
      var colon' := colon || (i == 1 && At(s) == ':');
      if colon' && At(s) != ':' then None
      else
        var s1 := if colon' then s[1..] else s;
        if |s1| < 2 || !IsHex(s1[0]) || !IsHex(s1[1]) then None
        else
          var (rest, end) :- ColonDigits(s1[2..], i + 1, length, colon');
          Some(([Xtoi2(s1[0], s1[1])] + rest, end))
  }

  /** hexcolon2bin: the octets and the text behind the delimiter, if there is one. */
  function HexColon(s: Octets, length: nat): Option<(Octets, Octets)> {
    var (bin, end) :- ColonDigits(s, 0, length, false);
    if end == "" then Some((bin, end))
    else if IsSpace(end[0]) then Some((bin, end[1..]))
    else None
  }

  method HexColon2Bin(s: Octets, length: nat) returns (ok: bool, bin: Octets, rest: Octets)
    ensures ok <==> HexColon(s, length).Some?
    ensures ok ==> (bin, rest) == HexColon(s, length).value
  {
    hide IsSpace, IsHex, Xtoi2;
    ok, bin, rest := false, "", s;
    var needColon := false;
    var i := 0;
    NothingBefore(ColonDigits(s, 0, length, false));
    while i < length
      invariant i <= length
      invariant ColonDigits(s, 0, length, false)
             == match ColonDigits(rest, i, length, needColon) {
                  case None => None
                  case Some(p) => Some((bin + p.0, p.1))
                }
    {
      if i == 1 && At(rest) == ':' {
        needColon := true;
        rest := rest[1..];
      } else if needColon && At(rest) == ':' {
        rest := rest[1..];
      } else if needColon {
        return;
      }
      if |rest| < 2 || !IsHex(rest[0]) || !IsHex(rest[1]) {
        return;
      }
      ghost var more := ColonDigits(rest[2..], i + 1, length, needColon);
      var c := Xtoi2(rest[0], rest[1]);
      if more.Some? {
        Assoc(bin, [c], more.value.0);
      }
      bin := bin + [c];
      rest := rest[2..];
      NothingAfter(bin);
      i := i + 1;
    }
    NothingAfter(bin);
    assert ColonDigits(s, 0, length, false) == Some((bin, rest));
    if At(rest) == ':' {
      assert !IsSpace(':') by {
        NoSpace();
      }
      return;
    }
    if rest != "" && !IsSpace(rest[0]) {
      return;
    }
    ok := true;
    if rest != "" {
      rest := rest[1..];
    }
  }

  lemma NothingBefore(r: Option<(Octets, Octets)>)
    ensures r.Some? ==> r == Some(("" + r.value.0, r.value.1))
  {
    if r.Some? {
      assert "" + r.value.0 == r.value.0;
    }
  }

  lemma NothingAfter(bin: Octets)
    ensures bin + "" == bin
  {
  }

  lemma NoSpace()
    ensures !IsSpace(':')
  {
  }
}
