/** Canonical S-expressions as protect.c scans and writes them: snext, smatch, sskip and the
    length of a list.  Octets are characters; a scan position is what is left of the buffer. */
module Sexp {
  import opened Common

  type Octets = string

  /** The octet at the scan position; a buffer ends in a NUL. */
  function At(s: Octets): char {
    if s == "" then '\0' else s[0]
  }

  function Advance(s: Octets, n: nat): (r: Octets)
    ensures |r| <= |s|
    ensures n > 0 && s != "" ==> |r| < |s|
  {
    if n <= |s| then s[n..] else ""
  }

  predicate IsDigit(c: char) {
    '0' <= c <= '9'
  }

  /** The decimal number in front, and what follows it. */
  function Digits(s: Octets, acc: nat): (r: (nat, Octets))
    ensures |r.1| <= |s|
  {
    if s != "" && IsDigit(s[0]) then Digits(s[1..], acc * 10 + (s[0] as int - '0' as int)) else (acc, s)
  }

  /** snext: a positive length and the data behind the colon. */
  function Next(s: Octets): (r: Option<(nat, Octets)>)
    ensures r.Some? ==> r.value.0 > 0 && |r.value.1| < |s|
  {
    var (n, rest) := Digits(s, 0);
    if n == 0 || At(rest) != ':' then None else Some((n, rest[1..]))
  }

  /** smatch: skip the token if it is this one. */
  function Match(s: Octets, n: nat, token: Octets): (r: Option<Octets>)
    ensures r.Some? ==> |r.value| == |s| - |token|
  {
    if n == |token| && token <= s then Some(s[n..]) else None
  }

  /** snext followed by smatch. */
  function NextIs(s: Octets, token: Octets): Option<Octets> {
    var (n, r) :- Next(s);
    Match(r, n, token)
  }

  /** A token of any content is skipped. */
  function SkipNext(s: Octets): (r: Option<Octets>)
    ensures r.Some? ==> |r.value| < |s|
  {
    var (n, r) :- Next(s);
    Some(Advance(r, n))
  }

  function Expect(s: Octets, c: char): (r: Option<Octets>)
    ensures r.Some? ==> |r.value| < |s|
  {
    if s != "" && s[0] == c then Some(s[1..]) else None
  }

  /** sskip: leave `depth` open lists. */
  function Skip(s: Octets, depth: nat): (r: Option<Octets>)
    ensures r.Some? ==> |r.value| <= |s|
    ensures r.Some? && depth > 0 ==> |r.value| < |s|
    decreases |s|
  {
    if depth == 0 then Some(s)
    else if At(s) == '(' then Skip(s[1..], depth + 1)
    else if At(s) == ')' then Skip(s[1..], depth - 1)
    else
      var r :- SkipNext(s);
      Skip(r, depth)
  }

  /** gcry_sexp_canon_len: the length of the list in front, or 0. */
  function CanonLen(s: Octets): (n: nat)
    ensures n <= |s|
  {
    if At(s) != '(' then 0
    else match Skip(s[1..], 1)
      case None => 0
      case Some(r) => |s| - |r|
  }

  // ---------- writing ----------

  function Digit(d: nat): char
    requires d < 10
  {
    ('0' as int + d) as char
  }

  function Dec(n: nat): (s: Octets)
    ensures s != "" && forall c | c in s :: IsDigit(c)
  {
    if n < 10 then [Digit(n)] else Dec(n / 10) + [Digit(n % 10)]
  }

  /** A token: its length, a colon and its octets. */
  function Token(v: Octets): Octets {
    Dec(|v|) + ":" + v
  }

  /** The pieces of a list. */
  datatype Tok = Open | Close | Atom(v: Octets)

  function TokText(t: Tok): Octets {
    match t
    case Open => "("
    case Close => ")"
    case Atom(v) => Token(v)
  }

  function Text(toks: seq<Tok>): Octets {
    if toks == [] then "" else TokText(toks[0]) + Text(toks[1..])
  }

  /** The tokens close `depth` open lists, with their last token and not before. */
  predicate Closes(toks: seq<Tok>, depth: nat) {
    if depth == 0 then toks == []
    else
      && toks != []
      && match toks[0]
         case Open => Closes(toks[1..], depth + 1)
         case Close => Closes(toks[1..], depth - 1)
         case Atom(v) => v != "" && Closes(toks[1..], depth)
  }

  // ---------- reading undoes writing ----------

  lemma Assoc(a: Octets, b: Octets, c: Octets)
    ensures (a + b) + c == a + (b + c)
  {
  }

  lemma Drop(a: Octets, b: Octets)
    ensures (a + b)[|a|..] == b && (a + b)[..|a|] == a && a <= a + b
  {
  }

  lemma {:induction false} DigitsOfDec(n: nat, tail: Octets)
    ensures Digits(Dec(n) + tail, 0) == Digits(tail, n)
  {
    if n < 10 {
      assert (Dec(n) + tail)[1..] == tail;
    } else {
      var d := Digit(n % 10);
      Assoc(Dec(n / 10), [d], tail);
      DigitsOfDec(n / 10, [d] + tail);
      assert ([d] + tail)[1..] == tail;
    }
  }

  lemma NextToken(v: Octets, tail: Octets)
    requires v != ""
    ensures Next(Token(v) + tail) == Some((|v|, v + tail))
  {
    DigitsOfDec(|v|, ":" + (v + tail));
    assert Token(v) + tail == Dec(|v|) + (":" + (v + tail));
    assert (":" + (v + tail))[1..] == v + tail;
  }

  lemma SkipNextToken(v: Octets, tail: Octets)
    requires v != ""
    ensures SkipNext(Token(v) + tail) == Some(tail)
  {
    hide Next, Token;
    NextToken(v, tail);
    Drop(v, tail);
  }

  lemma NextIsToken(v: Octets, token: Octets, tail: Octets)
    requires v != "" && (v == token || |v| != |token|)
    ensures NextIs(Token(v) + tail, token) == if v == token then Some(tail) else None
  {
    hide Next, Token;
    NextToken(v, tail);
    Drop(v, tail);
  }

  /** A token starts with a digit, so neither a parenthesis nor the end. */
  lemma TokenHead(v: Octets, tail: Octets)
    ensures IsDigit(At(Token(v) + tail))
  {
    assert Dec(|v|)[0] in Dec(|v|);
  }

  lemma SkipAtom(v: Octets, tail: Octets, depth: nat)
    requires v != "" && depth > 0
    ensures Skip(Token(v) + tail, depth) == Skip(tail, depth)
  {
    hide Token, SkipNext;
    TokenHead(v, tail);
    SkipNextToken(v, tail);
  }

  lemma SkipParen(tail: Octets, depth: nat)
    requires depth > 0
    ensures Skip("(" + tail, depth) == Skip(tail, depth + 1)
    ensures Skip(")" + tail, depth) == Skip(tail, depth - 1)
  {
    assert ("(" + tail)[1..] == tail;
    assert (")" + tail)[1..] == tail;
  }

  /** sskip stops exactly where the lists close. */
  lemma {:induction false} SkipText(toks: seq<Tok>, depth: nat, tail: Octets)
    requires Closes(toks, depth)
    ensures Skip(Text(toks) + tail, depth) == Some(tail)
    decreases toks
  {
    if depth == 0 {
      assert Text(toks) + tail == tail;
    } else {
      var more := Text(toks[1..]) + tail;
      assert Text(toks) + tail == TokText(toks[0]) + more;
      hide Skip, Text, Token;
      if toks[0].Open? {
        SkipParen(more, depth);
        SkipText(toks[1..], depth + 1, tail);
      } else if toks[0].Close? {
        SkipParen(more, depth);
        SkipText(toks[1..], depth - 1, tail);
      } else {
        SkipAtom(toks[0].v, more, depth);
        SkipText(toks[1..], depth, tail);
      }
    }
  }

  lemma NextIsDigit(s: Octets)
    requires Next(s).Some?
    ensures s != "" && IsDigit(s[0])
  {
  }

  /** A recognised name is skipped like any other token. */
  lemma NameSkipped(s: Octets, name: Octets, depth: nat)
    requires Next(s).Some? && Match(Next(s).value.1, Next(s).value.0, name).Some? && depth > 0
    ensures Skip(s, depth) == Skip(Match(Next(s).value.1, Next(s).value.0, name).value, depth)
  {
    NextIsDigit(s);
  }

  lemma TokenSkipped(s: Octets, depth: nat)
    requires SkipNext(s).Some? && depth > 0
    ensures Skip(s, depth) == Skip(SkipNext(s).value, depth)
  {
    NextIsDigit(s);
  }

  lemma LongLength(s: Octets)
    requires Next(s).Some? && Next(s).value.0 >= 10
    ensures |Next(s).value.1| + 3 <= |s|
  {
    ShortNumber(s);
  }

  /** A number of one digit is at most nine. */
  lemma ShortNumber(s: Octets)
    ensures |s| - |Digits(s, 0).1| <= 1 ==> Digits(s, 0).0 <= 9
  {
    if s != "" && IsDigit(s[0]) {
      var d := s[0] as int - '0' as int;
      assert Digits(s, 0) == Digits(s[1..], d);
      DigitsShrink(s[1..], d);
    }
  }

  lemma {:induction false} DigitsShrink(s: Octets, acc: nat)
    ensures s != "" && IsDigit(s[0]) ==> |Digits(s, acc).1| < |s|
  {
  }

  /** Closing a and then b lists is closing a + b. */
  lemma {:induction false} SkipTwice(s: Octets, a: nat, b: nat)
    ensures Skip(s, a + b) == match Skip(s, a) { case None => None case Some(r) => Skip(r, b) }
    decreases |s|
  {
    if a != 0 {
      if At(s) == '(' {
        SkipTwice(s[1..], a + 1, b);
      } else if At(s) == ')' {
        SkipTwice(s[1..], a - 1, b);
      } else if SkipNext(s).Some? {
        SkipTwice(SkipNext(s).value, a, b);
      }
    }
  }

  lemma CanonLenText(toks: seq<Tok>, tail: Octets)
    requires Closes(toks, 1)
    ensures CanonLen("(" + (Text(toks) + tail)) == 1 + |Text(toks)|
  {
    SkipText(toks, 1, tail);
    assert ("(" + (Text(toks) + tail))[1..] == Text(toks) + tail;
  }

  // ---------- the scanning loops ----------

  method Snext(s: Octets) returns (n: nat, rest: Octets)
    ensures n == 0 <==> Next(s).None?
    ensures n == 0 ==> rest == s
    ensures n > 0 ==> (n, rest) == Next(s).value
  {
    n, rest := 0, s;
    while At(rest) != '\0' && At(rest) != ':' && '0' <= At(rest) <= '9'
      invariant Digits(s, 0) == Digits(rest, n)
      decreases |rest|
    {
      n := n * 10 + (At(rest) as int - '0' as int);
      rest := rest[1..];
    }
    if n == 0 || At(rest) != ':' {
      return 0, s;
    }
    rest := rest[1..];
  }

  method Smatch(s: Octets, n: nat, token: Octets) returns (ok: bool, rest: Octets)
    ensures ok <==> Match(s, n, token).Some?
    ensures rest == if ok then Match(s, n, token).value else s
  {
    ok, rest := false, s;
    if n != |token| || |s| < |token| || s[..|token|] != token {
      return;
    }
    ok, rest := true, s[|token|..];
  }

  method Sskip(s: Octets, depth: nat) returns (ok: bool, rest: Octets)
    ensures ok <==> Skip(s, depth).Some?
    ensures ok ==> rest == Skip(s, depth).value
  {
    ok, rest := true, s;
    var d := depth;
    while d > 0
      invariant Skip(s, depth) == Skip(rest, d)
      decreases |rest|
    {
      if At(rest) == '(' {
        d, rest := d + 1, rest[1..];
      } else if At(rest) == ')' {
        d, rest := d - 1, rest[1..];
      } else {
        var n, r := Snext(rest);
        if n == 0 {
          ok := false;
          return;
        }
        rest := Advance(r, n);
      }
    }
  }

  /** gcry_sexp_canon_len on a buffer that ends with its list. */
  method ListLength(s: Octets) returns (n: nat)
    ensures n == CanonLen(s)
  {
    if At(s) != '(' {
      return 0;
    }
    var ok, rest := Sskip(s[1..], 1);
    n := if ok then |s| - |rest| else 0;
  }

  /** smklen: digits are stored backwards in front of a colon. */
  method Smklen(value: nat) returns (s: Octets)
    ensures s == Dec(value) + ":"
  {
    s := ":";
    var v := value;
    var more := true;
    while more
      invariant if more then Dec(value) + ":" == Dec(v) + s else Dec(value) + ":" == s
      decreases more, v
    {
      ghost var before := s;
      assert Dec(v) + before == (if v < 10 then "" else Dec(v / 10)) + ([Digit(v % 10)] + before);
      s := [Digit(v % 10)] + s;
      v := v / 10;
      more := v != 0;
    }
  }
}
