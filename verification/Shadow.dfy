/** protect.c: keys whose secret part stays on a card.  Making the shadow info, putting it into
    a public key, finding it there and taking it apart. */
module Shadow {
  import opened Common
  import opened Sexp
  import opened Convert
  import opened ProtectSpec
  import opened ProtectRoundTrip

  // ---------- what the code does with any buffer ----------

  /** Everything up to the closing parenthesis of the public parameters. */
  function PointAt(pub: Octets): Result<Octets, GpgError> {
    var s1 :- Head(pub, "public-key");
    var s2 :- Need(Expect(s1, '('), UnknownSexp);
    var s3 :- Need(SkipNext(s2), InvSexp);
    var s4 :- Pairs(s3);
    if At(s4) == ')' then Ok(s4) else Err(InvSexp)
  }

  /** The insertion point lies inside the public key list, behind its fixed beginning. */
  lemma PointInside(pub: Octets)
    requires PointAt(pub).Ok? && CanonLen(pub) > 0
    ensures 14 <= |pub| - |PointAt(pub).value| <= CanonLen(pub)
  {
    var s0 := pub[1..];
    var s1 := Head(pub, "public-key").value;
    NameSkipped(s0, "public-key", 1);
    LongLength(s0);
    var s2 := Expect(s1, '(').value;
    TokenSkipped(s2, 2);
    var s3 := SkipNext(s2).value;
    PairsKeepDepth(s3, 2);
    hide Pairs, Head, Next, SkipNext;
    PairsShrink(s3);
    SkipShrinks(Pairs(s3).value, 2);
  }

  /** agent_shadow_key */
  function ShadowKey(pub: Octets, info: Octets): Result<Octets, GpgError> {
    if CanonLen(pub) == 0 || CanonLen(info) == 0 then Err(InvValue)
    else
      var point :- PointAt(pub);
      PointInside(pub);
      var at := |pub| - |point|;
      Ok("(20:shadowed-private-key" + pub[14..at] + "(8:shadowed5:t1-v1" + info[..CanonLen(info)] + ")"
          + pub[at..CanonLen(pub)])
  }

  /** The search for the shadow list; where its info begins. */
  function FindShadow(s: Octets): Result<Octets, GpgError>
    decreases |s|
  {
    if At(s) == ')' then Err(UnknownSexp)
    else
      var s1 :- Need(Expect(s, '('), InvSexp);
      var (n, s2) :- Need(Next(s1), InvSexp);
      match Match(s2, n, "shadowed")
      case Some(s3) =>
        var (m, s4) :- Need(Next(s3), InvSexp);
        (match Match(s4, m, "t1-v1")
         case None => Err(UnsupportedProtocol)
         case Some(s5) => if At(s5) == '(' then Ok(s5) else Err(InvSexp))
      case None =>
        var s3 :- Need(SkipNext(Advance(s2, n)), InvSexp);
        if At(s3) != ')' then Err(InvSexp) else FindShadow(s3[1..])
  }

  /** agent_get_shadow_info */
  function GetInfo(key: Octets): Result<Octets, GpgError> {
    var s1 :- Head(key, "shadowed-private-key");
    var s2 :- Need(Expect(s1, '('), UnknownSexp);
    var s3 :- Need(SkipNext(s2), InvSexp);
    FindShadow(s3)
  }

  /** make_shadow_info */
  function MakeInfo(serial: Octets, id: Octets): Octets {
    "(" + (Token(HexToBin(serial)) + (Token(id) + ")"))
  }

  /** parse_shadow_info: the serial number in hex and the id. */
  function ParseInfo(info: Octets): Result<(Octets, Octets), GpgError> {
    var s1 :- Need(Expect(info, '('), InvSexp);
    var (n, s2) :- Need(Next(s1), InvSexp);
    var (m, s3) :- Need(Next(Advance(s2, n)), InvSexp);
    Ok((BinToHex(Take(s2, n)), Take(s3, m)))
  }

  // ---------- well-formed public keys ----------

  function ListText(pairs: seq<(Octets, Octets)>): Octets {
    if pairs == [] then "" else PairText(pairs[0].0, pairs[0].1) + ListText(pairs[1..])
  }

  predicate WellNamed(pairs: seq<(Octets, Octets)>) {
    forall p | p in pairs :: p.0 != "" && p.1 != ""
  }

  /** A public key with any parameters; `trailer` is what follows them and closes the list. */
  datatype PublicKey = PublicKey(algo: Octets, pairs: seq<(Octets, Octets)>, trailer: seq<Tok>) {
    predicate Valid() {
      algo != "" && WellNamed(pairs) && Closes(trailer, 1)
    }

    function Params(): Octets {
      "(" + (Token(algo) + ListText(pairs))
    }

    function Back(): Octets {
      ")" + Text(trailer)
    }

    function Plain(): Octets {
      ("(" + Token("public-key")) + (Params() + Back())
    }

    /** The same parameters and trailer with the shadow list in between. */
    function Shadowed(info: Octets): Octets {
      ("(" + Token("shadowed-private-key")) + (Params() + (ShadowList(info) + Back()))
    }
  }

  function ShadowList(info: Octets): Octets {
    "(" + (Token("shadowed") + (Token("t1-v1") + (info + ")")))
  }

  lemma {:induction false} ListSkipped(pairs: seq<(Octets, Octets)>, tail: Octets)
    requires WellNamed(pairs)
    ensures Skip(ListText(pairs) + tail, 2) == Skip(tail, 2)
    ensures Pairs(ListText(pairs) + tail) == Pairs(tail)
  {
    if pairs == [] {
      assert ListText(pairs) + tail == tail;
    } else {
      var more := ListText(pairs[1..]) + tail;
      Assoc(PairText(pairs[0].0, pairs[0].1), ListText(pairs[1..]), tail);
      assert pairs[0] in pairs && forall p | p in pairs[1..] :: p in pairs;
      PairDecodes(pairs[0].0, pairs[0].1, more);
      PairSkipped(pairs[0].0, pairs[0].1, more, 2);
      hide PairText, ListText, Skip, Pair;
      assert (")" + more)[1..] == more;
      ListSkipped(pairs[1..], tail);
    }
  }

  /** The parts of a well-formed text behind its name. */
  lemma ParamsDecode(key: PublicKey, name: Octets, tail: Octets)
    requires key.Valid() && name != ""
    ensures
      var s := ("(" + Token(name)) + (key.Params() + tail);
      var list := ListText(key.pairs) + tail;
      && Head(s, name) == Ok("(" + (Token(key.algo) + list))
      && Expect("(" + (Token(key.algo) + list), '(') == Some(Token(key.algo) + list)
      && SkipNext(Token(key.algo) + list) == Some(list)
      && (Skip(tail, 2).Some? ==> CanonLen(s) == |s| - |Skip(tail, 2).value| > 0)
  {
    hide Token, Head, SkipNext, Skip, CanonLen, ListText, Closes, WellNamed;
    var list := ListText(key.pairs) + tail;
    var algo := Token(key.algo) + list;
    assert ("(" + Token(name)) + (key.Params() + tail) == "(" + (Token(name) + ("(" + algo));
    HeadDecodes(name, "(" + algo);
    ExpectHere('(', algo);
    SkipNextToken(key.algo, list);
    ListSkippedIn(key, tail);
    if Skip(tail, 2).Some? {
      NamesSkipped(name, key.algo, list, Skip(tail, 2).value);
      CanonFromSkip(Token(name) + ("(" + algo), Skip(tail, 2).value);
    }
  }

  lemma ListSkippedIn(key: PublicKey, tail: Octets)
    requires key.Valid()
    ensures Skip(ListText(key.pairs) + tail, 2) == Skip(tail, 2)
    ensures Pairs(ListText(key.pairs) + tail) == Pairs(tail)
  {
    ListSkipped(key.pairs, tail);
  }

  lemma BackSkipped(key: PublicKey, tail: Octets)
    requires key.Valid()
    ensures Skip(key.Back() + tail, 2) == Some(tail)
    ensures Pairs(key.Back() + tail) == Ok(key.Back() + tail) && At(key.Back() + tail) == ')'
  {
    hide Skip, Text;
    assert key.Back() + tail == ")" + (Text(key.trailer) + tail);
    SkipParen(Text(key.trailer) + tail, 2);
    SkipText(key.trailer, 1, tail);
    NoMorePairs(key.Back() + tail);
  }

  // ---------- inserting ----------

  lemma PlainGroups(a: Octets, b: Octets, c: Octets, tail: Octets)
    ensures (a + (b + c)) + tail == a + (b + (c + tail))
    ensures (a + (b + c)) + tail == (a + b) + (c + tail)
  {
  }

  lemma ShadowLiterals()
    ensures "(" + Token("public-key") == "(10:public-key" && |"(10:public-key"| == 14
    ensures "(" + Token("shadowed-private-key") == "(20:shadowed-private-key"
    ensures "(" + (Token("shadowed") + Token("t1-v1")) == "(8:shadowed5:t1-v1"
  {
    hide *;
    ShortTokens("public-key", "t1-v1");
    TokenOfLonger("shadowed-private-key");
    TokenOfLength("shadowed");
    ShortLiteral();
    LongLiteral();
    ListLiteral();
  }

  lemma ShortLiteral()
    ensures "(" + ("10:" + "public-key") == "(10:public-key"
  {
  }

  lemma LongLiteral()
    ensures "(" + ("20:" + "shadowed-private-key") == "(20:shadowed-private-key"
  {
  }

  lemma ListLiteral()
    ensures "(" + (("8:" + "shadowed") + ("5:" + "t1-v1")) == "(8:shadowed5:t1-v1"
  {
  }

  lemma ShortTokens(v: Octets, w: Octets)
    requires |v| == 10 && |w| == 5
    ensures Token(v) == "10:" + v && Token(w) == "5:" + w
  {
    assert Dec(1) == "1" && Dec(10) == "1" + "0" && Dec(5) == "5";
  }

  /** The shadowed key keeps every parameter and everything behind them; what follows the
      two lists in their buffers is ignored. */
  lemma ShadowKeyIs(key: PublicKey, toks: seq<Tok>, tail: Octets, tail': Octets)
    requires key.Valid() && Closes(toks, 1)
    ensures ShadowKey(key.Plain() + tail, "(" + (Text(toks) + tail')) == Ok(key.Shadowed("(" + Text(toks)))
  {
    hide *;
    var info := "(" + Text(toks);
    var name := "(" + Token("public-key");
    PlainIs(key, info);
    PlainGroups(name, key.Params(), key.Back(), tail);
    BackSkipped(key, tail);
    ParamsDecode(key, "public-key", key.Back() + tail);
    ListSkippedIn(key, key.Back() + tail);
    CanonLenText(toks, tail');
    Assoc("(", Text(toks), tail');
    ShadowLiterals();
    ShadowSteps(key.Plain() + tail, name, key.Params(), key.Back(), tail, info + tail', info,
                Token(key.algo) + (ListText(key.pairs) + (key.Back() + tail)),
                ListText(key.pairs) + (key.Back() + tail));
    ListRegroups(name, "(" + Token("shadowed-private-key"), key.Params(), Token("shadowed"), Token("t1-v1"), info,
        key.Back());
  }

  lemma PlainIs(key: PublicKey, info: Octets)
    ensures key.Plain() == ("(" + Token("public-key")) + (key.Params() + key.Back())
    ensures key.Shadowed(info) == ("(" + Token("shadowed-private-key"))
        + (key.Params() + (("(" + (Token("shadowed") + (Token("t1-v1") + (info + ")")))) + key.Back()))
  {
    hide Token, PublicKey.Params, PublicKey.Back;
  }

  lemma ShadowSteps(pub: Octets, name: Octets, params: Octets, back: Octets, tail: Octets, infoText: Octets,
                    info: Octets, algo: Octets, list: Octets)
    requires pub == name + (params + (back + tail)) && |name| == 14 && infoText[..CanonLen(infoText)] == info
        && info != ""
    requires Head(pub, "public-key") == Ok("(" + algo) && Expect("(" + algo, '(') == Some(algo)
        && SkipNext(algo) == Some(list)
    requires Pairs(list) == Ok(back + tail) && At(back + tail) == ')'
    requires CanonLen(pub) == |pub| - |tail| > 0
    ensures ShadowKey(pub, infoText) == Ok("(20:shadowed-private-key" + params + "(8:shadowed5:t1-v1" + info + ")"
        + back)
  {
    hide Head, Expect, SkipNext, Pairs, CanonLen;
    var at := |pub| - |back + tail|;
    assert PointAt(pub) == Ok(back + tail);
    assert pub == (name + params) + (back + tail);
    Drop(name + params, back + tail);
    assert pub[14..at] == params by {
      assert pub[..at] == name + params;
      Drop(name, params);
      assert pub[14..at] == pub[..at][14..];
    }
    assert pub[at..CanonLen(pub)] == back by {
      Drop(back, tail);
      assert pub[at..CanonLen(pub)] == pub[at..][..|back|];
    }
  }

  lemma ListRegroups(name: Octets, name': Octets, params: Octets, shadowed: Octets, t1v1: Octets, info: Octets,
                     back: Octets)
    ensures name' + params + ("(" + (shadowed + t1v1)) + info + ")" + back
         == name' + (params + (("(" + (shadowed + (t1v1 + (info + ")")))) + back))
  {
    var x := info + ")";
    assert ("(" + (shadowed + t1v1)) + x == "(" + (shadowed + (t1v1 + x));
    var y := "(" + (shadowed + t1v1);
    assert name' + params + y + info + ")" + back == name' + (params + ((y + x) + back));
  }

  // ---------- finding ----------

  predicate HasShadowed(pairs: seq<(Octets, Octets)>) {
    exists p | p in pairs :: p.0 == "shadowed"
  }

  lemma MatchName(name: Octets, token: Octets, tail: Octets)
    requires name != ""
    ensures Next(Token(name) + tail) == Some((|name|, name + tail))
    ensures Match(name + tail, |name|, token) == if name == token then Some(tail) else None
    ensures Advance(name + tail, |name|) == tail
  {
    NextToken(name, tail);
    Drop(name, tail);
    if |name| == |token| && token <= name + tail {
      assert token == (name + tail)[..|token|];
    }
  }

  /** One parameter on the way to the shadow list. */
  lemma ShadowStep(name: Octets, v: Octets, tail: Octets)
    requires name != "" && v != ""
    ensures
      var r := FindShadow(PairText(name, v) + tail);
      if name != "shadowed" then r == FindShadow(tail) else r.Err?
  {
    PairDecodes(name, v, tail);
    hide Token, Next, SkipNext, Match, PairText;
    MatchName(name, "shadowed", Token(v) + (")" + tail));
    SkipNextToken(v, ")" + tail);
    MatchName(v, "t1-v1", ")" + tail);
    ExpectHere(')', tail);
  }

  lemma {:induction false} FindShadowIn(pairs: seq<(Octets, Octets)>, tail: Octets)
    requires WellNamed(pairs)
    ensures
      var r := FindShadow(ListText(pairs) + tail);
      if HasShadowed(pairs) then r.Err? else r == FindShadow(tail)
  {
    if pairs == [] {
      assert ListText(pairs) + tail == tail;
    } else {
      var more := ListText(pairs[1..]) + tail;
      Assoc(PairText(pairs[0].0, pairs[0].1), ListText(pairs[1..]), tail);
      assert pairs[0] in pairs && forall p | p in pairs[1..] :: p in pairs;
      assert forall p | p in pairs :: p == pairs[0] || p in pairs[1..];
      hide PairText, ListText, FindShadow;
      ShadowStep(pairs[0].0, pairs[0].1, more);
      FindShadowIn(pairs[1..], tail);
    }
  }

  lemma ShadowListFound(info: Octets, tail: Octets)
    requires At(info) == '('
    ensures FindShadow(ShadowList(info) + tail) == Ok(info + (")" + tail))
  {
    hide Token, Next, SkipNext, Match;
    var body := Token("t1-v1") + (info + (")" + tail));
    assert ShadowList(info) + tail == "(" + (Token("shadowed") + body);
    ExpectHere('(', Token("shadowed") + body);
    MatchName("shadowed", "shadowed", body);
    MatchName("t1-v1", "t1-v1", info + (")" + tail));
  }

  /** The info is found exactly when no parameter of the key is itself named "shadowed". */
  lemma GetInfoIs(key: PublicKey, info: Octets, tail: Octets)
    requires key.Valid() && At(info) == '('
    ensures GetInfo(key.Shadowed(info) + tail).Ok? <==> !HasShadowed(key.pairs)
    ensures !HasShadowed(key.pairs) ==> GetInfo(key.Shadowed(info) + tail) == Ok(info + (")" + (key.Back() + tail)))
  {
    hide Token, Head, SkipNext, Expect, FindShadow, ListText, ShadowList, HasShadowed, PublicKey.Params, PublicKey.Back;
    var rest := ShadowList(info) + (key.Back() + tail);
    PlainGroups("(" + Token("shadowed-private-key"), key.Params(), ShadowList(info) + key.Back(), tail);
    Assoc(ShadowList(info), key.Back(), tail);
    ParamsDecode(key, "shadowed-private-key", rest);
    FindShadowIn(key.pairs, rest);
    ShadowListFound(info, key.Back() + tail);
  }

  // ---------- taking apart ----------

  lemma NoEmptyToken(tail: Octets)
    ensures Next(Token("") + tail).None?
  {
    assert Token("") + tail == "0" + (":" + tail);
    assert ("0" + (":" + tail))[1..] == ":" + tail;
    assert Digits("0" + (":" + tail), 0) == Digits(":" + tail, 0);
    assert Digits(":" + tail, 0) == (0, ":" + tail);
  }

  /** The info comes apart again exactly when it has a serial number and an id; then the
      digits come back in upper case, an odd one at the end excepted. */
  lemma ParseInfoIs(serial: Octets, id: Octets, tail: Octets)
    requires AllHex(serial)
    ensures
      var r := ParseInfo(MakeInfo(serial, id) + tail);
      && (r.Ok? <==> |serial| >= 2 && id != "")
      && (r.Ok? ==> r.value == (Uppercase(serial[..|serial| / 2 * 2]), id))
  {
    var bin := HexToBin(serial);
    HexRoundTrip(serial);
    hide Token, Next, HexToBin, BinToHex, Uppercase;
    var s2 := Token(id) + (")" + tail);
    assert MakeInfo(serial, id) + tail == "(" + (Token(bin) + s2);
    ExpectHere('(', Token(bin) + s2);
    if bin == "" {
      NoEmptyToken(s2);
    } else {
      NextToken(bin, s2);
      Drop(bin, s2);
      if id == "" {
        NoEmptyToken(")" + tail);
      } else {
        NextToken(id, ")" + tail);
        Drop(id, ")" + tail);
      }
    }
  }

  lemma InfoIsList(serial: Octets, id: Octets)
    requires |serial| >= 2 && id != ""
    ensures
      var toks := [Atom(HexToBin(serial)), Atom(id), Close];
      Closes(toks, 1) && MakeInfo(serial, id) == "(" + Text(toks)
  {
    hide *;
    var t3: seq<Tok> := [Close];
    var t2 := [Atom(id)] + t3;
    var toks := [Atom(HexToBin(serial))] + t2;
    assert toks == [Atom(HexToBin(serial)), Atom(id), Close];
    assert t3 == [Close] + [];
    NoTokens();
    CloseStep([]);
    AtomStep(id, t3);
    SerialLong(serial);
    AtomStep(HexToBin(serial), t2);
    MakeInfoIs(serial, id);
  }

  lemma SerialLong(serial: Octets)
    requires |serial| >= 2
    ensures HexToBin(serial) != ""
  {
  }

  /** The info in characters: the serial number in front of the id. */
  lemma MakeInfoText(serial: Octets, id: Octets)
    ensures |HexToBin(serial)| == |serial| / 2
    ensures MakeInfo(serial, id)
         == "(" + Dec(|serial| / 2) + ":" + HexToBin(serial) + Dec(|id|) + ":" + id + ")"
  {
    hide Dec, HexToBin;
    var a, b, c, d := Dec(|serial| / 2), HexToBin(serial), Dec(|id|), id;
    InfoFlat(a, b, c, d);
  }

  lemma InfoFlat(a: Octets, b: Octets, c: Octets, d: Octets)
    ensures "(" + ((a + ":" + b) + ((c + ":" + d) + ")")) == "(" + a + ":" + b + c + ":" + d + ")"
  {
  }

  lemma MakeInfoIs(serial: Octets, id: Octets)
    ensures MakeInfo(serial, id) == "(" + (Token(HexToBin(serial)) + (Token(id) + ")"))
  {
  }

  lemma NoTokens()
    ensures Closes([], 0) && ")" + Text([]) == ")"
  {
  }

  lemma CloseStep(toks: seq<Tok>)
    ensures Closes(toks, 0) ==> Closes([Close] + toks, 1)
    ensures Text([Close] + toks) == ")" + Text(toks)
  {
    assert ([Close] + toks)[1..] == toks;
  }

  lemma AtomStep(v: Octets, toks: seq<Tok>)
    ensures v != "" && Closes(toks, 1) ==> Closes([Atom(v)] + toks, 1)
    ensures Text([Atom(v)] + toks) == Token(v) + Text(toks)
  {
    hide Token;
    assert ([Atom(v)] + toks)[1..] == toks;
  }

  // ---------- the code ----------

  method MakeShadowInfo(serial: Octets, id: Octets) returns (info: Octets)
    ensures info == MakeInfo(serial, id)
  {
    var n := 0;
    while 2 * n + 1 < |serial|
      invariant 2 * n <= |serial|
    {
      n := n + 1;
    }
    info := "(";
    var number := Smklen(n);
    info := info + number;
    var i := 0;
    ghost var start := info;
    while 2 * i + 1 < |serial|
      invariant 2 * i <= |serial|
      invariant start + HexToBin(serial) == info + HexToBin(serial[2 * i..])
    {
      assert serial[2 * i..][2..] == serial[2 * (i + 1)..];
      info := info + [Xtoi2(serial[2 * i], serial[2 * i + 1])];
      i := i + 1;
    }
    assert info == start + HexToBin(serial);
    number := Smklen(|id|);
    info := info + number;
    info := info + id;
    info := info + ")";
    InfoRegroups(HexToBin(serial), id);
  }

  lemma InfoRegroups(bin: Octets, id: Octets)
    ensures "(" + (Dec(|bin|) + ":") + bin + (Dec(|id|) + ":") + id + ")" == "(" + (Token(bin) + (Token(id) + ")"))
  {
    hide Dec;
    assert Token(bin) == Dec(|bin|) + ":" + bin && Token(id) == Dec(|id|) + ":" + id;
    InfoAssoc(Dec(|bin|) + ":", bin, Dec(|id|) + ":", id);
  }

  lemma InfoAssoc(a: Octets, b: Octets, c: Octets, d: Octets)
    ensures "(" + a + b + c + d + ")" == "(" + ((a + b) + ((c + d) + ")"))
  {
  }

  method FindHead(s: Octets, name: Octets) returns (r: Result<Octets, GpgError>)
    ensures r == (match Head(s, name) case Err(e) => Err(e) case Ok(s1) => Need(Expect(s1, '('), UnknownSexp))
  {
    if s == "" || s[0] != '(' {
      return Err(InvSexp);
    }
    var n, cur := Snext(s[1..]);
    if n == 0 {
      return Err(InvSexp);
    }
    var ok;
    ok, cur := Smatch(cur, n, name);
    if !ok || cur == "" || cur[0] != '(' {
      return Err(UnknownSexp);
    }
    return Ok(cur[1..]);
  }

  method FindPoint(pub: Octets) returns (r: Result<Octets, GpgError>)
    ensures r == PointAt(pub)
  {
    hide Head, Next;
    var head := FindHead(pub, "public-key");
    if head.Err? {
      return head;
    }
    var n, cur := Snext(head.value);
    if n == 0 {
      return Err(InvSexp);
    }
    cur := Advance(cur, n);
    ghost var start := cur;
    while At(cur) != ')'
      invariant Pairs(start) == Pairs(cur)
      decreases |cur|
    {
      if At(cur) != '(' || cur == "" {
        return Err(InvSexp);
      }
      n, cur := Snext(cur[1..]);
      if n == 0 {
        return Err(InvSexp);
      }
      n, cur := Snext(Advance(cur, n));
      if n == 0 {
        return Err(InvSexp);
      }
      cur := Advance(cur, n);
      if At(cur) != ')' {
        return Err(InvSexp);
      }
      cur := cur[1..];
    }
    return Ok(cur);
  }

  /** agent_shadow_key, whose result fits into the buffer it allocates. */
  method AgentShadowKey(pub: Octets, info: Octets) returns (r: Result<Octets, GpgError>)
    ensures r == ShadowKey(pub, info)
    ensures r.Ok? ==> |r.value| < 12 + CanonLen(pub) + 1 + 3 + 8 + 2 + 5 + CanonLen(info) + 1
  {
    hide PointAt, CanonLen;
    var pubLen := ListLength(pub);
    var infoLen := ListLength(info);
    if pubLen == 0 || infoLen == 0 {
      return Err(InvValue);
    }
    var point := FindPoint(pub);
    if point.Err? {
      return point;
    }
    PointInside(pub);
    var at := |pub| - |point.value|;
    var out := "(20:shadowed-private-key";
    out := out + pub[14..at];
    out := out + "(8:shadowed5:t1-v1";
    out := out + info[..infoLen];
    out := out + ")";
    out := out + pub[at..pubLen];
    return Ok(out);
  }

  /** agent_get_shadow_info */
  method AgentGetShadowInfo(key: Octets) returns (r: Result<Octets, GpgError>)
    ensures r == GetInfo(key)
  {
    hide Head, Next;
    var head := FindHead(key, "shadowed-private-key");
    if head.Err? {
      return head;
    }
    var n, cur := Snext(head.value);
    if n == 0 {
      return Err(InvSexp);
    }
    cur := Advance(cur, n);
    ghost var start := cur;
    var ok;
    while true
      invariant FindShadow(start) == FindShadow(cur)
      decreases |cur|
    {
      if At(cur) == ')' {
        return Err(UnknownSexp);
      }
      if cur == "" || cur[0] != '(' {
        return Err(InvSexp);
      }
      n, cur := Snext(cur[1..]);
      if n == 0 {
        return Err(InvSexp);
      }
      ok, cur := Smatch(cur, n, "shadowed");
      if ok {
        break;
      }
      n, cur := Snext(Advance(cur, n));
      if n == 0 {
        return Err(InvSexp);
      }
      cur := Advance(cur, n);
      if At(cur) != ')' {
        return Err(InvSexp);
      }
      cur := cur[1..];
    }
    n, cur := Snext(cur);
    if n == 0 {
      return Err(InvSexp);
    }
    ok, cur := Smatch(cur, n, "t1-v1");
    if !ok {
      return Err(UnsupportedProtocol);
    }
    if At(cur) != '(' {
      return Err(InvSexp);
    }
    return Ok(cur);
  }

  method ParseShadowInfo(info: Octets) returns (r: Result<(Octets, Octets), GpgError>)
    ensures r == ParseInfo(info)
  {
    hide Next, BinToHex;
    if info == "" || info[0] != '(' {
      return Err(InvSexp);
    }
    var n, s := Snext(info[1..]);
    if n == 0 {
      return Err(InvSexp);
    }
    var hex := Bin2Hex(Take(s, n));
    s := Advance(s, n);
    n, s := Snext(s);
    if n == 0 {
      return Err(InvSexp);
    }
    return Ok((hex, Take(s, n)));
  }

  /** All four together: the card's serial number and id go into a key and come out again. */
  method ShadowThenParse(key: PublicKey, serial: Octets, id: Octets)
    returns (shadowed: Result<Octets, GpgError>, r: Result<(Octets, Octets), GpgError>)
    requires key.Valid() && !HasShadowed(key.pairs)
    requires AllHex(serial) && |serial| >= 2 && id != ""
    ensures shadowed == Ok(key.Shadowed(MakeInfo(serial, id)))
    ensures r == Ok((Uppercase(serial[..|serial| / 2 * 2]), id))
  {
    hide ShadowKey, GetInfo, ParseInfo, PublicKey.Valid, PublicKey.Plain, PublicKey.Shadowed, HasShadowed, Uppercase,
        HexToBin, AllHex, Text, Closes, PublicKey.Back;
    ghost var toks := [Atom(HexToBin(serial)), Atom(id), Close];
    var info := MakeShadowInfo(serial, id);
    InfoIsList(serial, id);
    assert Text(toks) + "" == Text(toks) && key.Plain() + "" == key.Plain();
    ShadowKeyIs(key, toks, "", "");
    shadowed := AgentShadowKey(key.Plain(), info);
    assert key.Shadowed(info) + "" == key.Shadowed(info);
    GetInfoIs(key, info, "");
    var found := AgentGetShadowInfo(shadowed.value);
    ParseInfoIs(serial, id, ")" + (key.Back() + ""));
    r := ParseShadowInfo(found.value);
  }

  /** One key that hides its own shadow info. */
  lemma ShadowedNameHides(v: Octets, info: Octets)
    requires v != "" && At(info) == '('
    ensures PublicKey("rsa", [("shadowed", v)], [Close]).Valid()
    ensures GetInfo(PublicKey("rsa", [("shadowed", v)], [Close]).Shadowed(info) + "").Err?
  {
    hide GetInfo, Closes, PublicKey.Shadowed;
    var key := PublicKey("rsa", [("shadowed", v)], [Close]);
    OneCloses();
    assert key.pairs[0] in key.pairs;
    GetInfoIs(key, info, "");
  }

  lemma OneCloses()
    ensures Closes([Close], 1)
  {
    NoTokens();
    CloseStep([]);
    assert [Close] + [] == [Close];
  }
}
