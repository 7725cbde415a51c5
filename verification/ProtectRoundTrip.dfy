/** Unprotecting undoes protecting, for every well-formed private key. */
module ProtectRoundTrip {
  import opened Common
  import opened Sexp
  import opened ProtectSpec

  // ---------- well-formed keys ----------

  /** (name value) */
  function PairText(name: Octets, v: Octets): Octets {
    "(" + (Token(name) + (Token(v) + ")"))
  }

  function PairsText(names: string, values: seq<Octets>): Octets
    requires |names| == |values|
  {
    if values == [] then "" else PairText([names[0]], values[0]) + PairsText(names[1..], values[1..])
  }

  /** A private key of one of the known algorithms; `trailer` holds whatever lists follow the
      parameters and the closing parenthesis of the whole. */
  datatype Key = Key(info: Info, values: seq<Octets>, trailer: seq<Tok>) {
    predicate Valid() {
      && info in PROTECT_INFO
      && |values| == |info.parms|
      && (forall v | v in values :: v != "")
      && Closes(trailer, 1)
    }

    function Public(): Octets
      requires Valid()
    {
      TableOrdered();
      PairsText(info.parms[..info.from], values[..info.from])
    }

    function Secret(): Octets
      requires Valid()
    {
      TableOrdered();
      PairsText(info.parms[info.from..], values[info.from..])
    }

    /** Everything up to the secret parameters. */
    function Front(name: Octets): Octets
      requires Valid()
    {
      "(" + (Token(name) + ("(" + (Token(info.algo) + Public())))
    }

    function Back(): Octets {
      ")" + Text(trailer)
    }

    /** The canonical text of the key. */
    function Plain(): Octets
      requires Valid()
    {
      Front("private-key") + (Secret() + Back())
    }

    /** What the MIC covers. */
    function Hashed(time: Octets): Octets
      requires Valid()
    {
      "(" + (Token(info.algo) + (Public() + (Secret() + (Stamp(time) + ")"))))
    }

    function ProtectedPlain(x: KeyCrypto, pw: Octets, z: Nonce): Octets
      requires Valid() && z.Valid()
    {
      Front("protected-private-key")
      + (ProtectedList(x, Secret(), x.sha1(Hashed(z.time)), pw, z) + (Stamp(z.time) + Back()))
    }
  }

  lemma TableLooksUp(info: Info, tail: Octets)
    requires info in PROTECT_INFO
    ensures FindAlgo(info.algo + tail, |info.algo|, 0) == Some((info, tail))
    ensures info.algo != ""
  {
    var s := info.algo + tail;
    Drop(info.algo, tail);
    assert s[0] == info.algo[0];
    if info != PROTECT_INFO[0] {
      assert FindAlgo(s, 3, 0) == FindAlgo(s, 3, 1);
    }
    if info != PROTECT_INFO[0] && info != PROTECT_INFO[1] {
      assert FindAlgo(s, 3, 1) == FindAlgo(s, 3, 2);
    }
  }

  // ---------- pairs ----------

  lemma ExpectHere(c: char, tail: Octets)
    ensures Expect([c] + tail, c) == Some(tail) && At([c] + tail) == c && ([c] + tail)[1..] == tail
  {
  }

  lemma PairDecodes(name: Octets, v: Octets, tail: Octets)
    requires name != "" && v != ""
    ensures At(PairText(name, v) + tail) == '(' && (PairText(name, v) + tail)[1..]
        == Token(name) + (Token(v) + (")" + tail))
    ensures Pair(PairText(name, v) + tail) == Ok(")" + tail)
  {
    hide Token, Next, SkipNext;
    var inner := Token(name) + (Token(v) + (")" + tail));
    assert PairText(name, v) + tail == "(" + inner;
    ExpectHere('(', inner);
    SkipNextToken(name, Token(v) + (")" + tail));
    SkipNextToken(v, ")" + tail);
    ExpectHere(')', tail);
  }

  lemma NamedPairDecodes(c: char, v: Octets, tail: Octets)
    requires v != ""
    ensures NamedPair(PairText([c], v) + tail, c) == Ok(")" + tail)
  {
    PairDecodes([c], v, tail);
    hide Token, Next, SkipNext;
    var rest := Token(v) + (")" + tail);
    NextToken([c], rest);
    ExpectHere(c, rest);
    SkipNextToken(v, ")" + tail);
    ExpectHere(')', tail);
  }

  lemma {:induction false} PairsDecode(names: string, values: seq<Octets>, tail: Octets)
    requires |names| == |values| && forall v | v in values :: v != ""
    ensures Pairs(PairsText(names, values) + tail) == Pairs(tail)
  {
    if values == [] {
      assert PairsText(names, values) + tail == tail;
    } else {
      var more := PairsText(names[1..], values[1..]) + tail;
      assert PairsText(names, values) + tail == PairText([names[0]], values[0]) + more;
      assert values[0] in values && forall v | v in values[1..] :: v in values;
      PairDecodes([names[0]], values[0], more);
      hide PairText, PairsText, Pair;
      assert (")" + more)[1..] == more;
      PairsDecode(names[1..], values[1..], tail);
    }
  }

  /** A parameter is neither a time stamp nor the protected list, and is skipped. */
  lemma PairPassed(c: char, v: Octets, tail: Octets)
    requires v != ""
    ensures FindStamp(PairText([c], v) + tail) == FindStamp(tail)
    ensures FindProtected(PairText([c], v) + tail) == FindProtected(tail)
  {
    PairDecodes([c], v, tail);
    hide Token, Next, SkipNext, Skip, PairText;
    var rest := Token(v) + (")" + tail);
    NextToken([c], rest);
    ExpectHere(c, rest);
    SkipAtom(v, ")" + tail, 1);
    SkipParen(tail, 1);
    NothingOpen(tail);
  }

  lemma NothingOpen(s: Octets)
    ensures Skip(s, 0) == Some(s)
  {
  }

  lemma {:induction false} PairsPassed(names: string, values: seq<Octets>, tail: Octets)
    requires |names| == |values| && forall v | v in values :: v != ""
    ensures FindStamp(PairsText(names, values) + tail) == FindStamp(tail)
    ensures FindProtected(PairsText(names, values) + tail) == FindProtected(tail)
  {
    if values == [] {
      assert PairsText(names, values) + tail == tail;
    } else {
      var more := PairsText(names[1..], values[1..]) + tail;
      assert PairsText(names, values) + tail == PairText([names[0]], values[0]) + more;
      assert values[0] in values && forall v | v in values[1..] :: v in values;
      hide PairText, PairsText, FindStamp, FindProtected;
      PairPassed(names[0], values[0], more);
      PairsPassed(names[1..], values[1..], tail);
    }
  }

  lemma PairsSplit(names: string, values: seq<Octets>, i: nat)
    requires i < |names| == |values|
    ensures PairsText(names[i..], values[i..]) == PairText([names[i]], values[i])
        + PairsText(names[i + 1..], values[i + 1..])
  {
    assert names[i..][1..] == names[i + 1..] && values[i..][1..] == values[i + 1..];
    assert names[i..][0] == names[i];
    hide PairText;
  }

  /** The scan of the table's parameters finds where the secret ones begin and end. */
  lemma {:induction false} ParamsDecode(key: Key, i: nat, begin: Octets, end: Octets, tail: Octets)
    requires key.Valid() && i < |key.values|
    requires
      var s := PairsText(key.info.parms[i..], key.values[i..]) + tail;
      && key.info.from <= key.info.to < |key.info.parms|
      && (i > key.info.from ==> |s| < |begin|)
      && (i > key.info.to ==> |s| < |end| < |begin|)
    ensures
      Params(PairsText(key.info.parms[i..], key.values[i..]) + tail, key.info, i, begin, end)
      == Ok((if i <= key.info.from
             then PairsText(key.info.parms[key.info.from..], key.values[key.info.from..]) + tail
             else begin,
             ")" + tail, tail))
    decreases |key.values| - i
  {
    hide PairText, PairsText, NamedPair, Closes;
    TableOrdered();
    var names, values := key.info.parms, key.values;
    var s := PairsText(names[i..], values[i..]) + tail;
    var more := PairsText(names[i + 1..], values[i + 1..]) + tail;
    PairsSplit(names, values, i);
    Assoc(PairText([names[i]], values[i]), PairsText(names[i + 1..], values[i + 1..]), tail);
    assert values[i] in values;
    NamedPairDecodes(names[i], values[i], more);
    assert (")" + more)[1..] == more;
    if i + 1 < |values| {
      ParamsDecode(key, i + 1, if i == key.info.from then s else begin, if i == key.info.to then ")" + more
          else end, tail);
    } else {
      NoPairs(names, values);
      assert more == tail;
    }
  }

  lemma NoPairs(names: string, values: seq<Octets>)
    requires |names| == |values|
    ensures PairsText(names[|values|..], values[|values|..]) == ""
  {
  }

  lemma {:induction false} PairsJoin(names: string, values: seq<Octets>, i: nat)
    requires i <= |names| == |values|
    ensures PairsText(names, values) == PairsText(names[..i], values[..i]) + PairsText(names[i..], values[i..])
  {
    hide PairText;
    if i == 0 {
      assert names[0..] == names && values[0..] == values;
    } else {
      assert names[..i][1..] == names[1..][..i - 1] && values[..i][1..] == values[1..][..i - 1];
      assert names[1..][i - 1..] == names[i..] && values[1..][i - 1..] == values[i..];
      PairsJoin(names[1..], values[1..], i - 1);
      Assoc(PairText([names[0]], values[0]), PairsText(names[..i][1..], values[..i][1..]),
          PairsText(names[i..], values[i..]));
    }
  }

  // ---------- the front ----------

  lemma HeadDecodes(name: Octets, rest: Octets)
    requires name != ""
    ensures Head("(" + (Token(name) + rest), name) == Ok(rest)
  {
    hide Token, Next;
    ExpectHere('(', Token(name) + rest);
    NextToken(name, rest);
    Drop(name, rest);
  }

  /** Up to the parameters: name and algorithm are recognised. */
  lemma FrontDecodes(key: Key, name: Octets, rest: Octets)
    requires key.Valid() && name != ""
    ensures key.Front(name) + rest == "(" + (Token(name) + ("(" + (Token(key.info.algo) + (key.Public() + rest))))
    ensures Head(key.Front(name) + rest, name) == Ok("(" + (Token(key.info.algo) + (key.Public() + rest)))
    ensures Expect("(" + (Token(key.info.algo) + (key.Public() + rest)), '(')
        == Some(Token(key.info.algo) + (key.Public() + rest))
    ensures Next(Token(key.info.algo) + (key.Public() + rest))
        == Some((|key.info.algo|, key.info.algo + (key.Public() + rest)))
    ensures FindAlgo(key.info.algo + (key.Public() + rest), |key.info.algo|, 0) == Some((key.info, key.Public() + rest))
    ensures SkipNext(Token(key.info.algo) + (key.Public() + rest)) == Some(key.Public() + rest)
  {
    hide Token, Head, FindAlgo, Next, Key.Public, SkipNext;
    var algo := Token(key.info.algo) + (key.Public() + rest);
    assert key.Front(name) + rest == "(" + (Token(name) + ("(" + algo));
    HeadDecodes(name, "(" + algo);
    ExpectHere('(', algo);
    TableLooksUp(key.info, key.Public() + rest);
    NextToken(key.info.algo, key.Public() + rest);
    SkipNextToken(key.info.algo, key.Public() + rest);
  }

  // ---------- protecting ----------

  /** agent_protect finds the parts of a well-formed key. */
  lemma KeyPartsDecode(key: Key, tail: Octets)
    requires key.Valid()
    ensures
      var back := key.Back() + tail;
      var rest := key.Secret() + back;
      KeyParts(key.Plain() + tail)
      == Ok(Parts("(" + (Token(key.info.algo) + (key.Public() + rest)), rest, ")" + back, back, tail))
  {
    hide Token, Head, Next, FindAlgo, Skip, Params, Text, Key.Valid, Key.Front, Key.Public, Key.Secret, Key.Back,
        Key.Plain;
    var back := key.Back() + tail;
    var rest := key.Secret() + back;
    TableOrdered();
    PlainSplits(key, tail);
    FrontDecodes(key, "private-key", rest);
    SecretFound(key, back);
    ExpectHere(')', Text(key.trailer) + tail);
    TrailerSkipped(key, tail);
  }

  lemma PlainSplits(key: Key, tail: Octets)
    requires key.Valid()
    ensures key.Plain() + tail == key.Front("private-key") + (key.Secret() + (key.Back() + tail))
    ensures key.Back() + tail == ")" + (Text(key.trailer) + tail)
  {
    hide Key.Valid, Key.Front, Key.Secret, Text;
  }

  lemma TrailerSkipped(key: Key, tail: Octets)
    requires key.Valid()
    ensures Skip(Text(key.trailer) + tail, 1) == Some(tail)
    ensures key.info in PROTECT_INFO
  {
    SkipText(key.trailer, 1, tail);
  }

  lemma SecretFound(key: Key, back: Octets)
    requires key.Valid()
    ensures
      && key.info.from <= key.info.to < |key.info.parms|
      && Params(key.Public() + (key.Secret() + back), key.info, 0, "", "")
          == Ok((key.Secret() + back, ")" + back, back))
  {
    TableOrdered();
    PairsJoin(key.info.parms, key.values, key.info.from);
    Assoc(key.Public(), key.Secret(), back);
    assert key.info.parms[0..] == key.info.parms && key.values[0..] == key.values;
    hide Params, PairsText;
    ParamsDecode(key, 0, "", "", back);
  }

  lemma TokenOfLength(v: Octets)
    ensures |v| == 4 ==> Token(v) == "4:" + v
    ensures |v| == 8 ==> Token(v) == "8:" + v
    ensures |v| == 9 ==> Token(v) == "9:" + v
    ensures |v| == 11 ==> Token(v) == "11:" + v
    ensures |v| == 21 ==> Token(v) == "21:" + v
  {
    assert Dec(1) == "1" && Dec(2) == "2";
    assert Dec(11) == "1" + "1" && Dec(21) == "2" + "1";
    assert Dec(4) == "4" && Dec(8) == "8" && Dec(9) == "9";
  }

  lemma TokenOfLonger(v: Octets)
    ensures |v| == 12 ==> Token(v) == "12:" + v
    ensures |v| == 15 ==> Token(v) == "15:" + v
    ensures |v| == 16 ==> Token(v) == "16:" + v
    ensures |v| == 20 ==> Token(v) == "20:" + v
    ensures |v| == 25 ==> Token(v) == "25:" + v
  {
    assert Dec(1) == "1" && Dec(2) == "2";
    assert Dec(12) == "1" + "2" && Dec(15) == "1" + "5" && Dec(16) == "1" + "6";
    assert Dec(20) == "2" + "0" && Dec(25) == "2" + "5";
  }

  /** A protected key has exactly the promised form; everything behind the key is ignored. */
  lemma ProtectIs(x: KeyCrypto, key: Key, tail: Octets, pw: Octets, z: Nonce)
    requires key.Valid() && z.Valid()
    ensures Protect(x, key.Plain() + tail, pw, z) == Ok(key.ProtectedPlain(x, pw, z))
  {
    hide *;
    KeyPartsDecode(key, tail);
    ProtectFromParts(x, key, key.Plain() + tail, pw, z, tail);
    FrontRenamed(key);
    Regroup("(21:protected-", FrontFrom4(key), ProtectedList(x, key.Secret(), x.sha1(key.Hashed(z.time)), pw, z),
        Stamp(z.time), key.Back());
    ProtectedPlainIs(x, key, pw, z);
  }

  lemma ProtectedPlainIs(x: KeyCrypto, key: Key, pw: Octets, z: Nonce)
    requires key.Valid() && z.Valid()
    ensures key.ProtectedPlain(x, pw, z)
         == key.Front("protected-private-key")
            + (ProtectedList(x, key.Secret(), x.sha1(key.Hashed(z.time)), pw, z) + (Stamp(z.time) + key.Back()))
  {
    hide Key.Valid, Key.Front, ProtectedList;
  }

  lemma ProtectFromParts(x: KeyCrypto, key: Key, plain: Octets, pw: Octets, z: Nonce, tail: Octets)
    requires key.Valid() && z.Valid() && plain == key.Plain() + tail
    requires
      var back := key.Back() + tail;
      var rest := key.Secret() + back;
      KeyParts(plain) == Ok(Parts("(" + (Token(key.info.algo) + (key.Public() + rest)), rest, ")" + back, back, tail))
    ensures Protect(x, plain, pw, z)
         == Ok("(21:protected-" + FrontFrom4(key) + ProtectedList(x, key.Secret(), x.sha1(key.Hashed(z.time)), pw, z)
               + Stamp(z.time) + key.Back())
  {
    hide KeyParts, ProtectedList, Key.Front, Key.Plain, Key.Public, Key.Secret, Key.Back, Key.Valid, Key.Hashed, Token,
        Stamp, FrontFrom4, Mic;
    var back := key.Back() + tail;
    var rest := key.Secret() + back;
    var p := KeyParts(plain).value;
    MicIs(x, key, plain, p, z.time);
    PlainSplits(key, tail);
    FrontSliced(key, rest);
    assert |p.protBegin| - |p.protEnd| + 1 == |key.Secret()|;
    Drop(key.Secret(), back);
    assert p.protEnd == (")" + key.Back()) + tail;
    assert |p.protEnd| - |p.keyEnd| == 1 + |key.Back()|;
    Drop(")" + key.Back(), tail);
    assert (")" + key.Back())[1..] == key.Back();
    assert p.protEnd[1..|p.protEnd| - |p.keyEnd|] == (")" + key.Back())[1..];
  }

  lemma FrontSliced(key: Key, rest: Octets)
    requires key.Valid()
    ensures
      var plain := key.Front("private-key") + rest;
      && |plain| - |rest| >= 4
      && plain[4..|plain| - |rest|] == FrontFrom4(key)
  {
    hide Key.Valid, Key.Front;
    FrontStarts(key, "private-key");
    Drop(key.Front("private-key"), rest);
  }

  lemma MicIs(x: KeyCrypto, key: Key, plain: Octets, p: Parts, time: Octets)
    requires key.Valid() && |p.hashEnd| <= |p.hashBegin|
    requires p.hashBegin == "(" + (Token(key.info.algo) + (key.Public() + (key.Secret() + p.hashEnd)))
    ensures Mic(x, plain, p, time) == x.sha1(key.Hashed(time))
  {
    hide Key.Valid, Key.Public, Key.Secret, Token, Stamp;
    var head := "(" + (Token(key.info.algo) + (key.Public() + key.Secret()));
    assert p.hashBegin == head + p.hashEnd;
    Drop(head, p.hashEnd);
    assert head + Stamp(time) + ")" == key.Hashed(time);
  }

  function FrontFrom4(key: Key): Octets
    requires key.Valid()
  {
    FrontStarts(key, "private-key");
    key.Front("private-key")[4..]
  }

  lemma FrontStarts(key: Key, name: Octets)
    requires key.Valid()
    ensures |key.Front(name)| >= 2 + |name|
    ensures name == "private-key" ==> |key.Front(name)| >= 4
  {
    hide Key.Public, Dec;
  }

  lemma FrontRenamed(key: Key)
    requires key.Valid()
    ensures "(21:protected-" + FrontFrom4(key) == key.Front("protected-private-key")
  {
    hide *;
    var more := "(" + (Token(key.info.algo) + key.Public());
    FrontIs(key, "private-key");
    FrontIs(key, "protected-private-key");
    NamesJoin();
    Renamed("private-key", more, key.Front("private-key"));
    FrontFrom4Is(key);
  }

  lemma FrontFrom4Is(key: Key)
    requires key.Valid()
    ensures |key.Front("private-key")| >= 4 && FrontFrom4(key) == key.Front("private-key")[4..]
  {
    hide Key.Valid, Key.Front;
    FrontStarts(key, "private-key");
  }

  lemma FrontIs(key: Key, name: Octets)
    requires key.Valid()
    ensures key.Front(name) == ("(" + Token(name)) + ("(" + (Token(key.info.algo) + key.Public()))
  {
    hide Key.Valid, Key.Public, Token;
  }

  lemma NamesJoin()
    ensures "(" + Token("private-key") == "(11:" + "private-key"
    ensures "(" + Token("protected-private-key") == "(21:protected-" + "private-key"
  {
    TokenOfLength("private-key");
    TokenOfLength("protected-private-key");
    hide Token;
    assert "(" + "11:" == "(11:";
    Assoc("(", "11:", "private-key");
    Assoc("(", "21:", "protected-private-key");
    assert "(" + "21:" == "(21:";
    assert "protected-" + "private-key" == "protected-private-key";
    assert "(21:" + "protected-" == "(21:protected-";
    Assoc("(21:", "protected-", "private-key");
  }

  lemma Renamed(name: Octets, more: Octets, front: Octets)
    requires front == ("(11:" + name) + more
    ensures front[4..] == name + more && "(21:protected-" + front[4..] == ("(21:protected-" + name) + more
  {
    Assoc("(11:", name, more);
    Drop("(11:", name + more);
    Assoc("(21:protected-", name, more);
  }

  lemma Regroup(a: Octets, b: Octets, c: Octets, d: Octets, e: Octets)
    ensures a + b + c + d + e == (a + b) + (c + (d + e))
  {
  }

  // ---------- the protected list ----------

  /** The protected list from behind its name on, followed by something. */
  function Body(salt: Octets, count: nat, iv: Octets, enc: Octets, tail: Octets): Octets {
    Token(MODE) + ("(" + ("(" + (Token("sha1") + (Token(salt) + CountOn(count, iv, enc, tail)))))
  }

  function CountOn(count: nat, iv: Octets, enc: Octets, tail: Octets): Octets {
    Token(Dec(count)) + (")" + (Token(iv) + (")" + (Token(enc) + (")" + tail)))))
  }

  lemma ListIsTokens(x: KeyCrypto, secret: Octets, hash: Octets, pw: Octets, z: Nonce, tail: Octets)
    requires z.Valid()
    ensures
      var enc := x.encrypt(pw, z.salt, z.count, z.iv, Block(secret, hash, z.pad));
      ProtectedList(x, secret, hash, pw, z) + tail
      == "(" + (Token("protected") + Body(z.salt, z.count, z.iv, enc, tail))
  {
    var enc := x.encrypt(pw, z.salt, z.count, z.iv, Block(secret, hash, z.pad));
    TokenOfLength("protected");
    TokenOfLength("sha1");
    TokenOfLength(z.salt);
    TokenOfLonger(z.iv);
    TokenOfLonger(MODE);
    hide Token, Block;
    Literals();
    ListRegroups(z.salt, Token(Dec(z.count)), z.iv, Token(enc), tail);
  }

  lemma Literals()
    ensures "(9:protected25:" == "(" + ("9:" + "protected" + "25:")
    ensures "((4:sha18:" == "(" + ("(" + ("4:" + "sha1" + "8:"))
    ensures ")16:" == ")" + "16:"
    ensures |MODE| == 25
  {
  }

  lemma ListRegroups(salt: Octets, count: Octets, iv: Octets, enc: Octets, tail: Octets)
    ensures
      ("(9:protected25:" + (MODE + ("((4:sha18:" + (salt + (count + (")16:" + (iv + (")" + (enc + ")"))))))))) + tail
      == "(" + (("9:" + "protected")
         + (("25:" + MODE) + ("(" + ("(" + (("4:" + "sha1")
             + (("8:" + salt) + (count + (")" + (("16:" + iv) + (")" + (enc + (")" + tail))))))))))))
  {
    Literals();
    hide *;
    var s5 := ")" + (enc + (")" + tail));
    assert (")" + (enc + ")")) + tail == s5;
    var s4 := ")" + (("16:" + iv) + s5);
    assert (")16:" + (iv + (")" + (enc + ")")))) + tail == s4;
    var s3 := ("8:" + salt) + (count + s4);
    var t3 := count + (")16:" + (iv + (")" + (enc + ")"))));
    assert (salt + t3) + tail == salt + (count + s4);
    var p: Octets, q: Octets := "(" + ("(" + ("4:" + "sha1" + "8:")), salt + (count + s4);
    assert p + q == "(" + ("(" + (("4:" + "sha1") + s3));
    var u: Octets := "(" + ("9:" + "protected" + "25:");
    assert (u + (MODE + (p + (salt + t3)))) + tail == u + (MODE + (p + q));
    assert u + (MODE + (p + q)) == "(" + (("9:" + "protected") + (("25:" + MODE) + (p + q)));
  }

  /** Everything behind the name is skipped as one list. */
  lemma BodySkipped(salt: Octets, count: nat, iv: Octets, enc: Octets, tail: Octets, depth: nat)
    requires salt != "" && iv != "" && enc != "" && depth > 0
    ensures Skip(Body(salt, count, iv, enc, tail), depth) == Skip(tail, depth - 1)
  {
    hide Token, Skip, Dec, CountOn;
    var s5 := Token(enc) + (")" + tail);
    var s4 := Token(iv) + (")" + s5);
    var s3 := CountOn(count, iv, enc, tail);
    var s2 := Token("sha1") + (Token(salt) + s3);
    SkipAtom(MODE, "(" + ("(" + s2), depth);
    SkipParen("(" + s2, depth);
    SkipParen(s2, depth + 1);
    SkipAtom("sha1", Token(salt) + s3, depth + 2);
    SkipAtom(salt, s3, depth + 2);
    CountOnSkipped(count, iv, enc, tail, depth);
  }

  lemma CountOnSkipped(count: nat, iv: Octets, enc: Octets, tail: Octets, depth: nat)
    requires iv != "" && enc != "" && depth > 0
    ensures Skip(CountOn(count, iv, enc, tail), depth + 2) == Skip(tail, depth - 1)
  {
    hide Token, Skip, Dec;
    var s5 := Token(enc) + (")" + tail);
    var s4 := Token(iv) + (")" + s5);
    SkipAtom(Dec(count), ")" + s4, depth + 2);
    SkipParen(s4, depth + 2);
    SkipAtom(iv, ")" + s5, depth + 1);
    SkipParen(s5, depth + 1);
    SkipAtom(enc, ")" + tail, depth);
    SkipParen(tail, depth);
  }

  /** The protected list is found, and passed by the search for the time stamp. */
  lemma ListFound(salt: Octets, count: nat, iv: Octets, enc: Octets, tail: Octets)
    requires salt != "" && iv != "" && enc != ""
    ensures
      var body := Body(salt, count, iv, enc, tail);
      var list := "(" + (Token("protected") + body);
      && FindProtected(list) == Ok((list, body))
      && FindStamp(list) == FindStamp(tail)
      && list[0] == '(' && Skip(list[1..], 1) == Some(tail)
  {
    var body := Body(salt, count, iv, enc, tail);
    hide Token, Skip, Next, Body;
    ExpectHere('(', Token("protected") + body);
    NextToken("protected", body);
    Drop("protected", body);
    BodySkipped(salt, count, iv, enc, tail, 1);
    SkipAtom("protected", body, 1);
    NothingOpen(tail);
  }

  lemma CountDecodes(salt: Octets, count: nat, iv: Octets, enc: Octets, tail: Octets)
    requires |iv| == BLOCK && enc != "" && count >= MIN_COUNT
    ensures CipherCount(salt, CountOn(count, iv, enc, tail)) == Ok(Cipher(salt, count, iv, enc))
  {
    hide Token, Dec, Next, Digits;
    var s5 := Token(enc) + (")" + tail);
    var s4 := Token(iv) + (")" + s5);
    NextToken(Dec(count), ")" + s4);
    Drop(Dec(count), ")" + s4);
    ExpectHere(')', s4);
    DigitsOfDec(count, ")" + s4);
    NoDigits(")" + s4, count);
    NextToken(iv, ")" + s5);
    Drop(iv, ")" + s5);
    ExpectHere(')', s5);
    NextToken(enc, ")" + tail);
    Drop(enc, ")" + tail);
  }

  lemma NoDigits(s: Octets, n: nat)
    requires s != "" && s[0] == ')'
    ensures Digits(s, n) == (n, s)
  {
  }

  /** The parameters of the encryption come back as they were. */
  lemma CipherDecodes(salt: Octets, count: nat, iv: Octets, enc: Octets, tail: Octets)
    requires |salt| == 8 && |iv| == BLOCK && enc != "" && count >= MIN_COUNT
    ensures CipherInfo(Body(salt, count, iv, enc, tail)) == Ok(Cipher(salt, count, iv, enc))
  {
    hide Token, Next, CountOn, CipherCount;
    var s3 := CountOn(count, iv, enc, tail);
    var s2 := Token("sha1") + (Token(salt) + s3);
    NextToken(MODE, "(" + ("(" + s2));
    Drop(MODE, "(" + ("(" + s2));
    ExpectHere('(', "(" + s2);
    ExpectHere('(', s2);
    NextToken("sha1", Token(salt) + s3);
    Drop("sha1", Token(salt) + s3);
    NextToken(salt, s3);
    Drop(salt, s3);
    CountDecodes(salt, count, iv, enc, tail);
  }

  // ---------- the decrypted text ----------

  /** The encrypted text without its padding, followed by something. */
  function Clear(secret: Octets, hash: Octets, tail: Octets): Octets {
    "(" + ("(" + (secret + (")" + ("(" + (Token("hash") + (Token("sha1") + (Token(hash) + (")" + (")" + tail)))))))))
  }

  lemma ClearIs(secret: Octets, hash: Octets, tail: Octets)
    requires |hash| == 20
    ensures "((" + (secret + (")(4:hash4:sha120:" + (hash + ("))" + tail)))) == Clear(secret, hash, tail)
    ensures |Clear(secret, hash, tail)| == |secret| + 41 + |tail|
  {
    TokenOfLength("hash");
    TokenOfLength("sha1");
    TokenOfLonger(hash);
    assert ")(4:hash4:sha120:" == ")" + ("(" + (("4:" + "hash") + (("4:" + "sha1") + "20:")));
    hide Token;
    var a := secret;
    assert "((" == "(" + "(" && "))" == ")" + ")";
    ClearRegroups(secret, "4:" + "hash", "4:" + "sha1", hash, tail);
  }

  lemma ClearRegroups(secret: Octets, name: Octets, algo: Octets, hash: Octets, tail: Octets)
    ensures
      ("(" + "(") + (secret + ((")" + ("(" + (name + (algo + "20:")))) + (hash + ((")" + ")") + tail))))
      == "(" + ("(" + (secret + (")" + ("(" + (name + (algo + (("20:" + hash) + (")" + (")" + tail)))))))))
  {
    var end := hash + (")" + (")" + tail));
    assert hash + ((")" + ")") + tail) == end;
    assert (")" + ("(" + (name + (algo + "20:")))) + end == ")" + ("(" + (name + (algo + ("20:" + end))));
    assert "20:" + end == ("20:" + hash) + (")" + (")" + tail));
  }

  /** The encrypted block is the text with some of the padding. */
  lemma BlockIs(secret: Octets, hash: Octets, pad: Octets)
    requires |hash| == 20 && |pad| == BLOCK
    ensures
      var n := |secret| + 41;
      var k := (n + BLOCK) / BLOCK * BLOCK - n;
      && 0 < k <= BLOCK
      && Block(secret, hash, pad) == Clear(secret, hash, pad[..k])
      && |Block(secret, hash, pad)| % BLOCK == 0
  {
    var n := |secret| + 41;
    var k := (n + BLOCK) / BLOCK * BLOCK - n;
    ClearIs(secret, hash, pad);
    ClearIs(secret, hash, pad[..k]);
    ClearIs(secret, hash, "");
    var text := Clear(secret, hash, "");
    ClearTail(secret, hash, pad);
    ClearTail(secret, hash, pad[..k]);
    hide Clear;
    assert (text + pad)[..n + k] == text + pad[..k];
  }

  lemma ClearTail(secret: Octets, hash: Octets, tail: Octets)
    ensures Clear(secret, hash, tail) == Clear(secret, hash, "") + tail
  {
    hide Token;
    var last := Token(hash) + (")" + (")" + ""));
    assert Token(hash) + (")" + (")" + tail)) == last + tail;
    var mid := Token("hash") + (Token("sha1") + last);
    assert Token("hash") + (Token("sha1") + (last + tail)) == mid + tail;
    assert "(" + ("(" + (secret + (")" + ("(" + (mid + tail)))))
        == ("(" + ("(" + (secret + (")" + ("(" + mid))))) + tail;
  }

  /** Parameter lists are skipped as a whole. */
  lemma {:induction false} PairsSkipped(names: string, values: seq<Octets>, tail: Octets, depth: nat)
    requires |names| == |values| && depth > 0 && forall v | v in values :: v != ""
    ensures Skip(PairsText(names, values) + tail, depth) == Skip(tail, depth)
  {
    if values == [] {
      assert PairsText(names, values) + tail == tail;
    } else {
      var more := PairsText(names[1..], values[1..]) + tail;
      assert PairsText(names, values) + tail == PairText([names[0]], values[0]) + more;
      assert values[0] in values && forall v | v in values[1..] :: v in values;
      hide PairsText, Token, Skip;
      PairSkipped([names[0]], values[0], more, depth);
      PairsSkipped(names[1..], values[1..], tail, depth);
    }
  }

  lemma PairSkipped(name: Octets, v: Octets, tail: Octets, depth: nat)
    requires name != "" && v != "" && depth > 0
    ensures Skip(PairText(name, v) + tail, depth) == Skip(tail, depth)
  {
    hide Token, Skip;
    assert PairText(name, v) + tail == "(" + (Token(name) + (Token(v) + (")" + tail)));
    SkipParen(Token(name) + (Token(v) + (")" + tail)), depth);
    SkipAtom(name, Token(v) + (")" + tail), depth + 1);
    SkipAtom(v, ")" + tail, depth + 1);
    SkipParen(tail, depth + 1);
  }

  lemma NoMorePairs(s: Octets)
    requires At(s) != '('
    ensures Pairs(s) == Ok(s)
  {
  }

  /** Length and parts of the decrypted text, whatever padding follows it. */
  lemma ClearDecodes(key: Key, hash: Octets, tail: Octets)
    requires key.Valid() && |hash| == 20
    ensures CanonLen(Clear(key.Secret(), hash, tail)) == |key.Secret()| + 41
    ensures |Clear(key.Secret(), hash, tail)| >= 2
    ensures ClearParts(Clear(key.Secret(), hash, tail)) == Ok((key.Secret(), hash))
  {
    hide Token, Skip, Next, Pairs, Key.Secret, Key.Valid, NextIs;
    var secret := key.Secret();
    var s7 := Token(hash) + (")" + (")" + tail));
    var s6 := Token("sha1") + s7;
    var s5 := Token("hash") + s6;
    var s4 := "(" + s5;
    ClearIs(secret, hash, tail);
    ClearStart(secret + (")" + s4));
    SecretSkipped(key, ")" + s4);
    SkipParen(secret + (")" + s4), 1);
    SkipParen(s4, 2);
    SkipParen(s5, 1);
    SkipAtom("hash", s6, 2);
    SkipAtom("sha1", s7, 2);
    SkipAtom(hash, ")" + (")" + tail), 2);
    SkipParen(")" + tail, 2);
    SkipParen(tail, 1);
    NothingOpen(tail);
    ExpectHere(')', s4);
    ExpectHere('(', s5);
    NextIsToken("hash", "hash", s6);
    NextIsToken("sha1", "sha1", s7);
    NextToken(hash, ")" + (")" + tail));
    Drop(hash, ")" + (")" + tail));
    ExpectHere(')', ")" + tail);
    Drop(secret, ")" + s4);
  }

  lemma ClearStart(s: Octets)
    ensures ("(" + ("(" + s))[1..] == "(" + s && ("(" + ("(" + s))[2..] == s
  {
  }

  lemma SecretSkipped(key: Key, tail: Octets)
    requires key.Valid()
    ensures Skip(key.Secret() + (tail), 2) == Skip(tail, 2)
    ensures tail != "" && tail[0] == ')' ==> Pairs(key.Secret() + tail) == Ok(tail)
  {
    TableOrdered();
    hide Skip, Pairs, PairsText;
    var names, values := key.info.parms[key.info.from..], key.values[key.info.from..];
    assert forall v | v in values :: v in key.values;
    PairsSkipped(names, values, tail, 2);
    PairsDecode(names, values, tail);
    if tail != "" && tail[0] == ')' {
      NoMorePairs(tail);
    }
  }

  /** Decryption gives back the text with its padding. */
  lemma DecryptedIs(x: KeyCrypto, key: Key, hash: Octets, pw: Octets, z: Nonce)
    requires x.Sound() && key.Valid() && z.Valid() && |hash| == 20
    ensures
      var enc := x.encrypt(pw, z.salt, z.count, z.iv, Block(key.Secret(), hash, z.pad));
      && enc != ""
      && Decrypted(x, pw, Cipher(z.salt, z.count, z.iv, enc)) == Ok(Block(key.Secret(), hash, z.pad))
      && CanonLen(Block(key.Secret(), hash, z.pad)) > 0
      && ClearParts(Block(key.Secret(), hash, z.pad)) == Ok((key.Secret(), hash))
  {
    hide *;
    NonceParts(z);
    var n := |key.Secret()| + 41;
    var k := (n + BLOCK) / BLOCK * BLOCK - n;
    BlockIs(key.Secret(), hash, z.pad);
    ClearIs(key.Secret(), hash, z.pad[..k]);
    ClearDecodes(key, hash, z.pad[..k]);
    DecryptOk(x, Block(key.Secret(), hash, z.pad), pw, z.salt, z.count, z.iv);
  }

  lemma NonceParts(z: Nonce)
    requires z.Valid()
    ensures |z.time| == 15 && |z.salt| == 8 && |z.iv| == |z.pad| == BLOCK == 16 && z.count >= MIN_COUNT
  {
  }

  lemma DecryptOk(x: KeyCrypto, block: Octets, pw: Octets, salt: Octets, count: nat, iv: Octets)
    requires x.Sound() && |block| % BLOCK == 0 && 0 < CanonLen(block) && CanonLen(block) + BLOCK >= |block|
    ensures
      var enc := x.encrypt(pw, salt, count, iv, block);
      enc != "" && Decrypted(x, pw, Cipher(salt, count, iv, enc)) == Ok(block)
  {
    ListLonger(block);
    hide CanonLen;
  }

  lemma ListLonger(s: Octets)
    requires CanonLen(s) > 0
    ensures At(s) == '('
  {
  }

  // ---------- the merged list ----------

  /** The merged list before the time stamp is cut out. */
  function MergedText(key: Key, time: Octets): Octets
    requires key.Valid()
  {
    (key.Front("private-key") + key.Secret()) + (Stamp(time) + key.Back())
  }

  lemma StampIsPair(time: Octets)
    requires |time| == 15
    ensures Stamp(time) == PairText("protected-at", time) && |Stamp(time)| == 35
  {
    TokenOfLonger("protected-at");
    TokenOfLonger(time);
    hide Token;
    StampOpens();
    StampRegroups("12:" + "protected-at", time);
  }

  lemma StampOpens()
    ensures "(12:protected-at15:" == "(" + (("12:" + "protected-at") + "15:")
  {
  }

  lemma StampRegroups(name: Octets, time: Octets)
    ensures ("(" + (name + "15:")) + time + ")" == "(" + (name + (("15:" + time) + ")"))
  {
  }

  /** Behind the protected list: the stamp is recognised as one list. */
  lemma StampDecodes(key: Key, time: Octets, tail: Octets)
    requires key.Valid() && |time| == 15
    ensures
      var s := Stamp(time) + (key.Back() + tail);
      && StampLen(s) == Ok(35)
      && Skip(s, 2) == Some(tail)
      && FindStamp(s) == Ok(Some(time))
      && Pairs(s) == Ok(key.Back() + tail)
  {
    var back := key.Back() + tail;
    StampIsPair(time);
    PairDecodes("protected-at", time, back);
    PlainSplits(key, tail);
    TrailerSkipped(key, tail);
    hide Token, Skip, Next, PairText, Stamp, Key.Valid, Key.Back, Text, Pair;
    var value := Token(time) + (")" + back);
    NextIsToken("protected-at", "protected-at", value);
    SkipAtom(time, ")" + back, 1);
    SkipParen(back, 1);
    NothingOpen(back);
    PairSkipped("protected-at", time, back, 2);
    SkipParen(Text(key.trailer) + tail, 2);
    NextToken("protected-at", value);
    Drop("protected-at", value);
    NextToken(time, ")" + back);
    Drop(time, ")" + back);
    ExpectHere(')', Text(key.trailer) + tail);
    NoMorePairs(back);
    assert (")" + back)[1..] == back;
  }

  /** A whole key text is one list. */
  lemma FrontSkipped(key: Key, name: Octets, rest: Octets, tail: Octets)
    requires key.Valid() && name != "" && Skip(rest, 2) == Some(tail)
    ensures CanonLen(key.Front(name) + rest) == |key.Front(name)| + |rest| - |tail| > 0
  {
    hide *;
    FrontDecodes(key, name, rest);
    AlgoNamed(key);
    PublicSkipped(key, rest);
    SkipShrinks(rest, 2);
    var inner := Token(name) + ("(" + (Token(key.info.algo) + (key.Public() + rest)));
    NamesSkipped(name, key.info.algo, key.Public() + rest, tail);
    CanonFromSkip(inner, tail);
    SameLength(key.Front(name), rest, inner);
  }

  lemma SameLength(a: Octets, b: Octets, inner: Octets)
    requires a + b == "(" + inner
    ensures |a| + |b| == 1 + |inner|
  {
    assert |a + b| == |"(" + inner|;
  }

  lemma NamesSkipped(name: Octets, algo: Octets, s: Octets, tail: Octets)
    requires name != "" && algo != "" && Skip(s, 2) == Some(tail)
    ensures Skip(Token(name) + ("(" + (Token(algo) + s)), 1) == Some(tail)
  {
    hide *;
    SkipAtom(name, "(" + (Token(algo) + s), 1);
    SkipParen(Token(algo) + s, 1);
    SkipAtom(algo, s, 2);
  }

  lemma AlgoNamed(key: Key)
    requires key.Valid()
    ensures key.info.algo != ""
  {
    TableLooksUp(key.info, "");
  }

  lemma CanonFromSkip(inner: Octets, tail: Octets)
    requires Skip(inner, 1) == Some(tail)
    ensures CanonLen("(" + inner) == 1 + |inner| - |tail| > 0
  {
    hide Skip, Expect;
    ExpectHere('(', inner);
    SkipShrinks(inner, 1);
  }

  lemma SkipShrinks(s: Octets, depth: nat)
    ensures Skip(s, depth).Some? ==> |Skip(s, depth).value| <= |s|
  {
  }

  lemma PublicSkipped(key: Key, rest: Octets)
    requires key.Valid()
    ensures Skip(key.Public() + rest, 2) == Skip(rest, 2)
    ensures Pairs(key.Public() + rest) == Pairs(rest)
    ensures FindStamp(key.Public() + rest) == FindStamp(rest)
    ensures FindProtected(key.Public() + rest) == FindProtected(rest)
  {
    TableOrdered();
    hide Skip, Pairs, PairsText, FindStamp, FindProtected;
    var names, values := key.info.parms[..key.info.from], key.values[..key.info.from];
    assert forall v | v in values :: v in key.values;
    PairsSkipped(names, values, rest, 2);
    PairsDecode(names, values, rest);
    PairsPassed(names, values, rest);
  }

  /** The MIC recomputed over the merged list, with the stamp still in it, is the one that was
      computed over the pieces when the key was protected. */
  lemma MergedMic(x: KeyCrypto, key: Key, time: Octets)
    requires key.Valid() && |time| == 15
    ensures KeyMic(x, MergedText(key, time)) == Ok(x.sha1(key.Hashed(time)))
  {
    hide *;
    var text := Text(key.trailer);
    var end := Stamp(time) + key.Back();
    var rest := key.Secret() + end;
    PlainSplits(key, "");
    assert key.Back() + "" == key.Back() && text + "" == text;
    StampDecodes(key, time, "");
    FrontDecodes(key, "private-key", rest);
    PublicSkipped(key, rest);
    SecretPairs(key, end);
    Assoc(key.Front("private-key"), key.Secret(), end);
    var head := "(" + (Token(key.info.algo) + (key.Public() + (key.Secret() + (Stamp(time) + ")"))));
    HashedRegroups(Token(key.info.algo), key.Public(), key.Secret(), Stamp(time), text);
    MergedTextIs(key, time);
    KeyMicSteps(x, MergedText(key, time), head, Token(key.info.algo) + (key.Public() + rest), key.Public() + rest,
        text);
  }

  lemma MergedTextIs(key: Key, time: Octets)
    requires key.Valid()
    ensures MergedText(key, time) == (key.Front("private-key") + key.Secret()) + (Stamp(time) + key.Back())
    ensures key.Hashed(time) == "(" + (Token(key.info.algo) + (key.Public() + (key.Secret() + (Stamp(time) + ")"))))
  {
    hide Key.Valid, Key.Front, Key.Secret, Key.Public, Stamp, Token, Key.Back;
  }

  lemma HashedRegroups(algo: Octets, public: Octets, secret: Octets, stamp: Octets, text: Octets)
    ensures "(" + (algo + (public + (secret + (stamp + (")" + text)))))
        == ("(" + (algo + (public + (secret + (stamp + ")"))))) + text
  {
    assert stamp + (")" + text) == (stamp + ")") + text;
    var s := stamp + ")";
    assert secret + (s + text) == (secret + s) + text;
    assert public + ((secret + s) + text) == (public + (secret + s)) + text;
  }

  lemma KeyMicSteps(x: KeyCrypto, list: Octets, head: Octets, algo: Octets, pairs: Octets, text: Octets)
    requires Head(list, "private-key") == Ok(head + text) && head + text == "(" + algo
    requires SkipNext(algo) == Some(pairs) && Pairs(pairs) == Ok(")" + text)
    ensures KeyMic(x, list) == Ok(x.sha1(head))
  {
    hide Head, SkipNext, Pairs;
    ExpectHere('(', algo);
    ExpectHere(')', text);
    Drop(head, text);
  }

  lemma SecretPairs(key: Key, tail: Octets)
    requires key.Valid()
    ensures Pairs(key.Secret() + tail) == Pairs(tail)
  {
    TableOrdered();
    hide Pairs, PairsText;
    var names, values := key.info.parms[key.info.from..], key.values[key.info.from..];
    assert forall v | v in values :: v in key.values;
    PairsDecode(names, values, tail);
  }

  /** Cutting the stamp out of the merged list leaves the original key. */
  lemma CutIsPlain(key: Key, hash: Octets, time: Octets)
    requires key.Valid() && |time| == 15
    ensures
      var front := key.Front("private-key") + key.Secret();
      && |front| + 35 <= |MergedText(key, time)|
      && Cut(Merged(hash, MergedText(key, time), |front|, 35)) == key.Plain()
      && CanonLen(key.Plain()) == |key.Plain()|
  {
    hide *;
    StampIsPair(time);
    PlainLength(key);
    CutParts(key.Front("private-key") + key.Secret(), Stamp(time), key.Back(), hash);
    MergedTextSplits(key, time);
    Assoc(key.Front("private-key"), key.Secret(), key.Back());
    PlainIs(key);
  }

  lemma MergedTextSplits(key: Key, time: Octets)
    requires key.Valid()
    ensures MergedText(key, time) == key.Front("private-key") + key.Secret() + (Stamp(time) + key.Back())
  {
    hide Stamp, Key.Front, Key.Secret, Key.Back;
  }

  lemma PlainIs(key: Key)
    requires key.Valid()
    ensures key.Plain() == key.Front("private-key") + (key.Secret() + key.Back())
  {
    hide Key.Front, Key.Secret, Key.Back;
  }

  /** Cutting a range of 35 octets out of the middle. */
  lemma CutParts(front: Octets, stamp: Octets, back: Octets, hash: Octets)
    requires |stamp| == 35
    ensures |front| + 35 <= |front + (stamp + back)|
    ensures Cut(Merged(hash, front + (stamp + back), |front|, 35)) == front + back
  {
    Drop(front, stamp + back);
    Assoc(front, stamp, back);
    Drop(front + stamp, back);
  }

  lemma PlainLength(key: Key)
    requires key.Valid()
    ensures CanonLen(key.Plain()) == |key.Plain()|
  {
    var text := Text(key.trailer);
    PlainSplits(key, "");
    TrailerSkipped(key, "");
    hide Skip, Text, Key.Front, Key.Secret, Key.Back, CanonLen, Key.Valid;
    assert text + "" == text && key.Back() + "" == key.Back();
    SecretSkipped(key, key.Back());
    SkipParen(text, 2);
    FrontSkipped(key, "private-key", key.Secret() + key.Back(), "");
  }

  lemma FrontLength(key: Key)
    requires key.Valid()
    ensures |key.Front("protected-private-key")| > 26
    ensures "(11:private-key" + key.Front("protected-private-key")[25..] == key.Front("private-key")
  {
    FrontIs(key, "private-key");
    FrontIs(key, "protected-private-key");
    NamesJoin();
    hide Token, Key.Front, Key.Public, Key.Valid;
    var more := "(" + (Token(key.info.algo) + key.Public());
    assert |Token(key.info.algo)| > 0 by {
      TokenHead(key.info.algo, "");
      assert Token(key.info.algo) + "" == Token(key.info.algo);
    }
    assert |"(" + Token("protected-private-key")| == 25;
    Drop("(" + Token("protected-private-key"), more);
    assert "(11:" + "private-key" == "(11:private-key";
  }

  /** merge_lists puts the secret parameters back where the protected list was. */
  lemma MergeIs(key: Key, list: Octets, hash: Octets, time: Octets, clear: Octets, tail: Octets)
    requires key.Valid() && |time| == 15 && CanonLen(clear) > 0 && |clear| >= 2
    requires ClearParts(clear) == Ok((key.Secret(), hash))
    requires
      var end := Stamp(time) + (key.Back() + tail);
      && list != "" && list[0] == '(' && (list + end)[0] == '(' && Skip((list + end)[1..], 1) == Some(end)
      && CanonLen(key.Front("protected-private-key") + (list + end)) > 0
    ensures
      var end := Stamp(time) + (key.Back() + tail);
      Merge(key.Front("protected-private-key") + (list + end), list + end, clear)
      == Ok(Merged(hash, MergedText(key, time), |key.Front("private-key") + key.Secret()|, 35))
  {
    StampDecodes(key, time, tail);
    FrontLength(key);
    hide Stamp, Key.Front, Key.Secret, Key.Back, CanonLen, Key.Valid, Skip, StampLen, ClearParts;
    var end := Stamp(time) + (key.Back() + tail);
    var front := key.Front("protected-private-key");
    Drop(front, list + end);
    assert (front + (list + end))[25..|front|] == front[25..];
    assert end == (Stamp(time) + key.Back()) + tail;
    Drop(Stamp(time) + key.Back(), tail);
  }

  // ---------- the theorem ----------

  /** The searches in a protected key. */
  lemma SearchesSucceed(x: KeyCrypto, key: Key, pw: Octets, z: Nonce, tail: Octets)
    requires x.Sound() && key.Valid() && z.Valid()
    ensures
      var hash := x.sha1(key.Hashed(z.time));
      var enc := x.encrypt(pw, z.salt, z.count, z.iv, Block(key.Secret(), hash, z.pad));
      var end := Stamp(z.time) + (key.Back() + tail);
      var list := ProtectedList(x, key.Secret(), hash, pw, z);
      var body := Body(z.salt, z.count, z.iv, enc, end);
      && list != "" && list[0] == '(' && (list + end)[0] == '(' && Skip((list + end)[1..], 1) == Some(end)
      && FindStamp(key.Public() + (list + end)) == Ok(Some(z.time))
      && FindProtected(key.Public() + (list + end)) == Ok((list + end, body))
      && CipherInfo(body) == Ok(Cipher(z.salt, z.count, z.iv, enc))
      && CanonLen(key.Front("protected-private-key") + (list + end)) > 0
  {
    hide *;
    NonceParts(z);
    var hash := x.sha1(key.Hashed(z.time));
    var enc := x.encrypt(pw, z.salt, z.count, z.iv, Block(key.Secret(), hash, z.pad));
    var end := Stamp(z.time) + (key.Back() + tail);
    var list := ProtectedList(x, key.Secret(), hash, pw, z);
    var body := Body(z.salt, z.count, z.iv, enc, end);
    HashIs20(x, key.Hashed(z.time));
    DecryptedIs(x, key, hash, pw, z);
    ListIsTokens(x, key.Secret(), hash, pw, z, end);
    ListIsTokens(x, key.Secret(), hash, pw, z, "");
    assert list + "" == list;
    ListFound(z.salt, z.count, z.iv, enc, end);
    StampDecodes(key, z.time, tail);
    PublicSkipped(key, list + end);
    CipherDecodes(z.salt, z.count, z.iv, enc, end);
    ListOpens(list + end, end, tail);
    FrontSkipped(key, "protected-private-key", list + end, tail);
  }

  lemma HashIs20(x: KeyCrypto, data: Octets)
    requires x.Sound()
    ensures |x.sha1(data)| == 20
  {
  }

  lemma ListOpens(s: Octets, end: Octets, tail: Octets)
    requires s != "" && s[0] == '(' && Skip(s[1..], 1) == Some(end) && Skip(end, 2) == Some(tail)
    ensures Skip(s, 2) == Some(tail)
  {
    assert Skip(s, 2) == Skip(s[1..], 3);
    hide Skip;
    SkipTwice(s[1..], 1, 2);
  }

  /** Unprotecting what protecting made, with the same passphrase, gives back the key octet
      for octet, with every list that followed its parameters, and the time that was stored. */
  lemma UnprotectUndoesProtect(x: KeyCrypto, key: Key, pw: Octets, z: Nonce, wantTime: bool, tail: Octets)
    requires x.Sound() && key.Valid() && z.Valid()
    ensures Unprotect(x, key.ProtectedPlain(x, pw, z) + tail, pw, wantTime)
         == Ok(Unprotected(key.Plain(), if wantTime then Some(z.time) else None))
  {
    hide *;
    NonceParts(z);
    var hash := x.sha1(key.Hashed(z.time));
    var enc := x.encrypt(pw, z.salt, z.count, z.iv, Block(key.Secret(), hash, z.pad));
    var end := Stamp(z.time) + (key.Back() + tail);
    var list := ProtectedList(x, key.Secret(), hash, pw, z);
    HashIs20(x, key.Hashed(z.time));
    ProtectedPlainIs(x, key, pw, z);
    PlainRegroups(key.Front("protected-private-key"), list, Stamp(z.time), key.Back(), tail);
    SearchesSucceed(x, key, pw, z, tail);
    DecryptedIs(x, key, hash, pw, z);
    ListNonEmpty(Block(key.Secret(), hash, z.pad));
    MergeIs(key, list, hash, z.time, Block(key.Secret(), hash, z.pad), tail);
    MergedMic(x, key, z.time);
    CutIsPlain(key, hash, z.time);
    FrontDecodes(key, "protected-private-key", list + end);
    UnprotectSteps(x, key, key.ProtectedPlain(x, pw, z) + tail, pw, wantTime, z, list + end,
        Body(z.salt, z.count, z.iv, enc, end), enc, hash);
  }

  lemma ListNonEmpty(s: Octets)
    requires CanonLen(s) > 0
    ensures |s| >= 2
  {
    ClearLong(s);
  }

  lemma PlainRegroups(a: Octets, b: Octets, c: Octets, d: Octets, e: Octets)
    ensures (a + (b + (c + d))) + e == a + (b + (c + (d + e)))
  {
    Assoc(a, b + (c + d), e);
    Assoc(b, c + d, e);
    Assoc(c, d, e);
  }

  /** The steps of agent_unprotect, put together. */
  lemma UnprotectSteps(x: KeyCrypto, key: Key, text: Octets, pw: Octets, wantTime: bool, z: Nonce,
                       begin: Octets, body: Octets, enc: Octets, hash: Octets)
    requires key.Valid()
    requires text == key.Front("protected-private-key") + begin
    requires Head(text, "protected-private-key") == Ok("(" + (Token(key.info.algo) + (key.Public() + begin)))
    requires Expect("(" + (Token(key.info.algo) + (key.Public() + begin)), '(')
        == Some(Token(key.info.algo) + (key.Public() + begin))
    requires Next(Token(key.info.algo) + (key.Public() + begin))
        == Some((|key.info.algo|, key.info.algo + (key.Public() + begin)))
    requires FindAlgo(key.info.algo + (key.Public() + begin), |key.info.algo|, 0)
        == Some((key.info, key.Public() + begin))
    requires FindStamp(key.Public() + begin) == Ok(Some(z.time))
    requires FindProtected(key.Public() + begin) == Ok((begin, body))
    requires CipherInfo(body) == Ok(Cipher(z.salt, z.count, z.iv, enc))
    requires |z.pad| == BLOCK
    requires
      var clear := Block(key.Secret(), hash, z.pad);
      && Decrypted(x, pw, Cipher(z.salt, z.count, z.iv, enc)) == Ok(clear)
      && CanonLen(clear) > 0 && begin != "" && begin[0] == '('
      && Merge(text, begin, clear)
         == Ok(Merged(hash, MergedText(key, z.time), |key.Front("private-key") + key.Secret()|, 35))
    requires KeyMic(x, MergedText(key, z.time)) == Ok(hash)
    requires
      var front := key.Front("private-key") + key.Secret();
      && |front| + 35 <= |MergedText(key, z.time)|
      && Cut(Merged(hash, MergedText(key, z.time), |front|, 35)) == key.Plain()
      && CanonLen(key.Plain()) == |key.Plain()|
    ensures Unprotect(x, text, pw, wantTime) == Ok(Unprotected(key.Plain(), if wantTime then Some(z.time) else None))
  {
    hide Key.Valid, Key.Front, Key.Public, Key.Secret, Key.Plain, Head, Expect, Next, FindAlgo, FindStamp,
        FindProtected,
         CipherInfo, Decrypted, Merge, KeyMic, MergedText, Cut, CanonLen, Block, Token;
    assert key.Plain()[..|key.Plain()|] == key.Plain();
  }
}
