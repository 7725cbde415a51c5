/** Protected keys written out: which parameters of each algorithm are secret, what is hashed,
    what is encrypted, and where everything stands. */
module ProtectText {
  import opened Common
  import opened Sexp
  import opened ProtectSpec
  import opened ProtectRoundTrip

  /** Parameters with names of one letter. */
  function Named(names: string, values: seq<Octets>): Octets
    requires |names| == |values|
  {
    if names == "" then "" else "(1:" + [names[0]] + Token(values[0]) + ")" + Named(names[1..], values[1..])
  }

  lemma {:induction false} NamedIs(names: string, values: seq<Octets>)
    requires |names| == |values|
    ensures PairsText(names, values) == Named(names, values)
  {
    if names != "" {
      NamedIs(names[1..], values[1..]);
      OneName(names[0], values[0]);
      hide PairText, Token;
    }
  }

  lemma OneName(c: char, v: Octets)
    ensures PairText([c], v) == "(1:" + [c] + Token(v) + ")"
  {
    assert Token([c]) == "1:" + [c];
    hide Token;
    var t := Token(v);
    assert "(" + (("1:" + [c]) + (t + ")")) == "(1:" + [c] + t + ")";
  }

  /** A list with this many parameters of each kind is a key of the known algorithms. */
  predicate Known(algo: string, open: string, secret: string) {
    || (algo == "rsa" && open == "ne" && secret == "dpqu")
    || (algo == "dsa" && open == "pqgy" && secret == "x")
    || (algo == "elg" && open == "pgy" && secret == "x")
  }

  lemma KnownKey(algo: string, open: string, secret: string, values: seq<Octets>, trailer: seq<Tok>) returns (key: Key)
    requires Known(algo, open, secret) && |values| == |open| + |secret| && Closes(trailer, 1)
    requires forall v | v in values :: v != ""
    ensures key.Valid() && key.trailer == trailer && key.info.algo == algo
    ensures key.Public() == Named(open, values[..|open|]) && key.Secret() == Named(secret, values[|open|..])
  {
    var info := TheInfo(algo, open, secret);
    key := Key(info, values, trailer);
    NamedIs(open, values[..|open|]);
    NamedIs(secret, values[|open|..]);
    hide PairsText, Named, Closes;
  }

  lemma TheInfo(algo: string, open: string, secret: string) returns (info: Info)
    requires Known(algo, open, secret)
    ensures info in PROTECT_INFO && info.algo == algo
    ensures info.from == |open| && info.parms[..info.from] == open && info.parms[info.from..] == secret
    ensures |info.parms| == |open| + |secret|
  {
    info := if algo == "rsa" then PROTECT_INFO[0] else if algo == "dsa" then PROTECT_INFO[1] else PROTECT_INFO[2];
  }

  // ---------- the pieces ----------

  lemma FrontText(key: Key, name: Octets)
    requires key.Valid() && |key.info.algo| == 3 && (name == "private-key" || name == "protected-private-key")
    ensures key.Front(name)
         == (if name == "private-key" then "(11:private-key" else "(21:protected-private-key")
            + ("(3:" + key.info.algo + key.Public())
  {
    var algo, public := key.info.algo, key.Public();
    AlgoText(algo);
    PlainName();
    ProtectedName();
    hide Token, Key.Public;
    var inner := "(" + (Token(algo) + public);
    assert inner == "(3:" + algo + public;
    Assoc("(", Token(name), inner);
  }

  lemma AlgoText(algo: Octets)
    requires |algo| == 3
    ensures Token(algo) == "3:" + algo && "(" + "3:" == "(3:"
  {
  }

  lemma PlainName()
    ensures "(" + Token("private-key") == "(11:private-key"
  {
    TokenOfLength("private-key");
  }

  lemma ProtectedName()
    ensures "(" + Token("protected-private-key") == "(21:protected-private-key"
  {
    TokenOfLength("protected-private-key");
  }

  /** What the hash covers. */
  lemma HashedText(key: Key, time: Octets)
    requires key.Valid() && |key.info.algo| == 3
    ensures key.Hashed(time)
         == "(3:" + key.info.algo + key.Public() + key.Secret() + ("(12:protected-at15:" + time + ")") + ")"
  {
    var algo, public, private := key.info.algo, key.Public(), key.Secret();
    AlgoText(algo);
    hide Token, Key.Public, Key.Secret;
    var stamp := "(12:protected-at15:" + time + ")";
    assert Stamp(time) == stamp;
    HashedPieces(algo, public, private, stamp);
  }

  lemma HashedPieces(algo: Octets, public: Octets, private: Octets, stamp: Octets)
    ensures "(" + (("3:" + algo) + (public + (private + (stamp + ")"))))
         == "(3:" + algo + public + private + stamp + ")"
  {
    assert "(" + "3:" == "(3:";
  }

  /** What is encrypted. */
  lemma BlockText(secret: Octets, hash: Octets, pad: Octets)
    requires |pad| == 16
    ensures
      var clear := "((" + secret + ")(4:hash4:sha120:" + hash + "))" + pad;
      Block(secret, hash, pad) == clear[..|clear| / 16 * 16]
  {
    BlockPieces("((", secret, ")(4:hash4:sha120:", hash, "))", pad);
  }

  lemma BlockPieces(a: Octets, b: Octets, c: Octets, d: Octets, e: Octets, f: Octets)
    ensures a + (b + (c + (d + (e + f)))) == a + b + c + d + e + f
  {
  }

  lemma ListText(x: KeyCrypto, secret: Octets, hash: Octets, pw: Octets, z: Nonce)
    requires z.Valid()
    ensures
      var enc := x.encrypt(pw, z.salt, z.count, z.iv, Block(secret, hash, z.pad));
      ProtectedList(x, secret, hash, pw, z)
      == "(9:protected25:" + "openpgp-s2k3-sha1-aes-cbc" + "((4:sha18:" + z.salt + Token(Dec(z.count))
         + ")16:" + z.iv + ")" + Token(enc) + ")"
  {
    hide Token, Dec, Block;
    var enc := Token(x.encrypt(pw, z.salt, z.count, z.iv, Block(secret, hash, z.pad)));
    var count := Token(Dec(z.count));
    var tail := ")16:" + (z.iv + (")" + (enc + ")")));
    ListEnd(count, z.iv, enc);
    ListStart("(9:protected25:", MODE, "((4:sha18:", z.salt, count + tail);
    var front := "(9:protected25:" + MODE + "((4:sha18:" + z.salt;
    ListWhole(front, count, ")16:", z.iv, ")", enc);
  }

  lemma ListEnd(count: Octets, iv: Octets, enc: Octets)
    ensures count + (")16:" + (iv + (")" + (enc + ")")))) == count + ")16:" + iv + ")" + enc + ")"
  {
  }

  lemma ListStart(a: Octets, b: Octets, c: Octets, d: Octets, more: Octets)
    ensures a + (b + (c + (d + more))) == a + b + c + d + more
  {
  }

  lemma ListWhole(front: Octets, a: Octets, b: Octets, c: Octets, d: Octets, e: Octets)
    ensures front + (a + (b + (c + (d + (e + ")"))))) == front + a + b + c + d + e + ")"
  {
  }

  lemma PlainText(front: Octets, public: Octets, private: Octets, end: Octets, tail: Octets)
    ensures (front + public) + (private + (")" + end)) + tail == front + public + private + ")" + end + tail
  {
  }

  lemma WholeText(front: Octets, public: Octets, list: Octets, time: Octets, end: Octets)
    ensures (front + public) + (list + (time + (")" + end))) == front + public + list + time + ")" + end
  {
  }

  // ---------- the theorem ----------

  /** The protected form of a key, octet by octet.  The public parameters are in the clear in
      front of the protected list; the secret ones are only in what is encrypted, followed by
      the hash over all of them and the time, and cut to whole blocks of 16. */
  lemma ProtectedText(x: KeyCrypto, algo: string, open: string, secret: string, values: seq<Octets>,
                      trailer: seq<Tok>, tail: Octets, pw: Octets, z: Nonce)
    requires Known(algo, open, secret) && |values| == |open| + |secret| && Closes(trailer, 1) && z.Valid()
    requires forall v | v in values :: v != ""
    ensures
      var public := "(3:" + algo + Named(open, values[..|open|]);
      var private := Named(secret, values[|open|..]);
      var time := "(12:protected-at15:" + z.time + ")";
      var hash := x.sha1(public + private + time + ")");
      var clear := "((" + private + ")(4:hash4:sha120:" + hash + "))" + z.pad;
      var enc := x.encrypt(pw, z.salt, z.count, z.iv, clear[..|clear| / 16 * 16]);
      var list := "(9:protected25:" + "openpgp-s2k3-sha1-aes-cbc" + "((4:sha18:" + z.salt + Token(Dec(z.count))
                  + ")16:" + z.iv + ")" + Token(enc) + ")";
      Protect(x, "(11:private-key" + public + private + ")" + Text(trailer) + tail, pw, z)
      == Ok("(21:protected-private-key" + public + list + time + ")" + Text(trailer))
  {
    hide *;
    assert |algo| == 3 by {
      ThreeLetters(algo, open, secret);
    }
    var key := KnownKey(algo, open, secret, values, trailer);
    var public := "(3:" + algo + key.Public();
    var hash := x.sha1(key.Hashed(z.time));
    ProtectIs(x, key, tail, pw, z);
    ProtectedPlainIs(x, key, pw, z);
    FrontText(key, "private-key");
    FrontText(key, "protected-private-key");
    HashedText(key, z.time);
    NonceIs(z);
    BlockText(key.Secret(), hash, z.pad);
    ListText(x, key.Secret(), hash, pw, z);
    KeyTexts(key, z.time);
    PlainText("(11:private-key", public, key.Secret(), Text(trailer), tail);
    WholeText("(21:protected-private-key", public, ProtectedList(x, key.Secret(), hash, pw, z), Stamp(z.time),
              Text(trailer));
  }

  lemma ThreeLetters(algo: string, open: string, secret: string)
    requires Known(algo, open, secret)
    ensures |algo| == 3
  {
  }

  lemma NonceIs(z: Nonce)
    requires z.Valid()
    ensures |z.pad| == 16
  {
  }

  lemma KeyTexts(key: Key, time: Octets)
    requires key.Valid()
    ensures key.Plain() == key.Front("private-key") + (key.Secret() + (")" + Text(key.trailer)))
    ensures key.Back() == ")" + Text(key.trailer) && Stamp(time) == "(12:protected-at15:" + time + ")"
  {
    hide Key.Front, Key.Secret, Text;
  }

  // ---------- counts ----------

  /** Small counts are the octets of section 3.7.1.3 of RFC 4880: sixteen steps for each power
      of two, from 65536 for 96 on; what stands for fewer is refused, and so is a larger number
      below 65536. */
  lemma CountIs(c: nat)
    ensures c < 96 ==> Count(c) == Err(CorruptedProtection)
    ensures 96 <= c < 112 ==> Count(c) == Ok((16 + (c - 96)) * 4096)
    ensures 112 <= c < 256 ==> Count(c - 16).Ok? && Count(c) == Ok(2 * Count(c - 16).value)
    ensures c >= 256 ==> Count(c) == if c < 65536 then Err(CorruptedProtection) else Ok(c)
  {
    Powers();
    if c < 96 {
      Smaller(c);
    } else if c < 256 {
      assert c / 16 == 6 || c / 16 == 7 || c / 16 == 8 || c / 16 == 9 || c / 16 == 10 || c / 16 == 11
        || c / 16 == 12 || c / 16 == 13 || c / 16 == 14 || c / 16 == 15;
      assert c % 16 == (c - 16) % 16 && (c - 16) / 16 == c / 16 - 1;
    }
  }

  lemma Smaller(c: nat)
    requires c < 96
    ensures (16 + c % 16) * Pow2(c / 16 + 6) < 65536
  {
    Powers();
    assert c / 16 == 0 || c / 16 == 1 || c / 16 == 2 || c / 16 == 3 || c / 16 == 4 || c / 16 == 5;
  }

  lemma Powers()
    ensures Pow2(6) == 64 && Pow2(7) == 128 && Pow2(8) == 256 && Pow2(9) == 512 && Pow2(10) == 1024
    ensures Pow2(11) == 2048 && Pow2(12) == 4096 && Pow2(13) == 8192 && Pow2(14) == 16384 && Pow2(15) == 32768
    ensures Pow2(16) == 65536 && Pow2(17) == 131072 && Pow2(18) == 262144 && Pow2(19) == 524288
    ensures Pow2(20) == 1048576 && Pow2(21) == 2097152
  {
    assert Pow2(3) == 8;
    assert Pow2(6) == 64;
  }

  // ---------- errors ----------

  /** What is no list, no private key, or of an unknown algorithm is refused, each with its own
      error. */
  lemma Refused(x: KeyCrypto, name: Octets, s: Octets, pw: Octets, z: Nonce)
    requires z.Valid() && name != ""
    ensures s == "" || s[0] != '(' ==> Protect(x, s, pw, z) == Err(InvSexp)
    ensures name != "private-key" ==> Protect(x, "(" + (Token(name) + s), pw, z) == Err(UnknownSexp)
    ensures name != "rsa" && name != "dsa" && name != "elg" ==>
              Protect(x, "(" + (Token("private-key") + ("(" + (Token(name) + s))), pw, z) == Err(UnsupportedAlgorithm)
  {
    var inner := "(" + (Token(name) + s);
    NextToken(name, s);
    NextToken("private-key", inner);
    ExpectHere('(', Token(name) + s);
    ExpectHere('(', Token("private-key") + inner);
    Drop("private-key", inner);
    if name != "private-key" {
      NotThis(name, s, "private-key");
    }
    UnknownAlgo(name, s);
    hide Token, Next, FindAlgo, Params, Skip;
  }

  lemma NotThis(name: Octets, s: Octets, token: Octets)
    requires name != token
    ensures Match(name + s, |name|, token).None?
  {
    if token <= name + s && |name| == |token| {
      Drop(name, s);
    }
  }

  lemma UnknownAlgo(name: Octets, s: Octets)
    ensures name != "rsa" && name != "dsa" && name != "elg" ==> FindAlgo(name + s, |name|, 0).None?
  {
    if name != "rsa" && name != "dsa" && name != "elg" {
      NotThis(name, s, "rsa");
      NotThis(name, s, "dsa");
      NotThis(name, s, "elg");
      assert PROTECT_INFO[0].algo == "rsa" && PROTECT_INFO[1].algo == "dsa" && PROTECT_INFO[2].algo == "elg";
      hide Match;
      assert FindAlgo(name + s, |name|, 3).None?;
      assert FindAlgo(name + s, |name|, 2).None?;
      assert FindAlgo(name + s, |name|, 1).None?;
    }
  }

  /** With any other passphrase a protected key is refused as locked by another one exactly if
      the decryption does not begin with a list that ends in its last block. */
  lemma WrongPassphrase(x: KeyCrypto, key: Key, pw: Octets, other: Octets, z: Nonce, wantTime: bool, tail: Octets)
    requires x.Sound() && key.Valid() && z.Valid()
    ensures
      var enc := x.encrypt(pw, z.salt, z.count, z.iv, Block(key.Secret(), x.sha1(key.Hashed(z.time)), z.pad));
      var out := x.decrypt(other, z.salt, z.count, z.iv, enc);
      Unprotect(x, key.ProtectedPlain(x, pw, z) + tail, other, wantTime) == Err(BadPassphrase)
      <==> (At(out) != '(' && At(Advance(out, 1)) != '(') || CanonLen(out) == 0 || CanonLen(out) + 16 < |enc|
  {
    hide *;
    NonceParts(z);
    var hash := x.sha1(key.Hashed(z.time));
    var enc := x.encrypt(pw, z.salt, z.count, z.iv, Block(key.Secret(), hash, z.pad));
    var end := Stamp(z.time) + (key.Back() + tail);
    var list := ProtectedList(x, key.Secret(), hash, pw, z);
    var text := key.ProtectedPlain(x, pw, z) + tail;
    HashIs20(x, key.Hashed(z.time));
    ProtectedPlainIs(x, key, pw, z);
    PlainRegroups(key.Front("protected-private-key"), list, Stamp(z.time), key.Back(), tail);
    SearchesSucceed(x, key, pw, z, tail);
    DecryptedIs(x, key, hash, pw, z);
    DecryptedSize(x, pw, Cipher(z.salt, z.count, z.iv, enc));
    FrontDecodes(key, "protected-private-key", list + end);
    UnprotectIsDecrypted(x, key, text, other, wantTime, z, list + end, Body(z.salt, z.count, z.iv, enc, end), enc);
    DecryptedCases(x, other, Cipher(z.salt, z.count, z.iv, enc));
  }

  lemma DecryptedSize(x: KeyCrypto, pw: Octets, c: Cipher)
    requires Decrypted(x, pw, c).Ok?
    ensures |c.enc| >= 4 && |c.enc| % 16 == 0
  {
  }

  lemma DecryptedCases(x: KeyCrypto, pw: Octets, c: Cipher)
    requires |c.enc| >= 4 && |c.enc| % 16 == 0
    ensures
      var out := x.decrypt(pw, c.salt, c.count, c.iv, c.enc);
      && (Decrypted(x, pw, c).Err? ==> Decrypted(x, pw, c).error == BadPassphrase)
      && (Decrypted(x, pw, c).Err?
          <==> (At(out) != '(' && At(Advance(out, 1)) != '(') || CanonLen(out) == 0 || CanonLen(out) + 16 < |c.enc|)
  {
  }

  /** Behind the searches only the decryption can find the passphrase wrong. */
  lemma UnprotectIsDecrypted(x: KeyCrypto, key: Key, text: Octets, pw: Octets, wantTime: bool, z: Nonce,
                             begin: Octets, body: Octets, enc: Octets)
    requires key.Valid()
    requires Head(text, "protected-private-key") == Ok("(" + (Token(key.info.algo) + (key.Public() + begin)))
    requires Expect("(" + (Token(key.info.algo) + (key.Public() + begin)), '(')
          == Some(Token(key.info.algo) + (key.Public() + begin))
    requires Next(Token(key.info.algo) + (key.Public() + begin))
          == Some((|key.info.algo|, key.info.algo + (key.Public() + begin)))
    requires FindAlgo(key.info.algo + (key.Public() + begin), |key.info.algo|, 0)
          == Some((key.info, key.Public() + begin))
    requires FindStamp(key.Public() + begin) == Ok(Some(z.time))
    requires FindProtected(key.Public() + begin) == Ok((begin, body))
    requires CipherInfo(body) == Ok(Cipher(z.salt, z.count, z.iv, enc))
    ensures Unprotect(x, text, pw, wantTime) == Err(BadPassphrase)
       <==> Decrypted(x, pw, Cipher(z.salt, z.count, z.iv, enc)) == Err(BadPassphrase)
  {
    hide Key.Valid, Key.Public, Head, Expect, Next, FindAlgo, FindStamp, FindProtected, CipherInfo, Decrypted, Merge,
      KeyMic, Cut, CanonLen, Token;
    var d := Decrypted(x, pw, Cipher(z.salt, z.count, z.iv, enc));
    if d.Ok? {
      assert begin != "" && begin[0] == '(';
      MergeErrors(x, text, begin, d.value);
    }
  }

  lemma MergeErrors(x: KeyCrypto, text: Octets, begin: Octets, clear: Octets)
    requires |begin| <= |text| && begin != "" && begin[0] == '(' && CanonLen(clear) > 0
    ensures Merge(text, begin, clear) != Err(BadPassphrase)
    ensures forall list :: KeyMic(x, list) != Err(BadPassphrase)
  {
    ClearLong(clear);
    ClearErrors(clear);
    StampErrors();
    hide Skip, CanonLen, Next, ClearParts, StampLen;
    forall list ensures KeyMic(x, list) != Err(BadPassphrase) {
      MicErrors(x, list);
    }
  }

  lemma ClearErrors(clear: Octets)
    requires |clear| >= 2
    ensures ClearParts(clear) != Err(BadPassphrase)
  {
    PairsErrors(clear[2..]);
    hide Pairs, Next, NextIs;
  }

  lemma StampErrors()
    ensures forall s :: StampLen(s) != Err(BadPassphrase)
  {
    hide Skip, NextIs;
  }

  lemma {:induction false} PairsErrors(s: Octets)
    ensures Pairs(s) != Err(BadPassphrase)
    decreases |s|
  {
    hide Next;
    if At(s) == '(' && Pair(s).Ok? {
      PairsErrors(Pair(s).value[1..]);
    }
  }

  lemma MicErrors(x: KeyCrypto, list: Octets)
    ensures KeyMic(x, list) != Err(BadPassphrase)
  {
    var s1 := Head(list, "private-key");
    if s1.Ok? && Expect(s1.value, '(').Some? && SkipNext(Expect(s1.value, '(').value).Some? {
      PairsErrors(SkipNext(Expect(s1.value, '(').value).value);
    }
    hide Pairs, Next;
  }
}
