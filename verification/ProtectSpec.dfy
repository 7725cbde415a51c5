/** What protecting and unprotecting a private key make of any buffer, as functions of it.
    Positions in a buffer are the octets from there on. */
module ProtectSpec {
  import opened Common
  import opened Sexp

  datatype GpgError =
    | InvSexp
    | UnknownSexp
    | UnsupportedAlgorithm
    | UnsupportedProtection
    | UnsupportedProtocol
    | CorruptedProtection
    | BadPassphrase
    | InvValue
    | Bug

  function Need<T>(o: Option<T>, e: GpgError): Result<T, GpgError> {
    if o.Some? then Ok(o.value) else Err(e)
  }

  // ---------- primitives ----------

  /** Encryption in CBC mode under the key that the iterated S2K derives from passphrase, salt
      and count; and SHA-1. */
  datatype KeyCrypto = KeyCrypto(
    encrypt: (Octets, Octets, nat, Octets, Octets) -> Octets,
    decrypt: (Octets, Octets, nat, Octets, Octets) -> Octets,
    sha1: Octets -> Octets)
  {
    ghost predicate Sound() {
      && (forall pw, salt, count, iv, data | |data| % BLOCK == 0 ::
            |encrypt(pw, salt, count, iv, data)| == |data|
            && decrypt(pw, salt, count, iv, encrypt(pw, salt, count, iv, data)) == data)
      && (forall data :: |sha1(data)| == 20)
    }
  }

  const BLOCK := 16
  const MODE := "openpgp-s2k3-sha1-aes-cbc"
  const MIN_COUNT := 65536

  /** One line of the algorithm table: which of the parameters are secret. */
  datatype Info = Info(algo: string, parms: string, from: nat, to: nat)

  const PROTECT_INFO: seq<Info> := [
    Info("rsa", "nedpqu", 2, 5),
    Info("dsa", "pqgyx", 4, 4),
    Info("elg", "pgyx", 3, 3)]

  // ---------- common scanning ----------

  /** "(", a length and this name. */
  function Head(s: Octets, name: Octets): (r: Result<Octets, GpgError>)
    ensures r.Ok? ==> |r.value| + 2 + |name| <= |s|
  {
    var s1 :- Need(Expect(s, '('), InvSexp);
    var (n, s2) :- Need(Next(s1), InvSexp);
    Need(Match(s2, n, name), UnknownSexp)
  }

  /** The first table line whose name is here. */
  function FindAlgo(s: Octets, n: nat, i: nat): (r: Option<(Info, Octets)>)
    ensures r.Some? ==> |r.value.1| <= |s| && r.value.0 in PROTECT_INFO
    decreases 3 - i
  {
    if i >= |PROTECT_INFO| then None
    else
      match Match(s, n, PROTECT_INFO[i].algo)
      case Some(r) => Some((PROTECT_INFO[i], r))
      case None => FindAlgo(s, n, i + 1)
  }

  /** A name-value list; the position of its closing parenthesis. */
  function Pair(s: Octets): (r: Result<Octets, GpgError>)
    ensures r.Ok? ==> r.value != "" && r.value[0] == ')' && |r.value| < |s|
  {
    var s1 :- Need(Expect(s, '('), InvSexp);
    var s2 :- Need(SkipNext(s1), InvSexp);
    var s3 :- Need(SkipNext(s2), InvSexp);
    if At(s3) == ')' then Ok(s3) else Err(InvSexp)
  }

  /** As many name-value lists as there are. */
  function Pairs(s: Octets): (r: Result<Octets, GpgError>)
    ensures r.Ok? ==> |r.value| <= |s|
    decreases |s|
  {
    if At(s) != '(' then Ok(s)
    else
      var close :- Pair(s);
      Pairs(close[1..])
  }

  // ---------- protecting ----------

  function NamedPair(s: Octets, name: char): (r: Result<Octets, GpgError>)
    ensures r.Ok? ==> r.value != "" && r.value[0] == ')' && |r.value| < |s|
  {
    var s1 :- Need(Expect(s, '('), InvSexp);
    var (n, s2) :- Need(Next(s1), InvSexp);
    if n != 1 || At(s2) != name || s2 == "" then Err(InvSexp)
    else
      var s3 :- Need(SkipNext(s2[1..]), InvSexp);
      if At(s3) == ')' then Ok(s3) else Err(InvSexp)
  }

  /** Positions in the plain key: start of the hashed part, start of the secret parameters,
      their last closing parenthesis, end of the hashed part, end of the key. */
  datatype Parts = Parts(hashBegin: Octets, protBegin: Octets, protEnd: Octets, hashEnd: Octets, keyEnd: Octets)

  /** The parameters in the order of the table; where the secret ones begin and end. */
  function Params(s: Octets, info: Info, i: nat, begin: Octets, end: Octets): (r: Result<(Octets, Octets, Octets),
                  GpgError>)
    requires info.from <= info.to < |info.parms| && i <= |info.parms|
    requires i > info.from ==> |s| < |begin|
    requires i > info.to ==> |s| < |end| < |begin|
    ensures r.Ok? ==> |r.value.2| < |r.value.1| < |r.value.0| <= Max(|s|, |begin|)
    decreases |info.parms| - i
  {
    if i == |info.parms| then Ok((begin, end, s))
    else
      var begin' := if i == info.from then s else begin;
      var close :- NamedPair(s, info.parms[i]);
      var end' := if i == info.to then close else end;
      Params(close[1..], info, i + 1, begin', end')
  }

  function KeyParts(plain: Octets): (r: Result<Parts, GpgError>)
    ensures r.Ok? ==>
      var p := r.value;
      && |p.keyEnd| < |p.hashEnd| < |p.protEnd| < |p.protBegin| < |p.hashBegin| && |p.hashBegin| + 13 <= |plain|
  {
    var s1 :- Head(plain, "private-key");
    var s2 :- Need(Expect(s1, '('), UnknownSexp);
    var (n, s3) :- Need(Next(s2), InvSexp);
    var (info, s4) :- Need(FindAlgo(s3, n, 0), UnsupportedAlgorithm);
    TableOrdered();
    var (begin, end, s5) :- Params(s4, info, 0, "", "");
    var s6 :- Need(Expect(s5, ')'), InvSexp);
    var s7 :- Need(Skip(s6, 1), InvSexp);
    Ok(Parts(s1, begin, end, s5, s7))
  }

  lemma TableOrdered()
    ensures forall info | info in PROTECT_INFO :: info.from <= info.to == |info.parms| - 1
  {
  }

  /** The fresh random values and the time of one protection. */
  datatype Nonce = Nonce(iv: Octets, pad: Octets, salt: Octets, count: nat, time: Octets) {
    predicate Valid() {
      |iv| == BLOCK && |pad| == BLOCK && |salt| == 8 && |time| == 15 && count >= MIN_COUNT
    }
  }

  function Stamp(time: Octets): Octets {
    "(12:protected-at15:" + time + ")"
  }

  /** The text that is encrypted: the secret parameters, the MIC and as much padding as fills
      the last block. */
  function Block(secret: Octets, hash: Octets, pad: Octets): Octets
    requires |pad| == BLOCK
  {
    var text := "((" + (secret + (")(4:hash4:sha120:" + (hash + ("))" + pad))));
    text[..|text| / BLOCK * BLOCK]
  }

  /** do_encryption */
  function ProtectedList(x: KeyCrypto, secret: Octets, hash: Octets, pw: Octets, z: Nonce): Octets
    requires z.Valid()
  {
    var enc := x.encrypt(pw, z.salt, z.count, z.iv, Block(secret, hash, z.pad));
    "(9:protected25:" + (MODE + ("((4:sha18:" + (z.salt
        + (Token(Dec(z.count)) + (")16:" + (z.iv + (")" + (Token(enc) + ")"))))))))
  }

  function Mic(x: KeyCrypto, plain: Octets, p: Parts, time: Octets): Octets
    requires |p.hashEnd| <= |p.hashBegin|
  {
    x.sha1(p.hashBegin[..|p.hashBegin| - |p.hashEnd|] + Stamp(time) + ")")
  }

  /** agent_protect */
  function Protect(x: KeyCrypto, plain: Octets, pw: Octets, z: Nonce): Result<Octets, GpgError>
    requires z.Valid()
  {
    var p :- KeyParts(plain);
    var secret := p.protBegin[..|p.protBegin| - |p.protEnd| + 1];
    Ok("(21:protected-"
       + plain[4..|plain| - |p.protBegin|]
       + ProtectedList(x, secret, Mic(x, plain, p, z.time), pw, z)
       + Stamp(z.time)
       + p.protEnd[1..|p.protEnd| - |p.keyEnd|])
  }

  // ---------- unprotecting ----------

  function Take(s: Octets, n: nat): (r: Octets)
    ensures |r| <= n && (n <= |s| ==> |r| == n)
  {
    if n <= |s| then s[..n] else s
  }

  /** The list behind a name, skipped. */
  function RestOfList(s: Octets, n: nat): (r: Result<Octets, GpgError>)
    ensures r.Ok? ==> |r.value| <= |s|
  {
    Need(Skip(Advance(s, n), 1), InvSexp)
  }

  /** The loop that looks for the time stamp. */
  function FindStamp(s: Octets): Result<Option<Octets>, GpgError>
    decreases |s|
  {
    if At(s) != '(' then Ok(None)
    else
      var (n, s1) :- Need(Next(s[1..]), InvSexp);
      match Match(s1, n, "protected-at")
      case Some(s2) =>
        var (m, s3) :- Need(Next(s2), InvSexp);
        if m != 15 then Err(UnknownSexp) else Ok(Some(Take(s3, 15)))
      case None =>
        var s2 :- RestOfList(s1, n);
        FindStamp(s2)
  }

  /** The loop that looks for the protected list: where it begins and what follows its name. */
  function FindProtected(s: Octets): (r: Result<(Octets, Octets), GpgError>)
    ensures r.Ok? ==> |r.value.1| < |r.value.0| <= |s| && r.value.0[0] == '('
    decreases |s|
  {
    if At(s) != '(' then Err(InvSexp)
    else
      var (n, s1) :- Need(Next(s[1..]), InvSexp);
      match Match(s1, n, "protected")
      case Some(s2) => Ok((s, s2))
      case None =>
        var s2 :- RestOfList(s1, n);
        FindProtected(s2)
  }

  /** Two raised to e. */
  function Pow2(e: nat): (p: nat)
    ensures p > 0
  {
    if e == 0 then 1 else 2 * Pow2(e - 1)
  }

  /** The stored count, where values below 256 are the old one-octet encoding. */
  function Count(c: nat): Result<nat, GpgError> {
    if c == 0 then Err(CorruptedProtection)
    else
      var count := if c < 256 then (16 + c % 16) * Pow2(c / 16 + 6) else c;
      if count < MIN_COUNT then Err(CorruptedProtection) else Ok(count)
  }

  datatype Cipher = Cipher(salt: Octets, count: nat, iv: Octets, enc: Octets)

  /** The parameters of the protected list from behind its name on. */
  function CipherInfo(s: Octets): Result<Cipher, GpgError> {
    var (n1, s1) :- Need(Next(s), InvSexp);
    var s2 :- Need(Match(s1, n1, MODE), UnsupportedProtection);
    var s3 :- Need(Expect(s2, '('), InvSexp);
    var s4 :- Need(Expect(s3, '('), InvSexp);
    var (n5, s5) :- Need(Next(s4), InvSexp);
    var s6 :- Need(Match(s5, n5, "sha1"), UnsupportedProtection);
    var (n7, s7) :- Need(Next(s6), CorruptedProtection);
    if n7 != 8 then Err(CorruptedProtection) else CipherCount(Take(s7, 8), Advance(s7, 8))
  }

  function CipherCount(salt: Octets, s: Octets): Result<Cipher, GpgError> {
    var (n, s1) :- Need(Next(s), CorruptedProtection);
    var s2 :- Need(Expect(Advance(s1, n), ')'), InvSexp);
    var count :- Count(Digits(s1, 0).0);
    var (n3, s3) :- Need(Next(s2), CorruptedProtection);
    if n3 != BLOCK then Err(CorruptedProtection)
    else
      var s4 :- Need(Expect(Advance(s3, BLOCK), ')'), InvSexp);
      var (n5, s5) :- Need(Next(s4), InvSexp);
      Ok(Cipher(salt, count, Take(s3, BLOCK), Take(s5, n5)))
  }

  /** do_decryption */
  function Decrypted(x: KeyCrypto, pw: Octets, c: Cipher): (r: Result<Octets, GpgError>)
    ensures r.Ok? ==> CanonLen(r.value) > 0
  {
    if |c.enc| < 4 || |c.enc| % BLOCK != 0 then Err(CorruptedProtection)
    else
      var out := x.decrypt(pw, c.salt, c.count, c.iv, c.enc);
      if At(out) != '(' && At(Advance(out, 1)) != '(' then Err(BadPassphrase)
      else if CanonLen(out) == 0 || CanonLen(out) + BLOCK < |c.enc| then Err(BadPassphrase)
      else Ok(out)
  }

  /** The secret parameters and the MIC in the decrypted text. */
  function ClearParts(clear: Octets): (r: Result<(Octets, Octets), GpgError>)
    requires |clear| >= 2
  {
    var s1 := clear[2..];
    var s2 :- Pairs(s1);
    var s3 :- Need(Expect(s2, ')'), InvSexp);
    var s4 :- Need(Expect(s3, '('), InvSexp);
    var s5 :- Need(NextIs(s4, "hash"), InvSexp);
    var s6 :- Need(NextIs(s5, "sha1"), InvSexp);
    var (n, s7) :- Need(Next(s6), InvSexp);
    if n != 20 || At(Advance(s7, 20)) != ')' then Err(InvSexp)
    else Ok((s1[..|s1| - |s2|], s7[..20]))
  }

  /** The length of the time stamp list if one follows directly. */
  function StampLen(s: Octets): (r: Result<nat, GpgError>)
    ensures r.Ok? ==> r.value <= |s|
  {
    if At(s) != '(' then Ok(0)
    else
      match NextIs(s[1..], "protected-at")
      case None => Ok(0)
      case Some(s1) =>
        NextIsShrinks(s[1..], "protected-at");
        var s2 :- Need(Skip(s1, 1), InvSexp);
        Ok(|s| - |s2|)
  }

  lemma NextIsShrinks(s: Octets, token: Octets)
    ensures NextIs(s, token).Some? ==> |NextIs(s, token).value| < |s|
  {
  }

  /** merge_lists: the MIC that was stored, the new list, and the part of it that counts for
      the MIC but has to go. */
  datatype Merged = Merged(hash: Octets, list: Octets, cutOff: nat, cutLen: nat)

  function Merge(key: Octets, begin: Octets, clear: Octets): (r: Result<Merged, GpgError>)
    requires |begin| <= |key| && begin != "" && begin[0] == '(' && CanonLen(clear) > 0
    ensures r.Ok? ==> r.value.cutOff + r.value.cutLen <= |r.value.list|
  {
    var pos := |key| - |begin|;
    if pos < 26 || CanonLen(key) == 0 then Err(Bug)
    else
      ClearLong(clear);
      var (secret, hash) :- ClearParts(clear);
      var s1 :- Need(Skip(begin[1..], 1), InvSexp);
      var cutLen :- StampLen(s1);
      var s2 :- Need(Skip(s1, 2), InvSexp);
      StampInside(s1);
      var front := "(11:private-key" + key[25..pos] + secret;
      Ok(Merged(hash, front + s1[..|s1| - |s2|], if cutLen == 0 then 0 else |front|, cutLen))
  }

  lemma ClearLong(s: Octets)
    requires CanonLen(s) > 0
    ensures |s| >= 2
  {
  }

  lemma {:induction false} PairsKeepDepth(s: Octets, depth: nat)
    requires Pairs(s).Ok? && depth > 0
    ensures Skip(s, depth) == Skip(Pairs(s).value, depth)
    decreases |s|
  {
    if At(s) == '(' {
      var close := Pair(s).value;
      PairKeepsDepth(s, depth);
      PairsKeepDepth(close[1..], depth);
    }
  }

  lemma PairKeepsDepth(s: Octets, depth: nat)
    requires Pair(s).Ok? && depth > 0
    ensures Skip(s, depth) == Skip(Pair(s).value[1..], depth)
  {
    var s1 := s[1..];
    var s2 := SkipNext(s1).value;
    TokenSkipped(s1, depth + 1);
    TokenSkipped(s2, depth + 1);
  }

  lemma PairsShrink(s: Octets)
    ensures Pairs(s).Ok? ==> |Pairs(s).value| <= |s|
  {
  }

  /** The time stamp list lies within what is left of the two enclosing lists. */
  lemma StampInside(s: Octets)
    ensures StampLen(s).Ok? && Skip(s, 2).Some? ==> StampLen(s).value <= |s| - |Skip(s, 2).value|
  {
    if At(s) == '(' && NextIs(s[1..], "protected-at").Some? {
      var (n, r) := Next(s[1..]).value;
      var s1 := NextIs(s[1..], "protected-at").value;
      assert Advance(r, n) == s1;
      NextIsDigit(s[1..]);
      assert Skip(s, 2) == Skip(s1, 3);
      SkipTwice(s1, 1, 2);
    }
  }

  /** calculate_mic */
  function KeyMic(x: KeyCrypto, list: Octets): Result<Octets, GpgError> {
    var s1 :- Head(list, "private-key");
    var s2 :- Need(Expect(s1, '('), UnknownSexp);
    var s3 :- Need(SkipNext(s2), InvSexp);
    var s4 :- Pairs(s3);
    var s5 :- Need(Expect(s4, ')'), InvSexp);
    Ok(x.sha1(s1[..|s1| - |s5|]))
  }

  /** The key and, if one is wanted and there, the time of protection. */
  datatype Unprotected = Unprotected(key: Octets, time: Option<Octets>)

  function Cut(m: Merged): Octets
    requires m.cutOff + m.cutLen <= |m.list|
  {
    m.list[..m.cutOff] + m.list[m.cutOff + m.cutLen..]
  }

  /** agent_unprotect; the reported length of the result is that of its list. */
  function Unprotect(x: KeyCrypto, key: Octets, pw: Octets, wantTime: bool): Result<Unprotected, GpgError> {
    var s1 :- Head(key, "protected-private-key");
    var s2 :- Need(Expect(s1, '('), UnknownSexp);
    var (n, s3) :- Need(Next(s2), InvSexp);
    var (_, s4) :- Need(FindAlgo(s3, n, 0), UnsupportedAlgorithm);
    var time :- if wantTime then FindStamp(s4) else Ok(None);
    var (begin, s5) :- FindProtected(s4);
    var cipher :- CipherInfo(s5);
    var clear :- Decrypted(x, pw, cipher);
    var m :- Merge(key, begin, clear);
    var mic :- KeyMic(x, m.list);
    if mic != m.hash then Err(CorruptedProtection)
    else
      var whole := Cut(m);
      Ok(Unprotected(whole[..CanonLen(whole)], time))
  }
}
