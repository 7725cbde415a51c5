/** protect.c: the scanning and splicing that protects and unprotects a private key, each
    step equal to its function in ProtectSpec for every buffer. */
module Protect {
  import opened Common
  import opened Sexp
  import opened ProtectSpec
  import opened ProtectRoundTrip

  // ---------- scanning ----------

  method ReadHead(s: Octets, name: Octets) returns (r: Result<Octets, GpgError>)
    ensures r == Head(s, name)
  {
    if At(s) != '(' || s == "" {
      return Err(InvSexp);
    }
    var n, cur := Snext(s[1..]);
    if n == 0 {
      return Err(InvSexp);
    }
    var ok;
    ok, cur := Smatch(cur, n, name);
    if !ok {
      return Err(UnknownSexp);
    }
    return Ok(cur);
  }

  /** The search of the algorithm table. */
  method LookUpAlgo(s: Octets, n: nat) returns (found: bool, info: Info, rest: Octets)
    ensures found <==> FindAlgo(s, n, 0).Some?
    ensures found ==> (info, rest) == FindAlgo(s, n, 0).value
  {
    found, info, rest := false, PROTECT_INFO[0], s;
    var i := 0;
    while i < |PROTECT_INFO|
      invariant i <= |PROTECT_INFO| && rest == s
      invariant FindAlgo(s, n, 0) == FindAlgo(s, n, i)
    {
      info := PROTECT_INFO[i];
      found, rest := Smatch(s, n, info.algo);
      if found {
        return;
      }
      i := i + 1;
    }
  }

  /** A name-value list of any name. */
  method ReadPair(s: Octets) returns (r: Result<Octets, GpgError>)
    ensures r == Pair(s)
  {
    if s == "" || s[0] != '(' {
      return Err(InvSexp);
    }
    var n, cur := Snext(s[1..]);
    if n == 0 {
      return Err(InvSexp);
    }
    cur := Advance(cur, n);
    n, cur := Snext(cur);
    if n == 0 {
      return Err(InvSexp);
    }
    cur := Advance(cur, n);
    if At(cur) != ')' {
      return Err(InvSexp);
    }
    return Ok(cur);
  }

  method ReadPairs(s: Octets) returns (r: Result<Octets, GpgError>)
    ensures r == Pairs(s)
  {
    hide Pair;
    var cur := s;
    while At(cur) == '('
      invariant Pairs(s) == Pairs(cur)
      decreases |cur|
    {
      var close := ReadPair(cur);
      if close.Err? {
        return Err(close.error);
      }
      cur := close.value[1..];
    }
    return Ok(cur);
  }

  // ---------- protecting ----------

  method ReadNamedPair(s: Octets, name: char) returns (r: Result<Octets, GpgError>)
    ensures r == NamedPair(s, name)
  {
    if s == "" || s[0] != '(' {
      return Err(InvSexp);
    }
    var n, cur := Snext(s[1..]);
    if n == 0 {
      return Err(InvSexp);
    }
    if n != 1 || cur == "" || cur[0] != name {
      return Err(InvSexp);
    }
    n, cur := Snext(cur[1..]);
    if n == 0 {
      return Err(InvSexp);
    }
    cur := Advance(cur, n);
    if At(cur) != ')' {
      return Err(InvSexp);
    }
    return Ok(cur);
  }

  /** The loop over the table's parameters, which notes where the secret ones begin and end. */
  method ReadParams(s: Octets, info: Info) returns (r: Result<(Octets, Octets, Octets), GpgError>)
    requires info.from <= info.to < |info.parms|
    ensures r == Params(s, info, 0, "", "")
  {
    hide NamedPair;
    var cur, begin, end := s, "", "";
    var i := 0;
    while i < |info.parms|
      invariant i <= |info.parms|
      invariant i > info.from ==> |cur| < |begin|
      invariant i > info.to ==> |cur| < |end| < |begin|
      invariant Params(s, info, 0, "", "") == Params(cur, info, i, begin, end)
    {
      if i == info.from {
        begin := cur;
      }
      var close := ReadNamedPair(cur, info.parms[i]);
      if close.Err? {
        return Err(close.error);
      }
      if i == info.to {
        end := close.value;
      }
      cur := close.value[1..];
      i := i + 1;
    }
    return Ok((begin, end, cur));
  }

  method ReadKeyParts(plain: Octets) returns (r: Result<Parts, GpgError>)
    ensures r == KeyParts(plain)
  {
    hide Head, Next, FindAlgo, Params, Skip;
    TableOrdered();
    var head := ReadHead(plain, "private-key");
    if head.Err? {
      return Err(head.error);
    }
    var hashBegin := head.value;
    if hashBegin == "" || hashBegin[0] != '(' {
      return Err(UnknownSexp);
    }
    var n, cur := Snext(hashBegin[1..]);
    if n == 0 {
      return Err(InvSexp);
    }
    var found, info;
    found, info, cur := LookUpAlgo(cur, n);
    if !found {
      return Err(UnsupportedAlgorithm);
    }
    var params := ReadParams(cur, info);
    if params.Err? {
      return Err(params.error);
    }
    var (protBegin, protEnd, hashEnd) := params.value;
    if hashEnd == "" || hashEnd[0] != ')' {
      return Err(InvSexp);
    }
    var ok, keyEnd := Sskip(hashEnd[1..], 1);
    if !ok {
      return Err(InvSexp);
    }
    return Ok(Parts(hashBegin, protBegin, protEnd, hashEnd, keyEnd));
  }

  /** memcpy over a placeholder in the middle of a text. */
  method Overwrite(s: Octets, pos: nat, v: Octets, ghost a: Octets, ghost blank: Octets, ghost b: Octets)
    returns (r: Octets)
    requires pos == |a| && s == a + (blank + b) && |blank| == |v|
    ensures r == a + (v + b)
  {
    Assoc(a, blank, b);
    Drop(a, blank + b);
    Drop(a + blank, b);
    r := s[..pos] + v + s[pos + |v|..];
    Assoc(a, v, b);
  }

  /** do_encryption: the list is printed with placeholders, which are then overwritten. */
  method DoEncryption(x: KeyCrypto, secret: Octets, hash: Octets, pw: Octets, z: Nonce) returns (list: Octets)
    requires x.Sound() && z.Valid() && |hash| == 20
    ensures list == ProtectedList(x, secret, hash, pw, z)
  {
    var outLen := 2 + |secret| + 2 + 6 + 6 + 23 + 2 + BLOCK;
    var encLen := outLen / BLOCK * BLOCK;
    var out := "((";
    out := out + secret;
    out := out + ")(4:hash4:sha120:";
    out := out + hash;
    out := out + "))";
    out := out + z.pad;
    assert |out| == outLen;
    assert out == "((" + (secret + (")(4:hash4:sha120:" + (hash + ("))" + z.pad))));
    assert out[..encLen] == Block(secret, hash, z.pad);
    hide Block;
    assert |Block(secret, hash, z.pad)| % BLOCK == 0;
    var enc := x.encrypt(pw, z.salt, z.count, z.iv, out[..encLen]);
    assert |enc| == encLen;
    list := PrintList(z, enc);
  }

  method PrintList(z: Nonce, enc: Octets) returns (list: Octets)
    requires z.Valid()
    ensures list == "(9:protected25:" + (MODE + ("((4:sha18:"
        + (z.salt + (Token(Dec(z.count)) + (")16:" + (z.iv + (")" + (Token(enc) + ")"))))))))
  {
    hide Dec;
    var count := Dec(z.count);
    var a := "(9:protected25:" + (MODE + "((4:sha18:");
    var b := Dec(|count|) + ":" + count + ")16:";
    var c := ")" + (Dec(|enc|) + ":");
    var blankIv, blankEnc := seq(BLOCK, _ => ' '), seq(|enc|, _ => ' ');
    list := Printed(a, "_8bytes_", b, blankIv, c, blankEnc);
    var saltPos := |a|;
    var ivPos := |a| + 8 + |b|;
    var encPos := ivPos + BLOCK + |c|;
    list := Overwrite3(list, a, z.salt, b, z.iv, c, enc, saltPos, ivPos, encPos);
    assert Token(count) == Dec(|count|) + ":" + count && Token(enc) == Dec(|enc|) + ":" + enc;
    hide *;
    ListPieces("(9:protected25:", MODE, "((4:sha18:", z.salt, Dec(|count|) + ":" + count, ")16:", z.iv,
               Dec(|enc|) + ":", enc);
  }

  lemma ListPieces(a: Octets, b: Octets, c: Octets, d: Octets, e: Octets, f: Octets, g: Octets, h: Octets, i: Octets)
    ensures (a + (b + c)) + (d + ((e + f) + (g + ((")" + h) + (i + ")")))))
        == a + (b + (c + (d + (e + (f + (g + (")" + ((h + i) + ")"))))))))
  {
    var k := i + ")";
    assert (h + i) + ")" == h + k;
    assert (")" + h) + k == ")" + (h + k);
    var l := g + (")" + (h + k));
    assert (e + f) + l == e + (f + l);
    var m := d + (e + (f + l));
    assert (a + (b + c)) + m == a + (b + (c + m));
  }

  function Printed(a: Octets, s: Octets, b: Octets, v: Octets, c: Octets, e: Octets): Octets {
    a + (s + (b + (v + (c + (e + ")")))))
  }

  method Overwrite3(text: Octets, a: Octets, salt: Octets, b: Octets, iv: Octets, c: Octets, enc: Octets, saltPos: nat,
                    ivPos: nat, encPos: nat)
    returns (list: Octets)
    requires |salt| == 8 && |iv| == BLOCK
    requires saltPos == |a| && ivPos == |a| + 8 + |b| && encPos == ivPos + BLOCK + |c|
    requires text == Printed(a, "_8bytes_", b, seq(BLOCK, _ => ' '), c, seq(|enc|, _ => ' '))
    ensures list == Printed(a, salt, b, iv, c, enc)
  {
    ghost var blankIv: Octets := seq(BLOCK, _ => ' ');
    ghost var blankEnc: Octets := seq(|enc|, _ => ' ');
    ghost var t2 := c + (blankEnc + ")");
    list := Overwrite(text, saltPos, salt, a, "_8bytes_", b + (blankIv + t2));
    ghost var a2 := a + (salt + b);
    Regrouped(a, salt, b, blankIv + t2);
    list := Overwrite(list, ivPos, iv, a2, blankIv, t2);
    ghost var a3 := a2 + (iv + c);
    Regrouped(a2, iv, c, blankEnc + ")");
    list := Overwrite(list, encPos, enc, a3, blankEnc, ")");
    Regrouped(a2, iv, c, enc + ")");
    Regrouped(a, salt, b, iv + (c + (enc + ")")));
  }

  lemma Regrouped(a: Octets, b: Octets, c: Octets, d: Octets)
    ensures a + (b + (c + d)) == (a + (b + c)) + d
  {
    Assoc(b, c, d);
    Assoc(a, b + c, d);
  }

  /** agent_protect: fails exactly on a key that is not well formed for its algorithm. */
  method AgentProtect(x: KeyCrypto, plain: Octets, pw: Octets, z: Nonce) returns (r: Result<Octets, GpgError>)
    requires x.Sound() && z.Valid()
    ensures r == ProtectSpec.Protect(x, plain, pw, z)
  {
    hide KeyParts, ProtectedList;
    var stamp := "(12:protected-at15:";
    stamp := stamp + z.time;
    stamp := stamp + ")";
    var parts := ReadKeyParts(plain);
    if parts.Err? {
      return Err(parts.error);
    }
    var p := parts.value;
    var hashed := p.hashBegin[..|p.hashBegin| - |p.hashEnd|];
    hashed := hashed + stamp;
    hashed := hashed + ")";
    var hash := x.sha1(hashed);
    var secret := p.protBegin[..|p.protBegin| - |p.protEnd| + 1];
    var list := DoEncryption(x, secret, hash, pw, z);
    var out := "(21:protected-";
    out := out + plain[4..|plain| - |p.protBegin|];
    out := out + list;
    out := out + stamp;
    out := out + p.protEnd[1..|p.protEnd| - |p.keyEnd|];
    return Ok(out);
  }

  // ---------- unprotecting ----------

  /** The loop that looks for the time stamp. */
  method ReadStamp(s: Octets) returns (r: Result<Option<Octets>, GpgError>)
    ensures r == FindStamp(s)
  {
    hide Next, Skip;
    var cur := s;
    while At(cur) == '('
      invariant FindStamp(s) == FindStamp(cur)
      decreases |cur|
    {
      var n, rest := Snext(cur[1..]);
      if n == 0 {
        return Err(InvSexp);
      }
      var ok;
      ok, rest := Smatch(rest, n, "protected-at");
      if ok {
        n, rest := Snext(rest);
        if n == 0 {
          return Err(InvSexp);
        }
        if n != 15 {
          return Err(UnknownSexp);
        }
        return Ok(Some(Take(rest, 15)));
      }
      ok, cur := Sskip(Advance(rest, n), 1);
      if !ok {
        return Err(InvSexp);
      }
    }
    return Ok(None);
  }

  /** The loop that looks for the protected list. */
  method ReadProtected(s: Octets) returns (r: Result<(Octets, Octets), GpgError>)
    ensures r == FindProtected(s)
  {
    hide Next, Skip;
    var cur := s;
    while true
      invariant FindProtected(s) == FindProtected(cur)
      decreases |cur|
    {
      if At(cur) != '(' {
        return Err(InvSexp);
      }
      var n, rest := Snext(cur[1..]);
      if n == 0 {
        return Err(InvSexp);
      }
      var ok;
      ok, rest := Smatch(rest, n, "protected");
      if ok {
        return Ok((cur, rest));
      }
      ok, cur := Sskip(Advance(rest, n), 1);
      if !ok {
        return Err(InvSexp);
      }
    }
  }

  /** strtoul on digits. */
  method ReadNumber(s: Octets) returns (n: nat)
    ensures n == Digits(s, 0).0
  {
    n := 0;
    var cur := s;
    while cur != "" && '0' <= cur[0] <= '9'
      invariant Digits(s, 0) == Digits(cur, n)
      decreases |cur|
    {
      n := n * 10 + (cur[0] as int - '0' as int);
      cur := cur[1..];
    }
  }

  /** 16 + the low half, shifted left by the high half and six. */
  method DecodeCount(c: nat) returns (r: Result<nat, GpgError>)
    ensures r == Count(c)
  {
    if c == 0 {
      return Err(CorruptedProtection);
    }
    var count := c;
    if count < 256 {
      var shift := count / 16 + 6;
      count := 16 + count % 16;
      for i := 0 to shift
        invariant count == (16 + c % 16) * Pow2(i)
      {
        assert (16 + c % 16) * Pow2(i + 1) == count * 2 by {
          Doubled(16 + c % 16, Pow2(i));
        }
        count := count * 2;
      }
    }
    if count < MIN_COUNT {
      return Err(CorruptedProtection);
    }
    return Ok(count);
  }

  lemma Doubled(a: nat, b: nat)
    ensures a * (2 * b) == a * b * 2
  {
  }

  method ReadCipherCount(salt: Octets, s: Octets) returns (r: Result<Cipher, GpgError>)
    ensures r == CipherCount(salt, s)
  {
    hide Next, Digits, Count;
    var n, cur := Snext(s);
    if n == 0 {
      return Err(CorruptedProtection);
    }
    var rest := Advance(cur, n);
    if rest == "" || rest[0] != ')' {
      return Err(InvSexp);
    }
    var number := ReadNumber(cur);
    var count := DecodeCount(number);
    if count.Err? {
      return Err(count.error);
    }
    n, cur := Snext(rest[1..]);
    if n != BLOCK {
      return Err(CorruptedProtection);
    }
    var iv := Take(cur, BLOCK);
    cur := Advance(cur, BLOCK);
    if cur == "" || cur[0] != ')' {
      return Err(InvSexp);
    }
    n, cur := Snext(cur[1..]);
    if n == 0 {
      return Err(InvSexp);
    }
    return Ok(Cipher(salt, count.value, iv, Take(cur, n)));
  }

  method ReadCipher(s: Octets) returns (r: Result<Cipher, GpgError>)
    ensures r == CipherInfo(s)
  {
    hide Next, CipherCount;
    var n, cur := Snext(s);
    if n == 0 {
      return Err(InvSexp);
    }
    var ok;
    ok, cur := Smatch(cur, n, MODE);
    if !ok {
      return Err(UnsupportedProtection);
    }
    if At(cur) != '(' || At(Advance(cur, 1)) != '(' {
      return Err(InvSexp);
    }
    n, cur := Snext(cur[2..]);
    if n == 0 {
      return Err(InvSexp);
    }
    ok, cur := Smatch(cur, n, "sha1");
    if !ok {
      return Err(UnsupportedProtection);
    }
    n, cur := Snext(cur);
    if n != 8 {
      return Err(CorruptedProtection);
    }
    r := ReadCipherCount(Take(cur, 8), Advance(cur, 8));
  }

  /** do_decryption */
  method DoDecryption(x: KeyCrypto, pw: Octets, c: Cipher) returns (r: Result<Octets, GpgError>)
    ensures r == Decrypted(x, pw, c)
  {
    if |c.enc| < 4 || |c.enc| % BLOCK != 0 {
      return Err(CorruptedProtection);
    }
    var out := x.decrypt(pw, c.salt, c.count, c.iv, c.enc);
    if At(out) != '(' && At(Advance(out, 1)) != '(' {
      return Err(BadPassphrase);
    }
    var realLen := ListLength(out);
    if realLen == 0 || realLen + BLOCK < |c.enc| {
      return Err(BadPassphrase);
    }
    return Ok(out);
  }

  method ReadClear(clear: Octets) returns (r: Result<(Octets, Octets), GpgError>)
    requires |clear| >= 2
    ensures r == ClearParts(clear)
  {
    hide Next, Pairs;
    var start := clear[2..];
    var pairs := ReadPairs(start);
    if pairs.Err? {
      return Err(pairs.error);
    }
    var end := pairs.value;
    if end == "" || end[0] != ')' {
      return Err(InvSexp);
    }
    var cur := end[1..];
    if cur == "" || cur[0] != '(' {
      return Err(InvSexp);
    }
    var n, ok;
    n, cur := Snext(cur[1..]);
    if n == 0 {
      return Err(InvSexp);
    }
    ok, cur := Smatch(cur, n, "hash");
    if !ok {
      return Err(InvSexp);
    }
    n, cur := Snext(cur);
    if n == 0 {
      return Err(InvSexp);
    }
    ok, cur := Smatch(cur, n, "sha1");
    if !ok {
      return Err(InvSexp);
    }
    n, cur := Snext(cur);
    if n != 20 || At(Advance(cur, 20)) != ')' {
      return Err(InvSexp);
    }
    return Ok((start[..|start| - |end|], cur[..20]));
  }

  method ReadStampLen(s: Octets) returns (r: Result<nat, GpgError>)
    ensures r == StampLen(s)
  {
    hide Next, Skip;
    if At(s) != '(' {
      return Ok(0);
    }
    var n, cur := Snext(s[1..]);
    if n == 0 {
      return Ok(0);
    }
    var ok;
    ok, cur := Smatch(cur, n, "protected-at");
    if !ok {
      return Ok(0);
    }
    ok, cur := Sskip(cur, 1);
    if !ok {
      return Err(InvSexp);
    }
    return Ok(|s| - |cur|);
  }

  /** merge_lists */
  method MergeLists(key: Octets, begin: Octets, clear: Octets) returns (r: Result<Merged, GpgError>)
    requires |begin| <= |key| && begin != "" && begin[0] == '(' && CanonLen(clear) > 0
    ensures r == Merge(key, begin, clear)
  {
    hide CanonLen, ClearParts, Skip, StampLen;
    var replacePos := |key| - |begin|;
    if replacePos < 26 {
      return Err(Bug);
    }
    var n := ListLength(key);
    if n == 0 {
      return Err(Bug);
    }
    n := ListLength(clear);
    ClearLong(clear);
    var list := "(11:private-key";
    list := list + key[25..replacePos];
    var parts := ReadClear(clear);
    if parts.Err? {
      return Err(parts.error);
    }
    var (secret, hash) := parts.value;
    list := list + secret;
    var ok, start := Sskip(begin[1..], 1);
    if !ok {
      return Err(InvSexp);
    }
    var cutLen := ReadStampLen(start);
    if cutLen.Err? {
      return Err(cutLen.error);
    }
    var end;
    ok, end := Sskip(start, 2);
    if !ok {
      return Err(InvSexp);
    }
    var cutOff := if cutLen.value != 0 then |list| else 0;
    list := list + start[..|start| - |end|];
    return Ok(Merged(hash, list, cutOff, cutLen.value));
  }

  /** calculate_mic */
  method CalculateMic(x: KeyCrypto, list: Octets) returns (r: Result<Octets, GpgError>)
    ensures r == KeyMic(x, list)
  {
    hide Head, Next, Pairs;
    var head := ReadHead(list, "private-key");
    if head.Err? {
      return Err(head.error);
    }
    var begin := head.value;
    if begin == "" || begin[0] != '(' {
      return Err(UnknownSexp);
    }
    var n, cur := Snext(begin[1..]);
    if n == 0 {
      return Err(InvSexp);
    }
    var pairs := ReadPairs(Advance(cur, n));
    if pairs.Err? {
      return Err(pairs.error);
    }
    cur := pairs.value;
    if cur == "" || cur[0] != ')' {
      return Err(InvSexp);
    }
    return Ok(x.sha1(begin[..|begin| - |cur[1..]|]));
  }

  /** agent_unprotect */
  method AgentUnprotect(x: KeyCrypto, key: Octets, pw: Octets, wantTime: bool)
    returns (r: Result<Unprotected, GpgError>)
    ensures r == Unprotect(x, key, pw, wantTime)
  {
    hide Head, Next, FindAlgo, FindStamp, FindProtected, CipherInfo, Decrypted, Merge, KeyMic, CanonLen, Cut;
    var head := ReadHead(key, "protected-private-key");
    if head.Err? {
      return Err(head.error);
    }
    var cur := head.value;
    if cur == "" || cur[0] != '(' {
      return Err(UnknownSexp);
    }
    var n, found, info;
    n, cur := Snext(cur[1..]);
    if n == 0 {
      return Err(InvSexp);
    }
    found, info, cur := LookUpAlgo(cur, n);
    if !found {
      return Err(UnsupportedAlgorithm);
    }
    var time: Option<Octets> := None;
    if wantTime {
      var stamp := ReadStamp(cur);
      if stamp.Err? {
        return Err(stamp.error);
      }
      time := stamp.value;
    }
    var list := ReadProtected(cur);
    if list.Err? {
      return Err(list.error);
    }
    var (begin, rest) := list.value;
    r := DecryptAndMerge(x, key, pw, begin, rest, time);
  }

  /** From the protected list on. */
  function Finish(x: KeyCrypto, key: Octets, pw: Octets, begin: Octets, rest: Octets,
                  time: Option<Octets>): Result<Unprotected, GpgError>
    requires |begin| <= |key| && begin != "" && begin[0] == '('
  {
    var cipher :- CipherInfo(rest);
    var clear :- Decrypted(x, pw, cipher);
    var m :- Merge(key, begin, clear);
    var mic :- KeyMic(x, m.list);
    if mic != m.hash then Err(CorruptedProtection)
    else
      var whole := Cut(m);
      Ok(Unprotected(whole[..CanonLen(whole)], time))
  }

  method DecryptAndMerge(x: KeyCrypto, key: Octets, pw: Octets, begin: Octets, rest: Octets, time: Option<Octets>)
    returns (r: Result<Unprotected, GpgError>)
    requires |begin| <= |key| && begin != "" && begin[0] == '('
    ensures r == Finish(x, key, pw, begin, rest, time)
  {
    hide CipherInfo, Decrypted, Merge, KeyMic, CanonLen;
    var cipher := ReadCipher(rest);
    if cipher.Err? {
      return Err(cipher.error);
    }
    var clear := DoDecryption(x, pw, cipher.value);
    if clear.Err? {
      return Err(clear.error);
    }
    var merged := MergeLists(key, begin, clear.value);
    if merged.Err? {
      return Err(merged.error);
    }
    var m := merged.value;
    var mic := CalculateMic(x, m.list);
    if mic.Err? {
      return Err(mic.error);
    }
    if mic.value != m.hash {
      return Err(CorruptedProtection);
    }
    var final := m.list;
    if m.cutLen != 0 {
      final := final[..m.cutOff] + final[m.cutOff + m.cutLen..];
    } else {
      assert Cut(m) == final;
    }
    var length := ListLength(final);
    return Ok(Unprotected(final[..length], time));
  }

  /** Both halves together. */
  method ProtectThenUnprotect(x: KeyCrypto, key: Key, pw: Octets, z: Nonce, wantTime: bool)
    returns (p: Result<Octets, GpgError>, u: Result<Unprotected, GpgError>)
    requires x.Sound() && key.Valid() && z.Valid()
    ensures p.Ok? && u == Ok(Unprotected(key.Plain(), if wantTime then Some(z.time) else None))
  {
    hide ProtectSpec.Protect, Unprotect, Key.Plain, Key.ProtectedPlain, Key.Valid;
    p := AgentProtect(x, key.Plain(), pw, z);
    assert key.Plain() + "" == key.Plain();
    ProtectIs(x, key, "", pw, z);
    u := AgentUnprotect(x, p.value, pw, wantTime);
    assert p.value + "" == p.value;
    UnprotectUndoesProtect(x, key, pw, z, wantTime, "");
  }
}
