/** The PKCS#12 reader itself: walks over the buffer with early exits, each equal to the function of
    its input given in P12Reader, for every input. */
module P12Parse {
  import opened Common
  import opened Der
  import opened P12Layout
  import opened P12Reader

  method ReadUniversal(s: seq<byte>, universal: bool, tag: nat) returns (ok: bool, ti: TagInfo, rest: seq<byte>)
    ensures ok == Enter(s, universal, tag).Some?
    ensures ok ==> (ti, rest) == Enter(s, universal, tag).value
  {
    ok, ti, rest := ParseTag(s);
    if ok && ((universal && ti.cls != 0) || ti.tag != tag) {
      ok := false;
    }
  }

  method ReadContext(s: seq<byte>) returns (ok: bool, ti: TagInfo, rest: seq<byte>)
    ensures ok == EnterContext(s).Some?
    ensures ok ==> (ti, rest) == EnterContext(s).value
  {
    ok, ti, rest := ParseTag(s);
    if ok && (ti.cls != 2 || ti.tag != 0) {
      ok := false;
    }
  }

  method ReadOid(s: seq<byte>, universal: bool, oid: seq<byte>) returns (ok: bool, rest: seq<byte>)
    ensures ok == ExpectOid(s, universal, oid).Some?
    ensures ok ==> rest == ExpectOid(s, universal, oid).value
  {
    var ti;
    ok, ti, rest := ReadUniversal(s, universal, OBJECT_ID);
    if !ok {
      return;
    }
    if ti.length != |oid| || rest[..|oid|] != oid {
      return false, s;
    }
    rest := rest[|oid|..];
  }

  method ReadVersion(s: seq<byte>, universal: bool, v: byte) returns (ok: bool, rest: seq<byte>)
    ensures ok == ExpectInteger(s, universal, v).Some?
    ensures ok ==> rest == ExpectInteger(s, universal, v).value
  {
    var ti;
    ok, ti, rest := ReadUniversal(s, universal, INTEGER);
    if !ok {
      return;
    }
    if ti.length != 1 || rest[0] != v {
      return false, s;
    }
    assert [v] <= rest;
    rest := rest[1..];
  }

  /** cram_octet_string */
  method CramOctetString(s: seq<byte>) returns (ok: bool, joined: seq<byte>, after: seq<byte>)
    ensures ok == Crammed(s, []).Some?
    ensures ok ==> (joined, after) == Crammed(s, []).value
  {
    joined, after := [], s;
    while true
      invariant Crammed(s, []) == Crammed(after, joined)
      decreases |after|
    {
      var ti, rest;
      ok, ti, rest := ParseTag(after);
      if !ok {
        return;
      }
      if ti.cls == 0 && ti.tag == OCTET_STRING && !ti.ndef && !ti.constructed {
        joined := joined + rest[..ti.length];
        after := rest[ti.length..];
      } else if ti.cls == 0 && ti.tag == 0 && !ti.constructed {
        return true, joined, rest;
      } else {
        return false, joined, after;
      }
    }
  }

  /** gcry_mpi_scan */
  method ScanNumber(s: seq<byte>) returns (n: nat)
    ensures n == MpiScan(s)
  {
    n := 0;
    for i := 0 to |s|
      invariant n == MpiScan(s[..i])
    {
      assert s[..i + 1][..i] == s[..i];
      n := n * 256 + s[i];
    }
    assert s[..|s|] == s;
  }

  lemma WrapStep(a: nat, b: nat)
    ensures (a % 0x1_0000_0000 * 256 + b) % 0x1_0000_0000 == (a * 256 + b) % 0x1_0000_0000
  {
    var q := a / 0x1_0000_0000;
    assert a * 256 + b == a % 0x1_0000_0000 * 256 + b + 0x1_0000_0000 * (256 * q);
  }

  /** The iteration count as an unsigned int. */
  method ReadIterations(s: seq<byte>) returns (n: nat)
    ensures n == MpiScan(s) % 0x1_0000_0000
  {
    n := 0;
    for i := 0 to |s|
      invariant n == MpiScan(s[..i]) % 0x1_0000_0000
    {
      assert MpiScan(s[..i + 1]) == MpiScan(s[..i]) * 256 + s[i] by {
        assert s[..i + 1][..i] == s[..i];
      }
      WrapStep(MpiScan(s[..i]), s[i]);
      n := (n * 256 + s[i]) % 0x1_0000_0000;
    }
    assert s[..|s|] == s;
  }

  // ---------- a private key ----------

  /** The loop over the key parameters. */
  method ReadKeyParams(s: seq<byte>, length: nat) returns (ok: bool, key: seq<nat>, rest: seq<byte>)
    ensures ok == KeyParams(s, length, []).Some?
    ensures ok ==> (key, rest) == KeyParams(s, length, []).value
  {
    hide Decoded, MpiScan;
    ok, key, rest := false, [], s;
    var len: nat := length;
    while len != 0 && |key| < 9
      invariant KeyParams(s, length, []) == KeyParams(rest, len, key)
      decreases |rest|
    {
      var good, ti, cur := ReadUniversal(rest, true, INTEGER);
      if !good {
        return;
      }
      if len < ti.nhdr {
        return;
      }
      if len - ti.nhdr < ti.length {
        return;
      }
      len := len - ti.nhdr - ti.length;
      var value := cur[..ti.length];
      if !(|key| == 0 && ti.length == 1 && cur[0] == 0) {
        var k := ScanNumber(value);
        assert !(key == [] && value == [0]);
        key := key + [k];
      } else {
        assert key == [] && value == [0];
      }
      rest := cur[ti.length..];
    }
    ok := len == 0;
  }

  method ReadRsaAlgorithm(s: seq<byte>) returns (ok: bool, rest: seq<byte>)
    ensures ok == SkipRsaAlgorithm(s).Some?
    ensures ok ==> rest == SkipRsaAlgorithm(s).value
  {
    hide Enter;
    var outer, ti;
    ok, outer, rest := ReadUniversal(s, true, SEQUENCE);
    if !ok {
      return;
    }
    ok, ti, rest := ReadUniversal(rest, true, OBJECT_ID);
    if !ok {
      return;
    }
    ok := false;
    var len := outer.length;
    if len < ti.nhdr {
      return;
    }
    len := len - ti.nhdr;
    if ti.length != |OID_RSA| || rest[..|OID_RSA|] != OID_RSA {
      return;
    }
    rest := rest[|OID_RSA|..];
    if len < ti.length {
      return;
    }
    len := len - ti.length;
    if |rest| < len {
      return;
    }
    ok, rest := true, rest[len..];
  }

  /** The private key object, read in the same way in a data bag and in a key bag. */
  method ReadKeyInfo(s: seq<byte>) returns (ok: bool, key: seq<nat>, rest: seq<byte>)
    ensures ok == KeyInfo(s).Some?
    ensures ok ==> (key, rest) == KeyInfo(s).value
  {
    hide Enter, ExpectInteger, SkipRsaAlgorithm, KeyParams;
    key := [];
    var ti;
    ok, ti, rest := ReadUniversal(s, true, SEQUENCE);
    if !ok {
      return;
    }
    ok, rest := ReadVersion(rest, true, 0);
    if !ok {
      return;
    }
    ok, rest := ReadRsaAlgorithm(rest);
    if !ok {
      return;
    }
    ok, ti, rest := ReadUniversal(rest, true, OCTET_STRING);
    if !ok {
      return;
    }
    ok, ti, rest := ReadUniversal(rest, true, SEQUENCE);
    if !ok {
      return;
    }
    ok, key, rest := ReadKeyParams(rest, ti.length);
  }

  // ---------- decryption ----------

  method ReadPbeParams(s: seq<byte>) returns (ok: bool, salt: seq<byte>, iter: nat, rest: seq<byte>)
    ensures ok == PbeParams(s).Some?
    ensures ok ==> (salt, iter, rest) == PbeParams(s).value
  {
    hide Enter, MpiScan;
    salt, iter := [], 0;
    var ti;
    ok, ti, rest := ReadUniversal(s, true, SEQUENCE);
    if !ok {
      return;
    }
    ok, ti, rest := ReadUniversal(rest, true, OCTET_STRING);
    if !ok {
      return;
    }
    if ti.length < 8 || ti.length > 20 {
      ok := false;
      return;
    }
    salt, rest := rest[..ti.length], rest[ti.length..];
    ok, ti, rest := ReadUniversal(rest, true, INTEGER);
    if !ok {
      return;
    }
    if ti.length == 0 {
      ok := false;
      return;
    }
    iter := ReadIterations(rest[..ti.length]);
    rest := rest[ti.length..];
  }

  /** decrypt_block: the password as it is and then its conversions, until one works. */
  method DecryptBlock(x: Crypto, data: seq<byte>, salt: seq<byte>, iter: nat, pw: seq<byte>, others: seq<seq<byte>>,
                      c: Cipher, check: seq<byte> -> bool)
    returns (plain: seq<byte>)
    ensures plain == Plaintext(x, data, salt, iter, pw, others, c, check)
  {
    hide CryptBlock;
    plain := CryptBlock(x, data, salt, iter, pw, c, false);
    var current, i := pw, 0;
    while !check(plain) && i < |others|
      invariant i <= |others|
      invariant plain == CryptBlock(x, data, salt, iter, current, c, false)
      invariant Plaintext(x, data, salt, iter, pw, others, c, check)
          == Plaintext(x, data, salt, iter, current, others[i..], c, check)
    {
      current := others[i];
      assert others[i..][1..] == others[i + 1..];
      plain := CryptBlock(x, data, salt, iter, current, c, false);
      i := i + 1;
    }
  }

  // ---------- a data bag ----------

  method ReadDataBagString(s: seq<byte>) returns (ok: bool, crammed: bool, consumed: nat, rest: seq<byte>)
    ensures ok == DataBagString(s).Some?
    ensures ok ==> (crammed, consumed, rest) == DataBagString(s).value
  {
    hide Enter, EnterContext, Crammed;
    crammed, consumed := false, 0;
    var ti;
    ok, ti, rest := ReadContext(s);
    if !ok {
      return;
    }
    ok, ti, rest := ReadUniversal(rest, true, OCTET_STRING);
    if !ok {
      return;
    }
    consumed := |s| - |rest|;
    if ti.constructed && ti.ndef {
      var joined, after;
      ok, joined, after := CramOctetString(rest);
      if !ok {
        return;
      }
      consumed := consumed + (|rest| - |after|);
      rest, crammed := joined, true;
    }
  }

  method ReadShroudedKey(s: seq<byte>) returns (ok: bool, salt: seq<byte>, iter: nat, enc: seq<byte>, rest: seq<byte>)
    ensures ok == ShroudedKeyAt(s).Some?
    ensures ok ==> (salt, iter, enc, rest) == ShroudedKeyAt(s).value
  {
    hide Enter, EnterContext, ExpectOid, PbeParams;
    salt, iter, enc := [], 0, [];
    var ti;
    ok, ti, rest := ReadUniversal(s, true, SEQUENCE);
    if !ok {
      return;
    }
    ok, ti, rest := ReadUniversal(rest, true, SEQUENCE);
    if !ok {
      return;
    }
    ok, rest := ReadOid(rest, true, OID_SHROUDED_KEY_BAG);
    if !ok {
      return;
    }
    ok, ti, rest := ReadContext(rest);
    if !ok {
      return;
    }
    ok, ti, rest := ReadUniversal(rest, true, SEQUENCE);
    if !ok {
      return;
    }
    ok, ti, rest := ReadUniversal(rest, true, SEQUENCE);
    if !ok {
      return;
    }
    ok, rest := ReadOid(rest, true, OID_PBE_3DES);
    if !ok {
      return;
    }
    ok, salt, iter, rest := ReadPbeParams(rest);
    if !ok {
      return;
    }
    ok, ti, rest := ReadUniversal(rest, true, OCTET_STRING);
    if !ok {
      return;
    }
    ok := ti.length != 0;
    enc := rest[..ti.length];
  }

  /** parse_bag_data */
  method ParseBagData(x: Crypto, s: seq<byte>, pw: seq<byte>, others: seq<seq<byte>>)
    returns (ok: bool, key: seq<nat>, consumed: nat)
    ensures ok == BagData(x, s, pw, others).Some?
    ensures ok ==> (key, consumed) == BagData(x, s, pw, others).value
  {
    hide DataBagString, ShroudedKeyAt, Plaintext, KeyInfo, BagDataP;
    key, consumed := [], 0;
    var crammed, cur, rest, salt, iter, enc;
    ok, crammed, consumed, cur := ReadDataBagString(s);
    if !ok {
      return;
    }
    ok, salt, iter, enc, cur := ReadShroudedKey(cur);
    if !ok {
      return;
    }
    if !crammed {
      consumed := consumed + (|s| - |cur| + |enc|);
    }
    var plain := DecryptBlock(x, enc, salt, iter, pw, others, TripleDes, BagDataP);
    ok, key, rest := ReadKeyInfo(plain);
  }

  // ---------- an encrypted bag ----------

  method ReadEncryptedHeader(s: seq<byte>) returns (ok: bool, c: Cipher, salt: seq<byte>, iter: nat, rest: seq<byte>)
    ensures ok == EncryptedHeader(s).Some?
    ensures ok ==> (c, salt, iter, rest) == EncryptedHeader(s).value
  {
    hide Enter, EnterContext, ExpectOid, ExpectInteger, PbeParams;
    c, salt, iter := Rc2, [], 0;
    var ti;
    ok, ti, rest := ReadContext(s);
    if !ok {
      return;
    }
    ok, ti, rest := ReadUniversal(rest, false, SEQUENCE);
    if !ok {
      return;
    }
    ok, rest := ReadVersion(rest, false, 0);
    if !ok {
      return;
    }
    ok, ti, rest := ReadUniversal(rest, false, SEQUENCE);
    if !ok {
      return;
    }
    ok, rest := ReadOid(rest, false, OID_DATA);
    if !ok {
      return;
    }
    ok, ti, rest := ReadUniversal(rest, true, SEQUENCE);
    if !ok {
      return;
    }
    ok, ti, rest := ReadUniversal(rest, true, OBJECT_ID);
    if !ok {
      return;
    }
    if ti.length == |OID_PBE_RC2_40| && rest[..|OID_PBE_RC2_40|] == OID_PBE_RC2_40 {
      rest := rest[|OID_PBE_RC2_40|..];
    } else if ti.length == |OID_PBE_3DES| && rest[..|OID_PBE_3DES|] == OID_PBE_3DES {
      rest, c := rest[|OID_PBE_3DES|..], TripleDes;
    } else {
      ok := false;
      return;
    }
    ok, salt, iter, rest := ReadPbeParams(rest);
  }

  method ReadCiphertext(s: seq<byte>, total: nat) returns (ok: bool, enc: seq<byte>, consumed: int)
    ensures ok == Ciphertext(s, total).Some?
    ensures ok ==> (enc, consumed) == Ciphertext(s, total).value
  {
    hide Decoded, Crammed;
    enc, consumed := [], 0;
    var ti, rest;
    ok, ti, rest := ParseTag(s);
    if !ok {
      return;
    }
    consumed := total - |rest|;
    if ti.cls == 2 && ti.tag == 0 && ti.constructed && ti.ndef {
      var after;
      ok, enc, after := CramOctetString(rest);
      if ok {
        consumed := consumed + (|rest| - |after|);
      }
    } else if ti.cls == 2 && ti.tag == 0 && ti.length != 0 {
      enc := rest[..ti.length];
    } else {
      ok := false;
    }
  }

  method ReadCert(s: seq<byte>) returns (ok: bool, cert: seq<byte>, rest: seq<byte>)
    ensures ok == CertAt(s).Some?
    ensures ok ==> (cert, rest) == CertAt(s).value
  {
    hide Enter, EnterContext, ExpectOid;
    cert := [];
    var ti;
    ok, ti, rest := ReadUniversal(s, true, SEQUENCE);
    if !ok {
      return;
    }
    ok, rest := ReadOid(rest, true, OID_X509);
    if !ok {
      return;
    }
    ok, ti, rest := ReadContext(rest);
    if !ok {
      return;
    }
    ok, ti, rest := ReadUniversal(rest, true, OCTET_STRING);
    if !ok {
      return;
    }
    ok := !ti.ndef;
    cert, rest := rest[..ti.length], rest[ti.length..];
  }

  /** The body of the loop over the bags: one certificate, CRL or key bag. */
  method ReadOneBag(s: seq<byte>, wantKey: bool)
    returns (ok: bool, found: seq<seq<byte>>, key: Option<seq<nat>>, rest: seq<byte>)
    ensures ok == OneBag(s, wantKey).Some?
    ensures ok ==> (found, key, rest) == OneBag(s, wantKey).value
  {
    hide Enter, EnterContext, CertAt, KeyInfo;
    found, key := [], None;
    var ti;
    ok, ti, rest := ReadUniversal(s, true, OBJECT_ID);
    if !ok {
      return;
    }
    var isCrl, isKey := false, false;
    if ti.length == |OID_CERT_BAG| && rest[..|OID_CERT_BAG|] == OID_CERT_BAG {
    } else if ti.length == |OID_CRL_BAG| && rest[..|OID_CRL_BAG|] == OID_CRL_BAG {
      isCrl := true;
    } else if ti.length == |OID_KEY_BAG| && rest[..|OID_KEY_BAG|] == OID_KEY_BAG {
      isKey := true;
    } else {
      ok := false;
      return;
    }
    rest := rest[ti.length..];
    ok, ti, rest := ReadContext(rest);
    if !ok {
      return;
    }
    if isCrl || (isKey && !wantKey) {
      rest := rest[ti.length..];
    } else if isKey {
      var k;
      ok, k, rest := ReadKeyInfo(rest);
      key := Some(k);
    } else {
      var cert;
      ok, cert, rest := ReadCert(rest);
      found := [cert];
    }
  }

  /** What follows a bag: padding, attributes, the next bag. */
  method ReadNextBag(s: seq<byte>) returns (ok: bool, ti: TagInfo, rest: seq<byte>)
    ensures ok == NextBag(s).Some?
    ensures ok ==> (ti, rest) == NextBag(s).value
  {
    hide Decoded;
    ok, ti, rest := true, NO_TAG, s;
    if |rest| <= 8 {
      rest := [];
      return;
    }
    ok, ti, rest := ParseTag(rest);
    if !ok {
      return;
    }
    if ti.cls == 0 && ti.tag == SEQUENCE {
    } else if ti.cls == 0 && ti.tag == SET && !ti.ndef {
      rest := rest[ti.length..];
      if |rest| <= 8 {
        ti, rest := NO_TAG, [];
      } else {
        ok, ti, rest := ParseTag(rest);
      }
    } else {
      ok := false;
    }
  }

  /** The loop over all bags of the decrypted sequence.  Certificates go to the callback as
      they are found. */
  method ReadPlainBags(plain: seq<byte>, wantKey: bool) returns (o: Outcome)
    ensures o == PlainBags(plain, wantKey)
  {
    hide Enter, Decoded, OneBag, NextBag;
    var ok, ti, cur := ReadUniversal(plain, true, SEQUENCE);
    if !ok {
      return Outcome(false, [], None);
    }
    ok, ti, cur := ParseTag(cur);
    if !ok {
      return Outcome(false, [], None);
    }
    var certs: seq<seq<byte>> := [];
    var key: Option<seq<nat>> := None;
    while |cur| != 0
      invariant PlainBags(plain, wantKey) == BagLoop(cur, ti, certs, key, wantKey)
      decreases |cur|
    {
      if ti.cls != 0 || ti.tag != SEQUENCE {
        return Outcome(false, certs, None);
      }
      var found, k, rest;
      ok, found, k, rest := ReadOneBag(cur, key.None? && wantKey);
      if !ok {
        return Outcome(false, certs, None);
      }
      certs := certs + found;
      if k.Some? {
        key := k;
      }
      ok, ti, cur := ReadNextBag(rest);
      if !ok {
        return Outcome(false, certs, None);
      }
    }
    return Outcome(true, certs, key);
  }

  /** parse_bag_encrypted_data */
  method ParseBagEncryptedData(x: Crypto, s: seq<byte>, pw: seq<byte>, others: seq<seq<byte>>, wantKey: bool)
    returns (o: Outcome, consumed: int)
    ensures (o, consumed) == BagEncryptedData(x, s, pw, others, wantKey)
  {
    hide EncryptedHeader, Ciphertext, Plaintext, PlainBags, BagDecryptedDataP;
    o, consumed := Outcome(false, [], None), 0;
    var ok, c, salt, iter, rest := ReadEncryptedHeader(s);
    if !ok {
      return;
    }
    var enc, used;
    ok, enc, used := ReadCiphertext(rest, |s|);
    if !ok {
      return;
    }
    consumed := used;
    var plain := DecryptBlock(x, enc, salt, iter, pw, others, c, BagDecryptedDataP);
    o := ReadPlainBags(plain, wantKey);
  }

  // ---------- the whole ----------

  method FindBags(s: seq<byte>) returns (ok: bool, ti: TagInfo, rest: seq<byte>)
    ensures ok == BagsAt(s).Some?
    ensures ok ==> (ti, rest) == BagsAt(s).value
  {
    hide Enter, EnterContext, ExpectOid, ExpectInteger, Crammed;
    ok, ti, rest := ReadUniversal(s, false, SEQUENCE);
    if !ok {
      return;
    }
    ok, rest := ReadVersion(rest, false, 3);
    if !ok {
      return;
    }
    ok, ti, rest := ReadUniversal(rest, false, SEQUENCE);
    if !ok {
      return;
    }
    ok, rest := ReadOid(rest, false, OID_DATA);
    if !ok {
      return;
    }
    ok, ti, rest := ReadContext(rest);
    if !ok {
      return;
    }
    ok, ti, rest := ReadUniversal(rest, true, OCTET_STRING);
    if !ok {
      return;
    }
    if ti.constructed && ti.ndef {
      var after;
      ok, rest, after := CramOctetString(rest);
      if !ok {
        return;
      }
    }
    ok, ti, rest := ReadUniversal(rest, true, SEQUENCE);
  }

  /** The contents of one outer bag. */
  method ReadBagStep(x: Crypto, ti: TagInfo, s: seq<byte>, ndef: bool, length: int, key: Option<seq<nat>>,
                     pw: seq<byte>, others: seq<seq<byte>>)
    returns (step: Step)
    requires ti.length <= |s|
    ensures step == BagStep(x, ti, s, ndef, length, key, pw, others)
  {
    hide BagData, BagEncryptedData;
    var cur, len := s, length;
    if ti.tag == OBJECT_ID && ti.length == |OID_ENCRYPTED_DATA| && s[..|OID_ENCRYPTED_DATA|] == OID_ENCRYPTED_DATA {
      cur := s[|OID_ENCRYPTED_DATA|..];
      if !ndef {
        len := len - |OID_ENCRYPTED_DATA|;
      }
      var o, consumed := ParseBagEncryptedData(x, cur, pw, others, key.None?);
      if ndef {
        len := len + consumed;
      }
      step := Step(o.ok, o.certs, if key.Some? then key else o.key, cur, len);
    } else if ti.tag == OBJECT_ID && ti.length == |OID_DATA| && s[..|OID_DATA|] == OID_DATA {
      if key.Some? {
        step := Step(true, [], key, s[ti.length..], len);
      } else {
        cur := s[|OID_DATA|..];
        var ok, k, consumed := ParseBagData(x, cur, pw, others);
        if !ok {
          return Step(false, [], None, cur, len);
        }
        len := if ndef then len + consumed else len - |OID_DATA|;
        step := Step(true, [], Some(k), cur, len);
      }
    } else {
      step := Step(true, [], key, s[ti.length..], len);
    }
  }

  /** p12_parse: the key, or none on any error, and the certificates handed to the callback. */
  method P12Parse(x: Crypto, buffer: seq<byte>, pw: seq<byte>, others: seq<seq<byte>>) returns (o: Outcome)
    ensures o == Parsed(x, buffer, pw, others)
  {
    hide BagsAt, BagStep, Decoded;
    var ok, seqInfo, cur := FindBags(buffer);
    if !ok {
      return Outcome(false, [], None);
    }
    var left: nat := seqInfo.length;
    var ndef := seqInfo.ndef;
    var certs: seq<seq<byte>> := [];
    var key: Option<seq<nat>> := None;
    while left != 0 || ndef
      invariant ndef == seqInfo.ndef
      invariant Parsed(x, buffer, pw, others) == Bags(x, cur, left, ndef, certs, key, pw, others)
      decreases |cur|
    {
      var bag, ti, rest;
      ok, bag, rest := ParseTag(cur);
      if !ok {
        return Outcome(false, certs, None);
      }
      if ndef && bag.cls == 0 && bag.tag == 0 && !bag.constructed {
        break;
      }
      if bag.cls != 0 || bag.tag != SEQUENCE {
        return Outcome(false, certs, None);
      }
      if !ndef {
        if left < bag.nhdr {
          return Outcome(false, certs, None);
        }
        if left - bag.nhdr < bag.length {
          return Outcome(false, certs, None);
        }
        left := left - bag.nhdr - bag.length;
      }
      ok, ti, rest := ParseTag(rest);
      if !ok {
        return Outcome(false, certs, None);
      }
      var len := if bag.ndef then ti.nhdr else bag.length - ti.nhdr;
      var step := ReadBagStep(x, ti, rest, bag.ndef, len, key, pw, others);
      certs := certs + step.certs;
      if !step.ok || step.len < 0 || step.len > |step.rest| {
        return Outcome(false, certs, None);
      }
      key := step.key;
      cur := step.rest[step.len..];
      if bag.ndef {
        ok, ti, cur := ParseTag(cur);
        if !ok {
          return Outcome(false, certs, None);
        }
        if !(ti.cls == 0 && ti.tag == 0 && !ti.constructed) {
          return Outcome(false, certs, None);
        }
      }
    }
    return Outcome(true, certs, key);
  }
}
