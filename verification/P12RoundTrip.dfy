/** The reader undoes every layout that the PKCS#12 writer produces. */
module P12RoundTrip {
  import opened Common
  import opened Der
  import opened P12Layout
  import opened P12Reader

  lemma Assoc(a: seq<byte>, b: seq<byte>, c: seq<byte>)
    ensures (a + b) + c == a + (b + c)
  {
  }

  lemma Drop(a: seq<byte>, b: seq<byte>)
    ensures (a + b)[|a|..] == b && (a + b)[..|a|] == a && a <= a + b
  {
  }

  // ---------- single objects ----------

  lemma EnterTlv(universal: bool, tag: byte, content: seq<byte>, tail: seq<byte>)
    requires |content| < LIMIT && 0 < tag < 31
    ensures Enter(Tlv(tag, content) + tail, universal, tag) == Some((InfoOf(tag, |content|), content + tail))
  {
    hide Tlv, Decoded;
    TlvDecodes(tag, content, tail);
  }

  lemma EnterContextTlv(tag: byte, content: seq<byte>, tail: seq<byte>)
    requires |content| < LIMIT && (tag == CONTEXT_0 || tag == CONTEXT_0_PRIMITIVE)
    ensures EnterContext(Tlv(tag, content) + tail) == Some((InfoOf(tag, |content|), content + tail))
  {
    hide Tlv, Decoded;
    TlvDecodes(tag, content, tail);
  }

  lemma ExpectOidTlv(universal: bool, oid: seq<byte>, tail: seq<byte>)
    requires |oid| < LIMIT
    ensures ExpectOid(Tlv(OBJECT_ID, oid) + tail, universal, oid) == Some(tail)
  {
    hide Tlv, Enter;
    EnterTlv(universal, OBJECT_ID, oid, tail);
    Drop(oid, tail);
  }

  lemma ExpectIntegerTlv(universal: bool, v: byte, tail: seq<byte>)
    ensures ExpectInteger([INTEGER, 1, v] + tail, universal, v) == Some(tail)
  {
    assert Tlv(INTEGER, [v]) == [INTEGER, 1, v];
    hide Tlv, Enter;
    EnterTlv(universal, INTEGER, [v], tail);
    Drop([v], tail);
  }

  // ---------- the key ----------

  lemma KeyParamsStep(value: seq<byte>, len: nat, acc: seq<nat>, tail: seq<byte>)
    requires |value| < LIMIT && |acc| < 9
    ensures KeyParams(Tlv(INTEGER, value) + tail, |Tlv(INTEGER, value)| + len, acc)
         == KeyParams(tail, len, if acc == [] && value == [0] then acc else acc + [MpiScan(value)])
  {
    hide Tlv, Enter, MpiScan;
    EnterTlv(true, INTEGER, value, tail);
    Drop(value, tail);
  }

  /** Every parameter comes back, in order; a positive number is never taken for the version. */
  lemma {:induction false} KeyParamsDecode(ks: seq<nat>, acc: seq<nat>, tail: seq<byte>)
    requires |KeyInts(ks)| < LIMIT && |acc| + |ks| <= 9 && forall k | k in ks :: k > 0
    ensures KeyParams(KeyInts(ks) + tail, |KeyInts(ks)|, acc) == Some((acc + ks, tail))
    decreases ks
  {
    hide *;
    if ks == [] {
      KeyParamsDone(acc, tail);
      assert acc + ks == acc;
    } else {
      var acc' := acc + [ks[0]];
      KeyIntsSplit(ks);
      MpiRoundTrip(ks[0]);
      assert ks[0] in ks && forall k | k in ks[1..] :: k in ks;
      assert acc' + ks[1..] == acc + ks;
      Assoc(Tlv(INTEGER, MpiPrint(ks[0])), KeyInts(ks[1..]), tail);
      KeyParamsStep(MpiPrint(ks[0]), |KeyInts(ks[1..])|, acc, KeyInts(ks[1..]) + tail);
      KeyParamsDecode(ks[1..], acc', tail);
    }
  }

  lemma KeyIntsSplit(ks: seq<nat>)
    requires ks != []
    ensures KeyInts(ks) == Tlv(INTEGER, MpiPrint(ks[0])) + KeyInts(ks[1..])
  {
    hide Tlv;
  }

  lemma KeyParamsDone(acc: seq<nat>, tail: seq<byte>)
    ensures KeyInts([]) + tail == tail && |KeyInts([])| == 0
    ensures KeyParams(tail, 0, acc) == Some((acc, tail))
  {
  }

  lemma KeyParamsSkipVersion(len: nat, tail: seq<byte>)
    ensures KeyParams(VERSION_0 + tail, 3 + len, []) == KeyParams(tail, len, [])
  {
    assert Tlv(INTEGER, [0]) == VERSION_0;
    hide Tlv, KeyParams, MpiScan;
    KeyParamsStep([0], len, [], tail);
  }

  lemma SkipRsaAlgorithmDecodes(tail: seq<byte>)
    ensures SkipRsaAlgorithm(RsaAlgorithm() + tail) == Some(tail)
  {
    hide Tlv, Enter;
    var inner := Tlv(OBJECT_ID, OID_RSA) + NULL_OBJECT;
    EnterTlv(true, SEQUENCE, inner, tail);
    Assoc(Tlv(OBJECT_ID, OID_RSA), NULL_OBJECT, tail);
    EnterTlv(true, OBJECT_ID, OID_RSA, NULL_OBJECT + tail);
    Drop(OID_RSA, NULL_OBJECT + tail);
    Drop(NULL_OBJECT, tail);
  }

  lemma KeyInfoDecodes(ks: seq<nat>, tail: seq<byte>)
    requires |KeyInfoObject(ks)| < LIMIT && |ks| <= 9 && forall k | k in ks :: k > 0
    ensures KeyInfo(KeyInfoObject(ks) + tail) == Some((ks, tail))
  {
    hide Tlv, Enter, ExpectInteger, SkipRsaAlgorithm, KeyParams, RsaAlgorithm, KeyInts;
    var inner := VERSION_0 + KeyInts(ks);
    var private := Tlv(OCTET_STRING, RsaPrivateKey(ks));
    EnterTlv(true, SEQUENCE, KeyContent(ks), tail);
    Assoc(VERSION_0, RsaAlgorithm() + private, tail);
    Assoc(RsaAlgorithm(), private, tail);
    ExpectIntegerTlv(true, 0, RsaAlgorithm() + (private + tail));
    SkipRsaAlgorithmDecodes(private + tail);
    EnterTlv(true, OCTET_STRING, RsaPrivateKey(ks), tail);
    EnterTlv(true, SEQUENCE, inner, tail);
    Assoc(VERSION_0, KeyInts(ks), tail);
    KeyParamsSkipVersion(|KeyInts(ks)|, KeyInts(ks) + tail);
    KeyParamsDecode(ks, [], tail);
    assert [] + ks == ks;
  }

  // ---------- encryption ----------

  function PbeOid(c: Cipher): (oid: seq<byte>)
    ensures |oid| == 10
  {
    if c == TripleDes then OID_PBE_3DES else OID_PBE_RC2_40
  }

  lemma AlgorithmParts(c: Cipher, salt: seq<byte>)
    requires |salt| == 8
    ensures Algorithm(c, salt) == [0x30, 0x1C, 0x06, 0x0A]
        + (PbeOid(c) + ([0x30, 0x0E, 0x04, 0x08] + (salt + [0x02, 0x02, 0x08, 0x00])))
  {
    var template := if c == TripleDes then DATA_3DES_ITER_2048 else DATA_RC2_ITER_2048;
    TemplateParts(c, template);
    Split(template, salt);
    assert Algorithm(c, salt) == template[..18] + salt + template[26..];
  }

  lemma TemplateParts(c: Cipher, t: seq<byte>)
    requires t == if c == TripleDes then DATA_3DES_ITER_2048 else DATA_RC2_ITER_2048
    ensures |t| == 30
    ensures t[..4] == [0x30, 0x1C, 0x06, 0x0A] && t[4..14] == PbeOid(c)
    ensures t[14..18] == [0x30, 0x0E, 0x04, 0x08] && t[26..] == [0x02, 0x02, 0x08, 0x00]
  {
    TemplateFours(c, t);
    Ten(t, 4);
    if c == TripleDes {
      assert t[4] == 0x2A && t[5] == 0x86 && t[6] == 0x48 && t[7] == 0x86 && t[8] == 0xF7;
      assert t[9] == 0x0D && t[10] == 0x01 && t[11] == 0x0C && t[12] == 0x01 && t[13] == 0x03;
    } else {
      assert t[4] == 0x2A && t[5] == 0x86 && t[6] == 0x48 && t[7] == 0x86 && t[8] == 0xF7;
      assert t[9] == 0x0D && t[10] == 0x01 && t[11] == 0x0C && t[12] == 0x01 && t[13] == 0x06;
    }
  }

  lemma TemplateFours(c: Cipher, t: seq<byte>)
    requires t == if c == TripleDes then DATA_3DES_ITER_2048 else DATA_RC2_ITER_2048
    ensures |t| == 30
    ensures t[..4] == [0x30, 0x1C, 0x06, 0x0A] && t[14..18] == [0x30, 0x0E, 0x04, 0x08]
    ensures t[26..] == [0x02, 0x02, 0x08, 0x00]
  {
    FirstFour(c, t);
    MiddleFour(c, t);
    LastFour(c, t);
  }

  lemma FirstFour(c: Cipher, t: seq<byte>)
    requires t == if c == TripleDes then DATA_3DES_ITER_2048 else DATA_RC2_ITER_2048
    ensures |t| == 30 && t[..4] == [0x30, 0x1C, 0x06, 0x0A]
  {
    assert t[0] == 0x30 && t[1] == 0x1C && t[2] == 0x06 && t[3] == 0x0A;
  }

  lemma MiddleFour(c: Cipher, t: seq<byte>)
    requires t == if c == TripleDes then DATA_3DES_ITER_2048 else DATA_RC2_ITER_2048
    ensures |t| == 30 && t[14..18] == [0x30, 0x0E, 0x04, 0x08]
  {
    assert t[14] == 0x30 && t[15] == 0x0E && t[16] == 0x04 && t[17] == 0x08;
  }

  lemma LastFour(c: Cipher, t: seq<byte>)
    requires t == if c == TripleDes then DATA_3DES_ITER_2048 else DATA_RC2_ITER_2048
    ensures |t| == 30 && t[26..] == [0x02, 0x02, 0x08, 0x00]
  {
    assert t[26] == 0x02 && t[27] == 0x02 && t[28] == 0x08 && t[29] == 0x00;
  }

  lemma Ten(t: seq<byte>, i: nat)
    requires i + 10 <= |t|
    ensures t[i..i + 10] == [t[i], t[i + 1], t[i + 2], t[i + 3], t[i + 4], t[i + 5], t[i + 6], t[i + 7], t[i + 8],
        t[i + 9]]
  {
  }

  lemma Split(t: seq<byte>, salt: seq<byte>)
    requires |t| == 30
    ensures t[..18] + salt + t[26..] == t[..4] + (t[4..14] + (t[14..18] + (salt + t[26..])))
  {
  }

  lemma PbeObjectParts(salt: seq<byte>)
    requires |salt| == 8
    ensures PbeObject(salt) == [0x30, 0x0E, 0x04, 0x08] + (salt + [0x02, 0x02, 0x08, 0x00])
  {
    assert Tlv(OCTET_STRING, salt) == [0x04, 0x08] + salt;
    assert Tlv(INTEGER, [0x08, 0x00]) == [0x02, 0x02, 0x08, 0x00];
    var inner := [0x04, 0x08] + salt + [0x02, 0x02, 0x08, 0x00];
    assert Tlv(SEQUENCE, inner) == [0x30, 0x0E] + inner;
  }

  /** The algorithm templates are well-formed objects around the salt. */
  lemma AlgorithmIsTlv(c: Cipher, salt: seq<byte>)
    requires |salt| == 8
    ensures Algorithm(c, salt) == Tlv(SEQUENCE, Tlv(OBJECT_ID, PbeOid(c)) + PbeObject(salt))
  {
    var oid := PbeOid(c);
    AlgorithmParts(c, salt);
    PbeObjectParts(salt);
    hide Algorithm, PbeObject, PbeOid;
    assert Tlv(OBJECT_ID, oid) == [0x06, 0x0A] + oid;
    var inner := Tlv(OBJECT_ID, oid) + PbeObject(salt);
    assert inner == [0x06, 0x0A] + (oid + PbeObject(salt));
    assert Tlv(SEQUENCE, inner) == [0x30, 0x1C] + inner;
  }

  function PbeObject(salt: seq<byte>): seq<byte> {
    Tlv(SEQUENCE, Tlv(OCTET_STRING, salt) + Tlv(INTEGER, [0x08, 0x00]))
  }

  lemma PbeParamsDecode(salt: seq<byte>, tail: seq<byte>)
    requires |salt| == 8
    ensures PbeParams(PbeObject(salt) + tail) == Some((salt, ITERATIONS, tail))
  {
    hide Tlv, Enter, MpiScan;
    var count: seq<byte> := [0x08, 0x00];
    IterationsScanned(count);
    EnterTlv(true, SEQUENCE, Tlv(OCTET_STRING, salt) + Tlv(INTEGER, count), tail);
    Assoc(Tlv(OCTET_STRING, salt), Tlv(INTEGER, count), tail);
    EnterTlv(true, OCTET_STRING, salt, Tlv(INTEGER, count) + tail);
    Drop(salt, Tlv(INTEGER, count) + tail);
    EnterTlv(true, INTEGER, count, tail);
    Drop(count, tail);
  }

  lemma IterationsScanned(count: seq<byte>)
    requires count == [0x08, 0x00]
    ensures MpiScan(count) == ITERATIONS
  {
    assert MpiScan([]) == 0;
    assert count[..1] == [8] && [8][..0] == [];
    assert MpiScan([8]) == 8;
  }

  /** The plaintext is the first attempt's when that attempt is plausible. */
  lemma PlaintextFirst(x: Crypto, data: seq<byte>, salt: seq<byte>, pw: seq<byte>, others: seq<seq<byte>>,
                       c: Cipher, check: seq<byte> -> bool)
    requires x.Sound() && |data| % 8 == 0 && |pw| <= MAX_PASSWORD && |salt| == 8 && check(data)
    ensures Plaintext(x, CryptBlock(x, data, salt, ITERATIONS, pw, c, true), salt, ITERATIONS, pw, others, c, check)
        == data
  {
    hide CryptBlock;
    CryptRoundTrip(x, data, salt, ITERATIONS, pw, c);
  }

  lemma KeyLooksDecrypted(ks: seq<nat>, tail: seq<byte>)
    requires |KeyInfoObject(ks)| < LIMIT
    ensures BagDataP(KeyInfoObject(ks) + tail)
  {
    hide Tlv, Enter, ExpectInteger, RsaAlgorithm, KeyInts;
    var more := RsaAlgorithm() + Tlv(OCTET_STRING, RsaPrivateKey(ks));
    EnterTlv(true, SEQUENCE, KeyContent(ks), tail);
    Assoc(VERSION_0, more, tail);
    ExpectIntegerTlv(true, 0, more + tail);
  }

  // ---------- the data bag ----------

  lemma ShroudedValueDecodes(enc: seq<byte>, salt: seq<byte>, tail: seq<byte>)
    requires |salt| == 8 && |ShroudedKey(enc, salt)| < LIMIT
    ensures
      var inner := Algorithm(TripleDes, salt) + Tlv(OCTET_STRING, enc);
      && |Tlv(SEQUENCE, inner)| < LIMIT
      && EnterContext(ShroudedKey(enc, salt) + tail)
          == Some((InfoOf(CONTEXT_0, |Tlv(SEQUENCE, inner)|), Tlv(SEQUENCE, inner) + tail))
      && Enter(Tlv(SEQUENCE, inner) + tail, true, SEQUENCE)
          == Some((InfoOf(SEQUENCE, |inner|), Algorithm(TripleDes, salt) + (Tlv(OCTET_STRING, enc) + tail)))
  {
    hide Tlv, Enter, EnterContext, Algorithm;
    var inner := Algorithm(TripleDes, salt) + Tlv(OCTET_STRING, enc);
    EnterContextTlv(CONTEXT_0, Tlv(SEQUENCE, inner), tail);
    EnterTlv(true, SEQUENCE, inner, tail);
    Assoc(Algorithm(TripleDes, salt), Tlv(OCTET_STRING, enc), tail);
  }

  lemma AlgorithmDecodes(c: Cipher, salt: seq<byte>, tail: seq<byte>)
    requires |salt| == 8
    ensures
      var inner := Tlv(OBJECT_ID, PbeOid(c)) + PbeObject(salt);
      && Enter(Algorithm(c, salt) + tail, true, SEQUENCE)
          == Some((InfoOf(SEQUENCE, |inner|), Tlv(OBJECT_ID, PbeOid(c)) + (PbeObject(salt) + tail)))
  {
    var inner := Tlv(OBJECT_ID, PbeOid(c)) + PbeObject(salt);
    AlgorithmIsTlv(c, salt);
    PbeObjectParts(salt);
    assert |Algorithm(c, salt)| == 30;
    hide Tlv, Enter, Algorithm, PbeOid, PbeObject;
    EnterTlv(true, SEQUENCE, inner, tail);
    Assoc(Tlv(OBJECT_ID, PbeOid(c)), PbeObject(salt), tail);
  }

  /** The reader finds salt, iteration count and ciphertext of a written key bag. */
  lemma ShroudedKeyFound(enc: seq<byte>, salt: seq<byte>, attributes: seq<byte>, tail: seq<byte>)
    requires |salt| == 8 && enc != [] && |Tlv(SEQUENCE, KeySafeBag(enc, salt, attributes))| < LIMIT
    ensures ShroudedKeyAt(Tlv(SEQUENCE, KeySafeBag(enc, salt, attributes)) + tail)
         == Some((salt, ITERATIONS, enc, enc + (attributes + tail)))
  {
    var value := ShroudedKey(enc, salt);
    var content := Tlv(OBJECT_ID, OID_SHROUDED_KEY_BAG) + (value + attributes);
    var more := attributes + tail;
    ShroudedValueDecodes(enc, salt, more);
    AlgorithmDecodes(TripleDes, salt, Tlv(OCTET_STRING, enc) + more);
    hide Tlv, Enter, EnterContext, ExpectOid, PbeParams, Algorithm, ShroudedKey, PbeObject;
    EnterTlv(true, SEQUENCE, KeySafeBag(enc, salt, attributes), tail);
    EnterTlv(true, SEQUENCE, content, tail);
    Assoc(Tlv(OBJECT_ID, OID_SHROUDED_KEY_BAG), value + attributes, tail);
    Assoc(value, attributes, tail);
    ExpectOidTlv(true, OID_SHROUDED_KEY_BAG, value + more);
    ExpectOidTlv(true, OID_PBE_3DES, PbeObject(salt) + (Tlv(OCTET_STRING, enc) + more));
    PbeParamsDecode(salt, Tlv(OCTET_STRING, enc) + more);
    EnterTlv(true, OCTET_STRING, enc, more);
    Drop(enc, more);
  }

  function SafeKey(enc: seq<byte>, salt: seq<byte>, attributes: seq<byte>): seq<byte>
    requires |salt| == 8
  {
    Tlv(CONTEXT_0, Tlv(OCTET_STRING, Tlv(SEQUENCE, KeySafeBag(enc, salt, attributes))))
  }

  lemma DataBagStringDecodes(enc: seq<byte>, salt: seq<byte>, attributes: seq<byte>, tail: seq<byte>)
    requires |salt| == 8 && |SafeKey(enc, salt, attributes)| < LIMIT
    ensures
      var r := DataBagString(SafeKey(enc, salt, attributes) + tail);
      r.Some? && r.value.2 == Tlv(SEQUENCE, KeySafeBag(enc, salt, attributes)) + tail
  {
    hide Tlv, Enter, EnterContext, KeySafeBag;
    var inner := Tlv(SEQUENCE, KeySafeBag(enc, salt, attributes));
    EnterContextTlv(CONTEXT_0, Tlv(OCTET_STRING, inner), tail);
    EnterTlv(true, OCTET_STRING, inner, tail);
  }

  /** The key comes back from its encrypted data bag. */
  lemma BagDataDecodes(x: Crypto, ks: seq<nat>, salt: seq<byte>, attributes: seq<byte>, pw: seq<byte>,
                       others: seq<seq<byte>>, tail: seq<byte>)
    requires x.Sound() && |pw| <= MAX_PASSWORD && |salt| == 8
    requires |ks| <= 9 && forall k | k in ks :: k > 0
    requires
      var enc := CryptBlock(x, Padded(KeyInfoObject(ks)), salt, ITERATIONS, pw, TripleDes, true);
      |SafeKey(enc, salt, attributes)| < LIMIT && |KeyInfoObject(ks)| < LIMIT
    ensures
      var enc := CryptBlock(x, Padded(KeyInfoObject(ks)), salt, ITERATIONS, pw, TripleDes, true);
      var r := BagData(x, SafeKey(enc, salt, attributes) + tail, pw, others);
      r.Some? && r.value.0 == ks
  {
    var plain := Padded(KeyInfoObject(ks));
    var enc := CryptBlock(x, plain, salt, ITERATIONS, pw, TripleDes, true);
    var inner := Tlv(SEQUENCE, KeySafeBag(enc, salt, attributes));
    CryptRoundTrip(x, plain, salt, ITERATIONS, pw, TripleDes);
    hide Tlv, KeyInfo, KeyInfoObject, DataBagString, ShroudedKeyAt, Plaintext, CryptBlock, Padding, KeySafeBag,
        Crypto.Sound;
    DataBagStringDecodes(enc, salt, attributes, tail);
    ShroudedKeyFound(enc, salt, attributes, tail);
    KeyLooksDecrypted(ks, Padding(|KeyInfoObject(ks)|));
    PlaintextFirst(x, plain, salt, pw, others, TripleDes, BagDataP);
    KeyInfoDecodes(ks, Padding(|KeyInfoObject(ks)|));
  }

  // ---------- the encrypted bag ----------

  function SafeCert(enc: seq<byte>, salt: seq<byte>): seq<byte>
    requires |salt| == 8
  {
    Tlv(CONTEXT_0, Tlv(SEQUENCE, VERSION_0 + EncryptedContent(enc, salt)))
  }

  lemma EncryptedContentDecodes(enc: seq<byte>, salt: seq<byte>, tail: seq<byte>)
    requires |salt| == 8 && |EncryptedContent(enc, salt)| < LIMIT
    ensures
      var inner := Tlv(OBJECT_ID, OID_DATA) + (Algorithm(Rc2, salt) + Tlv(CONTEXT_0_PRIMITIVE, enc));
      Enter(EncryptedContent(enc, salt) + tail, false, SEQUENCE)
      == Some((InfoOf(SEQUENCE, |inner|), Tlv(OBJECT_ID, OID_DATA)
          + (Algorithm(Rc2, salt) + (Tlv(CONTEXT_0_PRIMITIVE, enc) + tail))))
  {
    hide Tlv, Enter, Algorithm;
    var last := Tlv(CONTEXT_0_PRIMITIVE, enc);
    EnterTlv(false, SEQUENCE, Tlv(OBJECT_ID, OID_DATA) + (Algorithm(Rc2, salt) + last), tail);
    Assoc(Tlv(OBJECT_ID, OID_DATA), Algorithm(Rc2, salt) + last, tail);
    Assoc(Algorithm(Rc2, salt), last, tail);
  }

  lemma EncryptedHeaderDecodes(enc: seq<byte>, salt: seq<byte>, tail: seq<byte>)
    requires |salt| == 8 && |SafeCert(enc, salt)| < LIMIT
    ensures EncryptedHeader(SafeCert(enc, salt) + tail)
        == Some((Rc2, salt, ITERATIONS, Tlv(CONTEXT_0_PRIMITIVE, enc) + tail))
  {
    var body := EncryptedContent(enc, salt);
    var last := Tlv(CONTEXT_0_PRIMITIVE, enc) + tail;
    var inner := VERSION_0 + body;
    EncryptedContentDecodes(enc, salt, tail);
    AlgorithmDecodes(Rc2, salt, last);
    hide Tlv, Enter, EnterContext, ExpectOid, ExpectInteger, PbeParams, Algorithm, EncryptedContent, PbeObject;
    EnterContextTlv(CONTEXT_0, Tlv(SEQUENCE, inner), tail);
    EnterTlv(false, SEQUENCE, inner, tail);
    Assoc(VERSION_0, body, tail);
    ExpectIntegerTlv(false, 0, body + tail);
    ExpectOidTlv(false, OID_DATA, Algorithm(Rc2, salt) + last);
    EnterTlv(true, OBJECT_ID, OID_PBE_RC2_40, PbeObject(salt) + last);
    Drop(OID_PBE_RC2_40, PbeObject(salt) + last);
    PbeParamsDecode(salt, last);
  }

  lemma CiphertextDecodes(enc: seq<byte>, tail: seq<byte>, total: nat)
    requires enc != [] && |enc| < LIMIT
    ensures
      var r := Ciphertext(Tlv(CONTEXT_0_PRIMITIVE, enc) + tail, total);
      r.Some? && r.value.0 == enc
  {
    hide Tlv, Decoded, Crammed;
    TlvDecodes(CONTEXT_0_PRIMITIVE, enc, tail);
    Drop(enc, tail);
  }

  lemma CertAtDecodes(cert: seq<byte>, tail: seq<byte>)
    requires |CertValue(cert)| < LIMIT
    ensures
      var inner := Tlv(SEQUENCE, Tlv(OBJECT_ID, OID_X509) + Tlv(CONTEXT_0, Tlv(OCTET_STRING, cert)));
      && EnterContext(CertValue(cert) + tail) == Some((InfoOf(CONTEXT_0, |inner|), inner + tail))
      && CertAt(inner + tail) == Some((cert, tail))
  {
    hide Tlv, Enter, EnterContext, ExpectOid;
    var value := Tlv(CONTEXT_0, Tlv(OCTET_STRING, cert));
    var content := Tlv(OBJECT_ID, OID_X509) + value;
    EnterContextTlv(CONTEXT_0, Tlv(SEQUENCE, content), tail);
    EnterTlv(true, SEQUENCE, content, tail);
    Assoc(Tlv(OBJECT_ID, OID_X509), value, tail);
    ExpectOidTlv(true, OID_X509, value + tail);
    EnterContextTlv(CONTEXT_0, Tlv(OCTET_STRING, cert), tail);
    EnterTlv(true, OCTET_STRING, cert, tail);
    Drop(cert, tail);
  }

  lemma OneBagDecodes(cert: seq<byte>, attributes: seq<byte>, tail: seq<byte>, wantKey: bool)
    requires |CertSafeBag(cert, attributes)| < LIMIT
    ensures
      var content := Tlv(OBJECT_ID, OID_CERT_BAG) + (CertValue(cert) + attributes);
      OneBag(content + tail, wantKey) == Some(([cert], None, attributes + tail))
  {
    hide Tlv, Enter, EnterContext, CertAt, CertValue;
    var content := Tlv(OBJECT_ID, OID_CERT_BAG) + (CertValue(cert) + attributes);
    Assoc(Tlv(OBJECT_ID, OID_CERT_BAG), CertValue(cert) + attributes, tail);
    Assoc(CertValue(cert), attributes, tail);
    EnterTlv(true, OBJECT_ID, OID_CERT_BAG, CertValue(cert) + (attributes + tail));
    Drop(OID_CERT_BAG, CertValue(cert) + (attributes + tail));
    CertAtDecodes(cert, attributes + tail);
  }

  /** The attribute set is skipped and the padding behind it is recognised. */
  lemma AttributesSkipped(hash: seq<byte>, pad: seq<byte>)
    requires |hash| == 20 && 1 <= |pad| <= 8
    ensures NextBag(Attributes(hash) + pad) == Some((NO_TAG, []))
  {
    var s := Attributes(hash) + pad;
    assert DATA_ATTR_TEMPLATE[0] == 0x31 && DATA_ATTR_TEMPLATE[1] == 0x7c;
    assert Attributes(hash)[0] == DATA_ATTR_TEMPLATE[0] && Attributes(hash)[1] == DATA_ATTR_TEMPLATE[1];
    assert s[0] == 0x31 && s[1] == 0x7c;
    hide WithKeyId, Attributes;
    assert Decoded(s) == Some((TagInfo(0, true, SET, 124, 2, false), s[2..]));
    assert |s[2..][124..]| == |pad|;
  }

  /** The certificate comes back from the padded plaintext of its bag. */
  lemma PlainBagsDecode(cert: seq<byte>, hash: seq<byte>, pad: seq<byte>, wantKey: bool)
    requires |hash| == 20 && 1 <= |pad| <= 8 && |CertSequence(cert, Attributes(hash))| < LIMIT
    ensures PlainBags(CertSequence(cert, Attributes(hash)) + pad, wantKey) == Outcome(true, [cert], None)
    ensures BagDecryptedDataP(CertSequence(cert, Attributes(hash)) + pad)
  {
    hide Tlv, Enter, Decoded, CertValue, OneBag, NextBag, Attributes;
    var attributes := Attributes(hash);
    var content := Tlv(OBJECT_ID, OID_CERT_BAG) + (CertValue(cert) + attributes);
    EnterTlv(true, SEQUENCE, CertSafeBag(cert, attributes), pad);
    TlvDecodes(SEQUENCE, content, pad);
    OneBagDecodes(cert, attributes, pad, wantKey);
    AttributesSkipped(hash, pad);
    assert BagLoop([], NO_TAG, [cert], None, wantKey) == Outcome(true, [cert], None);
    assert [] + [cert] == [cert];
  }

  /** The certificate comes back from its encrypted bag. */
  lemma BagEncryptedDataDecodes(x: Crypto, cert: seq<byte>, hash: seq<byte>, salt: seq<byte>, pw: seq<byte>,
                                others: seq<seq<byte>>, tail: seq<byte>)
    requires x.Sound() && |pw| <= MAX_PASSWORD && |salt| == 8 && |hash| == 20
    requires
      var plain := Padded(CertSequence(cert, Attributes(hash)));
      var enc := CryptBlock(x, plain, salt, ITERATIONS, pw, Rc2, true);
      |SafeCert(enc, salt)| < LIMIT
    ensures
      var plain := Padded(CertSequence(cert, Attributes(hash)));
      var enc := CryptBlock(x, plain, salt, ITERATIONS, pw, Rc2, true);
      BagEncryptedData(x, SafeCert(enc, salt) + tail, pw, others, true).0 == Outcome(true, [cert], None)
  {
    var seqn := CertSequence(cert, Attributes(hash));
    var plain := Padded(seqn);
    var enc := CryptBlock(x, plain, salt, ITERATIONS, pw, Rc2, true);
    CryptRoundTrip(x, plain, salt, ITERATIONS, pw, Rc2);
    assert |enc| < |SafeCert(enc, salt)|;
    hide Tlv, CertSequence, EncryptedHeader, Ciphertext, Plaintext, PlainBags, CryptBlock, Padding, SafeCert,
        Attributes, Crypto.Sound;
    EncryptedHeaderDecodes(enc, salt, tail);
    CiphertextDecodes(enc, tail, |SafeCert(enc, salt) + tail|);
    PlainBagsDecode(cert, hash, Padding(|seqn|), true);
    PlaintextFirst(x, plain, salt, pw, others, Rc2, BagDecryptedDataP);
  }

  // ---------- the outer loop ----------

  /** One definite bag: the loop goes on behind it, with its octets counted off. */
  lemma BagsStep(x: Crypto, oid: seq<byte>, body: seq<byte>, tail: seq<byte>, more: nat, certs: seq<seq<byte>>,
                 key: Option<seq<nat>>, pw: seq<byte>, others: seq<seq<byte>>)
    requires |oid| == 9 && |Tlv(OBJECT_ID, oid) + body| < LIMIT
    requires
      var step := BagStep(x, InfoOf(OBJECT_ID, 9), oid + (body + tail), false, 9 + |body|, key, pw, others);
      step.ok && step.rest == body + tail && step.len == |body|
    ensures
      var step := BagStep(x, InfoOf(OBJECT_ID, 9), oid + (body + tail), false, 9 + |body|, key, pw, others);
      var bag := Tlv(SEQUENCE, Tlv(OBJECT_ID, oid) + body);
      Bags(x, bag + tail, |bag| + more, false, certs, key, pw, others)
      == Bags(x, tail, more, false, certs + step.certs, step.key, pw, others)
  {
    hide Tlv, Decoded, BagStep;
    var content := Tlv(OBJECT_ID, oid) + body;
    TlvDecodes(SEQUENCE, content, tail);
    Assoc(Tlv(OBJECT_ID, oid), body, tail);
    TlvDecodes(OBJECT_ID, oid, body + tail);
    Drop(body, tail);
    assert InfoOf(SEQUENCE, |content|).tag == SEQUENCE;
  }

  lemma OidDataDiffers(rest: seq<byte>)
    ensures !(OID_ENCRYPTED_DATA <= OID_DATA + rest)
  {
    assert (OID_DATA + rest)[8] == 0x01 && OID_ENCRYPTED_DATA[8] == 0x06;
  }

  lemma KeyBagStep(x: Crypto, ks: seq<nat>, salt: seq<byte>, attributes: seq<byte>, pw: seq<byte>,
                   others: seq<seq<byte>>, tail: seq<byte>)
    requires x.Sound() && |pw| <= MAX_PASSWORD && |salt| == 8
    requires |ks| <= 9 && forall k | k in ks :: k > 0
    requires
      var enc := CryptBlock(x, Padded(KeyInfoObject(ks)), salt, ITERATIONS, pw, TripleDes, true);
      |SafeKey(enc, salt, attributes)| < LIMIT && |KeyInfoObject(ks)| < LIMIT
    ensures
      var enc := CryptBlock(x, Padded(KeyInfoObject(ks)), salt, ITERATIONS, pw, TripleDes, true);
      var body := SafeKey(enc, salt, attributes);
      BagStep(x, InfoOf(OBJECT_ID, 9), OID_DATA + (body + tail), false, 9 + |body|, None, pw, others)
      == Step(true, [], Some(ks), body + tail, |body|)
  {
    BagDataDecodes(x, ks, salt, attributes, pw, others, tail);
    hide *;
    var enc := CryptBlock(x, Padded(KeyInfoObject(ks)), salt, ITERATIONS, pw, TripleDes, true);
    DataStep(x, SafeKey(enc, salt, attributes), tail, pw, others);
  }

  lemma DataStep(x: Crypto, body: seq<byte>, tail: seq<byte>, pw: seq<byte>, others: seq<seq<byte>>)
    requires BagData(x, body + tail, pw, others).Some?
    ensures BagStep(x, InfoOf(OBJECT_ID, 9), OID_DATA + (body + tail), false, 9 + |body|, None, pw, others)
         == Step(true, [], Some(BagData(x, body + tail, pw, others).value.0), body + tail, |body|)
  {
    hide BagData;
    OidDataDiffers(body + tail);
    Drop(OID_DATA, body + tail);
  }

  lemma CertBagStep(x: Crypto, cert: seq<byte>, hash: seq<byte>, salt: seq<byte>, pw: seq<byte>, others: seq<seq<byte>>,
                    tail: seq<byte>)
    requires x.Sound() && |pw| <= MAX_PASSWORD && |salt| == 8 && |hash| == 20
    requires
      var enc := CryptBlock(x, Padded(CertSequence(cert, Attributes(hash))), salt, ITERATIONS, pw, Rc2, true);
      |SafeCert(enc, salt)| < LIMIT
    ensures
      var enc := CryptBlock(x, Padded(CertSequence(cert, Attributes(hash))), salt, ITERATIONS, pw, Rc2, true);
      var body := SafeCert(enc, salt);
      BagStep(x, InfoOf(OBJECT_ID, 9), OID_ENCRYPTED_DATA + (body + tail), false, 9 + |body|, None, pw, others)
      == Step(true, [cert], None, body + tail, |body|)
  {
    BagEncryptedDataDecodes(x, cert, hash, salt, pw, others, tail);
    hide BagEncryptedData, CryptBlock, SafeCert, Padded, CertSequence, Attributes, Crypto.Sound;
    var enc := CryptBlock(x, Padded(CertSequence(cert, Attributes(hash))), salt, ITERATIONS, pw, Rc2, true);
    var body := SafeCert(enc, salt);
    Drop(OID_ENCRYPTED_DATA, body + tail);
  }

  lemma BagsAtPfx(bags: seq<byte>, mac: seq<byte>)
    requires |Pfx(bags, mac)| < LIMIT
    ensures BagsAt(Pfx(bags, mac)) == Some((InfoOf(SEQUENCE, |bags|), bags + mac))
  {
    hide Tlv, Enter, EnterContext, ExpectOid, ExpectInteger;
    var octets := Tlv(OCTET_STRING, AuthSafe(bags));
    var value := Tlv(CONTEXT_0, octets);
    var info := Tlv(OBJECT_ID, OID_DATA) + value;
    var content := Tlv(SEQUENCE, info);
    EnterTlv(false, SEQUENCE, VERSION_3 + (content + mac), []);
    assert Pfx(bags, mac) + [] == Pfx(bags, mac);
    assert PfxContent(bags, mac) + [] == VERSION_3 + (content + mac);
    ExpectIntegerTlv(false, 3, content + mac);
    EnterTlv(false, SEQUENCE, info, mac);
    Assoc(Tlv(OBJECT_ID, OID_DATA), value, mac);
    ExpectOidTlv(false, OID_DATA, value + mac);
    EnterContextTlv(CONTEXT_0, octets, mac);
    EnterTlv(true, OCTET_STRING, AuthSafe(bags), mac);
    EnterTlv(true, SEQUENCE, bags, mac);
  }

  // ---------- the whole ----------

  /** What p12_build is given besides the primitives: the key, the certificate (empty for
      none), the password in the encoding that is used, and the random salts. */
  datatype Request = Request(key: Option<seq<nat>>, cert: seq<byte>, pw: seq<byte>,
                             certSalt: seq<byte>, keySalt: seq<byte>, macSalt: seq<byte>)
  {
    predicate Valid() {
      |certSalt| == 8 && |keySalt| == 8 && |macSalt| == 8
    }
  }

  ghost function CertHash(x: Crypto, q: Request): (r: Option<seq<byte>>)
    requires x.Sound()
    ensures r.Some? ==> |r.value| == 20
  {
    if q.cert == [] then None else Some(x.sha1(q.cert))
  }

  function EncryptedCert(x: Crypto, q: Request, hash: seq<byte>): seq<byte>
    requires |hash| == 20
  {
    CryptBlock(x, Padded(CertSequence(q.cert, Attributes(hash))), q.certSalt, ITERATIONS, q.pw, Rc2, true)
  }

  function EncryptedKey(x: Crypto, q: Request, ks: seq<nat>): seq<byte> {
    CryptBlock(x, Padded(KeyInfoObject(ks)), q.keySalt, ITERATIONS, q.pw, TripleDes, true)
  }

  ghost function CertBags(x: Crypto, q: Request): seq<byte>
    requires x.Sound() && q.Valid()
  {
    if q.cert == [] then [] else CertBag(EncryptedCert(x, q, x.sha1(q.cert)), q.certSalt)
  }

  ghost function KeyBags(x: Crypto, q: Request): seq<byte>
    requires x.Sound() && q.Valid()
  {
    if q.key.None? then []
    else KeyBag(EncryptedKey(x, q, q.key.value), q.keySalt, OptionalAttributes(CertHash(x, q)))
  }

  ghost function AllBags(x: Crypto, q: Request): seq<byte>
    requires x.Sound() && q.Valid()
  {
    CertBags(x, q) + KeyBags(x, q)
  }

  /** The MAC covers exactly the contents of the outer octet string. */
  ghost function MacOf(x: Crypto, q: Request, bags: seq<byte>): seq<byte>
    requires x.Sound() && q.Valid()
  {
    MacData(x.hmac(q.macSalt, ITERATIONS, q.pw, AuthSafe(bags)), q.macSalt)
  }

  ghost function File(x: Crypto, q: Request): seq<byte>
    requires x.Sound() && q.Valid()
  {
    Pfx(AllBags(x, q), MacOf(x, q, AllBags(x, q)))
  }

  lemma KeyBagsParsed(x: Crypto, q: Request, others: seq<seq<byte>>, certs: seq<seq<byte>>, mac: seq<byte>)
    requires x.Sound() && q.Valid() && |q.pw| <= MAX_PASSWORD
    requires q.key.Some? ==> |q.key.value| <= 9 && forall k | k in q.key.value :: k > 0
    requires |KeyBags(x, q)| < LIMIT
    ensures Bags(x, KeyBags(x, q) + mac, |KeyBags(x, q)|, false, certs, None, q.pw, others)
        == Outcome(true, certs, q.key)
  {
    hide *;
    KeyBagsAre(x, q);
    if q.key.Some? {
      var ks := q.key.value;
      var enc := EncryptedKey(x, q, ks);
      var attributes := OptionalAttributes(CertHash(x, q));
      KeyBagStep(x, ks, q.keySalt, attributes, q.pw, others, mac);
      BagsStep(x, OID_DATA, SafeKey(enc, q.keySalt, attributes), mac, 0, certs, None, q.pw, others);
      assert certs + [] == certs;
    }
    NoBagsLeft(x, mac, certs, q.key, q.pw, others);
    assert KeyBags(x, q) == [] ==> KeyBags(x, q) + mac == mac;
  }

  lemma KeyBagsAre(x: Crypto, q: Request)
    requires x.Sound() && q.Valid()
    ensures |q.keySalt| == 8 && |OID_DATA| == 9
    ensures
      if q.key.None? then KeyBags(x, q) == []
      else
        var body := SafeKey(EncryptedKey(x, q, q.key.value), q.keySalt, OptionalAttributes(CertHash(x, q)));
        && KeyBags(x, q) == Tlv(SEQUENCE, Tlv(OBJECT_ID, OID_DATA) + body)
        && |KeyBags(x, q)| > |Tlv(OBJECT_ID, OID_DATA) + body|
        && EncryptedKey(x, q, q.key.value) == CryptBlock(x, Padded(KeyInfoObject(q.key.value)), q.keySalt, ITERATIONS,
            q.pw, TripleDes, true)
        && |KeyInfoObject(q.key.value)| < |body|
  {
    if q.key.Some? {
      KeyIsInside(x, q, q.key.value, OptionalAttributes(CertHash(x, q)));
    }
    hide Header, Algorithm, CryptBlock, Attributes, KeySafeBag;
  }

  lemma CertBagsAre(x: Crypto, q: Request)
    requires x.Sound() && q.Valid() && q.cert != []
    ensures |q.certSalt| == 8 && |OID_ENCRYPTED_DATA| == 9
    ensures
      var body := SafeCert(EncryptedCert(x, q, x.sha1(q.cert)), q.certSalt);
      && CertBags(x, q) == Tlv(SEQUENCE, Tlv(OBJECT_ID, OID_ENCRYPTED_DATA) + body)
      && |CertBags(x, q)| > |Tlv(OBJECT_ID, OID_ENCRYPTED_DATA) + body|
      && EncryptedCert(x, q, x.sha1(q.cert))
         == CryptBlock(x, Padded(CertSequence(q.cert, Attributes(x.sha1(q.cert)))), q.certSalt, ITERATIONS, q.pw, Rc2,
             true)
  {
    hide Header, Algorithm, CryptBlock, Attributes, EncryptedContent;
  }

  lemma NoBagsLeft(x: Crypto, s: seq<byte>, certs: seq<seq<byte>>, key: Option<seq<nat>>, pw: seq<byte>,
                   others: seq<seq<byte>>)
    ensures Bags(x, s, 0, false, certs, key, pw, others) == Outcome(true, certs, key)
  {
  }

  lemma KeyIsInside(x: Crypto, q: Request, ks: seq<nat>, attributes: seq<byte>)
    requires x.Sound() && q.Valid()
    ensures |KeyInfoObject(ks)| < |SafeKey(EncryptedKey(x, q, ks), q.keySalt, attributes)|
  {
    assert |EncryptedKey(x, q, ks)| == |Padded(KeyInfoObject(ks))|;
    hide Header, Algorithm, KeyInfoObject, EncryptedKey;
  }

  /** Reading undoes writing: whatever certificate and key of positive numbers went into a
      file below the size limit, and whatever other password encodings the reader might try,
      it finds exactly that certificate and exactly those numbers in order. */
  lemma ParseUndoesBuild(x: Crypto, q: Request, others: seq<seq<byte>>)
    requires x.Sound() && q.Valid() && |q.pw| <= MAX_PASSWORD
    requires q.key.Some? ==> |q.key.value| <= 9 && forall k | k in q.key.value :: k > 0
    requires |File(x, q)| < LIMIT
    ensures Parsed(x, File(x, q), q.pw, others) == Outcome(true, if q.cert == [] then [] else [q.cert], q.key)
  {
    hide *;
    FileIs(x, q);
    var bags := AllBags(x, q);
    var mac := MacOf(x, q, bags);
    if q.cert == [] {
      NoCertBags(x, q);
      KeyBagsParsed(x, q, others, [], mac);
    } else {
      Assoc(CertBags(x, q), KeyBags(x, q), mac);
      CertBagsParsed(x, q, others, KeyBags(x, q) + mac, |KeyBags(x, q)|);
      KeyBagsParsed(x, q, others, [q.cert], mac);
    }
    ParsedFromBags(x, bags, mac, q.pw, others);
  }

  lemma FileIs(x: Crypto, q: Request)
    requires x.Sound() && q.Valid()
    ensures AllBags(x, q) == CertBags(x, q) + KeyBags(x, q)
    ensures File(x, q) == Pfx(AllBags(x, q), MacOf(x, q, AllBags(x, q)))
    ensures |AllBags(x, q)| < |File(x, q)|
  {
    hide CertBags, KeyBags, MacOf, Header;
  }

  lemma NoCertBags(x: Crypto, q: Request)
    requires x.Sound() && q.Valid() && q.cert == []
    ensures CertBags(x, q) + KeyBags(x, q) == KeyBags(x, q)
  {
    assert CertBags(x, q) == [];
    hide KeyBags;
  }

  lemma CertBagsParsed(x: Crypto, q: Request, others: seq<seq<byte>>, tail: seq<byte>, more: nat)
    requires x.Sound() && q.Valid() && |q.pw| <= MAX_PASSWORD && q.cert != [] && |CertBags(x, q)| < LIMIT
    ensures Bags(x, CertBags(x, q) + tail, |CertBags(x, q)| + more, false, [], None, q.pw, others)
         == Bags(x, tail, more, false, [q.cert], None, q.pw, others)
  {
    hide *;
    HashLength(x, q.cert);
    CertBagsAre(x, q);
    var hash := x.sha1(q.cert);
    CertBagStep(x, q.cert, hash, q.certSalt, q.pw, others, tail);
    BagsStep(x, OID_ENCRYPTED_DATA, SafeCert(EncryptedCert(x, q, hash), q.certSalt), tail, more, [], None, q.pw,
        others);
    assert [] + [q.cert] == [q.cert];
  }

  lemma HashLength(x: Crypto, data: seq<byte>)
    requires x.Sound()
    ensures |x.sha1(data)| == 20
  {
  }

  lemma ParsedFromBags(x: Crypto, bags: seq<byte>, mac: seq<byte>, pw: seq<byte>, others: seq<seq<byte>>)
    requires |Pfx(bags, mac)| < LIMIT
    ensures Parsed(x, Pfx(bags, mac), pw, others) == Bags(x, bags + mac, |bags|, false, [], None, pw, others)
  {
    hide Pfx, BagsAt, Bags;
    BagsAtPfx(bags, mac);
  }
}
