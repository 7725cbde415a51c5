/** The PKCS#12 writer: five builders that each compute all nested lengths from the inside
    out, allocate, and then write from the outside in. */
module P12Build {
  import opened Common
  import opened Der
  import opened P12Layout
  import opened P12Reader
  import opened P12RoundTrip

  // ---------- the key ----------

  lemma {:induction false} KeyIntsAppend(a: seq<nat>, b: seq<nat>)
    ensures KeyInts(a + b) == KeyInts(a) + KeyInts(b)
  {
    if a == [] {
      assert a + b == b;
    } else {
      assert (a + b)[1..] == a[1..] + b;
      KeyIntsAppend(a[1..], b);
    }
  }

  lemma KeyIntsOne(k: nat)
    ensures KeyInts([k]) == MpiTlv(k)
  {
    assert [k][1..] == [];
  }

  lemma KeyIntsNext(ks: seq<nat>, i: nat)
    requires i < |ks|
    ensures KeyInts(ks[..i + 1]) == KeyInts(ks[..i]) + MpiTlv(ks[i])
    ensures KeyInts(ks[i..]) == MpiTlv(ks[i]) + KeyInts(ks[i + 1..])
    ensures |KeyInts(ks)| == |KeyInts(ks[..i + 1])| + |KeyInts(ks[i + 1..])|
  {
    assert ks[..i + 1] == ks[..i] + [ks[i]];
    assert ks == ks[..i + 1] + ks[i + 1..];
    assert ks[i..][1..] == ks[i + 1..];
    KeyIntsAppend(ks[..i], [ks[i]]);
    KeyIntsOne(ks[i]);
    KeyIntsAppend(ks[..i + 1], ks[i + 1..]);
  }

  /** The lengths of the nested objects of a key, innermost first: the size pass of
      build_key_sequence. */
  lemma KeySizes(ks: seq<nat>)
    ensures |KeyContent(ks)| == 3 + 15 + |Tlv(OCTET_STRING, RsaPrivateKey(ks))|
    ensures |RsaPrivateKey(ks)| > 3 + |KeyInts(ks)| && |KeyContent(ks)| > |RsaPrivateKey(ks)|
    ensures |KeyInts(ks)| + 3 < LIMIT ==> |RsaPrivateKey(ks)| == TagLength(3 + |KeyInts(ks)|) + 3 + |KeyInts(ks)|
    ensures |RsaPrivateKey(ks)| < LIMIT ==>
              |Tlv(OCTET_STRING, RsaPrivateKey(ks))| == TagLength(|RsaPrivateKey(ks)|) + |RsaPrivateKey(ks)|
    ensures |KeyContent(ks)| < LIMIT ==> |KeyInfoObject(ks)| == TagLength(|KeyContent(ks)|) + |KeyContent(ks)|
  {
    hide Header, KeyInts;
    assert |RsaAlgorithm()| == 15;
  }

  /** The size pass; 0 when an object is too large or there are not eight parameters. */
  method KeySequenceSizes(ks: seq<nat>) returns (ok: bool, inSeqLen: nat, octStrLen: nat, outSeqLen: nat)
    ensures ok <==> |ks| == 8 && |KeyContent(ks)| < LIMIT
    ensures ok ==> inSeqLen == 3 + |KeyInts(ks)| && octStrLen == |RsaPrivateKey(ks)| && outSeqLen == |KeyContent(ks)|
  {
    hide Tlv, MpiPrint, KeyInts, RsaPrivateKey, KeyContent;
    ok, inSeqLen, octStrLen, outSeqLen := false, 0, 0, 0;
    KeySizes(ks);
    NoInts();
    var needed: nat := 3;
    var i := 0;
    while i < |ks|
      invariant i <= |ks| && needed == 3 + |KeyInts(ks[..i])|
    {
      KeyIntsNext(ks, i);
      var n := |MpiPrint(ks[i])|;
      needed := needed + n;
      n := TagLength(n);
      if n == 0 {
        return;
      }
      needed := needed + n;
      i := i + 1;
    }
    assert ks[..|ks|] == ks;
    if i != 8 {
      return;
    }
    inSeqLen := needed;
    var n := TagLength(needed);
    if n == 0 {
      return;
    }
    needed := needed + n;
    octStrLen := needed;
    n := TagLength(needed);
    if n == 0 {
      return;
    }
    needed := needed + n;
    var oidSeqLen := 2 + |OID_RSA| + 2;
    needed := needed + 2 + oidSeqLen;
    needed := needed + 3;
    outSeqLen := needed;
    ok := TagLength(needed) != 0;
  }

  lemma NoInts()
    ensures KeyInts([]) == []
  {
  }

  /** Append the pad octets; the buffer has room for them. */
  method Pad(w: Writer, n: nat)
    requires w.Valid() && w.rest == Padding(n)
    modifies w`p, w`rest, w.buf
    ensures w.Valid() && w.rest == [] && w.p == old(w.p) + |Padding(n)|
  {
    var k := 8 - n % 8;
    var i := 0;
    while i < k
      invariant i <= k && w.Valid() && w.p == old(w.p) + i
      invariant w.rest == Padding(n)[i..]
    {
      assert Padding(n)[i..] == [k] + Padding(n)[i + 1..];
      w.Bytes([k], Padding(n)[i + 1..]);
      i := i + 1;
    }
  }

  /** build_key_sequence: the padded plaintext exactly when there are eight parameters and
      the whole stays below the limit. */
  method BuildKeySequence(ks: seq<nat>) returns (out: Option<seq<byte>>)
    ensures out.Some? <==> |ks| == 8 && |KeyContent(ks)| < LIMIT
    ensures out.Some? ==> out.value == Padded(KeyInfoObject(ks))
  {
    var ok, inSeqLen, octStrLen, outSeqLen := KeySequenceSizes(ks);
    if !ok {
      return None;
    }
    KeySizes(ks);
    var needed := outSeqLen + TagLength(outSeqLen);
    ghost var whole := KeyInfoObject(ks);
    ghost var pad := Padding(|whole|);
    var w := new Writer(needed + 8, Padded(whole));
    WriteKey(w, ks, inSeqLen, octStrLen, outSeqLen, pad);
    assert needed == w.p;
    Pad(w, w.p);
    assert w.target[..w.p] == Padded(whole);
    return Some(w.buf[..w.p]);
  }

  /** The write pass. */
  method WriteKey(w: Writer, ks: seq<nat>, inSeqLen: nat, octStrLen: nat, outSeqLen: nat, ghost pad: seq<byte>)
    requires w.Valid() && w.rest == KeyInfoObject(ks) + pad
    requires |KeyContent(ks)| < LIMIT
    requires inSeqLen == 3 + |KeyInts(ks)| && octStrLen == |RsaPrivateKey(ks)| && outSeqLen == |KeyContent(ks)|
    modifies w`p, w`rest, w.buf
    ensures w.Valid() && w.rest == pad && w.p == old(w.p) + |KeyInfoObject(ks)|
  {
    KeySizes(ks);
    assert RsaAlgorithm() == Tlv(SEQUENCE, Tlv(OBJECT_ID, OID_RSA) + NULL_OBJECT);
    hide Tlv, KeyInts, MpiPrint, RsaAlgorithm;
    ghost var start := w.rest;
    var oidSeqLen := 2 + |OID_RSA| + 2;
    ghost var private := Tlv(OCTET_STRING, RsaPrivateKey(ks)) + pad;
    w.Open(SEQUENCE, outSeqLen, KeyContent(ks), pad);
    Assoc(VERSION_0, RsaAlgorithm() + Tlv(OCTET_STRING, RsaPrivateKey(ks)), pad);
    Assoc(RsaAlgorithm(), Tlv(OCTET_STRING, RsaPrivateKey(ks)), pad);
    w.Bytes([INTEGER, 1, 0], RsaAlgorithm() + private);
    w.Open(SEQUENCE, oidSeqLen, Tlv(OBJECT_ID, OID_RSA) + NULL_OBJECT, private);
    Assoc(Tlv(OBJECT_ID, OID_RSA), NULL_OBJECT, private);
    w.Put(OBJECT_ID, OID_RSA, NULL_OBJECT + private);
    w.Bytes([NULL_TAG, 0], private);
    w.Open(OCTET_STRING, octStrLen, RsaPrivateKey(ks), pad);
    w.Open(SEQUENCE, inSeqLen, VERSION_0 + KeyInts(ks), pad);
    Assoc(VERSION_0, KeyInts(ks), pad);
    w.Bytes([INTEGER, 1, 0], KeyInts(ks) + pad);
    WriteInts(w, ks, pad);
  }

  /** The loop that stores the parameters. */
  method WriteInts(w: Writer, ks: seq<nat>, ghost pad: seq<byte>)
    requires w.Valid() && w.rest == KeyInts(ks) + pad && |KeyInts(ks)| < LIMIT
    modifies w`p, w`rest, w.buf
    ensures w.Valid() && w.rest == pad && w.p == old(w.p) + |KeyInts(ks)|
  {
    hide Tlv, MpiPrint, KeyInts;
    assert ks[0..] == ks;
    NoInts();
    var i := 0;
    while i < |ks|
      invariant i <= |ks| && w.Valid()
      invariant w.rest == KeyInts(ks[i..]) + pad && w.p == old(w.p) + |KeyInts(ks[..i])|
    {
      KeyIntsNext(ks, i);
      Assoc(MpiTlv(ks[i]), KeyInts(ks[i + 1..]), pad);
      w.Put(INTEGER, MpiPrint(ks[i]), KeyInts(ks[i + 1..]) + pad);
      i := i + 1;
    }
    assert ks[i..] == [] && ks[..i] == ks;
    assert [] + pad == pad;
  }

  // ---------- attributes ----------

  /** Splice the key id into the template. */
  method PatchKeyId(template: seq<byte>, keyId: seq<byte>) returns (t: seq<byte>)
    requires |template| == 106 && |keyId| == 8
    ensures t == WithKeyId(template, keyId)
  {
    t := template;
    for i := 0 to 8
      invariant |t| == 106
      invariant forall j | 0 <= j < 106 :: t[j] == if KEYID_OFF < j < KEYID_OFF + 2 * i
          && j % 2 == 0 then keyId[(j - KEYID_OFF - 1) / 2] else template[j]
    {
      t := t[KEYID_OFF + 2 * i + 1 := keyId[i]];
    }
  }

  method BuildAttributes(hash: seq<byte>, keyId: seq<byte>) returns (a: seq<byte>)
    requires |hash| == 20 && keyId == KeyId(hash)
    ensures a == Attributes(hash)
  {
    hide WithKeyId, KeyId;
    a := PatchKeyId(DATA_ATTR_TEMPLATE, keyId);
    a := a + hash;
  }

  method PatchSalt(template: seq<byte>, off: nat, salt: seq<byte>) returns (r: seq<byte>)
    requires off + |salt| <= |template|
    ensures r == Patch(template, off, salt)
  {
    r := template;
    for i := 0 to |salt|
      invariant |r| == |template|
      invariant forall j | 0 <= j < |r| :: r[j] == if off <= j < off + i then salt[j - off] else template[j]
    {
      r := r[off + i := salt[i]];
    }
  }

  // ---------- bags ----------

  /** A length that the size pass computed for an object: the exact one, or one that fell
      behind because some object inside is too large for the length field. */
  predicate Sized(n: nat, actual: nat, exact: bool) {
    if exact then n == actual else LIMIT <= n < actual
  }

  /** One object of the size pass.  The size function gives 0 for an object that is too large,
      which the code does not check, while at least its tag is written. */
  lemma TlvSized(n: nat, tag: byte, content: seq<byte>, exact: bool)
    requires Sized(n, |content|, exact)
    ensures Sized(n + TagLength(n), |Tlv(tag, content)|, exact && |content| < LIMIT)
  {
  }

  lemma ShortTlv(tag: byte, content: seq<byte>)
    requires |content| < 128
    ensures |Tlv(tag, content)| == 2 + |content|
  {
  }

  lemma TlvLarger(tag: byte, content: seq<byte>)
    ensures |Tlv(tag, content)| > |content|
  {
  }

  /** The nested lengths of a key bag, inside out.  The computed size is that of the written
      object exactly if its contents are below the limit, and else too small. */
  method KeyBagSizes(enc: seq<byte>, ghost salt: seq<byte>, attributes: seq<byte>)
    returns (len8: nat, len7: nat, len5: nat, len4: nat, len3: nat, len2: nat, len0: nat, total: nat)
    requires |salt| == 8
    ensures |KeyBagContent(enc, salt, attributes)| < LIMIT ==>
              && len8 == |Algorithm(TripleDes, salt) + Tlv(OCTET_STRING, enc)|
              && len7 == |Tlv(SEQUENCE, Algorithm(TripleDes, salt) + Tlv(OCTET_STRING, enc))|
              && len5 == |Tlv(OBJECT_ID, OID_SHROUDED_KEY_BAG) + (ShroudedKey(enc, salt) + attributes)|
              && len4 == |KeySafeBag(enc, salt, attributes)|
              && len3 == |Tlv(SEQUENCE, KeySafeBag(enc, salt, attributes))|
              && len2 == |Tlv(OCTET_STRING, Tlv(SEQUENCE, KeySafeBag(enc, salt, attributes)))|
              && len0 == |KeyBagContent(enc, salt, attributes)|
              && |enc| <= len8 <= len7 <= len5 <= len4 <= len3 <= len2 <= len0 < LIMIT
    ensures Sized(total, |KeyBag(enc, salt, attributes)|, |KeyBagContent(enc, salt, attributes)| < LIMIT)
  {
    hide Header, Algorithm, Tlv, TagLength;
    ghost var c8 := Algorithm(TripleDes, salt) + Tlv(OCTET_STRING, enc);
    ghost var c7 := Tlv(SEQUENCE, c8);
    ghost var c5 := Tlv(OBJECT_ID, OID_SHROUDED_KEY_BAG) + (ShroudedKey(enc, salt) + attributes);
    ghost var c4 := KeySafeBag(enc, salt, attributes);
    ghost var c3 := Tlv(SEQUENCE, c4);
    ghost var c2 := Tlv(OCTET_STRING, c3);
    ghost var c0 := KeyBagContent(enc, salt, attributes);
    ghost var exact := true;
    TlvSized(|enc|, OCTET_STRING, enc, exact);
    exact := exact && |enc| < LIMIT;
    var needed := TagLength(|enc|) + |enc|;
    needed := needed + |DATA_3DES_ITER_2048|;
    len8 := needed;
    TlvSized(needed, SEQUENCE, c8, exact);
    exact := exact && |c8| < LIMIT;
    needed := needed + TagLength(needed);
    len7 := needed;
    TlvSized(needed, CONTEXT_0, c7, exact);
    exact := exact && |c7| < LIMIT;
    needed := needed + TagLength(needed);
    needed := needed + |attributes|;
    needed := needed + 2 + |OID_SHROUDED_KEY_BAG|;
    len5 := needed;
    ShortTlv(OBJECT_ID, OID_SHROUDED_KEY_BAG);
    TlvSized(needed, SEQUENCE, c5, exact);
    exact := exact && |c5| < LIMIT;
    needed := needed + TagLength(needed);
    len4 := needed;
    TlvSized(needed, SEQUENCE, c4, exact);
    exact := exact && |c4| < LIMIT;
    needed := needed + TagLength(needed);
    len3 := needed;
    TlvSized(needed, OCTET_STRING, c3, exact);
    exact := exact && |c3| < LIMIT;
    needed := needed + TagLength(needed);
    len2 := needed;
    TlvSized(needed, CONTEXT_0, c2, exact);
    exact := exact && |c2| < LIMIT;
    needed := needed + TagLength(needed);
    needed := needed + 2 + |OID_DATA|;
    len0 := needed;
    ShortTlv(OBJECT_ID, OID_DATA);
    TlvSized(needed, SEQUENCE, c0, exact);
    total := needed + TagLength(needed);
    TlvLarger(OCTET_STRING, enc);
    TlvLarger(SEQUENCE, c8);
    TlvLarger(CONTEXT_0, c7);
    TlvLarger(SEQUENCE, c5);
    TlvLarger(SEQUENCE, c4);
    TlvLarger(OCTET_STRING, c3);
    TlvLarger(CONTEXT_0, c2);
  }

  /** Steps 7 to 10 of the write pass. */
  method WriteShroudedKey(w: Writer, enc: seq<byte>, salt: seq<byte>, len7: nat, len8: nat, ghost more: seq<byte>)
    requires |salt| == 8 && w.Valid() && w.rest == ShroudedKey(enc, salt) + more
    requires len8 == |Algorithm(TripleDes, salt) + Tlv(OCTET_STRING, enc)|
    requires len7 == |Tlv(SEQUENCE, Algorithm(TripleDes, salt) + Tlv(OCTET_STRING, enc))| < LIMIT
    modifies w`p, w`rest, w.buf
    ensures w.Valid() && w.rest == more
  {
    hide Tlv, Algorithm;
    ghost var last := Tlv(OCTET_STRING, enc);
    var algorithm := PatchSalt(DATA_3DES_ITER_2048, SALT_OFF, salt);
    AlgorithmIsPatched(salt);
    w.Open(CONTEXT_0, len7, Tlv(SEQUENCE, Algorithm(TripleDes, salt) + last), more);
    w.Open(SEQUENCE, len8, Algorithm(TripleDes, salt) + last, more);
    Assoc(Algorithm(TripleDes, salt), last, more);
    w.Bytes(algorithm, last + more);
    w.Put(OCTET_STRING, enc, more);
  }

  /** build_key_bag; the attributes are present exactly when there is a hash. */
  method BuildKeyBag(enc: seq<byte>, salt: seq<byte>, hash: Option<seq<byte>>, keyId: seq<byte>)
    returns (out: seq<byte>)
    requires |salt| == 8 && (hash.Some? ==> |hash.value| == 20 && keyId == KeyId(hash.value))
    requires |KeyBagContent(enc, salt, OptionalAttributes(hash))| < LIMIT
    ensures out == KeyBag(enc, salt, OptionalAttributes(hash))
  {
    hide Tlv, Algorithm, Attributes, KeyId, ShroudedKey;
    var attributes: seq<byte> := [];
    if hash.Some? {
      attributes := BuildAttributes(hash.value, keyId);
    }
    var len8, len7, len5, len4, len3, len2, len0, needed := KeyBagSizes(enc, salt, attributes);
    ghost var safeBag := KeySafeBag(enc, salt, attributes);
    ghost var inner := Tlv(SEQUENCE, safeBag);
    ghost var value := ShroudedKey(enc, salt);
    var w := new Writer(needed, KeyBag(enc, salt, attributes));
    Nothing(KeyBag(enc, salt, attributes), KeyBagContent(enc, salt, attributes), value);
    w.Open(SEQUENCE, len0, KeyBagContent(enc, salt, attributes), []);
    w.Put(OBJECT_ID, OID_DATA, Tlv(CONTEXT_0, Tlv(OCTET_STRING, inner)));
    Nothing(Tlv(CONTEXT_0, Tlv(OCTET_STRING, inner)), Tlv(OCTET_STRING, inner), inner);
    w.Open(CONTEXT_0, len2, Tlv(OCTET_STRING, inner), []);
    w.Open(OCTET_STRING, len3, inner, []);
    w.Open(SEQUENCE, len4, safeBag, []);
    Nothing(safeBag, Tlv(OBJECT_ID, OID_SHROUDED_KEY_BAG) + (value + attributes), []);
    w.Open(SEQUENCE, len5, Tlv(OBJECT_ID, OID_SHROUDED_KEY_BAG) + (value + attributes), []);
    w.Put(OBJECT_ID, OID_SHROUDED_KEY_BAG, value + attributes);
    WriteShroudedKey(w, enc, salt, len7, len8, attributes);
    Nothing(attributes, [], []);
    w.Bytes(attributes, []);
    assert w.target[..w.p] == w.target;
    out := w.buf[..w.p];
  }

  lemma AlgorithmIsPatched(salt: seq<byte>)
    requires |salt| == 8
    ensures Algorithm(TripleDes, salt) == Patch(DATA_3DES_ITER_2048, SALT_OFF, salt)
    ensures Algorithm(Rc2, salt) == Patch(DATA_RC2_ITER_2048, SALT_OFF, salt)
  {
  }

  lemma Nothing(a: seq<byte>, b: seq<byte>, c: seq<byte>)
    ensures a + [] == a && b + [] == b && c + [] == c
  {
  }

  /** The nested lengths of a certificate bag, inside out. */
  method CertBagSizes(enc: seq<byte>, ghost salt: seq<byte>)
    returns (len5: nat, len3: nat, len2: nat, len0: nat, total: nat)
    requires |salt| == 8
    ensures |CertBagContent(enc, salt)| < LIMIT ==>
              && len5 == |Tlv(OBJECT_ID, OID_DATA) + (Algorithm(Rc2, salt) + Tlv(CONTEXT_0_PRIMITIVE, enc))|
              && len3 == |VERSION_0 + EncryptedContent(enc, salt)|
              && len2 == |Tlv(SEQUENCE, VERSION_0 + EncryptedContent(enc, salt))|
              && len0 == |CertBagContent(enc, salt)|
              && |enc| <= len5 <= len3 <= len2 <= len0 < LIMIT
    ensures Sized(total, |CertBag(enc, salt)|, |CertBagContent(enc, salt)| < LIMIT)
  {
    hide Header, Algorithm, Tlv, TagLength;
    ghost var c5 := Tlv(OBJECT_ID, OID_DATA) + (Algorithm(Rc2, salt) + Tlv(CONTEXT_0_PRIMITIVE, enc));
    ghost var c3 := VERSION_0 + EncryptedContent(enc, salt);
    ghost var c2 := Tlv(SEQUENCE, c3);
    ghost var c0 := CertBagContent(enc, salt);
    ghost var exact := true;
    ShortTlv(OBJECT_ID, OID_DATA);
    ShortTlv(OBJECT_ID, OID_ENCRYPTED_DATA);
    TlvSized(|enc|, CONTEXT_0_PRIMITIVE, enc, exact);
    exact := exact && |enc| < LIMIT;
    var needed := TagLength(|enc|) + |enc|;
    needed := needed + |DATA_RC2_ITER_2048|;
    needed := needed + 2 + |OID_DATA|;
    len5 := needed;
    TlvSized(needed, SEQUENCE, c5, exact);
    exact := exact && |c5| < LIMIT;
    needed := needed + TagLength(needed);
    needed := needed + 3;
    len3 := needed;
    TlvSized(needed, SEQUENCE, c3, exact);
    exact := exact && |c3| < LIMIT;
    needed := needed + TagLength(needed);
    len2 := needed;
    TlvSized(needed, CONTEXT_0, c2, exact);
    exact := exact && |c2| < LIMIT;
    needed := needed + TagLength(needed);
    needed := needed + 2 + |OID_ENCRYPTED_DATA|;
    len0 := needed;
    TlvSized(needed, SEQUENCE, c0, exact);
    total := needed + TagLength(needed);
    TlvLarger(CONTEXT_0_PRIMITIVE, enc);
    TlvLarger(SEQUENCE, c5);
    TlvLarger(SEQUENCE, c3);
    TlvLarger(CONTEXT_0, c2);
  }

  /** build_cert_bag */
  method BuildCertBag(enc: seq<byte>, salt: seq<byte>) returns (out: seq<byte>)
    requires |salt| == 8 && |CertBagContent(enc, salt)| < LIMIT
    ensures out == CertBag(enc, salt)
  {
    hide Tlv, Algorithm;
    var len5, len3, len2, len0, needed := CertBagSizes(enc, salt);
    var algorithm := PatchSalt(DATA_RC2_ITER_2048, SALT_OFF, salt);
    AlgorithmIsPatched(salt);
    ghost var content := CertBagContent(enc, salt);
    ghost var versioned := VERSION_0 + EncryptedContent(enc, salt);
    ghost var last := Tlv(CONTEXT_0_PRIMITIVE, enc);
    ghost var inner := Tlv(OBJECT_ID, OID_DATA) + (Algorithm(Rc2, salt) + last);
    var w := new Writer(needed, CertBag(enc, salt));
    Nothing(CertBag(enc, salt), content, Tlv(CONTEXT_0, Tlv(SEQUENCE, versioned)));
    Nothing(Tlv(SEQUENCE, versioned), versioned, EncryptedContent(enc, salt));
    Nothing(inner, last, enc);
    w.Open(SEQUENCE, len0, content, []);
    w.Put(OBJECT_ID, OID_ENCRYPTED_DATA, Tlv(CONTEXT_0, Tlv(SEQUENCE, versioned)));
    w.Open(CONTEXT_0, len2, Tlv(SEQUENCE, versioned), []);
    w.Open(SEQUENCE, len3, versioned, []);
    w.Bytes([INTEGER, 1, 0], EncryptedContent(enc, salt));
    w.Open(SEQUENCE, len5, inner, []);
    w.Put(OBJECT_ID, OID_DATA, Algorithm(Rc2, salt) + last);
    w.Bytes(algorithm, last);
    w.Open(CONTEXT_0_PRIMITIVE, |enc|, enc, []);
    w.Bytes(enc, []);
    assert w.target[..w.p] == w.target;
    out := w.buf[..w.p];
  }

  /** The nested lengths of a certificate sequence, inside out. */
  method CertSequenceSizes(cert: seq<byte>, attributes: seq<byte>)
    returns (len6: nat, len4: nat, len3: nat, len1: nat, len0: nat, total: nat)
    ensures |CertSafeBag(cert, attributes)| < LIMIT ==>
              && len6 == |Tlv(OCTET_STRING, cert)|
              && len4 == |Tlv(OBJECT_ID, OID_X509) + Tlv(CONTEXT_0, Tlv(OCTET_STRING, cert))|
              && len3 == |Tlv(SEQUENCE, Tlv(OBJECT_ID, OID_X509) + Tlv(CONTEXT_0, Tlv(OCTET_STRING, cert)))|
              && len1 == |Tlv(OBJECT_ID, OID_CERT_BAG) + (CertValue(cert) + attributes)|
              && len0 == |CertSafeBag(cert, attributes)|
              && |cert| <= len6 <= len4 <= len3 <= len1 <= len0 < LIMIT
    ensures Sized(total, |CertSequence(cert, attributes)|, |CertSafeBag(cert, attributes)| < LIMIT)
  {
    hide Header, Tlv, TagLength;
    ghost var c6 := Tlv(OCTET_STRING, cert);
    ghost var c4 := Tlv(OBJECT_ID, OID_X509) + Tlv(CONTEXT_0, c6);
    ghost var c3 := Tlv(SEQUENCE, c4);
    ghost var c1 := Tlv(OBJECT_ID, OID_CERT_BAG) + (CertValue(cert) + attributes);
    ghost var c0 := CertSafeBag(cert, attributes);
    ghost var exact := true;
    ShortTlv(OBJECT_ID, OID_X509);
    ShortTlv(OBJECT_ID, OID_CERT_BAG);
    TlvSized(|cert|, OCTET_STRING, cert, exact);
    exact := exact && |cert| < LIMIT;
    var needed := TagLength(|cert|) + |cert|;
    len6 := needed;
    TlvSized(needed, CONTEXT_0, c6, exact);
    exact := exact && |c6| < LIMIT;
    needed := needed + TagLength(needed);
    needed := needed + 2 + |OID_X509|;
    len4 := needed;
    TlvSized(needed, SEQUENCE, c4, exact);
    exact := exact && |c4| < LIMIT;
    needed := needed + TagLength(needed);
    len3 := needed;
    TlvSized(needed, CONTEXT_0, c3, exact);
    exact := exact && |c3| < LIMIT;
    needed := needed + TagLength(needed);
    needed := needed + |attributes|;
    needed := needed + 2 + |OID_CERT_BAG|;
    len1 := needed;
    TlvSized(needed, SEQUENCE, c1, exact);
    exact := exact && |c1| < LIMIT;
    needed := needed + TagLength(needed);
    len0 := needed;
    TlvSized(needed, SEQUENCE, c0, exact);
    total := needed + TagLength(needed);
    TlvLarger(OCTET_STRING, cert);
    TlvLarger(CONTEXT_0, c6);
    TlvLarger(SEQUENCE, c4);
    TlvLarger(CONTEXT_0, c3);
    TlvLarger(SEQUENCE, c1);
  }

  /** build_cert_sequence */
  method BuildCertSequence(cert: seq<byte>, hash: Option<seq<byte>>, keyId: seq<byte>) returns (out: seq<byte>)
    requires hash.Some? ==> |hash.value| == 20 && keyId == KeyId(hash.value)
    requires |CertSafeBag(cert, OptionalAttributes(hash))| < LIMIT
    ensures out == Padded(CertSequence(cert, OptionalAttributes(hash)))
  {
    hide Tlv, Attributes, KeyId, CertValue, CertSafeBag, Padding;
    var attributes: seq<byte> := [];
    if hash.Some? {
      attributes := BuildAttributes(hash.value, keyId);
    }
    var len6, len4, len3, len1, len0, needed := CertSequenceSizes(cert, attributes);
    ghost var whole := CertSequence(cert, attributes);
    ghost var pad := Padding(|whole|);
    var w := new Writer(needed + 8, Padded(whole));
    w.Open(SEQUENCE, len0, CertSafeBag(cert, attributes), pad);
    WriteCertSafeBag(w, cert, attributes, len6, len4, len3, len1, pad);
    assert |w.target[w.p..]| == |pad| && w.p == |whole|;
    Pad(w, w.p);
    assert w.target[..w.p] == w.target;
    out := w.buf[..w.p];
  }

  /** Steps 1 to 7 of the write pass and the attributes. */
  method WriteCertSafeBag(w: Writer, cert: seq<byte>, attributes: seq<byte>,
                          len6: nat, len4: nat, len3: nat, len1: nat, ghost pad: seq<byte>)
    requires w.Valid() && w.rest == CertSafeBag(cert, attributes) + pad
    requires len6 == |Tlv(OCTET_STRING, cert)|
    requires len4 == |Tlv(OBJECT_ID, OID_X509) + Tlv(CONTEXT_0, Tlv(OCTET_STRING, cert))|
    requires len3 == |Tlv(SEQUENCE, Tlv(OBJECT_ID, OID_X509) + Tlv(CONTEXT_0, Tlv(OCTET_STRING, cert)))|
    requires len1 == |Tlv(OBJECT_ID, OID_CERT_BAG) + (CertValue(cert) + attributes)|
    requires |cert| <= len6 <= len4 <= len3 <= len1 < LIMIT
    modifies w`p, w`rest, w.buf
    ensures w.Valid() && w.rest == pad
  {
    hide Tlv;
    ghost var octets := Tlv(OCTET_STRING, cert);
    ghost var content := Tlv(OBJECT_ID, OID_X509) + Tlv(CONTEXT_0, octets);
    ghost var more := attributes + pad;
    w.Open(SEQUENCE, len1, Tlv(OBJECT_ID, OID_CERT_BAG) + (CertValue(cert) + attributes), pad);
    Assoc(Tlv(OBJECT_ID, OID_CERT_BAG), CertValue(cert) + attributes, pad);
    Assoc(CertValue(cert), attributes, pad);
    w.Put(OBJECT_ID, OID_CERT_BAG, CertValue(cert) + more);
    w.Open(CONTEXT_0, len3, Tlv(SEQUENCE, content), more);
    w.Open(SEQUENCE, len4, content, more);
    Assoc(Tlv(OBJECT_ID, OID_X509), Tlv(CONTEXT_0, octets), more);
    w.Put(OBJECT_ID, OID_X509, Tlv(CONTEXT_0, octets) + more);
    w.Open(CONTEXT_0, len6, octets, more);
    w.Put(OCTET_STRING, cert, more);
    w.Bytes(attributes, pad);
  }

  // ---------- the whole ----------

  function Joined(parts: seq<seq<byte>>): seq<byte> {
    if parts == [] then [] else parts[0] + Joined(parts[1..])
  }

  lemma {:induction false} JoinedAppend(a: seq<seq<byte>>, b: seq<byte>)
    ensures Joined(a + [b]) == Joined(a) + b
  {
    if a == [] {
      assert (a + [b])[1..] == [];
    } else {
      assert (a + [b])[1..] == a[1..] + [b];
      JoinedAppend(a[1..], b);
    }
  }

  /** The nested lengths of the outer object, inside out. */
  method FinalSizes(sequences: seq<seq<byte>>, ghost mac: seq<byte>)
    returns (len6: nat, len5: nat, len4: nat, len2: nat, len0: nat, total: nat)
    requires |mac| == |DATA_MAC_TEMPLATE|
    ensures
      var bags := Joined(sequences);
      |PfxContent(bags, mac)| < LIMIT ==>
        && len6 == |bags| && len5 == |AuthSafe(bags)| && len4 == |Tlv(OCTET_STRING, AuthSafe(bags))|
        && len2 == |Tlv(OBJECT_ID, OID_DATA) + Tlv(CONTEXT_0, Tlv(OCTET_STRING, AuthSafe(bags)))|
        && len0 == |PfxContent(bags, mac)|
        && len6 <= len5 <= len4 <= len2 <= len0 < LIMIT
    ensures Sized(total, |Pfx(Joined(sequences), mac)|, |PfxContent(Joined(sequences), mac)| < LIMIT)
  {
    hide Header, Joined, Tlv, TagLength;
    ghost var bags := Joined(sequences);
    ghost var c5 := AuthSafe(bags);
    ghost var c4 := Tlv(OCTET_STRING, c5);
    ghost var c2 := Tlv(OBJECT_ID, OID_DATA) + Tlv(CONTEXT_0, c4);
    ghost var c0 := PfxContent(bags, mac);
    ghost var exact := true;
    ShortTlv(OBJECT_ID, OID_DATA);
    var needed := TotalLength(sequences);
    len6 := needed;
    TlvSized(needed, SEQUENCE, bags, exact);
    exact := exact && |bags| < LIMIT;
    needed := needed + TagLength(needed);
    len5 := needed;
    TlvSized(needed, OCTET_STRING, c5, exact);
    exact := exact && |c5| < LIMIT;
    needed := needed + TagLength(needed);
    len4 := needed;
    TlvSized(needed, CONTEXT_0, c4, exact);
    exact := exact && |c4| < LIMIT;
    needed := needed + TagLength(needed);
    needed := needed + 2 + |OID_DATA|;
    len2 := needed;
    TlvSized(needed, SEQUENCE, c2, exact);
    exact := exact && |c2| < LIMIT;
    needed := needed + TagLength(needed);
    needed := needed + 3;
    needed := needed + |DATA_MAC_TEMPLATE|;
    len0 := needed;
    TlvSized(needed, SEQUENCE, c0, exact);
    total := needed + TagLength(needed);
    TlvLarger(SEQUENCE, bags);
    TlvLarger(OCTET_STRING, c5);
    TlvLarger(CONTEXT_0, c4);
    TlvLarger(SEQUENCE, c2);
  }

  method TotalLength(sequences: seq<seq<byte>>) returns (needed: nat)
    ensures needed == |Joined(sequences)|
  {
    needed := 0;
    for i := 0 to |sequences|
      invariant needed == |Joined(sequences[..i])|
    {
      assert sequences[..i + 1] == sequences[..i] + [sequences[i]];
      JoinedAppend(sequences[..i], sequences[i]);
      needed := needed + |sequences[i]|;
    }
    assert sequences[..|sequences|] == sequences;
  }

  method WriteAll(w: Writer, sequences: seq<seq<byte>>, ghost more: seq<byte>)
    requires w.Valid() && w.rest == Joined(sequences) + more
    modifies w`p, w`rest, w.buf
    ensures w.Valid() && w.rest == more && w.p == old(w.p) + |Joined(sequences)|
  {
    assert sequences[0..] == sequences;
    var i := 0;
    while i < |sequences|
      invariant i <= |sequences| && w.Valid() && w.rest == Joined(sequences[i..]) + more
      invariant w.p + |Joined(sequences[i..])| == old(w.p) + |Joined(sequences)|
    {
      assert sequences[i..][1..] == sequences[i + 1..];
      Assoc(sequences[i], Joined(sequences[i + 1..]), more);
      w.Bytes(sequences[i], Joined(sequences[i + 1..]) + more);
      i := i + 1;
    }
    assert sequences[i..] == [];
    assert [] + more == more;
  }

  /** create_final: fails exactly when no MAC key can be derived; what is hashed is the range
      between `macStart` and the write position, and that is the contents of the octet string. */
  method CreateFinal(x: Crypto, sequences: seq<seq<byte>>, pw: seq<byte>, salt: seq<byte>)
    returns (out: Option<seq<byte>>)
    requires x.Sound() && |salt| == 8
    requires |Pfx(Joined(sequences), FinalMac(x, sequences, pw, salt))| < LIMIT
    ensures out.Some? <==> |pw| <= MAX_PASSWORD
    ensures out.Some? ==> out.value == Pfx(Joined(sequences), FinalMac(x, sequences, pw, salt))
  {
    hide Tlv, Joined, MacData;
    ghost var bags := Joined(sequences);
    ghost var mac := FinalMac(x, sequences, pw, salt);
    ghost var octets := Tlv(OCTET_STRING, AuthSafe(bags));
    ghost var info := Tlv(OBJECT_ID, OID_DATA) + Tlv(CONTEXT_0, octets);
    var len6, len5, len4, len2, len0, needed := FinalSizes(sequences, mac);
    var w := new Writer(needed, Pfx(bags, mac));
    Nothing(Pfx(bags, mac), PfxContent(bags, mac), mac);
    w.Open(SEQUENCE, len0, PfxContent(bags, mac), []);
    w.Bytes([INTEGER, 1, 3], Tlv(SEQUENCE, info) + mac);
    w.Open(SEQUENCE, len2, info, mac);
    Assoc(Tlv(OBJECT_ID, OID_DATA), Tlv(CONTEXT_0, octets), mac);
    w.Put(OBJECT_ID, OID_DATA, Tlv(CONTEXT_0, octets) + mac);
    w.Open(CONTEXT_0, len4, octets, mac);
    w.Open(OCTET_STRING, len5, AuthSafe(bags), mac);
    var macStart := w.p;
    w.Open(SEQUENCE, len6, bags, mac);
    WriteAll(w, sequences, mac);
    if |pw| > MAX_PASSWORD {
      return None;
    }
    MacRange(w, macStart, AuthSafe(bags), mac);
    var digest := x.hmac(salt, ITERATIONS, pw, w.buf[macStart..w.p]);
    var data := BuildMacData(digest, salt);
    w.Bytes(data, []);
    assert w.target[..w.p] == w.target;
    return Some(w.buf[..w.p]);
  }

  ghost function FinalMac(x: Crypto, sequences: seq<seq<byte>>, pw: seq<byte>, salt: seq<byte>): (mac: seq<byte>)
    requires x.Sound() && |salt| == 8
    ensures |mac| == 51
  {
    MacData(x.hmac(salt, ITERATIONS, pw, AuthSafe(Joined(sequences))), salt)
  }

  lemma MacRange(w: Writer, start: nat, covered: seq<byte>, mac: seq<byte>)
    requires w.Valid() && start + |covered| == w.p && w.target[start..] == covered + mac
    ensures w.buf[start..w.p] == covered
  {
    assert w.buf[start..w.p] == w.buf[..w.p][start..];
    assert w.target[..w.p][start..] == w.target[start..][..|covered|];
  }

  /** The MAC template with salt and MAC put in. */
  method BuildMacData(digest: seq<byte>, salt: seq<byte>) returns (data: seq<byte>)
    requires |digest| == 20 && |salt| == 8
    ensures data == MacData(digest, salt)
  {
    data := PatchSalt(DATA_MAC_TEMPLATE, MAC_SALT_OFF, salt);
    data := PatchSalt(data, MAC_OFF, digest);
  }

  predicate KeyFits(q: Request) {
    q.key.Some? ==> |q.key.value| == 8 && |KeyContent(q.key.value)| < LIMIT
  }

  /** p12_build: a file comes out exactly when the key has eight parameters that fit and the
      password is not too long, and it is the promised one. */
  method P12Build(x: Crypto, q: Request) returns (out: Option<seq<byte>>)
    requires x.Sound() && q.Valid()
    requires |CertBags(x, q)| < LIMIT && (KeyFits(q) ==> |File(x, q)| < LIMIT)
    ensures out.Some? <==> KeyFits(q) && |q.pw| <= 31
    ensures out.Some? ==> out.value == File(x, q)
  {
    hide File, AllBags, KeyBags, CertBags, CertHash, Pfx, FinalMac, Padded, KeyInfoObject, KeyContent, Joined,
        Crypto.Sound;
    var seqList: seq<seq<byte>> := [];
    var hash: Option<seq<byte>> := None;
    var keyId: seq<byte> := [];
    if |q.cert| != 0 {
      var digest := x.sha1(q.cert);
      HashLength(x, q.cert);
      hash, keyId := Some(digest), KeyId(digest);
      var bag := BuildEncryptedCert(x, q, digest, keyId);
      seqList := seqList + [bag];
      assert seqList == [bag];
    }
    CertCases(x, q);
    JoinedOne(CertBags(x, q));
    assert Joined(seqList) == CertBags(x, q) && hash == CertHash(x, q);
    if q.key.Some? {
      var plain := BuildKeySequence(q.key.value);
      if plain.None? {
        return None;
      }
      var bag := BuildEncryptedKey(x, q, plain.value, hash, keyId);
      JoinedAppend(seqList, bag);
      seqList := seqList + [bag];
    } else {
      NoKeyBags(x, q);
    }
    AllJoined(x, q, seqList);
    out := CreateFinal(x, seqList, q.pw, q.macSalt);
  }

  lemma JoinedOne(a: seq<byte>)
    ensures Joined([a]) == a && Joined([]) == []
  {
    assert [a][1..] == [];
    assert a + [] == a;
  }

  lemma CertCases(x: Crypto, q: Request)
    requires x.Sound() && q.Valid()
    ensures CertHash(x, q) == if q.cert == [] then None else Some(x.sha1(q.cert))
    ensures q.cert == [] ==> CertBags(x, q) == []
  {
  }

  lemma NoKeyBags(x: Crypto, q: Request)
    requires x.Sound() && q.Valid() && q.key.None?
    ensures CertBags(x, q) + KeyBags(x, q) == CertBags(x, q)
  {
    assert KeyBags(x, q) == [];
    hide CertBags;
  }

  lemma AllJoined(x: Crypto, q: Request, seqList: seq<seq<byte>>)
    requires x.Sound() && q.Valid() && Joined(seqList) == CertBags(x, q) + KeyBags(x, q)
    ensures Joined(seqList) == AllBags(x, q)
    ensures Pfx(Joined(seqList), FinalMac(x, seqList, q.pw, q.macSalt)) == File(x, q)
  {
    hide Joined, CertBags, KeyBags, MacData, Pfx;
  }

  method BuildEncryptedCert(x: Crypto, q: Request, digest: seq<byte>, keyId: seq<byte>) returns (bag: seq<byte>)
    requires x.Sound() && q.Valid() && q.cert != [] && |CertBags(x, q)| < LIMIT
    requires digest == x.sha1(q.cert) && |digest| == 20 && keyId == KeyId(digest)
    ensures bag == CertBags(x, q)
  {
    hide Header, Algorithm, Attributes, KeyId, CertSafeBag;
    CryptRoundTripLength(x, Padded(CertSequence(q.cert, Attributes(digest))), q.certSalt, q.pw, Rc2);
    var plain := BuildCertSequence(q.cert, Some(digest), keyId);
    var enc := CryptBlock(x, plain, q.certSalt, ITERATIONS, q.pw, Rc2, true);
    bag := BuildCertBag(enc, q.certSalt);
  }

  method BuildEncryptedKey(x: Crypto, q: Request, plain: seq<byte>, hash: Option<seq<byte>>, keyId: seq<byte>)
    returns (bag: seq<byte>)
    requires x.Sound() && q.Valid() && q.key.Some? && KeyFits(q) && |File(x, q)| < LIMIT
    requires plain == Padded(KeyInfoObject(q.key.value)) && hash == CertHash(x, q)
    requires hash.Some? ==> keyId == KeyId(hash.value)
    ensures bag == KeyBags(x, q)
  {
    KeyBagsFit(x, q);
    hide Header, Algorithm, OptionalAttributes, KeyId, KeyBagContent, Pfx, File;
    var enc := CryptBlock(x, plain, q.keySalt, ITERATIONS, q.pw, TripleDes, true);
    bag := BuildKeyBag(enc, q.keySalt, hash, keyId);
  }

  lemma KeyBagsFit(x: Crypto, q: Request)
    requires x.Sound() && q.Valid() && q.key.Some?
    ensures |KeyBagContent(EncryptedKey(x, q, q.key.value), q.keySalt, OptionalAttributes(CertHash(x, q)))|
          < |File(x, q)|
  {
    hide Header, KeyBagContent, CertBags, MacOf;
  }

  lemma CryptRoundTripLength(x: Crypto, data: seq<byte>, salt: seq<byte>, pw: seq<byte>, c: Cipher)
    requires x.Sound() && |data| % 8 == 0
    ensures |CryptBlock(x, data, salt, ITERATIONS, pw, c, true)| == |data|
  {
  }
}
