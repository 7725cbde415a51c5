/** What the hand-written PKCS#12 reader makes of any buffer, as functions of that buffer.
    The source's position and remaining size are the bytes that are left. */
module P12Reader {
  import opened Common
  import opened Der
  import opened P12Layout

  // ---------- one object ----------

  /** parse_tag followed by a check of the tag number and, where the reader makes it, of the
      universal class. */
  function Enter(s: seq<byte>, universal: bool, tag: nat): (r: Option<(TagInfo, seq<byte>)>)
    ensures r.Some? ==> |r.value.1| < |s| && r.value.0.length <= |r.value.1|
  {
    var (ti, rest) :- Decoded(s);
    if (universal && ti.cls != 0) || ti.tag != tag then None else Some((ti, rest))
  }

  /** A [0] context tag. */
  function EnterContext(s: seq<byte>): (r: Option<(TagInfo, seq<byte>)>)
    ensures r.Some? ==> |r.value.1| < |s| && r.value.0.length <= |r.value.1|
  {
    var (ti, rest) :- Decoded(s);
    if ti.cls != 2 || ti.tag != 0 then None else Some((ti, rest))
  }

  /** Whether the object just entered has exactly these contents. */
  predicate Holds(ti: TagInfo, rest: seq<byte>, content: seq<byte>) {
    ti.length == |content| && content <= rest
  }

  /** An object identifier that must be this one; it is skipped. */
  function ExpectOid(s: seq<byte>, universal: bool, oid: seq<byte>): (r: Option<seq<byte>>)
    ensures r.Some? ==> |r.value| < |s|
  {
    var (ti, rest) :- Enter(s, universal, OBJECT_ID);
    if Holds(ti, rest, oid) then Some(rest[|oid|..]) else None
  }

  /** A one-octet integer of this value; it is skipped. */
  function ExpectInteger(s: seq<byte>, universal: bool, v: byte): (r: Option<seq<byte>>)
    ensures r.Some? ==> |r.value| < |s|
  {
    var (ti, rest) :- Enter(s, universal, INTEGER);
    if Holds(ti, rest, [v]) then Some(rest[1..]) else None
  }

  function Skip(ti: TagInfo, rest: seq<byte>): (r: seq<byte>)
    requires ti.length <= |rest|
    ensures |r| <= |rest|
  {
    rest[ti.length..]
  }

  /** cram_octet_string: the joined contents of primitive octet strings up to an end tag, and
      what follows that. */
  function Crammed(s: seq<byte>, acc: seq<byte>): (r: Option<(seq<byte>, seq<byte>)>)
    ensures r.Some? ==> |r.value.1| < |s|
    decreases |s|
  {
    var (ti, rest) :- Decoded(s);
    if ti.cls == 0 && ti.tag == OCTET_STRING && !ti.ndef && !ti.constructed then
      Crammed(Skip(ti, rest), acc + rest[..ti.length])
    else if ti.cls == 0 && ti.tag == 0 && !ti.constructed then Some((acc, rest))
    else None
  }

  // ---------- a private key ----------

  /** The loop over the key parameters: `len` octets of INTEGERs, at most nine of them, where
      zeros in front of the first one are ignored. */
  function KeyParams(s: seq<byte>, len: nat, acc: seq<nat>): Option<(seq<nat>, seq<byte>)>
    decreases |s|
  {
    if len == 0 then Some((acc, s))
    else if |acc| >= 9 then None
    else
      var (ti, rest) :- Enter(s, true, INTEGER);
      if len < ti.nhdr + ti.length then None
      else
        var value := rest[..ti.length];
        var acc' := if acc == [] && value == [0] then acc else acc + [MpiScan(value)];
        KeyParams(Skip(ti, rest), len - ti.nhdr - ti.length, acc')
  }

  /** The algorithm sequence, whose parameters after the identifier are skipped. */
  function SkipRsaAlgorithm(s: seq<byte>): (r: Option<seq<byte>>)
    ensures r.Some? ==> |r.value| < |s|
  {
    var (outer, s1) :- Enter(s, true, SEQUENCE);
    var (ti, s2) :- Enter(s1, true, OBJECT_ID);
    if !Holds(ti, s2, OID_RSA) || outer.length < ti.nhdr + ti.length then None
    else
      var s3 := s2[|OID_RSA|..];
      var len := outer.length - ti.nhdr - ti.length;
      if |s3| < len then None else Some(s3[len..])
  }

  /** A private key object: its parameters and what follows it. */
  function KeyInfo(s: seq<byte>): Option<(seq<nat>, seq<byte>)> {
    var (_, s1) :- Enter(s, true, SEQUENCE);
    var s2 :- ExpectInteger(s1, true, 0);
    var s3 :- SkipRsaAlgorithm(s2);
    var (_, s4) :- Enter(s3, true, OCTET_STRING);
    var (ti, s5) :- Enter(s4, true, SEQUENCE);
    KeyParams(s5, ti.length, [])
  }

  // ---------- decryption ----------

  /** Salt and iteration count (a 32-bit counter) of the algorithm parameters. */
  function PbeParams(s: seq<byte>): (r: Option<(seq<byte>, nat, seq<byte>)>)
    ensures r.Some? ==> 8 <= |r.value.0| <= 20 && |r.value.2| < |s|
  {
    var (_, s1) :- Enter(s, true, SEQUENCE);
    var (ti, s2) :- Enter(s1, true, OCTET_STRING);
    if ti.length < 8 || ti.length > 20 then None
    else
      var (count, s3) :- Enter(Skip(ti, s2), true, INTEGER);
      if count.length == 0 then None
      else Some((s2[..ti.length], MpiScan(s3[..count.length]) % 0x1_0000_0000, Skip(count, s3)))
  }

  /** decrypt_block: the first password encoding that gives a plausible plaintext, or else
      the last one that was tried. */
  function Plaintext(x: Crypto, data: seq<byte>, salt: seq<byte>, iter: nat, pw: seq<byte>, others: seq<seq<byte>>,
                     c: Cipher, check: seq<byte> -> bool): seq<byte>
    decreases others
  {
    var plain := CryptBlock(x, data, salt, iter, pw, c, false);
    if check(plain) || others == [] then plain
    else Plaintext(x, data, salt, iter, others[0], others[1..], c, check)
  }

  /** bag_decrypted_data_p */
  predicate BagDecryptedDataP(plain: seq<byte>) {
    var r := Enter(plain, true, SEQUENCE);
    r.Some? && Decoded(r.value.1).Some?
  }

  /** bag_data_p */
  predicate BagDataP(plain: seq<byte>) {
    var r := Enter(plain, true, SEQUENCE);
    r.Some? && ExpectInteger(r.value.1, true, 0).Some?
  }

  // ---------- a data bag ----------

  /** Up to the octet string that holds the safe contents: those contents and how much of the
      original was used, which is final (`crammed`) when the string came in chunks. */
  function DataBagString(s: seq<byte>): (r: Option<(bool, nat, seq<byte>)>)
    ensures r.Some? && !r.value.0 ==> |r.value.2| < |s|
  {
    var (_, s1) :- EnterContext(s);
    var (ti, s2) :- Enter(s1, true, OCTET_STRING);
    var consumed := |s| - |s2|;
    if ti.constructed && ti.ndef then
      var (joined, after) :- Crammed(s2, []);
      Some((true, |s| - |after|, joined))
    else Some((false, consumed, s2))
  }

  /** From the safe contents to the encrypted key: salt, iterations and ciphertext. */
  function ShroudedKeyAt(s: seq<byte>): (r: Option<(seq<byte>, nat, seq<byte>, seq<byte>)>)
    ensures r.Some? ==> |r.value.2| <= |r.value.3| < |s|
  {
    var (_, s1) :- Enter(s, true, SEQUENCE);
    var (_, s2) :- Enter(s1, true, SEQUENCE);
    var s3 :- ExpectOid(s2, true, OID_SHROUDED_KEY_BAG);
    var (_, s4) :- EnterContext(s3);
    var (_, s5) :- Enter(s4, true, SEQUENCE);
    var (_, s6) :- Enter(s5, true, SEQUENCE);
    var s7 :- ExpectOid(s6, true, OID_PBE_3DES);
    var (salt, iter, s8) :- PbeParams(s7);
    var (ti, s9) :- Enter(s8, true, OCTET_STRING);
    if ti.length == 0 then None else Some((salt, iter, s9[..ti.length], s9))
  }

  /** parse_bag_data: the key and the number of octets reported as used. */
  function BagData(x: Crypto, s: seq<byte>, pw: seq<byte>, others: seq<seq<byte>>): Option<(seq<nat>, nat)> {
    var (crammed, consumed, s1) :- DataBagString(s);
    var (salt, iter, enc, s2) :- ShroudedKeyAt(s1);
    var plain := Plaintext(x, enc, salt, iter, pw, others, TripleDes, BagDataP);
    var (key, _) :- KeyInfo(plain);
    Some((key, if crammed then consumed else consumed + (|s| - |s2|) + |enc|))
  }

  // ---------- an encrypted bag ----------

  /** The certificates handed to the callback, which stay handed over when an error follows,
      and the key found. */
  datatype Outcome = Outcome(ok: bool, certs: seq<seq<byte>>, key: Option<seq<nat>>)

  /** Down to the ciphertext: cipher, salt, iterations. */
  function EncryptedHeader(s: seq<byte>): (r: Option<(Cipher, seq<byte>, nat, seq<byte>)>)
    ensures r.Some? ==> |r.value.3| < |s|
  {
    var (_, s1) :- EnterContext(s);
    var (_, s2) :- Enter(s1, false, SEQUENCE);
    var s3 :- ExpectInteger(s2, false, 0);
    var (_, s4) :- Enter(s3, false, SEQUENCE);
    var s5 :- ExpectOid(s4, false, OID_DATA);
    var (_, s6) :- Enter(s5, true, SEQUENCE);
    var (ti, s7) :- Enter(s6, true, OBJECT_ID);
    if Holds(ti, s7, OID_PBE_RC2_40) then
      var (salt, iter, s8) :- PbeParams(s7[|OID_PBE_RC2_40|..]);
      Some((Rc2, salt, iter, s8))
    else if Holds(ti, s7, OID_PBE_3DES) then
      var (salt, iter, s8) :- PbeParams(s7[|OID_PBE_3DES|..]);
      Some((TripleDes, salt, iter, s8))
    else None
  }

  /** The ciphertext, plain or in chunks, and the octets used up to it. */
  function Ciphertext(s: seq<byte>, total: nat): Option<(seq<byte>, int)> {
    var (ti, rest) :- Decoded(s);
    if ti.cls == 2 && ti.tag == 0 && ti.constructed && ti.ndef then
      var (joined, after) :- Crammed(rest, []);
      Some((joined, total - |after|))
    else if ti.cls == 2 && ti.tag == 0 && ti.length != 0 then Some((rest[..ti.length], total - |rest|))
    else None
  }

  datatype BagKind = Cert | Crl | Key

  function BagKindAt(ti: TagInfo, rest: seq<byte>): Option<BagKind> {
    if Holds(ti, rest, OID_CERT_BAG) then Some(Cert)
    else if Holds(ti, rest, OID_CRL_BAG) then Some(Crl)
    else if Holds(ti, rest, OID_KEY_BAG) then Some(Key)
    else None
  }

  /** The certificate in a certificate bag and what follows it. */
  function CertAt(s: seq<byte>): (r: Option<(seq<byte>, seq<byte>)>)
    ensures r.Some? ==> |r.value.1| < |s|
  {
    var (_, s1) :- Enter(s, true, SEQUENCE);
    var s2 :- ExpectOid(s1, true, OID_X509);
    var (_, s3) :- EnterContext(s2);
    var (ti, s4) :- Enter(s3, true, OCTET_STRING);
    if ti.ndef then None else Some((s4[..ti.length], Skip(ti, s4)))
  }

  /** A rest that can only be padding is forgotten. */
  function DropPadding(s: seq<byte>): seq<byte> {
    if |s| <= 8 then [] else s
  }

  /** The attribute set after a bag, if there is one, and the header of the next bag. */
  function NextBag(s: seq<byte>): (r: Option<(TagInfo, seq<byte>)>)
    ensures r.Some? ==> |r.value.1| <= |s|
  {
    var s0 := DropPadding(s);
    if s0 == [] then Some((NO_TAG, [])) else
    var (ti, s1) :- Decoded(s0);
    if ti.cls == 0 && ti.tag == SEQUENCE then Some((ti, s1))
    else if ti.cls == 0 && ti.tag == SET && !ti.ndef then
      var s2 := DropPadding(Skip(ti, s1));
      if s2 == [] then Some((NO_TAG, [])) else Decoded(s2)
    else None
  }

  const NO_TAG := TagInfo(0, false, 0, 0, 0, false)

  /** The loop over the bags of a decrypted sequence; `ti` is the header just read. */
  function BagLoop(s: seq<byte>, ti: TagInfo, certs: seq<seq<byte>>, key: Option<seq<nat>>, wantKey: bool): Outcome
    decreases |s|
  {
    if s == [] then Outcome(true, certs, key)
    else if ti.cls != 0 || ti.tag != SEQUENCE then Outcome(false, certs, None)
    else
      match OneBag(s, key.None? && wantKey)
      case None => Outcome(false, certs, None)
      case Some((found, k, s1)) =>
        var certs' := certs + found;
        var key' := if k.Some? then k else key;
        match NextBag(s1)
        case None => Outcome(false, certs', None)
        case Some((next, s2)) => BagLoop(s2, next, certs', key', wantKey)
  }

  /** One bag: the certificate or key it yields, and what follows. */
  function OneBag(s: seq<byte>, wantKey: bool): (r: Option<(seq<seq<byte>>, Option<seq<nat>>, seq<byte>)>)
    ensures r.Some? ==> |r.value.2| < |s|
  {
    var (oid, s1) :- Enter(s, true, OBJECT_ID);
    var kind :- BagKindAt(oid, s1);
    var (ti, s2) :- EnterContext(Skip(oid, s1));
    if kind == Crl || (kind == Key && !wantKey) then Some(([], None, Skip(ti, s2)))
    else if kind == Key then
      KeyInfoShrinks(s2);
      var (key, s3) :- KeyInfo(s2);
      Some(([], Some(key), s3))
    else
      var (cert, s3) :- CertAt(s2);
      Some(([cert], None, s3))
  }

  lemma {:induction false} KeyParamsShrink(s: seq<byte>, len: nat, acc: seq<nat>)
    ensures KeyParams(s, len, acc).Some? ==> |KeyParams(s, len, acc).value.1| <= |s|
    decreases |s|
  {
    hide Enter, MpiScan;
    if len != 0 && |acc| < 9 && Enter(s, true, INTEGER).Some? {
      var (ti, rest) := Enter(s, true, INTEGER).value;
      if len >= ti.nhdr + ti.length {
        var value := rest[..ti.length];
        var acc' := if acc == [] && value == [0] then acc else acc + [MpiScan(value)];
        KeyParamsShrink(Skip(ti, rest), len - ti.nhdr - ti.length, acc');
      }
    }
  }

  lemma KeyInfoShrinks(s: seq<byte>)
    ensures KeyInfo(s).Some? ==> |KeyInfo(s).value.1| < |s|
  {
    if KeyInfo(s).Some? {
      var s1 := Enter(s, true, SEQUENCE).value.1;
      var s2 := ExpectInteger(s1, true, 0).value;
      var s3 := SkipRsaAlgorithm(s2).value;
      var s4 := Enter(s3, true, OCTET_STRING).value.1;
      var t := Enter(s4, true, SEQUENCE).value;
      KeyParamsShrink(t.1, t.0.length, []);
    }
  }

  /** The decrypted sequence of bags. */
  function PlainBags(plain: seq<byte>, wantKey: bool): Outcome {
    match Enter(plain, true, SEQUENCE)
    case None => Outcome(false, [], None)
    case Some((_, s1)) =>
      match Decoded(s1)
      case None => Outcome(false, [], None)
      case Some((ti, s2)) => BagLoop(s2, ti, [], None, wantKey)
  }

  /** parse_bag_encrypted_data, and the number of octets reported as used. */
  function BagEncryptedData(x: Crypto, s: seq<byte>, pw: seq<byte>, others: seq<seq<byte>>,
                            wantKey: bool): (Outcome, int) {
    match EncryptedHeader(s)
    case None => (Outcome(false, [], None), 0)
    case Some((c, salt, iter, s1)) =>
      match Ciphertext(s1, |s|)
      case None => (Outcome(false, [], None), 0)
      case Some((enc, consumed)) =>
        (PlainBags(Plaintext(x, enc, salt, iter, pw, others, c, BagDecryptedDataP), wantKey), consumed)
  }

  // ---------- the whole ----------

  /** Down to the sequence of bags, joined if it came in chunks. */
  function BagsAt(s: seq<byte>): Option<(TagInfo, seq<byte>)> {
    var (_, s1) :- Enter(s, false, SEQUENCE);
    var s2 :- ExpectInteger(s1, false, 3);
    var (_, s3) :- Enter(s2, false, SEQUENCE);
    var s4 :- ExpectOid(s3, false, OID_DATA);
    var (_, s5) :- EnterContext(s4);
    var (ti, s6) :- Enter(s5, true, OCTET_STRING);
    if ti.constructed && ti.ndef then
      var (joined, _) :- Crammed(s6, []);
      Enter(joined, true, SEQUENCE)
    else Enter(s6, true, SEQUENCE)
  }

  /** What the outer loop does with the contents of one bag: whether it goes on, the
      certificates, the key so far, the octets that are left, and how much of the bag they
      still hold (negative or too much stops the reader). */
  datatype Step = Step(ok: bool, certs: seq<seq<byte>>, key: Option<seq<nat>>, rest: seq<byte>, len: int)

  function BagStep(x: Crypto, ti: TagInfo, s: seq<byte>, ndef: bool, len: int, key: Option<seq<nat>>,
                   pw: seq<byte>, others: seq<seq<byte>>): (r: Step)
    requires ti.length <= |s|
    ensures |r.rest| <= |s|
  {
    if ti.tag == OBJECT_ID && Holds(ti, s, OID_ENCRYPTED_DATA) then
      var s1 := s[|OID_ENCRYPTED_DATA|..];
      var (o, consumed) := BagEncryptedData(x, s1, pw, others, key.None?);
      var len' := if ndef then len + consumed else len - |OID_ENCRYPTED_DATA|;
      Step(o.ok, o.certs, if key.Some? then key else o.key, s1, len')
    else if ti.tag == OBJECT_ID && Holds(ti, s, OID_DATA) && key.None? then
      var s1 := s[|OID_DATA|..];
      match BagData(x, s1, pw, others)
      case None => Step(false, [], None, s1, len)
      case Some((k, consumed)) =>
        Step(true, [], Some(k), s1, if ndef then len + consumed else len - |OID_DATA|)
    else Step(true, [], key, Skip(ti, s), len)
  }

  /** The loop of p12_parse over the outer bags.  `left` counts the octets of the bag sequence
      that are left, unless its length is indefinite. */
  function Bags(x: Crypto, s: seq<byte>, left: nat, ndef: bool, certs: seq<seq<byte>>, key: Option<seq<nat>>,
                pw: seq<byte>, others: seq<seq<byte>>): Outcome
    decreases |s|
  {
    if left == 0 && !ndef then Outcome(true, certs, key)
    else
      match Decoded(s)
      case None => Outcome(false, certs, None)
      case Some((bag, s1)) =>
        if ndef && bag.cls == 0 && bag.tag == 0 && !bag.constructed then Outcome(true, certs, key)
        else if bag.cls != 0 || bag.tag != SEQUENCE
            || (!ndef && left < bag.nhdr + bag.length) then Outcome(false, certs, None)
        else
          match Decoded(s1)
          case None => Outcome(false, certs, None)
          case Some((ti, s2)) =>
            var step := BagStep(x, ti, s2, bag.ndef, if bag.ndef then ti.nhdr
                else bag.length - ti.nhdr, key, pw, others);
            var certs' := certs + step.certs;
            if !step.ok || step.len < 0 || step.len > |step.rest| then Outcome(false, certs', None)
            else
              var s3 := step.rest[step.len..];
              var left' := if ndef then left else left - bag.nhdr - bag.length;
              if bag.ndef then
                match Decoded(s3)
                case None => Outcome(false, certs', None)
                case Some((e, s4)) =>
                  if e.cls == 0 && e.tag == 0 && !e.constructed
                  then Bags(x, s4, left', ndef, certs', step.key, pw, others)
                  else Outcome(false, certs', None)
              else Bags(x, s3, left', ndef, certs', step.key, pw, others)
  }

  /** p12_parse: the key found, if any, and the certificates handed to the callback. */
  function Parsed(x: Crypto, s: seq<byte>, pw: seq<byte>, others: seq<seq<byte>>): Outcome {
    match BagsAt(s)
    case None => Outcome(false, [], None)
    case Some((ti, s1)) => Bags(x, s1, ti.length, ti.ndef, [], None, pw, others)
  }
}
