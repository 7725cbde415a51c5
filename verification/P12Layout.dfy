/** The objects the PKCS#12 writer promises to produce (RFC 7292 section 4), as nested
    tag-length-value terms, and the cryptography they rest on, which stays abstract. */
module P12Layout {
  import opened Common
  import opened Der

  const OID_DATA: seq<byte> := [0x2A, 0x86, 0x48, 0x86, 0xF7, 0x0D, 0x01, 0x07, 0x01]
  const OID_ENCRYPTED_DATA: seq<byte> := [0x2A, 0x86, 0x48, 0x86, 0xF7, 0x0D, 0x01, 0x07, 0x06]
  const OID_KEY_BAG: seq<byte> := [0x2A, 0x86, 0x48, 0x86, 0xF7, 0x0D, 0x01, 0x0C, 0x0A, 0x01, 0x01]
  const OID_SHROUDED_KEY_BAG: seq<byte> := [0x2A, 0x86, 0x48, 0x86, 0xF7, 0x0D, 0x01, 0x0C, 0x0A, 0x01, 0x02]
  const OID_CERT_BAG: seq<byte> := [0x2A, 0x86, 0x48, 0x86, 0xF7, 0x0D, 0x01, 0x0C, 0x0A, 0x01, 0x03]
  const OID_CRL_BAG: seq<byte> := [0x2A, 0x86, 0x48, 0x86, 0xF7, 0x0D, 0x01, 0x0C, 0x0A, 0x01, 0x04]
  const OID_PBE_3DES: seq<byte> := [0x2A, 0x86, 0x48, 0x86, 0xF7, 0x0D, 0x01, 0x0C, 0x01, 0x03]
  const OID_PBE_RC2_40: seq<byte> := [0x2A, 0x86, 0x48, 0x86, 0xF7, 0x0D, 0x01, 0x0C, 0x01, 0x06]
  const OID_X509: seq<byte> := [0x2A, 0x86, 0x48, 0x86, 0xF7, 0x0D, 0x01, 0x09, 0x16, 0x01]
  const OID_RSA: seq<byte> := [0x2A, 0x86, 0x48, 0x86, 0xF7, 0x0D, 0x01, 0x01, 0x01]

  const ITERATIONS := 2048

  /** The algorithm identifiers with eight filler octets at offset 18 for the salt. */
  const DATA_3DES_ITER_2048: seq<byte> := [
    0x30, 0x1C, 0x06, 0x0A, 0x2A, 0x86, 0x48, 0x86,
    0xF7, 0x0D, 0x01, 0x0C, 0x01, 0x03, 0x30, 0x0E,
    0x04, 0x08, 0xFF, 0xFF, 0xFF, 0xFF, 0xFF, 0xFF,
    0xFF, 0xFF, 0x02, 0x02, 0x08, 0x00]
  const DATA_RC2_ITER_2048: seq<byte> := [
    0x30, 0x1C, 0x06, 0x0A, 0x2A, 0x86, 0x48, 0x86,
    0xF7, 0x0D, 0x01, 0x0C, 0x01, 0x06, 0x30, 0x0E,
    0x04, 0x08, 0xFF, 0xFF, 0xFF, 0xFF, 0xFF, 0xFF,
    0xFF, 0xFF, 0x02, 0x02, 0x08, 0x00]
  const SALT_OFF := 18

  /** The MAC with filler octets for the digest and for the salt. */
  const MAC_START: seq<byte> := [
    0x30, 0x31, 0x30, 0x21, 0x30, 0x09, 0x06, 0x05,
    0x2b, 0x0e, 0x03, 0x02, 0x1a, 0x05, 0x00, 0x04, 0x14]
  const MAC_FILLER: seq<byte> := [
    0xff, 0xff, 0xff, 0xff, 0xff, 0xff, 0xff, 0xff,
    0xff, 0xff, 0xff, 0xff, 0xff, 0xff, 0xff, 0xff,
    0xff, 0xff, 0xff, 0xff]
  const SALT_FILLER: seq<byte> := [0xff, 0xff, 0xff, 0xff, 0xff, 0xff, 0xff, 0xff]
  const DATA_MAC_TEMPLATE: seq<byte> :=
    MAC_START + MAC_FILLER + [0x04, 0x08] + SALT_FILLER + [0x02, 0x02, 0x08, 0x00]
  const MAC_OFF := 17
  const MAC_SALT_OFF := 39

  /** The attributes with 'f' for the digits of the key id, in the parts that the words of the
      friendly name make. */
  const ATTR_START: seq<byte> := [
    0x31, 0x7c, 0x30, 0x55, 0x06, 0x09, 0x2a, 0x86,
    0x48, 0x86, 0xf7, 0x0d, 0x01, 0x09, 0x14, 0x31,
    0x48, 0x1e, 0x46]
  const ATTR_GNUPG: seq<byte> := [
    0x00, 0x47, 0x00, 0x6e, 0x00, 0x75, 0x00, 0x50,
    0x00, 0x47, 0x00, 0x20]
  const ATTR_EXPORTED: seq<byte> :=
    [0x00, 0x65, 0x00, 0x78, 0x00, 0x70]
    + [0x00, 0x6f, 0x00, 0x72, 0x00, 0x74]
    + [0x00, 0x65, 0x00, 0x64, 0x00, 0x20]
  const ATTR_CERTIFICATE: seq<byte> :=
    [0x00, 0x63, 0x00, 0x65, 0x00, 0x72, 0x00, 0x74]
    + [0x00, 0x69, 0x00, 0x66, 0x00, 0x69, 0x00, 0x63]
    + [0x00, 0x61, 0x00, 0x74, 0x00, 0x65, 0x00, 0x20]
  const ATTR_FILLER: seq<byte> := [
    0x00, 0x66, 0x00, 0x66, 0x00, 0x66, 0x00, 0x66,
    0x00, 0x66, 0x00, 0x66, 0x00, 0x66, 0x00, 0x66]
  const ATTR_KEYID: seq<byte> := [
    0x30, 0x23, 0x06, 0x09, 0x2a, 0x86, 0x48, 0x86,
    0xf7, 0x0d, 0x01, 0x09, 0x15, 0x31, 0x16, 0x04,
    0x14]
  const DATA_ATTR_TEMPLATE: seq<byte> :=
    ATTR_START + (ATTR_GNUPG + ATTR_EXPORTED + ATTR_CERTIFICATE) + ATTR_FILLER + ATTR_KEYID
  const KEYID_OFF := 73

  // ---------- cryptography ----------

  datatype Cipher = TripleDes | Rc2

  /** The primitives: block encryption with a key derived from salt, iteration count and
      password, and the two digests. */
  datatype Crypto = Crypto(
    encrypt: (Cipher, seq<byte>, nat, seq<byte>, seq<byte>) -> seq<byte>,
    decrypt: (Cipher, seq<byte>, nat, seq<byte>, seq<byte>) -> seq<byte>,
    sha1: seq<byte> -> seq<byte>,
    hmac: (seq<byte>, nat, seq<byte>, seq<byte>) -> seq<byte>)
  {
    ghost predicate Sound() {
      && (forall c, salt, iter, pw, data | |data| % 8 == 0 ::
            |encrypt(c, salt, iter, pw, data)| == |data|
            && decrypt(c, salt, iter, pw, encrypt(c, salt, iter, pw, data)) == data)
      && (forall data :: |sha1(data)| == 20)
      && (forall salt, iter, pw, data :: |hmac(salt, iter, pw, data)| == 20)
    }
  }

  /** The key derivation refuses passwords of more than 31 bytes. */
  const MAX_PASSWORD := 31

  function Zeros(n: nat): (z: seq<byte>)
    ensures |z| == n
  {
    seq(n, _ => 0)
  }

  /** crypt_block: without a key the buffer is wiped. */
  function CryptBlock(x: Crypto, data: seq<byte>, salt: seq<byte>, iter: nat, pw: seq<byte>, c: Cipher,
                      encrypt: bool): seq<byte> {
    if |pw| > MAX_PASSWORD || |salt| < 8 then Zeros(|data|)
    else if encrypt then x.encrypt(c, salt, iter, pw, data)
    else x.decrypt(c, salt, iter, pw, data)
  }

  lemma CryptRoundTrip(x: Crypto, data: seq<byte>, salt: seq<byte>, iter: nat, pw: seq<byte>, c: Cipher)
    requires x.Sound() && |data| % 8 == 0 && |pw| <= MAX_PASSWORD && |salt| >= 8
    ensures |CryptBlock(x, data, salt, iter, pw, c, true)| == |data|
    ensures CryptBlock(x, CryptBlock(x, data, salt, iter, pw, c, true), salt, iter, pw, c, false) == data
  {
  }

  // ---------- the key ----------

  function MpiTlv(k: nat): seq<byte> {
    Tlv(INTEGER, MpiPrint(k))
  }

  /** The key parameters, one INTEGER each. */
  function KeyInts(ks: seq<nat>): seq<byte> {
    if ks == [] then [] else MpiTlv(ks[0]) + KeyInts(ks[1..])
  }

  const VERSION_0: seq<byte> := [INTEGER, 1, 0]
  const VERSION_3: seq<byte> := [INTEGER, 1, 3]
  const NULL_OBJECT: seq<byte> := [NULL_TAG, 0]

  function RsaAlgorithm(): seq<byte> {
    Tlv(SEQUENCE, Tlv(OBJECT_ID, OID_RSA) + NULL_OBJECT)
  }

  function RsaPrivateKey(ks: seq<nat>): seq<byte> {
    Tlv(SEQUENCE, VERSION_0 + KeyInts(ks))
  }

  function KeyContent(ks: seq<nat>): seq<byte> {
    VERSION_0 + (RsaAlgorithm() + Tlv(OCTET_STRING, RsaPrivateKey(ks)))
  }

  /** PrivateKeyInfo (RFC 5208 section 5). */
  function KeyInfoObject(ks: seq<nat>): seq<byte> {
    Tlv(SEQUENCE, KeyContent(ks))
  }

  // ---------- bags ----------

  /** Padding up to the cipher's block of eight octets; each pad octet holds their number. */
  function Padding(n: nat): (p: seq<byte>)
    ensures 1 <= |p| <= 8 && (n + |p|) % 8 == 0
  {
    seq(8 - n % 8, _ => 8 - n % 8)
  }

  function Padded(s: seq<byte>): (p: seq<byte>)
    ensures |p| % 8 == 0 && |s| < |p| <= |s| + 8
  {
    s + Padding(|s|)
  }

  function Patch(s: seq<byte>, off: nat, v: seq<byte>): (p: seq<byte>)
    requires off + |v| <= |s|
    ensures |p| == |s|
  {
    s[..off] + v + s[off + |v|..]
  }

  function Algorithm(c: Cipher, salt: seq<byte>): (s: seq<byte>)
    requires |salt| == 8
    ensures |s| == 30
  {
    Patch(if c == TripleDes then DATA_3DES_ITER_2048 else DATA_RC2_ITER_2048, SALT_OFF, salt)
  }

  function HexDigit(v: nat): byte
    requires v < 16
  {
    if v < 10 then 48 + v else 87 + v
  }

  /** The last four octets of the hash, as eight lower-case hex digits. */
  function KeyId(hash: seq<byte>): (s: seq<byte>)
    requires |hash| == 20
    ensures |s| == 8
  {
    seq(8, i requires 0 <= i < 8 => HexDigit(if i % 2 == 0 then hash[16 + i / 2] / 16 else hash[16 + i / 2] % 16))
  }

  /** The key id as 16-bit characters at the end of the friendly name. */
  function WithKeyId(t: seq<byte>, id: seq<byte>): (s: seq<byte>)
    requires |t| == 106 && |id| == 8
    ensures |s| == 106
  {
    seq(106, i requires 0 <= i < 106 =>
               if KEYID_OFF < i < KEYID_OFF + 16 && i % 2 == 0 then id[(i - KEYID_OFF - 1) / 2] else t[i])
  }

  /** The bag attributes: a friendly name that ends in the key id, and the hash of the
      certificate as local key id. */
  function Attributes(hash: seq<byte>): (s: seq<byte>)
    requires |hash| == 20
    ensures |s| == 126
  {
    WithKeyId(DATA_ATTR_TEMPLATE, KeyId(hash)) + hash
  }

  function OptionalAttributes(hash: Option<seq<byte>>): seq<byte>
    requires hash.Some? ==> |hash.value| == 20
  {
    if hash.Some? then Attributes(hash.value) else []
  }

  function ShroudedKey(enc: seq<byte>, salt: seq<byte>): seq<byte>
    requires |salt| == 8
  {
    Tlv(CONTEXT_0, Tlv(SEQUENCE, Algorithm(TripleDes, salt) + Tlv(OCTET_STRING, enc)))
  }

  function KeySafeBag(enc: seq<byte>, salt: seq<byte>, attributes: seq<byte>): seq<byte>
    requires |salt| == 8
  {
    Tlv(SEQUENCE, Tlv(OBJECT_ID, OID_SHROUDED_KEY_BAG) + (ShroudedKey(enc, salt) + attributes))
  }

  function KeyBagContent(enc: seq<byte>, salt: seq<byte>, attributes: seq<byte>): seq<byte>
    requires |salt| == 8
  {
    Tlv(OBJECT_ID, OID_DATA)
    + Tlv(CONTEXT_0, Tlv(OCTET_STRING, Tlv(SEQUENCE, KeySafeBag(enc, salt, attributes))))
  }

  /** A data bag holding the encrypted key. */
  function KeyBag(enc: seq<byte>, salt: seq<byte>, attributes: seq<byte>): seq<byte>
    requires |salt| == 8
  {
    Tlv(SEQUENCE, KeyBagContent(enc, salt, attributes))
  }

  function CertValue(cert: seq<byte>): seq<byte> {
    Tlv(CONTEXT_0, Tlv(SEQUENCE, Tlv(OBJECT_ID, OID_X509) + Tlv(CONTEXT_0, Tlv(OCTET_STRING, cert))))
  }

  function CertSafeBag(cert: seq<byte>, attributes: seq<byte>): seq<byte> {
    Tlv(SEQUENCE, Tlv(OBJECT_ID, OID_CERT_BAG) + (CertValue(cert) + attributes))
  }

  /** The plaintext of the certificate bag. */
  function CertSequence(cert: seq<byte>, attributes: seq<byte>): seq<byte> {
    Tlv(SEQUENCE, CertSafeBag(cert, attributes))
  }

  function EncryptedContent(enc: seq<byte>, salt: seq<byte>): seq<byte>
    requires |salt| == 8
  {
    Tlv(SEQUENCE, Tlv(OBJECT_ID, OID_DATA) + (Algorithm(Rc2, salt) + Tlv(CONTEXT_0_PRIMITIVE, enc)))
  }

  function CertBagContent(enc: seq<byte>, salt: seq<byte>): seq<byte>
    requires |salt| == 8
  {
    Tlv(OBJECT_ID, OID_ENCRYPTED_DATA)
    + Tlv(CONTEXT_0, Tlv(SEQUENCE, VERSION_0 + EncryptedContent(enc, salt)))
  }

  /** An encryptedData bag holding the encrypted certificate sequence. */
  function CertBag(enc: seq<byte>, salt: seq<byte>): seq<byte>
    requires |salt| == 8
  {
    Tlv(SEQUENCE, CertBagContent(enc, salt))
  }

  // ---------- the whole ----------

  function MacData(mac: seq<byte>, salt: seq<byte>): (s: seq<byte>)
    requires |mac| == 20 && |salt| == 8
    ensures |s| == 51
  {
    Patch(Patch(DATA_MAC_TEMPLATE, MAC_SALT_OFF, salt), MAC_OFF, mac)
  }

  /** The contents of the outer OCTET STRING, which is what the MAC covers
      (RFC 7292 section 5.1). */
  function AuthSafe(bags: seq<byte>): seq<byte> {
    Tlv(SEQUENCE, bags)
  }

  function PfxContent(bags: seq<byte>, mac: seq<byte>): seq<byte> {
    VERSION_3
    + (Tlv(SEQUENCE, Tlv(OBJECT_ID, OID_DATA) + Tlv(CONTEXT_0, Tlv(OCTET_STRING, AuthSafe(bags))))
       + mac)
  }

  function Pfx(bags: seq<byte>, mac: seq<byte>): seq<byte> {
    Tlv(SEQUENCE, PfxContent(bags, mac))
  }
}
