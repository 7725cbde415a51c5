/** The fixed octets of a PKCS#12 file against the standards they come from: identifiers as arcs,
    the attributes and the MAC as nested objects, and a reader that checks the MAC. */
module P12Standard {
  import opened Common
  import opened Der
  import opened P12Layout
  import opened P12Reader
  import opened P12RoundTrip

  // ---------- object identifiers (X.690 section 8.19) ----------

  /** All octets of a number but the last: base 128 with the high bit set. */
  function Leading(n: nat): seq<nat> {
    if n == 0 then [] else Leading(n / 128) + [128 + n % 128]
  }

  function Arc(n: nat): seq<nat> {
    Leading(n / 128) + [n % 128]
  }

  function Arcs(a: seq<nat>): seq<nat> {
    if a == [] then [] else Arc(a[0]) + Arcs(a[1..])
  }

  function Identifier(a: seq<nat>): seq<nat>
    requires |a| >= 2
  {
    [40 * a[0] + a[1]] + Arcs(a[2..])
  }

  lemma {:induction false} SmallArcs(a: seq<nat>)
    requires forall n | n in a :: n < 128
    ensures Arcs(a) == a
  {
    if a != [] {
      assert a[0] in a && forall n | n in a[1..] :: n in a;
      SmallArcs(a[1..]);
      assert Arc(a[0]) == [a[0]];
    }
  }

  lemma RsaArcs(rest: seq<nat>)
    requires forall n | n in rest :: n < 128
    ensures Identifier([1, 2, 840, 113549] + rest) == [0x2A, 0x86, 0x48, 0x86, 0xF7, 0x0D] + rest
  {
    SmallArcs(rest);
    ArcsOfRsa();
    var a := [840, 113549] + rest;
    assert ([1, 2, 840, 113549] + rest)[2..] == a;
    assert a[1..] == [113549] + rest && ([113549] + rest)[1..] == rest;
    assert Arcs(a) == Arc(840) + (Arc(113549) + Arcs(rest));
    hide Arc, Arcs;
    assert [42] + ([0x86, 0x48] + ([0x86, 0xF7, 0x0D] + rest)) == [0x2A, 0x86, 0x48, 0x86, 0xF7, 0x0D] + rest;
  }

  lemma ArcsOfRsa()
    ensures Arc(840) == [0x86, 0x48] && Arc(113549) == [0x86, 0xF7, 0x0D]
  {
    assert Leading(6) == [] + [0x86];
    assert Leading(887) == Leading(6) + [0xF7];
  }

  const SHA1: seq<nat> := [1, 3, 14, 3, 2, 26]

  /** Each identifier of the reader and writer is the one that PKCS #7, #9 and #12 and PKCS #1
      assign. */
  lemma Identifiers()
    ensures OID_DATA == Identifier([1, 2, 840, 113549] + [1, 7, 1])
    ensures OID_ENCRYPTED_DATA == Identifier([1, 2, 840, 113549] + [1, 7, 6])
    ensures OID_KEY_BAG == Identifier([1, 2, 840, 113549] + [1, 12, 10, 1, 1])
    ensures OID_SHROUDED_KEY_BAG == Identifier([1, 2, 840, 113549] + [1, 12, 10, 1, 2])
    ensures OID_CERT_BAG == Identifier([1, 2, 840, 113549] + [1, 12, 10, 1, 3])
    ensures OID_CRL_BAG == Identifier([1, 2, 840, 113549] + [1, 12, 10, 1, 4])
    ensures OID_PBE_3DES == Identifier([1, 2, 840, 113549] + [1, 12, 1, 3])
    ensures OID_PBE_RC2_40 == Identifier([1, 2, 840, 113549] + [1, 12, 1, 6])
    ensures OID_X509 == Identifier([1, 2, 840, 113549] + [1, 9, 22, 1])
    ensures OID_RSA == Identifier([1, 2, 840, 113549] + [1, 1, 1])
  {
    hide Identifier;
    RsaArcs([1, 7, 1]);
    RsaArcs([1, 7, 6]);
    RsaArcs([1, 12, 10, 1, 1]);
    RsaArcs([1, 12, 10, 1, 2]);
    RsaArcs([1, 12, 10, 1, 3]);
    RsaArcs([1, 12, 10, 1, 4]);
    RsaArcs([1, 12, 1, 3]);
    RsaArcs([1, 12, 1, 6]);
    RsaArcs([1, 9, 22, 1]);
    RsaArcs([1, 1, 1]);
  }

  // ---------- headers (X.690 section 8.1) ----------

  /** The number that octets stand for, most significant first. */
  function Value(s: seq<byte>): nat {
    if s == [] then 0 else Value(s[..|s| - 1]) * 256 + s[|s| - 1]
  }

  /** The identifier octet of each kind of object, and the length in the shortest form. */
  lemma HeaderIsStandard(n: nat)
    requires n < 65536
    ensures Header(INTEGER, n)[0] == 0x02 && Header(OCTET_STRING, n)[0] == 0x04 && Header(NULL_TAG, n)[0] == 0x05
    ensures Header(OBJECT_ID, n)[0] == 0x06 && Header(SEQUENCE, n)[0] == 0x30
    ensures Header(CONTEXT_0, n)[0] == 0xA0 && Header(CONTEXT_0_PRIMITIVE, n)[0] == 0x80
    ensures forall tag: byte ::
              var h := Header(tag, n);
              && |h| >= 2
              && (if n < 128 then |h| == 2 && h[1] == n
                  else h[1] == 0x80 + (|h| - 2) && h[2] != 0 && Value(h[2..]) == n)
  {
    forall tag: byte
      ensures
        var h := Header(tag, n);
        && |h| >= 2
        && (if n < 128 then |h| == 2 && h[1] == n
            else h[1] == 0x80 + (|h| - 2) && h[2] != 0 && Value(h[2..]) == n)
    {
      LengthIsStandard(tag, n);
    }
  }

  lemma LengthIsStandard(tag: byte, n: nat)
    requires n < 65536
    ensures
      var h := Header(tag, n);
      && |h| >= 2
      && (if n < 128 then |h| == 2 && h[1] == n
          else h[1] == 0x80 + (|h| - 2) && h[2] != 0 && Value(h[2..]) == n)
  {
    var h := Header(tag, n);
    if 128 <= n < 256 {
      assert h[2..] == [n];
      OneOctet(n);
    } else if n >= 256 {
      assert h[2..] == [n / 256, n % 256];
      TwoOctets(n / 256, n % 256);
    }
  }

  lemma OneOctet(a: byte)
    ensures Value([a]) == a
  {
    assert [a][..0] == [];
  }

  lemma TwoOctets(a: byte, b: byte)
    ensures Value([a, b]) == 256 * a + b
  {
    assert [a, b][..1] == [a];
    OneOctet(a);
  }

  // ---------- the MAC (RFC 7292 section 4) ----------

  /** The digest algorithm: SHA-1 with NULL parameters. */
  function Sha1Algorithm(): seq<byte> {
    Tlv(SEQUENCE, Tlv(OBJECT_ID, [0x2b, 0x0e, 0x03, 0x02, 0x1a]) + [0x05, 0x00])
  }

  lemma Sha1Identifier()
    ensures Identifier(SHA1) == [0x2b, 0x0e, 0x03, 0x02, 0x1a]
  {
    assert SHA1[2..] == [14, 3, 2, 26];
    SmallArcs([14, 3, 2, 26]);
  }

  function DigestInfo(mac: seq<byte>): seq<byte> {
    Tlv(SEQUENCE, Sha1Algorithm() + Tlv(OCTET_STRING, mac))
  }

  function MacObject(mac: seq<byte>, salt: seq<byte>): seq<byte> {
    Tlv(SEQUENCE, DigestInfo(mac) + (Tlv(OCTET_STRING, salt) + Tlv(INTEGER, [0x08, 0x00])))
  }

  lemma MacTemplate()
    ensures |DATA_MAC_TEMPLATE| == 51 && DATA_MAC_TEMPLATE[..17] == MAC_START
    ensures DATA_MAC_TEMPLATE[37..39] == [0x04, 0x08] && DATA_MAC_TEMPLATE[47..] == [0x02, 0x02, 0x08, 0x00]
  {
    Sections(MAC_START, MAC_FILLER, [0x04, 0x08], SALT_FILLER, [0x02, 0x02, 0x08, 0x00]);
  }

  lemma Sections(a: seq<byte>, b: seq<byte>, c: seq<byte>, d: seq<byte>, e: seq<byte>)
    requires |a| == 17 && |b| == 20 && |c| == 2 && |d| == 8
    ensures
      var t := a + b + c + d + e;
      t[..17] == a && t[37..39] == c && t[47..] == e
  {
  }

  lemma PatchedTwice(t: seq<byte>, mac: seq<byte>, salt: seq<byte>)
    requires |t| == 51 && |mac| == 20 && |salt| == 8
    ensures Patch(Patch(t, 39, salt), 17, mac) == t[..17] + (mac + (t[37..39] + (salt + t[47..])))
  {
    var s := Patch(t, 39, salt);
    assert s[..17] == t[..17];
    assert s[37..] == t[37..39] + (salt + t[47..]);
  }

  /** What p12_build appends is the MacData of the standard: digest algorithm, digest, salt and
      2048 iterations. */
  lemma MacDataIsStandard(mac: seq<byte>, salt: seq<byte>)
    requires |mac| == 20 && |salt| == 8
    ensures MacData(mac, salt) == MacObject(mac, salt)
  {
    MacTemplate();
    PatchedTwice(DATA_MAC_TEMPLATE, mac, salt);
    assert MAC_OFF == 17 && MAC_SALT_OFF == 39;
    MacObjectParts(mac, salt);
    hide MacObject;
  }

  lemma MacObjectParts(mac: seq<byte>, salt: seq<byte>)
    requires |mac| == 20 && |salt| == 8
    ensures MacObject(mac, salt)
         == MAC_START + (mac + ([0x04, 0x08] + (salt + [0x02, 0x02, 0x08, 0x00])))
    ensures |DigestInfo(mac)| == 35 && |Sha1Algorithm()| == 11
  {
    Sha1Octets();
    var alg, m, s, i := Sha1Algorithm(), Tlv(OCTET_STRING, mac), Tlv(OCTET_STRING, salt), Tlv(INTEGER, [0x08, 0x00]);
    hide Sha1Algorithm;
    assert m == [0x04, 0x14] + mac && s == [0x04, 0x08] + salt && i == [0x02, 0x02, 0x08, 0x00];
    var info := DigestInfo(mac);
    assert info == [0x30, 0x21] + (alg + m);
    assert MacObject(mac, salt) == [0x30, 0x31] + (info + (s + i));
    hide Tlv, DigestInfo, MacObject;
    MacRegroups([0x30, 0x31], [0x30, 0x21], alg, [0x04, 0x14], mac, s + i);
    assert [0x30, 0x31] + [0x30, 0x21] + alg + [0x04, 0x14] == MAC_START;
    assert ([0x04, 0x08] + salt) + i == [0x04, 0x08] + (salt + i);
  }

  lemma Sha1Octets()
    ensures Sha1Algorithm() == [0x30, 0x09, 0x06, 0x05, 0x2b, 0x0e, 0x03, 0x02, 0x1a, 0x05, 0x00]
  {
  }

  lemma MacRegroups(a: seq<byte>, b: seq<byte>, c: seq<byte>, d: seq<byte>, m: seq<byte>, more: seq<byte>)
    ensures a + ((b + (c + (d + m))) + more) == (a + b + c + d) + (m + more)
  {
  }

  // ---------- a reader that checks the MAC ----------

  /** The DigestInfo: a SHA-1 digest, and what follows it. */
  function DigestField(s: seq<byte>): (r: Option<(seq<byte>, seq<byte>)>)
    ensures r.Some? ==> |r.value.1| < |s|
  {
    var (_, s1) :- Enter(s, true, 16);
    var (_, s2) :- Enter(s1, true, 16);
    var (oid, s3) :- Enter(s2, true, 6);
    if !Holds(oid, s3, Identifier(SHA1)) then None
    else
      var (_, s4) :- Enter(Skip(oid, s3), true, 5);
      var (digest, s5) :- Enter(s4, true, 4);
      Some((s5[..digest.length], Skip(digest, s5)))
  }

  /** The MacData object: digest, salt and iterations. */
  function MacFields(s: seq<byte>): Option<(seq<byte>, seq<byte>, nat)> {
    var (_, s1) :- Enter(s, true, 16);
    var (digest, s2) :- DigestField(s1);
    var (salt, s3) :- Enter(s2, true, 4);
    var (count, s4) :- Enter(Skip(salt, s3), true, 2);
    Some((digest, s3[..salt.length], MpiScan(s4[..count.length])))
  }

  /** The integrity check of section 5.2 of RFC 7292: the MAC over the contents of the
      authenticated safe, with the salt and the iterations that the file names. */
  function MacChecks(x: Crypto, s: seq<byte>, pw: seq<byte>): Option<bool> {
    var (_, s1) :- Enter(s, true, 16);
    var s2 :- ExpectInteger(s1, true, 3);
    var (info, s3) :- Enter(s2, true, 16);
    var s4 :- ExpectOid(s3, true, OID_DATA);
    var (_, s5) :- EnterContext(s4);
    var (content, s6) :- Enter(s5, true, 4);
    var (digest, salt, count) :- MacFields(Skip(info, s3));
    Some(digest == x.hmac(salt, count, pw, s6[..content.length]))
  }

  lemma DigestFieldDecodes(mac: seq<byte>, more: seq<byte>)
    requires |mac| == 20
    ensures DigestField(DigestInfo(mac) + more) == Some((mac, more))
  {
    Sha1Identifier();
    Sha1Octets();
    hide Tlv, Enter, Identifier;
    var oid: seq<byte> := [0x2b, 0x0e, 0x03, 0x02, 0x1a];
    var m := Tlv(OCTET_STRING, mac);
    DigestLength(mac);
    EnterTlv(true, SEQUENCE, Sha1Algorithm() + m, more);
    Assoc(Sha1Algorithm(), m, more);
    EnterTlv(true, SEQUENCE, Tlv(OBJECT_ID, oid) + [0x05, 0x00], m + more);
    Assoc(Tlv(OBJECT_ID, oid), [0x05, 0x00], m + more);
    EnterTlv(true, OBJECT_ID, oid, [0x05, 0x00] + (m + more));
    Drop(oid, [0x05, 0x00] + (m + more));
    NullObject();
    EnterTlv(true, NULL_TAG, [], m + more);
    assert [] + (m + more) == m + more;
    EnterTlv(true, OCTET_STRING, mac, more);
    Drop(mac, more);
  }

  lemma DigestLength(mac: seq<byte>)
    requires |mac| == 20
    ensures |Sha1Algorithm() + Tlv(OCTET_STRING, mac)| == 33
    ensures |Tlv(OBJECT_ID, [0x2b, 0x0e, 0x03, 0x02, 0x1a]) + [0x05, 0x00]| == 9
  {
    Sha1Octets();
  }

  lemma MacFieldsDecode(mac: seq<byte>, salt: seq<byte>)
    requires |mac| == 20 && |salt| == 8
    ensures MacFields(MacData(mac, salt)) == Some((mac, salt, 2048))
  {
    MacDataIsStandard(mac, salt);
    MacObjectParts(mac, salt);
    hide Tlv, Enter, MpiScan, MacData, DigestField, DigestInfo;
    var count: seq<byte> := [0x08, 0x00];
    var s, i := Tlv(OCTET_STRING, salt), Tlv(INTEGER, count);
    var all := DigestInfo(mac) + (s + i);
    EnterTlv(true, SEQUENCE, all, []);
    assert MacObject(mac, salt) + [] == MacObject(mac, salt) && all + [] == all;
    DigestFieldDecodes(mac, s + i);
    EnterTlv(true, OCTET_STRING, salt, i);
    Drop(salt, i);
    EnterTlv(true, INTEGER, count, []);
    assert i + [] == i && count + [] == count && count[..2] == count;
    IterationsScanned(count);
  }

  lemma NullObject()
    ensures Tlv(NULL_TAG, []) == [0x05, 0x00]
  {
  }

  lemma MacChecksPfx(x: Crypto, bags: seq<byte>, mac: seq<byte>, salt: seq<byte>, pw: seq<byte>)
    requires |mac| == 20 && |salt| == 8 && |Pfx(bags, MacData(mac, salt))| < LIMIT
    ensures MacChecks(x, Pfx(bags, MacData(mac, salt)), pw)
         == Some(mac == x.hmac(salt, 2048, pw, AuthSafe(bags)))
  {
    hide Tlv, Enter, EnterContext, ExpectOid, ExpectInteger, MacFields, MacData;
    var end := MacData(mac, salt);
    var octets := Tlv(OCTET_STRING, AuthSafe(bags));
    var value := Tlv(CONTEXT_0, octets);
    var info := Tlv(OBJECT_ID, OID_DATA) + value;
    var content := Tlv(SEQUENCE, info);
    EnterTlv(true, SEQUENCE, VERSION_3 + (content + end), []);
    assert Pfx(bags, end) + [] == Pfx(bags, end);
    assert PfxContent(bags, end) + [] == VERSION_3 + (content + end);
    ExpectIntegerTlv(true, 3, content + end);
    EnterTlv(true, SEQUENCE, info, end);
    Drop(info, end);
    Assoc(Tlv(OBJECT_ID, OID_DATA), value, end);
    ExpectOidTlv(true, OID_DATA, value + end);
    EnterContextTlv(CONTEXT_0, octets, end);
    EnterTlv(true, OCTET_STRING, AuthSafe(bags), end);
    Drop(AuthSafe(bags), end);
    MacFieldsDecode(mac, salt);
  }

  /** Every file that is built passes the check with its password. */
  lemma FilePassesCheck(x: Crypto, q: Request)
    requires x.Sound() && q.Valid() && |File(x, q)| < LIMIT
    ensures MacChecks(x, File(x, q), q.pw) == Some(true)
  {
    hide *;
    var mac := x.hmac(q.macSalt, 2048, q.pw, AuthSafe(AllBags(x, q)));
    FileEnds(x, q, mac);
    MacChecksPfx(x, AllBags(x, q), mac, q.macSalt, q.pw);
  }

  lemma FileEnds(x: Crypto, q: Request, mac: seq<byte>)
    requires x.Sound() && q.Valid() && mac == x.hmac(q.macSalt, 2048, q.pw, AuthSafe(AllBags(x, q)))
    ensures |mac| == 20 && |q.macSalt| == 8 && File(x, q) == Pfx(AllBags(x, q), MacData(mac, q.macSalt))
  {
    hide AllBags, Pfx, MacData;
  }

  // ---------- the attributes (PKCS #9) ----------

  /** A BMPString: two octets for each character. */
  function Bmp(s: string): (r: seq<byte>)
    ensures |r| == 2 * |s|
  {
    if s == "" then [] else [s[0] as int / 256 % 256, s[0] as int % 256] + Bmp(s[1..])
  }

  lemma {:induction false} BmpAppend(a: string, b: string)
    ensures Bmp(a + b) == Bmp(a) + Bmp(b)
  {
    if a == "" {
      assert a + b == b;
    } else {
      assert (a + b)[1..] == a[1..] + b;
      BmpAppend(a[1..], b);
    }
  }

  lemma {:induction false} BmpAt(s: string, i: nat)
    requires i < |s|
    ensures Bmp(s)[2 * i] == s[i] as int / 256 % 256 && Bmp(s)[2 * i + 1] == s[i] as int % 256
  {
    if i > 0 {
      BmpAt(s[1..], i - 1);
    }
  }

  lemma BmpTwo(a: char, b: char, rest: string)
    requires a as int < 256 && b as int < 256
    ensures Bmp([a, b] + rest) == [0, a as int, 0, b as int] + Bmp(rest)
  {
    assert ([a, b] + rest)[1..] == [b] + rest && ([b] + rest)[1..] == rest;
  }

  lemma BmpFour(a: char, b: char, c: char, d: char)
    requires a as int < 256 && b as int < 256 && c as int < 256 && d as int < 256
    ensures Bmp([a, b, c, d]) == [0, a as int, 0, b as int, 0, c as int, 0, d as int]
  {
    BmpTwo(c, d, "");
    BmpTwo(a, b, [c, d]);
    assert [a, b] + [c, d] == [a, b, c, d] && [c, d] + "" == [c, d];
  }

  lemma BmpThree(a: char, b: char, c: char)
    requires a as int < 256 && b as int < 256 && c as int < 256
    ensures Bmp([a, b, c]) == [0, a as int, 0, b as int, 0, c as int]
  {
    BmpTwo(a, b, [c]);
    assert [a, b] + [c] == [a, b, c] && [c][1..] == "";
  }

  lemma GnupgText()
    ensures Bmp("GnuPG ") == ATTR_GNUPG
  {
    hide Bmp;
    BmpThree('G', 'n', 'u');
    BmpThree('P', 'G', ' ');
    BmpAppend("Gnu", "PG ");
    assert "Gnu" + "PG " == "GnuPG ";
  }

  lemma ExportedText()
    ensures Bmp("exported ") == ATTR_EXPORTED
  {
    hide Bmp;
    BmpThree('e', 'x', 'p');
    BmpThree('o', 'r', 't');
    BmpThree('e', 'd', ' ');
    BmpAppend("exp", "ort");
    BmpAppend("exp" + "ort", "ed ");
    ExportedWord();
  }

  lemma ExportedWord()
    ensures "exp" + "ort" + "ed " == "exported "
  {
  }

  lemma CertificateText()
    ensures Bmp("certificate ") == ATTR_CERTIFICATE
  {
    hide Bmp;
    BmpFour('c', 'e', 'r', 't');
    BmpFour('i', 'f', 'i', 'c');
    BmpFour('a', 't', 'e', ' ');
    BmpAppend("cert", "ific");
    BmpAppend("cert" + "ific", "ate ");
    CertificateWord();
  }

  lemma CertificateWord()
    ensures "cert" + "ific" + "ate " == "certificate "
  {
  }

  /** The key id: the last four octets of the hash in lower-case hexadecimal. */
  function KeyIdText(hash: seq<byte>): (t: string)
    requires |hash| == 20
    ensures |t| == 8
  {
    seq(8, i requires 0 <= i < 8 =>
             "0123456789abcdef"[if i % 2 == 0 then hash[16 + i / 2] / 16 else hash[16 + i / 2] % 16])
  }

  function FriendlyName(hash: seq<byte>): (r: seq<byte>)
    requires |hash| == 20
  {
    Bmp("GnuPG " + "exported " + "certificate " + KeyIdText(hash))
  }

  /** The name without the key id. */
  function NameStart(): seq<byte> {
    ATTR_GNUPG + ATTR_EXPORTED + ATTR_CERTIFICATE
  }

  lemma FriendlyNameIs(hash: seq<byte>)
    requires |hash| == 20
    ensures FriendlyName(hash) == NameStart() + Bmp(KeyIdText(hash))
  {
    hide Bmp, KeyIdText;
    GnupgText();
    ExportedText();
    CertificateText();
    BmpAppend("GnuPG ", "exported ");
    BmpAppend("GnuPG " + "exported ", "certificate ");
    BmpAppend("GnuPG " + "exported " + "certificate ", KeyIdText(hash));
  }

  lemma HexLetter(v: nat)
    requires v < 16
    ensures |"0123456789abcdef"| == 16 && "0123456789abcdef"[v] as int == HexDigit(v)
  {
  }

  /** The digits are put in at every second octet. */
  lemma KeyIdPlaced(t: seq<byte>, a: seq<byte>, b: seq<byte>, c: seq<byte>, hash: seq<byte>)
    requires |hash| == 20 && |a| == 73 && |b| == 16 && |c| == 17 && t == a + b + c
    requires forall k | 0 <= k < 8 :: b[2 * k] == 0
    ensures WithKeyId(t, KeyId(hash)) == a + Bmp(KeyIdText(hash)) + c
  {
    hide Bmp, KeyIdText, KeyId, HexDigit;
    assert KEYID_OFF == 73;
    var w, id, d := WithKeyId(t, KeyId(hash)), KeyId(hash), Bmp(KeyIdText(hash));
    forall i | 0 <= i < 106 ensures w[i] == (a + d + c)[i] {
      if 73 <= i < 89 {
        var k := (i - 73) / 2;
        KeyIdDigit(hash, k);
        assert i == 73 + 2 * k || i == 74 + 2 * k;
        assert t[73 + 2 * k] == b[2 * k];
      }
    }
  }

  lemma KeyIdDigit(hash: seq<byte>, k: nat)
    requires |hash| == 20 && k < 8
    ensures Bmp(KeyIdText(hash))[2 * k] == 0 && Bmp(KeyIdText(hash))[2 * k + 1] == KeyId(hash)[k]
  {
    hide Bmp, HexDigit;
    var v := if k % 2 == 0 then hash[16 + k / 2] / 16 else hash[16 + k / 2] % 16;
    HexLetter(v);
    HexDigitSmall(v);
    BmpAt(KeyIdText(hash), k);
  }

  lemma HexDigitSmall(v: nat)
    requires v < 16
    ensures HexDigit(v) < 128
  {
  }

  // ---------- the two attributes ----------

  const FRIENDLY_NAME: seq<byte> := [0x2a, 0x86, 0x48, 0x86, 0xf7, 0x0d, 0x01, 0x09, 0x14]
  const LOCAL_KEY_ID: seq<byte> := [0x2a, 0x86, 0x48, 0x86, 0xf7, 0x0d, 0x01, 0x09, 0x15]

  lemma AttributeIdentifiers()
    ensures FRIENDLY_NAME == Identifier([1, 2, 840, 113549] + [1, 9, 20])
    ensures LOCAL_KEY_ID == Identifier([1, 2, 840, 113549] + [1, 9, 21])
  {
    hide Identifier;
    RsaArcs([1, 9, 20]);
    RsaArcs([1, 9, 21]);
  }

  /** An attribute with one value; tag 0x31 is a constructed SET. */
  function Attribute(oid: seq<byte>, value: seq<byte>): seq<byte> {
    Tlv(SEQUENCE, Tlv(OBJECT_ID, oid) + Tlv(0x31, value))
  }

  /** The bag attributes are the friendly name, a BMPString that ends in the key id, and the
      hash of the certificate as local key id. */
  lemma AttributesAreStandard(hash: seq<byte>)
    requires |hash| == 20
    ensures Attributes(hash)
         == Tlv(0x31, Attribute(FRIENDLY_NAME, Tlv(0x1e, FriendlyName(hash)))
                      + Attribute(LOCAL_KEY_ID, Tlv(OCTET_STRING, hash)))
  {
    var id := Bmp(KeyIdText(hash));
    var name := NameStart() + id;
    FriendlyNameIs(hash);
    FillerIs();
    assert DATA_ATTR_TEMPLATE == (ATTR_START + NameStart()) + ATTR_FILLER + ATTR_KEYID;
    KeyIdPlaced(DATA_ATTR_TEMPLATE, ATTR_START + NameStart(), ATTR_FILLER, ATTR_KEYID, hash);
    hide WithKeyId, KeyId, Bmp, KeyIdText, NameStart, FriendlyName;
    assert Attributes(hash) == (ATTR_START + NameStart()) + id + ATTR_KEYID + hash;
    NameObject(name);
    HashObject(hash);
    AttributeRegroup(ATTR_START, NameStart(), id, ATTR_KEYID, hash);
    SetObject(Attribute(FRIENDLY_NAME, Tlv(0x1e, name)), Attribute(LOCAL_KEY_ID, Tlv(OCTET_STRING, hash)), name, hash);
  }

  lemma FillerIs()
    ensures |ATTR_FILLER| == 16 && |ATTR_START| == 19 && |NameStart()| == 54 && |ATTR_KEYID| == 17
    ensures forall k | 0 <= k < 8 :: ATTR_FILLER[2 * k] == 0
  {
    var f := ATTR_FILLER;
    forall k | 0 <= k < 8 ensures f[2 * k] == 0 {
      assert k == 0 || k == 1 || k == 2 || k == 3 || k == 4 || k == 5 || k == 6 || k == 7;
    }
  }

  lemma AttributeRegroup(a: seq<byte>, b: seq<byte>, c: seq<byte>, d: seq<byte>, e: seq<byte>)
    ensures (a + b) + c + d + e == a + (b + c) + d + e
  {
  }

  lemma NameObject(name: seq<byte>)
    requires |name| == 70
    ensures [0x31, 0x7c] + Attribute(FRIENDLY_NAME, Tlv(0x1e, name)) == ATTR_START + name
    ensures |Attribute(FRIENDLY_NAME, Tlv(0x1e, name))| == 87
  {
    var oid, value := Tlv(OBJECT_ID, FRIENDLY_NAME), Tlv(0x1e, name);
    assert oid == [0x06, 0x09] + FRIENDLY_NAME && value == [0x1e, 0x46] + name;
    var values := Tlv(0x31, value);
    assert values == [0x31, 0x48] + value;
    assert Tlv(SEQUENCE, oid + values) == [0x30, 0x55] + (oid + values);
    hide Tlv;
    StartRegroup([0x31, 0x7c], [0x30, 0x55], [0x06, 0x09], FRIENDLY_NAME, [0x31, 0x48], [0x1e, 0x46], name);
    StartIs();
  }

  lemma StartRegroup(a: seq<byte>, b: seq<byte>, c: seq<byte>, d: seq<byte>, e: seq<byte>, f: seq<byte>, g: seq<byte>)
    ensures a + (b + ((c + d) + (e + (f + g)))) == (a + b + c + d + e + f) + g
  {
  }

  lemma StartIs()
    ensures [0x31, 0x7c] + [0x30, 0x55] + [0x06, 0x09] + FRIENDLY_NAME + [0x31, 0x48] + [0x1e, 0x46] == ATTR_START
  {
  }

  lemma HashObject(hash: seq<byte>)
    requires |hash| == 20
    ensures Attribute(LOCAL_KEY_ID, Tlv(OCTET_STRING, hash)) == ATTR_KEYID + hash
  {
    var oid, value := Tlv(OBJECT_ID, LOCAL_KEY_ID), Tlv(OCTET_STRING, hash);
    assert oid == [0x06, 0x09] + LOCAL_KEY_ID && value == [0x04, 0x14] + hash;
    var values := Tlv(0x31, value);
    assert values == [0x31, 0x16] + value;
    assert Tlv(SEQUENCE, oid + values) == [0x30, 0x23] + (oid + values);
    hide Tlv;
    EndRegroup([0x30, 0x23], [0x06, 0x09], LOCAL_KEY_ID, [0x31, 0x16], [0x04, 0x14], hash);
    EndIs();
  }

  lemma EndRegroup(b: seq<byte>, c: seq<byte>, d: seq<byte>, e: seq<byte>, f: seq<byte>, g: seq<byte>)
    ensures b + ((c + d) + (e + (f + g))) == (b + c + d + e + f) + g
  {
  }

  lemma EndIs()
    ensures [0x30, 0x23] + [0x06, 0x09] + LOCAL_KEY_ID + [0x31, 0x16] + [0x04, 0x14] == ATTR_KEYID
  {
  }

  lemma SetObject(a: seq<byte>, b: seq<byte>, name: seq<byte>, hash: seq<byte>)
    requires [0x31, 0x7c] + a == ATTR_START + name && b == ATTR_KEYID + hash && |a| == 87 && |b| == 37
    ensures Tlv(0x31, a + b) == ATTR_START + name + ATTR_KEYID + hash
  {
    assert Tlv(0x31, a + b) == [0x31, 0x7c] + (a + b);
    assert [0x31, 0x7c] + (a + b) == ([0x31, 0x7c] + a) + b;
  }

  // ---------- padding (RFC 8018 section 6.1.1) ----------

  /** Padding fills the last block of eight octets or adds one, and each of its octets is
      their number. */
  lemma PaddingIsStandard(s: seq<byte>)
    ensures |Padded(s)| == (|s| / 8 + 1) * 8 && Padded(s)[..|s|] == s
    ensures forall i | |s| <= i < |Padded(s)| :: Padded(s)[i] == |Padded(s)| - |s|
  {
    assert |Padding(|s|)| == 8 - |s| % 8;
  }

  // ---------- what a header may be ----------

  lemma {:induction false} TagFits(s: seq<byte>, i: nat, acc: nat)
    ensures ReadTag(s, i, acc).Some? ==> ReadTag(s, i, acc).value.0 < 0x1_0000_0000_0000_0000
    decreases |s| - i
  {
    if i < |s| {
      var t := acc * 128 % ULONG + s[i] % 128;
      Wrapped(acc, 128, s[i] % 128);
      if s[i] >= 128 {
        TagFits(s, i + 1, t);
      }
    }
  }

  /** A product that wraps at 64 bits leaves room for a digit. */
  lemma Wrapped(acc: nat, base: nat, digit: nat)
    requires (base == 128 || base == 256) && digit < base
    ensures acc * base % ULONG + digit < 0x1_0000_0000_0000_0000
  {
    assert ULONG == 0x1_0000_0000_0000_0000;
    if base == 128 {
      var q, r := acc * 128 / ULONG, acc * 128 % ULONG;
      assert acc * 128 == ULONG * q + r;
      assert r == 128 * (acc - 0x200_0000_0000_0000 * q);
    } else {
      var q, r := acc * 256 / ULONG, acc * 256 % ULONG;
      assert acc * 256 == ULONG * q + r;
      assert r == 256 * (acc - 0x100_0000_0000_0000 * q);
    }
  }

  lemma {:induction false} LengthFits(s: seq<byte>, i: nat, count: nat, acc: nat)
    requires acc < 0x1_0000_0000_0000_0000
    ensures ReadLength(s, i, count, acc).Some? ==> ReadLength(s, i, count, acc).value.0 < 0x1_0000_0000_0000_0000
    decreases count
  {
    if count > 0 && i < |s| {
      Wrapped(acc, 256, s[i]);
      LengthFits(s, i + 1, count - 1, acc * 256 % ULONG + s[i]);
    }
  }

  /** Whatever is read, tag and length are numbers of 64 bits, and the length is within what is
      left. */
  lemma FieldsFit(s: seq<byte>)
    ensures Decoded(s).Some? ==>
              && Decoded(s).value.0.tag < 0x1_0000_0000_0000_0000
              && Decoded(s).value.0.length < 0x1_0000_0000_0000_0000
              && Decoded(s).value.0.length <= |Decoded(s).value.1|
  {
    if TagField(s).Some? {
      TagFits(s, 1, 0);
      var i := TagField(s).value.1;
      if i < |s| && s[i] >= 0x80 {
        LengthFits(s, i + 1, s[i] - 0x80, 0);
      }
    }
  }

  /** The length octet 0x80 begins an object without a length, and 0xff is reserved
      (section 8.1.3 of X.690). */
  lemma SpecialLengths(tag: byte, rest: seq<byte>)
    requires tag % 32 != 31
    ensures Decoded([tag, 0xff] + rest) == None
    ensures Decoded([tag, 0x80] + rest)
         == Some((TagInfo(tag / 64, tag / 32 % 2 == 1, tag % 32, 0, 2, true), rest))
  {
    hide ReadLength;
    var s, t := [tag, 0xff] + rest, [tag, 0x80] + rest;
    assert TagField(s) == Some((tag % 32, 1)) && TagField(t) == Some((tag % 32, 1));
    assert t[2..] == rest;
  }
}
