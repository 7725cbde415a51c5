/** Key protection from the passphrase on: the cipher's key is the one that the iterated
    string-to-key function makes of passphrase, salt and count. */
module ProtectKey {
  import opened Common
  import opened Sexp
  import opened S2k
  import opened ProtectSpec
  import opened ProtectRoundTrip

  const KEY_LENGTH := 16
  const DIGEST_LENGTH := 20
  const ITERATED := 3

  /** AES-128 in CBC mode under a key, and SHA-1. */
  datatype Primitives = Primitives(
    encrypt: (seq<byte>, Octets, Octets) -> Octets,
    decrypt: (seq<byte>, Octets, Octets) -> Octets,
    hash: seq<byte> -> seq<byte>)
  {
    ghost predicate Sound() {
      && (forall key, iv, data | |key| == KEY_LENGTH && |data| % BLOCK == 0 ::
            |encrypt(key, iv, data)| == |data| && decrypt(key, iv, encrypt(key, iv, data)) == data)
      && (forall data :: |hash(data)| == DIGEST_LENGTH)
    }
  }

  function ToBytes(s: Octets): (b: seq<byte>)
    ensures |b| == |s|
  {
    seq(|s|, i requires 0 <= i < |s| => s[i] as int % 256)
  }

  function ToOctets(b: seq<byte>): (s: Octets)
    ensures |s| == |b|
  {
    seq(|b|, i requires 0 <= i < |b| => b[i] as char)
  }

  /** The derived key. */
  ghost function DerivedKey(a: Primitives, pw: Octets, salt: Octets, count: nat): (key: seq<byte>)
    requires a.Sound()
    ensures |key| == KEY_LENGTH
    ensures |salt| == SALT_SIZE ==> IsKey(key, a.hash, DIGEST_LENGTH, ITERATED, ToBytes(pw), ToBytes(salt), count)
  {
    if |salt| != SALT_SIZE then seq(KEY_LENGTH, _ => 0)
    else
      seq(KEY_LENGTH, k requires 0 <= k < KEY_LENGTH =>
            a.hash(PassInput(k / DIGEST_LENGTH, ITERATED, ToBytes(pw), ToBytes(salt), count))[k % DIGEST_LENGTH])
  }

  /** The primitives of the protection, built from these. */
  ghost function Over(a: Primitives): KeyCrypto
    requires a.Sound()
  {
    KeyCrypto(
      (pw: Octets, salt: Octets, count: nat, iv: Octets, data: Octets) =>
        a.encrypt(DerivedKey(a, pw, salt, count), iv, data),
      (pw: Octets, salt: Octets, count: nat, iv: Octets, data: Octets) =>
        a.decrypt(DerivedKey(a, pw, salt, count), iv, data),
      data => ToOctets(a.hash(ToBytes(data))))
  }

  lemma OverIsSound(a: Primitives)
    requires a.Sound()
    ensures Over(a).Sound()
  {
    var x := Over(a);
    forall pw, salt, count, iv, data | |data| % BLOCK == 0
      ensures |x.encrypt(pw, salt, count, iv, data)| == |data|
      ensures x.decrypt(pw, salt, count, iv, x.encrypt(pw, salt, count, iv, data)) == data
    {
      var key := DerivedKey(a, pw, salt, count);
      assert x.encrypt(pw, salt, count, iv, data) == a.encrypt(key, iv, data);
    }
    forall data ensures |x.sha1(data)| == 20 {
      assert x.sha1(data) == ToOctets(a.hash(ToBytes(data)));
    }
  }

  /** There is only one key of a given length. */
  lemma KeyIsUnique(k1: seq<byte>, k2: seq<byte>, h: seq<byte> -> seq<byte>, dlen: nat, mode: int,
                    pw: seq<byte>, salt: seq<byte>, count: nat)
    requires dlen > 0 && |salt| == SALT_SIZE && forall x :: |h(x)| == dlen
    requires IsKey(k1, h, dlen, mode, pw, salt, count) && IsKey(k2, h, dlen, mode, pw, salt, count) && |k1| == |k2|
    ensures k1 == k2
  {
    hide PassInput;
  }

  /** The part of do_encryption and do_decryption that makes the key. */
  method DeriveKey(a: Primitives, pw: Octets, salt: Octets, count: nat) returns (key: seq<byte>)
    requires a.Sound() && |salt| == SALT_SIZE
    ensures key == DerivedKey(a, pw, salt, count)
  {
    hide IsKey;
    var r := HashPassphrase(a.hash, DIGEST_LENGTH, ToBytes(pw), ITERATED, Some(ToBytes(salt)), count, KEY_LENGTH);
    key := r.value;
    KeyIsUnique(key, DerivedKey(a, pw, salt, count), a.hash, DIGEST_LENGTH, ITERATED, ToBytes(pw), ToBytes(salt),
        count);
  }

  method Encrypt(a: Primitives, pw: Octets, salt: Octets, count: nat, iv: Octets, data: Octets) returns (enc: Octets)
    requires a.Sound() && |salt| == SALT_SIZE
    ensures enc == Over(a).encrypt(pw, salt, count, iv, data)
  {
    hide DerivedKey;
    var key := DeriveKey(a, pw, salt, count);
    enc := a.encrypt(key, iv, data);
  }

  method Decrypt(a: Primitives, pw: Octets, salt: Octets, count: nat, iv: Octets, enc: Octets) returns (data: Octets)
    requires a.Sound() && |salt| == SALT_SIZE
    ensures data == Over(a).decrypt(pw, salt, count, iv, enc)
  {
    hide DerivedKey;
    var key := DeriveKey(a, pw, salt, count);
    data := a.decrypt(key, iv, enc);
  }

  /** From the passphrase through the derived key and the cipher and back. */
  lemma PassphraseRoundTrip(a: Primitives, key: Key, pw: Octets, z: Nonce, wantTime: bool, tail: Octets)
    requires a.Sound() && key.Valid() && z.Valid()
    ensures Protect(Over(a), key.Plain() + tail, pw, z) == Ok(key.ProtectedPlain(Over(a), pw, z))
    ensures Unprotect(Over(a), key.ProtectedPlain(Over(a), pw, z) + tail, pw, wantTime)
         == Ok(Unprotected(key.Plain(), if wantTime then Some(z.time) else None))
  {
    hide *;
    OverIsSound(a);
    ProtectIs(Over(a), key, tail, pw, z);
    UnprotectUndoesProtect(Over(a), key, pw, z, wantTime, tail);
  }

  /** The cipher's key is the first sixteen octets of the hash over salt and passphrase, repeated
      up to the count. */
  lemma DerivedKeyIs(a: Primitives, pw: Octets, salt: Octets, count: nat)
    requires a.Sound() && |salt| == 8
    ensures |DerivedKey(a, pw, salt, count)| == 16
    ensures DerivedKey(a, pw, salt, count) == a.hash(Material(3, ToBytes(pw), ToBytes(salt), count))[..16]
  {
    var m := Material(3, ToBytes(pw), ToBytes(salt), count);
    hide Material;
    assert S2k.Zeros(0) + m == m;
  }
}
