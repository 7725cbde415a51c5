/** Turning a passphrase into a key: the string-to-key functions of section 3.7.1 of RFC 4880
    over an arbitrary hash function. */
module S2k {
  import opened Common

  const SALT_SIZE := 8

  /** The first n bytes of the endless repetition of `base`. */
  function Repeated(base: seq<byte>, n: nat): (r: seq<byte>)
    requires base != []
    ensures |r| == n
  {
    seq(n, i requires 0 <= i < n => base[i % |base|])
  }

  function Zeros(n: nat): (r: seq<byte>)
    ensures |r| == n
  {
    seq(n, _ => 0)
  }

  /** What is hashed besides the leading zeros; the modes are simple, salted and iterated. */
  function Material(mode: int, pw: seq<byte>, salt: seq<byte>, count: nat): seq<byte>
    requires |salt| == SALT_SIZE
  {
    if mode == 0 then pw
    else if mode == 1 then salt + pw
    else Repeated(salt + pw, Max(count, |pw| + SALT_SIZE))
  }

  /** The input of the hash in pass number `pass`. */
  function PassInput(pass: nat, mode: int, pw: seq<byte>, salt: seq<byte>, count: nat): seq<byte>
    requires |salt| == SALT_SIZE
  {
    Zeros(pass) + Material(mode, pw, salt, count)
  }

  lemma RepeatedPrefix(base: seq<byte>, n: nat, k: nat)
    requires base != [] && k <= |base| && n % |base| == 0
    ensures Repeated(base, n) + base[..k] == Repeated(base, n + k)
  {
    var l, r := Repeated(base, n) + base[..k], Repeated(base, n + k);
    forall i | 0 <= i < n + k ensures l[i] == r[i] {
      if i >= n {
        ModAdd(n, i - n, |base|);
      }
    }
  }

  lemma ModAdd(n: nat, j: nat, m: nat)
    requires m > 0 && n % m == 0 && j <= m
    ensures j < m ==> (n + j) % m == j
    ensures (n + m) % m == 0
  {
    var q := n / m;
    assert n == m * q;
    if j < m {
      DivRem(n + j, m, q, j);
    }
    assert n + m == m * (q + 1);
    DivRem(n + m, m, q + 1, 0);
  }

  lemma DivRem(x: nat, m: nat, q: nat, r: nat)
    requires m > 0 && x == m * q + r && r < m
    ensures x / m == q && x % m == r
  {
    var q', r' := x / m, x % m;
    assert x == m * q' + r';
    var e: int := q as int - q' as int;
    assert m * e == m * q - m * q';
    Steps(m, e);
  }

  lemma Steps(m: int, e: int)
    requires m > 0
    ensures e >= 1 ==> m * e >= m
    ensures e <= -1 ==> m * e <= -m
  {
  }

  /** A message digest context: what has been written since the last reset. */
  class Md {
    const h: seq<byte> -> seq<byte>
    var ctx: seq<byte>

    constructor (h: seq<byte> -> seq<byte>)
      ensures this.h == h && ctx == []
    {
      this.h, ctx := h, [];
    }

    method Reset()
      modifies this
      ensures ctx == []
    {
      ctx := [];
    }

    method Write(data: seq<byte>)
      modifies this
      ensures ctx == old(ctx) + data
    {
      ctx := ctx + data;
    }

    method Read() returns (digest: seq<byte>)
      ensures digest == h(ctx)
    {
      digest := h(ctx);
    }
  }

  /** The loop that feeds salt and passphrase until the count is used up. */
  method FeedIterated(md: Md, pw: seq<byte>, salt: seq<byte>, s2kcount: nat, iterated: bool)
    requires |salt| == SALT_SIZE
    modifies md
    ensures md.ctx == old(md.ctx) + Material(if iterated then 3 else 1, pw, salt, s2kcount)
  {
    var base := salt + pw;
    var len2 := |pw| + 8;
    var count := len2;
    if iterated {
      count := s2kcount;
      if count < len2 {
        count := len2;
      }
    }
    ghost var total := count;
    ghost var start := md.ctx;
    ghost var done := 0;
    assert start + Repeated(base, 0) == start;
    ModZero(len2);
    while count > len2
      invariant 0 < count && done + count == total && done % len2 == 0
      invariant md.ctx == start + Repeated(base, done)
    {
      md.Write(salt);
      md.Write(pw);
      RepeatedPrefix(base, done, len2);
      assert base[..len2] == base;
      assert md.ctx == start + (Repeated(base, done) + base);
      ModAdd(done, 0, len2);
      done := done + len2;
      count := count - len2;
    }
    hide Repeated;
    RepeatedPrefix(base, done, count);
    FeedRest(md, pw, salt, count);
    assert md.ctx == start + (Repeated(base, done) + base[..count]);
    if !iterated {
      WholeOnce(base);
    }
  }

  /** What is left of the count: at most one repetition. */
  method FeedRest(md: Md, pw: seq<byte>, salt: seq<byte>, rest: nat)
    requires |salt| == SALT_SIZE && rest <= |pw| + 8
    modifies md
    ensures md.ctx == old(md.ctx) + (salt + pw)[..rest]
  {
    if rest < 8 {
      md.Write(salt[..rest]);
      assert salt[..rest] == (salt + pw)[..rest];
    } else {
      md.Write(salt);
      md.Write(pw[..rest - 8]);
      assert salt + pw[..rest - 8] == (salt + pw)[..rest];
    }
  }

  lemma ModZero(m: nat)
    requires m > 0
    ensures 0 % m == 0
  {
  }

  lemma WholeOnce(base: seq<byte>)
    requires base != []
    ensures Repeated(base, |base|) == base
  {
  }

  datatype Failure = InvValue

  /** hash_passphrase.  Byte k of the key is byte k mod d of digest number k div d, where d is
      the size of a digest and pass i hashes i zero bytes and then the material. */
  method HashPassphrase(h: seq<byte> -> seq<byte>, dlen: nat, pw: seq<byte>, mode: int,
                        salt: Option<seq<byte>>, count: nat, keylen: nat)
    returns (r: Result<seq<byte>, Failure>)
    requires dlen > 0 && forall x :: |h(x)| == dlen
    requires salt.Some? ==> |salt.value| == SALT_SIZE
    ensures r.Err? <==> mode !in {0, 1, 3} || keylen == 0 || (mode != 0 && salt.None?)
    ensures r.Ok? ==> |r.value| == keylen
    ensures r.Ok? ==> IsKey(r.value, h, dlen, mode, pw, if salt.Some? then salt.value else Zeros(SALT_SIZE), count)
  {
    if (mode != 0 && mode != 1 && mode != 3) || keylen == 0 {
      return Err(InvValue);
    }
    if (mode == 1 || mode == 3) && salt.None? {
      return Err(InvValue);
    }
    hide IsKey, Material;
    ghost var s := if salt.Some? then salt.value else Zeros(SALT_SIZE);
    var md := new Md(h);
    var key: seq<byte> := [];
    var pass := 0;
    EmptyKey(h, dlen, mode, pw, s, count);
    while |key| < keylen
      invariant |key| <= keylen && fresh(md) && md.h == h
      invariant pass == 0 ==> md.ctx == []
      invariant |key| < keylen ==> |key| == pass * dlen
      invariant IsKey(key, h, dlen, mode, pw, s, count)
      decreases keylen - |key|
    {
      if pass != 0 {
        Preset(md, pass);
      }
      assert md.ctx == Zeros(pass);
      if mode == 1 || mode == 3 {
        FeedIterated(md, pw, salt.value, count, mode == 3);
      } else {
        md.Write(pw);
        SimpleMaterial(pw, s, count);
      }
      var digest := md.Read();
      assert md.ctx == PassInput(pass, mode, pw, s, count);
      var i := Min(dlen, keylen - |key|);
      KeyGrows(key, h, dlen, mode, pw, s, count, pass, i);
      key := key + digest[..i];
      NextPass(pass, dlen);
      pass := pass + 1;
    }
    r := Ok(key);
  }

  /** Byte k is byte k mod dlen of the digest of pass k div dlen. */
  ghost predicate IsKey(key: seq<byte>, h: seq<byte> -> seq<byte>, dlen: nat, mode: int, pw: seq<byte>, salt: seq<byte>,
                        count: nat)
    requires dlen > 0 && |salt| == SALT_SIZE && forall x :: |h(x)| == dlen
  {
    forall k | 0 <= k < |key| :: key[k] == h(PassInput(k / dlen, mode, pw, salt, count))[k % dlen]
  }

  lemma EmptyKey(h: seq<byte> -> seq<byte>, dlen: nat, mode: int, pw: seq<byte>, salt: seq<byte>, count: nat)
    requires dlen > 0 && |salt| == SALT_SIZE && forall x :: |h(x)| == dlen
    ensures IsKey([], h, dlen, mode, pw, salt, count)
  {
  }

  lemma KeyGrows(key: seq<byte>, h: seq<byte> -> seq<byte>, dlen: nat, mode: int, pw: seq<byte>, salt: seq<byte>,
                 count: nat, pass: nat, n: nat)
    requires dlen > 0 && |salt| == SALT_SIZE && forall x :: |h(x)| == dlen
    requires IsKey(key, h, dlen, mode, pw, salt, count) && |key| == pass * dlen && n <= dlen
    ensures IsKey(key + h(PassInput(pass, mode, pw, salt, count))[..n], h, dlen, mode, pw, salt, count)
  {
    hide PassInput;
    var more := key + h(PassInput(pass, mode, pw, salt, count))[..n];
    forall k | 0 <= k < |more| ensures more[k] == h(PassInput(k / dlen, mode, pw, salt, count))[k % dlen] {
      if k >= |key| {
        NextPass(pass, dlen);
        DivRem(k, dlen, pass, k - |key|);
      }
    }
  }

  method Preset(md: Md, pass: nat)
    modifies md
    ensures md.ctx == Zeros(pass)
  {
    md.Reset();
    for i := 0 to pass
      invariant md.ctx == Zeros(i)
    {
      md.Write([0]);
    }
  }

  lemma SimpleMaterial(pw: seq<byte>, salt: seq<byte>, count: nat)
    requires |salt| == SALT_SIZE
    ensures Material(0, pw, salt, count) == pw
  {
  }

  lemma NextPass(pass: nat, dlen: nat)
    ensures pass * dlen + dlen == (pass + 1) * dlen && pass * dlen == dlen * pass
  {
  }

  /** What is hashed, octet by octet: the passphrase alone; salt and passphrase once; or salt
      and passphrase over and over, at least once, up to the count. */
  lemma MaterialAt(pw: seq<byte>, salt: seq<byte>, count: nat, i: nat)
    requires |salt| == 8
    ensures Material(0, pw, salt, count) == pw
    ensures
      var once, over := Material(1, pw, salt, count), Material(3, pw, salt, count);
      var j := i % (8 + |pw|);
      && |once| == 8 + |pw| && |over| == Max(count, 8 + |pw|)
      && (i < |once| ==> once[i] == if i < 8 then salt[i] else pw[i - 8])
      && (i < |over| ==> over[i] == if j < 8 then salt[j] else pw[j - 8])
  {
  }
}
