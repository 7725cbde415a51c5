/** The buffer that merge_lists allocates: whatever key and passphrase agent_unprotect is given,
    the merged list fits, and the branch for internal errors is taken only for text that is not
    a list. */
module MergeSize {
  import opened Common
  import opened Sexp
  import opened ProtectSpec
  import opened ProtectRoundTrip

  /** The first scans of agent_unprotect: where the protected list begins. */
  function ProtectedAt(key: Octets): (r: Result<Octets, GpgError>)
    ensures r.Ok? ==> r.value != "" && r.value[0] == '('
  {
    var s1 :- Head(key, "protected-private-key");
    var s2 :- Need(Expect(s1, '('), UnknownSexp);
    var (n, s3) :- Need(Next(s2), InvSexp);
    var (_, s4) :- Need(FindAlgo(s3, n, 0), UnsupportedAlgorithm);
    var (begin, _) :- FindProtected(s4);
    Ok(begin)
  }

  /** The recognised algorithm name is skipped like any other token. */
  lemma {:induction false} AlgoMatched(s: Octets, n: nat, i: nat)
    requires FindAlgo(s, n, i).Some?
    ensures exists name :: Match(s, n, name) == Some(FindAlgo(s, n, i).value.1)
    decreases 3 - i
  {
    if i < |PROTECT_INFO| {
      if Match(s, n, PROTECT_INFO[i].algo).None? {
        AlgoMatched(s, n, i + 1);
      }
    }
  }

  lemma AlgoSkipped(s: Octets, depth: nat)
    requires Next(s).Some? && FindAlgo(Next(s).value.1, Next(s).value.0, 0).Some? && depth > 0
    ensures Skip(s, depth) == Skip(FindAlgo(Next(s).value.1, Next(s).value.0, 0).value.1, depth)
  {
    var (n, r) := Next(s).value;
    AlgoMatched(r, n, 0);
    var name :| Match(r, n, name) == Some(FindAlgo(r, n, 0).value.1);
    NameSkipped(s, name, depth);
  }

  /** The search passes whole lists, so it stays at its depth. */
  lemma {:induction false} SearchKeepsDepth(s: Octets)
    requires FindProtected(s).Ok?
    ensures Skip(s, 2) == Skip(FindProtected(s).value.0, 2)
    decreases |s|
  {
    var (n, s1) := Next(s[1..]).value;
    if Match(s1, n, "protected").None? {
      var s2 := RestOfList(s1, n).value;
      TokenSkipped(s[1..], 3);
      SkipTwice(Advance(s1, n), 1, 2);
      SearchKeepsDepth(s2);
    }
  }

  /** From the protected list on, leaving two lists ends where the key ends. */
  lemma KeyEnds(key: Octets)
    requires ProtectedAt(key).Ok?
    ensures
      var begin := ProtectedAt(key).value;
      && |begin| + 26 <= |key|
      && CanonLen(key) == (match Skip(begin, 2) case None => 0 case Some(end) => |key| - |end|)
  {
    var s0 := key[1..];
    var s1 := Head(key, "protected-private-key").value;
    NameSkipped(s0, "protected-private-key", 1);
    LongLength(s0);
    var s2 := Expect(s1, '(').value;
    AlgoSkipped(s2, 2);
    var s4 := FindAlgo(Next(s2).value.1, Next(s2).value.0, 0).value.1;
    SearchKeepsDepth(s4);
    assert Skip(s0, 1) == Skip(s4, 2);
  }

  /** The hash takes its place behind the secret parameters. */
  lemma SecretLeavesRoom(clear: Octets)
    requires |clear| >= 2 && ClearParts(clear).Ok?
    ensures |ClearParts(clear).value.0| + 8 <= |clear|
  {
  }

  lemma {:induction false} PairsNoBug(s: Octets)
    ensures Pairs(s) != Err(Bug)
    decreases |s|
  {
    if At(s) == '(' && Pair(s).Ok? {
      PairsNoBug(Pair(s).value[1..]);
    }
  }

  lemma ClearNoBug(clear: Octets)
    requires |clear| >= 2
    ensures ClearParts(clear) != Err(Bug)
  {
    PairsNoBug(clear[2..]);
  }

  lemma StampNoBug(s: Octets)
    ensures StampLen(s) != Err(Bug)
  {
  }

  /** The internal error is reported exactly for text that is not a list. */
  lemma BugIffNoList(key: Octets, clear: Octets)
    requires ProtectedAt(key).Ok? && CanonLen(clear) > 0
    ensures |ProtectedAt(key).value| <= |key|
    ensures Merge(key, ProtectedAt(key).value, clear) == Err(Bug) <==> CanonLen(key) == 0
  {
    var begin := ProtectedAt(key).value;
    KeyEnds(key);
    ClearLong(clear);
    ClearNoBug(clear);
    if Skip(begin[1..], 1).Some? {
      StampNoBug(Skip(begin[1..], 1).value);
    }
    hide ProtectedAt, ClearParts, StampLen, Skip, CanonLen;
  }

  /** What the merged list is made of. */
  lemma MergedLength(key: Octets, begin: Octets, clear: Octets)
    requires |begin| <= |key| && begin != "" && begin[0] == '(' && CanonLen(clear) > 0 && Merge(key, begin, clear).Ok?
    ensures |clear| >= 2 && ClearParts(clear).Ok? && CanonLen(key) > 0
    ensures
      var afterList := Skip(begin[1..], 1);
      && afterList.Some?
      && Skip(afterList.value, 2).Some?
      && |Merge(key, begin, clear).value.list| + 10
         == |key| - |begin| + |ClearParts(clear).value.0| + |afterList.value| - |Skip(afterList.value, 2).value|
  {
    hide ClearParts, StampLen, Skip, CanonLen;
    ClearLong(clear);
    var s1 := Skip(begin[1..], 1).value;
    var s2 := Skip(s1, 2).value;
    var pos := |key| - |begin|;
    NewFront(key[25..pos], ClearParts(clear).value.0);
    assert |s1[..|s1| - |s2|]| == |s1| - |s2|;
  }

  lemma NewFront(front: Octets, secret: Octets)
    ensures |"(11:private-key" + front + secret| == 15 + |front| + |secret|
  {
  }

  /** Both closings from the protected list on. */
  lemma EndOfKey(begin: Octets)
    requires begin != "" && begin[0] == '(' && Skip(begin[1..], 1).Some?
    ensures Skip(begin, 2) == Skip(Skip(begin[1..], 1).value, 2) && |Skip(begin[1..], 1).value| < |begin|
  {
    SkipTwice(begin[1..], 1, 2);
    SkipShrinks(begin[1..], 1);
  }

  /** Whatever was decrypted, the merged list fits into a buffer for both lists; the length of
      the decrypted text is what do_decryption accepts. */
  lemma MergedFits(key: Octets, clear: Octets)
    requires ProtectedAt(key).Ok? && CanonLen(clear) > 0 && |clear| <= CanonLen(clear) + BLOCK
    requires |ProtectedAt(key).value| <= |key| && Merge(key, ProtectedAt(key).value, clear).Ok?
    ensures |Merge(key, ProtectedAt(key).value, clear).value.list| <= CanonLen(key) + CanonLen(clear)
  {
    hide ProtectedAt, ClearParts, StampLen, Skip, CanonLen, Merge;
    var begin := ProtectedAt(key).value;
    KeyEnds(key);
    MergedLength(key, begin, clear);
    EndOfKey(begin);
    SecretLeavesRoom(clear);
  }
}
