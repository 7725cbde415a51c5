/** The two halves of minip12.c together. */
module P12 {
  import opened Common
  import opened Der
  import opened P12Layout
  import opened P12Reader
  import opened P12RoundTrip
  import opened P12Build
  import opened P12Parse

  /** Whenever p12_build succeeds, p12_parse with the same password gives back the same eight
      numbers in order and hands over exactly the certificate, whatever further password
      encodings it could have tried. */
  method BuildThenParse(x: Crypto, q: Request, others: seq<seq<byte>>) returns (out: Option<seq<byte>>, o: Outcome)
    requires x.Sound() && q.Valid()
    requires |CertBags(x, q)| < LIMIT && (KeyFits(q) ==> |File(x, q)| < LIMIT)
    requires q.key.Some? ==> forall k | k in q.key.value :: k > 0
    ensures out.Some? <==> KeyFits(q) && |q.pw| <= 31
    ensures out.Some? ==> o == Outcome(true, if q.cert == [] then [] else [q.cert], q.key)
  {
    hide File, CertBags, Parsed;
    o := Outcome(false, [], None);
    out := P12Build.P12Build(x, q);
    if out.Some? {
      o := P12Parse.P12Parse(x, out.value, q.pw, others);
      ParseUndoesBuild(x, q, others);
    }
  }
}
