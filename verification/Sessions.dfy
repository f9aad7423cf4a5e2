/** Session tokens checked against the loaded keys: what a restart with other keys does to them. */
module Sessions {
  import opened Options
  import opened Text
  import Keys
  import Token

  ghost function Accepts(mac: Token.Mac, token: Str, set_: Keys.KeySet, now: Token.Instant): Option<Str> {
    Token.Verify(mac, token, (l: Str) => Keys.Secret(set_, l), now)
  }

  /** A session outlives a change of keys exactly while its label keeps a secret that signs it alike. */
  lemma SessionLastsExactly(mac: Token.Mac, before: Keys.KeySet, after: Keys.KeySet, l: Str, exp: Token.Instant,
                            now: Token.Instant)
    requires Keys.Secret(before, l).Some?
    ensures var secret := Keys.Secret(before, l).value;
            var token := Token.Mint(mac, l, secret, exp);
            && (Keys.Secret(after, l) == Keys.Secret(before, l) ==>
                  Accepts(mac, token, after, now) == if now < exp - exp % 1000000000 then Some(l) else None)
            && (Keys.Secret(after, l) == None ==> Accepts(mac, token, after, now) == None)
  {
    Token.RoundTripExpiryRevocation(mac, l, Keys.Secret(before, l).value, exp, (x: Str) => Keys.Secret(after, x), now);
  }

  /** Whether any token at all is accepted for a label depends on that label's key and on no other. */
  lemma OnlyItsOwnKeyMatters(mac: Token.Mac, token: Str, a: Keys.KeySet, b: Keys.KeySet, l: Str, now: Token.Instant)
    requires Keys.Secret(a, l) == Keys.Secret(b, l)
    ensures Accepts(mac, token, a, now) == Some(l) <==> Accepts(mac, token, b, now) == Some(l)
  {
    var inA, inB := (x: Str) => Keys.Secret(a, x), (x: Str) => Keys.Secret(b, x);
    Token.AcceptedIffGoodParts(mac, token, inA, now, l);
    Token.AcceptedIffGoodParts(mac, token, inB, now, l);
    if e, x, sig :| Token.Parts(token, e, x, sig) && Token.Good(mac, e, x, sig, inA, now, l) {
      assert Token.Good(mac, e, x, sig, inB, now, l);
    }
    if e, x, sig :| Token.Parts(token, e, x, sig) && Token.Good(mac, e, x, sig, inB, now, l) {
      assert Token.Good(mac, e, x, sig, inA, now, l);
    }
  }

  /** Deleting a label's variable ends its sessions: no token whatever is accepted for it any more. */
  lemma DeletedKeyAcceptsNothing(mac: Token.Mac, token: Str, environ: seq<Str>, set_: Keys.KeySet, l: Str,
                                 now: Token.Instant)
    requires set_.byLabel == Keys.ByLabel(Keys.Entries(environ))
    requires forall k | 0 <= k < |Keys.Entries(environ)| :: Keys.Entries(environ)[k].owner != l
    ensures Accepts(mac, token, set_, now) != Some(l)
  {
    Keys.ByLabelComesFromEntries(Keys.Entries(environ), l);
    Token.AcceptedIffGoodParts(mac, token, (x: Str) => Keys.Secret(set_, x), now, l);
  }
}
