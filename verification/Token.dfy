/** internal/auth/token.go: minting and verifying session tokens. */
module Token {
  import opened Clock
  import opened Options
  import opened Text
  import Base64
  import Decimal

  /** HMAC-SHA256 of a message under a secret: any function of the two. */
  type Mac = (Str, Str) -> Str

  /** Nanoseconds since the Unix epoch, such that whole seconds fit 64 bits. */
  type Instant = t: int | Decimal.MIN_INT64 * NANOSECONDS <= t < (Decimal.MAX_INT64 + 1) * NANOSECONDS

  /** Time.Unix: whole seconds, rounded down. */
  function Unix(t: Instant): Decimal.Int64 { t / NANOSECONDS }

  function Message(encLabel: Str, expiry: Str): Str { encLabel + "." + expiry }

  function Sign(mac: Mac, encLabel: Str, expiry: Str, secret: Str): Str {
    Base64.Encode(mac(secret, Message(encLabel, expiry)))
  }

  function Mint(mac: Mac, owner: Str, secret: Str, exp: Instant): Str {
    var enc := Base64.Encode(owner);
    var expiry := Decimal.FormatInt(Unix(exp));
    enc + "." + expiry + "." + Sign(mac, enc, expiry, secret)
  }

  function Verify(mac: Mac, token: Str, secretOf: Str -> Option<Str>, now: Instant): Option<Str> {
    var first := Cut(token, '.');
    if first.None? then None else
    var (encLabel, rest) := first.value;
    var second := Cut(rest, '.');
    if second.None? || '.' in second.value.1 then None else
    var (expiry, sig) := second.value;
    var raw := Base64.Decode(encLabel);
    if raw.None? then None else
    var secret := secretOf(raw.value);
    if secret.None? then None else
    if sig != Sign(mac, encLabel, expiry, secret.value) then None else
    var exp := Decimal.ParseInt(expiry);
    if exp.None? then None else
    if !(now < exp.value * NANOSECONDS) then None else raw
  }

  /** A token's three parts, none of which holds a dot. */
  ghost predicate Parts(token: Str, encLabel: Str, expiry: Str, sig: Str) {
    token == encLabel + "." + expiry + "." + sig && '.' !in encLabel && '.' !in expiry && '.' !in sig
  }

  lemma CutsIntoParts(token: Str, encLabel: Str, expiry: Str, sig: Str)
    requires Parts(token, encLabel, expiry, sig)
    ensures Cut(token, '.') == Some((encLabel, expiry + "." + sig))
    ensures Cut(expiry + "." + sig, '.') == Some((expiry, sig))
  {
    assert token == encLabel + ['.'] + (expiry + "." + sig);
    CutUnique(encLabel, '.', expiry + "." + sig);
    CutUnique(expiry, '.', sig);
  }

  /** The parts of a token carry a name, an unexpired time and the signature of both. */
  ghost predicate Good(mac: Mac, encLabel: Str, expiry: Str, sig: Str, secretOf: Str -> Option<Str>, now: Instant,
                       owner: Str) {
    && Base64.Decode(encLabel) == Some(owner)
    && secretOf(owner).Some? && sig == Sign(mac, encLabel, expiry, secretOf(owner).value)
    && Decimal.ParseInt(expiry).Some? && now < Decimal.ParseInt(expiry).value * NANOSECONDS
  }

  /** A token is accepted for a name exactly when it falls into three good parts. */
  lemma AcceptedIffGoodParts(mac: Mac, token: Str, secretOf: Str -> Option<Str>, now: Instant, owner: Str)
    ensures Verify(mac, token, secretOf, now) == Some(owner) <==>
              exists e, x, sig :: Parts(token, e, x, sig) && Good(mac, e, x, sig, secretOf, now, owner)
  {
    if e, x, sig :| Parts(token, e, x, sig) && Good(mac, e, x, sig, secretOf, now, owner) {
      CutsIntoParts(token, e, x, sig);
    }
    if Verify(mac, token, secretOf, now) == Some(owner) {
      var (e, rest) := Cut(token, '.').value;
      var (x, sig) := Cut(rest, '.').value;
      assert token == e + "." + x + "." + sig;
      assert Parts(token, e, x, sig) && Good(mac, e, x, sig, secretOf, now, owner);
    }
  }

  lemma MintHasParts(mac: Mac, owner: Str, secret: Str, exp: Instant)
    ensures var enc, expiry := Base64.Encode(owner), Decimal.FormatInt(Unix(exp));
            Parts(Mint(mac, owner, secret, exp), enc, expiry, Sign(mac, enc, expiry, secret))
  {
    var enc, expiry := Base64.Encode(owner), Decimal.FormatInt(Unix(exp));
    Base64.EncodeHasNoDot(owner);
    Base64.EncodeHasNoDot(mac(secret, Message(enc, expiry)));
    Decimal.RoundTrip(Unix(exp));
  }

  /** The Unix second of an instant is the one it falls into, before the epoch too. */
  lemma UnixIsTheSecond(t: Instant)
    ensures Unix(t) * 1000000000 <= t < (Unix(t) + 1) * 1000000000
    ensures Unix(t) * 1000000000 == t - t % 1000000000
  {
  }

  /** What a token spells: the name and the second, and the MAC under the secret of both with a dot between. */
  lemma MintSpells(mac: Mac, owner: Str, secret: Str, exp: Instant)
    ensures var enc, expiry := Base64.Encode(owner), Decimal.FormatInt((exp - exp % 1000000000) / 1000000000);
            Mint(mac, owner, secret, exp)
            == enc + "." + expiry + "." + Base64.Encode(mac(secret, enc + "." + expiry))
  {
    UnixIsTheSecond(exp);
    assert (exp - exp % 1000000000) / 1000000000 == Unix(exp);
  }

  /**
   A minted token verifies exactly while its name still resolves to a secret that signs it the same
   way and the whole second of its expiry has not begun; otherwise it verifies as nobody's.
   */
  lemma MintedVerifiesExactlyWhen(mac: Mac, owner: Str, secret: Str, exp: Instant, secretOf: Str -> Option<Str>,
                                  now: Instant)
    ensures var second := exp - exp % 1000000000;
            var message := Base64.Encode(owner) + "." + Decimal.FormatInt(second / 1000000000);
            var valid := secretOf(owner).Some? && mac(secretOf(owner).value, message) == mac(secret, message)
                         && now < second;
            Verify(mac, Mint(mac, owner, secret, exp), secretOf, now) == if valid then Some(owner) else None
  {
    UnixIsTheSecond(exp);
    assert (exp - exp % 1000000000) / 1000000000 == Unix(exp);
    var enc, expiry := Base64.Encode(owner), Decimal.FormatInt(Unix(exp));
    MintHasParts(mac, owner, secret, exp);
    CutsIntoParts(Mint(mac, owner, secret, exp), enc, expiry, Sign(mac, enc, expiry, secret));
    Base64.RoundTrip(owner);
    Decimal.RoundTrip(Unix(exp));
    if secretOf(owner).Some? {
      var message := Message(enc, expiry);
      if Base64.Encode(mac(secretOf(owner).value, message)) == Base64.Encode(mac(secret, message)) {
        Base64.EncodeInjective(mac(secretOf(owner).value, message), mac(secret, message));
      }
    }
  }

  /** Round trip, expiry and revocation. */
  lemma RoundTripExpiryRevocation(mac: Mac, owner: Str, secret: Str, exp: Instant, secretOf: Str -> Option<Str>,
                                  now: Instant)
    ensures secretOf(owner) == Some(secret) ==>
              Verify(mac, Mint(mac, owner, secret, exp), secretOf, now)
              == if now < exp - exp % 1000000000 then Some(owner) else None
    ensures secretOf(owner) == None ==> Verify(mac, Mint(mac, owner, secret, exp), secretOf, now) == None
  {
    MintedVerifiesExactlyWhen(mac, owner, secret, exp, secretOf, now);
  }

  /** Different names or different seconds are signed as different texts: the dot cannot be forged. */
  lemma SignedTextsDiffer(a: Str, b: Str, s: Decimal.Int64, t: Decimal.Int64)
    requires Message(Base64.Encode(a), Decimal.FormatInt(s)) == Message(Base64.Encode(b), Decimal.FormatInt(t))
    ensures a == b && s == t
  {
    Base64.EncodeHasNoDot(a);
    Base64.EncodeHasNoDot(b);
    CutUnique(Base64.Encode(a), '.', Decimal.FormatInt(s));
    CutUnique(Base64.Encode(b), '.', Decimal.FormatInt(t));
    Base64.EncodeInjective(a, b);
    Decimal.RoundTrip(s);
    Decimal.RoundTrip(t);
  }

  /** A signature moved to another name's or another expiry's text is accepted only if the MAC of
      the two texts, under the two secrets, is the same. */
  lemma MovedSignatureNeedsCollision(mac: Mac, encA: Str, expA: Str, secretA: Str, encB: Str, expB: Str,
                                     secretOf: Str -> Option<Str>, now: Instant, owner: Str)
    requires '.' !in encB && '.' !in expB
    requires Verify(mac, encB + "." + expB + "." + Sign(mac, encA, expA, secretA), secretOf, now) == Some(owner)
    ensures secretOf(owner).Some?
        && mac(secretOf(owner).value, Message(encB, expB)) == mac(secretA, Message(encA, expA))
  {
    var sig := Sign(mac, encA, expA, secretA);
    Base64.EncodeHasNoDot(mac(secretA, Message(encA, expA)));
    CutsIntoParts(encB + "." + expB + "." + sig, encB, expB, sig);
    Base64.EncodeInjective(mac(secretOf(owner).value, Message(encB, expB)), mac(secretA, Message(encA, expA)));
  }
}
