/**
 What the credential protocol guarantees: completeness, acceptance exactly for those who
 hold a MAC, perfect hiding of the randomised part, and the bound on tags.
 */
module ArcTheorems {
  import opened Options
  import opened PrimeField
  import opened LinearRelations
  import opened Arc

  /** The MAC exponent of the attributes `m1` and `m2`. */
  function MacKey(sk: PrivateKey, m1: int, m2: int): int {
    sk.x0 + m1 * sk.x1 + m2 * sk.x2
  }

  /** `(u, uPrime)` is a MAC on the credential's attribute and `m2`. */
  ghost predicate IsMac(c: Suite, cred: Credential, sk: PrivateKey, m2: int)
    requires c.n > 1
  {
    cred.uPrime == Red(c.n, MacKey(sk, cred.m1, m2) * cred.u)
  }

  ghost predicate IsPresentation(n: int, p: Presentation) {
    && IsScalar(n, p.u) && IsScalar(n, p.uPrimeCommit) && IsScalar(n, p.m1Commit)
    && IsScalar(n, p.tag) && IsScalar(n, p.m1Tag) && IsScalar(n, p.t)
  }

  // ----- Issuance

  lemma UnblindingAlgebra(n: int, sk: PrivateKey, secrets: ClientSecrets, m2: int, b: int,
                          commit: int, p: int, k: int, blindQ: int)
    requires n > 1
    requires Cong(n, commit, secrets.s + secrets.m1 * sk.x1)
    requires Cong(n, p, b)
    requires Cong(n, k, sk.x0 + m2 * sk.x2)
    requires Cong(n, blindQ, commit * b + p * k)
    ensures Cong(n, blindQ - p * secrets.s, b * MacKey(sk, secrets.m1, m2))
  {
    var e, f := secrets.s + secrets.m1 * sk.x1, sk.x0 + m2 * sk.x2;
    CongMul(n, commit, e, b, b);
    CongMul(n, p, b, k, f);
    CongAdd(n, commit * b, e * b, p * k, b * f);
    CongMul(n, p, b, secrets.s, secrets.s);
    CongAdd(n, blindQ, e * b + b * f, p * secrets.s, b * secrets.s);
    assert e * b + b * f - b * secrets.s == b * MacKey(sk, secrets.m1, m2) by {
      assert e * b == secrets.s * b + (secrets.m1 * sk.x1) * b;
    }
  }

  /** (x0Blinding, x0) opens X0 under (G, H), whatever x1 and x2 are, and these are the logarithms of X1 and X2. */
  lemma PublicKeyOpens(c: Suite, sk: PrivateKey, x1: int, x2: int)
    requires c.n > 1
    ensures var pk := DerivePublicKey(c, sk);
            && IsScalar(c.n, pk.x0) && IsScalar(c.n, pk.x1) && IsScalar(c.n, pk.x2)
            && Cong(c.n, pk.x0 - sk.x0Blinding, c.h * sk.x0)
            && Cong(c.n, pk.x1, sk.x1)
            && Cong(c.n, pk.x2, sk.x2)
            && DerivePublicKey(c, sk.(x1 := x1, x2 := x2)).x0 == pk.x0
  {
    var n, e := c.n, G * sk.x0Blinding + c.h * sk.x0;
    RedIsCong(n, e);
    RedIsCong(n, G * sk.x1);
    RedIsCong(n, G * sk.x2);
    CongAdd(n, Red(n, e), e, sk.x0Blinding, sk.x0Blinding);
  }

  /** The request commits to m1 under s, and carries r1 in its one auxiliary point that is not the identity. */
  lemma RequestCommits(c: Suite, sk: PrivateKey, secrets: ClientSecrets)
    requires c.n > 1
    ensures var request := NewRequest(c, secrets, DerivePublicKey(c, sk));
            && Cong(c.n, request.m1CommitBlinded, secrets.s + secrets.m1 * sk.x1)
            && Cong(c.n, request.x0Aux, secrets.r1) && request.x1Aux == 0 && request.x2Aux == 0
  {
    var n, pk := c.n, DerivePublicKey(c, sk);
    RedIsCong(n, G * secrets.r1);
    RedIsCong(n, G * sk.x1);
    CongMul(n, secrets.m1, secrets.m1, pk.x1, sk.x1);
    CongAdd(n, G * secrets.s, secrets.s, pk.x1 * secrets.m1, secrets.m1 * sk.x1);
    RedIsCong(n, G * secrets.s + pk.x1 * secrets.m1);
  }

  /** Decryption undoes the encryption with the auxiliary point, which the response returns with the other two. */
  lemma ResponseDecrypts(c: Suite, request: Request, sk: PrivateKey, m2: int, b: int)
    requires c.n > 1
    ensures var response := Issue(c, request, sk, m2, b);
            && Cong(c.n, Red(c.n, response.encUPrime - response.x0Aux),
                    request.m1CommitBlinded * b + response.u * Red(c.n, sk.x0 + m2 * sk.x2))
            && response.x0Aux == request.x0Aux && response.x1Aux == request.x1Aux && response.x2Aux == request.x2Aux
  {
    var n, response := c.n, Issue(c, request, sk, m2, b);
    var e := request.m1CommitBlinded * b + response.u * Red(n, sk.x0 + m2 * sk.x2);
    RedIsCong(n, e);
    RedIsCong(n, Red(n, e) + request.x0Aux);
    RedIsCong(n, response.encUPrime - response.x0Aux);
    CongAdd(n, response.encUPrime, Red(n, e) + request.x0Aux, request.x0Aux, request.x0Aux);
  }

  lemma RerandomisedIsMac(n: int, key: int, b: int, r: int, p: int, d: int)
    requires n > 1
    requires Cong(n, p, b) && Cong(n, d, b * key)
    ensures Cong(n, d * r, key * Red(n, p * r))
    ensures Cong(n, p * r, b * r)
  {
    CongMul(n, d, key * b, r, r);
    CongMul(n, p, b, r, r);
    RedIsCong(n, p * r);
    CongMul(n, key, key, Red(n, p * r), b * r);
    MulAssociates(key, b, r);
  }

  lemma UnblindedIsMac(c: Suite, response: Response, secrets: ClientSecrets, pk: PublicKey, r: int, key: int, b: int)
    requires c.n > 1
    requires Cong(c.n, response.u, b)
    requires Cong(c.n, Red(c.n, response.encUPrime - response.x0Aux) - response.u * secrets.s, b * key)
    ensures var cred := Unblind(c, response, secrets, pk, r);
            && cred.uPrime == Red(c.n, key * cred.u)
            && cred.u == Red(c.n, b * r)
            && cred.m1 == secrets.m1
  {
    var d := Red(c.n, response.encUPrime - response.x0Aux) - response.u * secrets.s;
    RerandomisedIsMac(c.n, key, b, r, response.u, d);
  }

  lemma ResponseCarriesMac(c: Suite, sk: PrivateKey, secrets: ClientSecrets, m2: int, b: int)
    requires c.n > 1
    ensures var response := Issue(c, NewRequest(c, secrets, DerivePublicKey(c, sk)), sk, m2, b);
            && Cong(c.n, response.u, b)
            && Cong(c.n, Red(c.n, response.encUPrime - response.x0Aux) - response.u * secrets.s,
                    b * MacKey(sk, secrets.m1, m2))
  {
    hide NewRequest, DerivePublicKey, MacKey;
    var n, request := c.n, NewRequest(c, secrets, DerivePublicKey(c, sk));
    var response := Issue(c, request, sk, m2, b);
    RedIsCong(n, G * b);
    hide Issue;
    RequestCommits(c, sk, secrets);
    ResponseDecrypts(c, request, sk, m2, b);
    RedIsCong(n, sk.x0 + m2 * sk.x2);
    UnblindingAlgebra(n, sk, secrets, m2, b, request.m1CommitBlinded, response.u,
                      Red(n, sk.x0 + m2 * sk.x2), Red(n, response.encUPrime - response.x0Aux));
  }

  /** What `Unblind` makes of an honest response, for every key, secret and random draw. */
  lemma IssuedCredentialIsMac(c: Suite, sk: PrivateKey, secrets: ClientSecrets, m2: int, b: int, r: int)
    requires c.n > 1
    ensures var pk := DerivePublicKey(c, sk);
            var response := Issue(c, NewRequest(c, secrets, pk), sk, m2, b);
            var cred := Unblind(c, response, secrets, pk, r);
            && IsMac(c, cred, sk, m2)
            && cred.u == Red(c.n, b * r)
  {
    hide NewRequest, DerivePublicKey, MacKey, Issue, Unblind;
    var pk := DerivePublicKey(c, sk);
    ResponseCarriesMac(c, sk, secrets, m2, b);
    UnblindedIsMac(c, Issue(c, NewRequest(c, secrets, pk), sk, m2, b), secrets, pk, r,
                   MacKey(sk, secrets.m1, m2), b);
  }

  // ----- Acceptance

  /** `m1`, `z` and `r` open the presentation to a MAC on m1 and to the tag of the nonce. */
  ghost predicate Opens(c: Suite, p: Presentation, sk: PrivateKey, m2: int, context: seq<Byte>, nonce: int,
                        m1: int, z: int, r: int)
    requires c.n > 1
  {
    && Cong(c.n, p.m1Commit, m1 * p.u + z)
    && Cong(c.n, p.uPrimeCommit - r, MacKey(sk, m1, m2) * p.u)
    && Cong(c.n, p.tag * (m1 + nonce), c.hashToGroup(context))
    && Cong(c.n, p.m1Tag, m1 * p.tag)
  }

  /** The verifier's V is consistent with (z, r) exactly when u' minus r is the MAC value. */
  lemma CommitmentAlgebra(n: int, sk: PrivateKey, m1: int, m2: int, u: int, uPrime: int, m1Commit: int,
                          z: int, r: int, v: int, x1: int)
    requires n > 1
    requires Cong(n, m1Commit, m1 * u + z)
    requires Cong(n, v, m1Commit * sk.x1 + u * sk.x0 + u * (sk.x2 * m2) - uPrime)
    requires Cong(n, x1, sk.x1)
    ensures Cong(n, v, z * x1 - r * 1) <==> Cong(n, uPrime - r, MacKey(sk, m1, m2) * u)
  {
    var rest := u * sk.x0 + u * (sk.x2 * m2);
    CongMul(n, m1Commit, m1 * u + z, sk.x1, sk.x1);
    CongAdd(n, m1Commit * sk.x1, (m1 * u + z) * sk.x1, rest - uPrime, rest - uPrime);
    CongMul(n, z, z, x1, sk.x1);
    CongAdd(n, z * x1, z * sk.x1, r, r);
    var mac := MacKey(sk, m1, m2) * u;
    var d := (m1 * u + z) * sk.x1 + rest - uPrime;
    assert d == mac + z * sk.x1 - uPrime by {
      assert mac == sk.x0 * u + (m1 * sk.x1) * u + (m2 * sk.x2) * u;
      assert (m1 * u + z) * sk.x1 == (m1 * u) * sk.x1 + z * sk.x1;
    }
    if Cong(n, v, z * x1 - r) {
      CongAdd(n, z * sk.x1 - r, d, z * sk.x1 - uPrime, z * sk.x1 - uPrime);
    }
    if Cong(n, uPrime - r, mac) {
      CongAdd(n, mac, uPrime - r, z * sk.x1 - uPrime, z * sk.x1 - uPrime);
    }
  }

  lemma VerifierSeesMac(c: Suite, p: Presentation, sk: PrivateKey, m2: int, m1: int, z: int, r: int)
    requires c.n > 1
    requires Cong(c.n, p.m1Commit, m1 * p.u + z)
    ensures var s := VerifierStatement(c, p, sk, m2);
            && (Cong(c.n, s.v, z * s.x1 - r * s.g) <==> Cong(c.n, p.uPrimeCommit - r, MacKey(sk, m1, m2) * p.u))
            && s.g == 1 && s.h == c.h
  {
    var n, s := c.n, VerifierStatement(c, p, sk, m2);
    var k := Red(n, sk.x2 * m2);
    RedIsCong(n, G * sk.x1);
    RedIsCong(n, sk.x2 * m2);
    CongMul(n, p.u, p.u, k, sk.x2 * m2);
    RedIsCong(n, p.m1Commit * sk.x1 + p.u * sk.x0 + p.u * k - p.uPrimeCommit);
    CongAdd(n, p.u * k, p.u * (sk.x2 * m2),
            p.uPrimeCommit - p.m1Commit * sk.x1 - p.u * sk.x0, p.uPrimeCommit - p.m1Commit * sk.x1 - p.u * sk.x0);
    CommitmentAlgebra(n, sk, m1, m2, p.u, p.uPrimeCommit, p.m1Commit, z, r, s.v, s.x1);
  }

  /** With the declared m1Tag, the tag equation is that T is (m1 + nonce) times the tag. */
  lemma TagAlgebra(n: int, t: int, tag: int, m1Tag: int, m1: int, nonce: int)
    requires n > 1 && IsScalar(n, m1Tag)
    requires Cong(n, m1Tag, m1 * tag)
    ensures m1Tag == Red(n, t - tag * nonce) <==> Cong(n, tag * (m1 + nonce), t)
  {
    RedOfScalar(n, m1Tag);
    assert tag * (m1 + nonce) == m1 * tag + tag * nonce;
    if m1Tag == Red(n, t - tag * nonce) {
      CongAdd(n, m1 * tag, t - tag * nonce, tag * nonce, tag * nonce);
    }
    if Cong(n, tag * (m1 + nonce), t) {
      CongAdd(n, tag * (m1 + nonce), t, tag * nonce, tag * nonce);
    }
  }

  /** A tag whose multiple is a nonzero element is itself nonzero. */
  lemma TagIsNonzero(n: int, t: int, tag: int, k: int)
    requires IsPrime(n) && IsScalar(n, t) && t != 0
    requires Cong(n, tag * k, t)
    ensures Red(n, tag) != 0
  {
    RedOfScalar(n, t);
    NoZeroDivisors(n, tag, k);
  }

  /** The verifier's checks other than the proof itself. */
  ghost predicate OtherChecks(c: Suite, p: Presentation, context: seq<Byte>, nonce: nat, limit: nat)
    requires c.n > 1
  {
    && nonce < limit && p.u != 0 && p.uPrimeCommit != 0
    && p.t == c.hashToGroup(context)
    && p.m1Tag == Red(c.n, c.hashToGroup(context) - p.tag * nonce)
  }

  /** Any witness of the proof on a presentation that passes the other checks opens it, at the declared nonce. */
  lemma WitnessOpens(c: Suite, p: Presentation, sk: PrivateKey, m2: int, context: seq<Byte>, nonce: nat,
                     limit: nat, w: Witness)
    requires ValidSuite(c) && IsPresentation(c.n, p)
    requires OtherChecks(c, p, context, nonce, limit)
    requires Related(c.n, VerifierStatement(c, p, sk, m2), w)
    ensures Opens(c, p, sk, m2, context, nonce, w.m1, w.z, w.r)
    ensures Cong(c.n, w.nonce, nonce)
  {
    var n, t := c.n, c.hashToGroup(context);
    VerifierSeesMac(c, p, sk, m2, w.m1, w.z, w.r);
    TagAlgebra(n, t, p.tag, p.m1Tag, w.m1, nonce);
    TagIsNonzero(n, t, p.tag, w.m1 + nonce);
    assert p.tag * (w.m1 + nonce) == p.tag * nonce + w.m1 * p.tag;
    CongAdd(n, w.m1 * p.tag + w.nonce * p.tag, p.tag * nonce + w.m1 * p.tag, w.m1 * p.tag, w.m1 * p.tag);
    assert w.nonce * p.tag == p.tag * w.nonce;
    Cancel(n, p.tag, w.nonce, nonce);
  }

  lemma OpeningIsWitness(c: Suite, p: Presentation, sk: PrivateKey, m2: int, context: seq<Byte>, nonce: nat, w: Witness)
    requires ValidSuite(c) && IsPresentation(c.n, p)
    requires p.t == c.hashToGroup(context)
    requires Opens(c, p, sk, m2, context, nonce, w.m1, w.z, w.r) && Cong(c.n, w.nonce, nonce)
    ensures Related(c.n, VerifierStatement(c, p, sk, m2), w)
    ensures p.m1Tag == Red(c.n, c.hashToGroup(context) - p.tag * nonce)
  {
    var n := c.n;
    VerifierSeesMac(c, p, sk, m2, w.m1, w.z, w.r);
    TagAlgebra(n, p.t, p.tag, p.m1Tag, w.m1, nonce);
    CongAdd(n, w.m1, w.m1, w.nonce, nonce);
    CongMul(n, p.tag, p.tag, w.m1 + w.nonce, w.m1 + nonce);
    assert p.tag * (w.m1 + w.nonce) == w.m1 * p.tag + w.nonce * p.tag;
  }

  /**
   Verification succeeds exactly on nondegenerate presentations whose proof is made for the
   verifier's own statement, by someone who opens them to a MAC and to the tag of the nonce.
   */
  lemma AcceptedIffOpens(c: Suite, p: Presentation, sk: PrivateKey, m2: int, context: seq<Byte>, nonce: nat, limit: nat)
    requires ValidSuite(c) && IsPresentation(c.n, p)
    ensures var w := p.proof.secrets;
            Verify(c, p, sk, m2, context, nonce, limit) == Ok(true) <==>
            && nonce < limit && p.u != 0 && p.uPrimeCommit != 0
            && p.t == c.hashToGroup(context)
            && p.proof.statement == VerifierStatement(c, p, sk, m2) && p.proof.session == context
            && Opens(c, p, sk, m2, context, nonce, w.m1, w.z, w.r) && Cong(c.n, w.nonce, nonce)
  {
    hide Opens, Related, VerifierStatement;
    var w := p.proof.secrets;
    if Verify(c, p, sk, m2, context, nonce, limit) == Ok(true) {
      WitnessOpens(c, p, sk, m2, context, nonce, limit, w);
    } else if p.t == c.hashToGroup(context) && Opens(c, p, sk, m2, context, nonce, w.m1, w.z, w.r)
              && Cong(c.n, w.nonce, nonce) {
      OpeningIsWitness(c, p, sk, m2, context, nonce, w);
    }
  }

  lemma NonceIsDeclaredIff(c: Suite, p: Presentation, sk: PrivateKey, m2: int, context: seq<Byte>, nonce: nat, w: Witness)
    requires ValidSuite(c) && IsPresentation(c.n, p) && p.t == c.hashToGroup(context)
    requires Related(c.n, VerifierStatement(c, p, sk, m2), w)
    ensures p.m1Tag == Red(c.n, c.hashToGroup(context) - p.tag * nonce) <==> Cong(c.n, w.nonce, nonce)
  {
    var n := c.n;
    TagAlgebra(n, p.t, p.tag, p.m1Tag, w.m1, nonce);
    assert p.tag * (w.m1 + nonce) == w.m1 * p.tag + p.tag * nonce;
    assert p.tag * w.nonce == w.nonce * p.tag;
    if Cong(n, p.tag * (w.m1 + nonce), p.t) {
      TagIsNonzero(n, p.t, p.tag, w.m1 + nonce);
      CongAdd(n, w.m1 * p.tag + w.nonce * p.tag, w.m1 * p.tag + p.tag * nonce, w.m1 * p.tag, w.m1 * p.tag);
      Cancel(n, p.tag, w.nonce, nonce);
    }
    if Cong(n, w.nonce, nonce) {
      CongMul(n, p.tag, p.tag, w.nonce, nonce);
      CongAdd(n, w.m1 * p.tag, w.m1 * p.tag, p.tag * w.nonce, p.tag * nonce);
    }
  }

  /**
   All verdicts: a proof for another statement or session, or without a witness, is an
   error; false means a nonce beyond the limit, an identity point, another context's T, or
   a proof of another nonce than the declared one.
   */
  lemma VerdictIs(c: Suite, p: Presentation, sk: PrivateKey, m2: int, context: seq<Byte>, nonce: nat, limit: nat)
    requires ValidSuite(c) && IsPresentation(c.n, p)
    ensures var s, verdict := VerifierStatement(c, p, sk, m2), Verify(c, p, sk, m2, context, nonce, limit);
            var inRange := nonce < limit && p.u != 0 && p.uPrimeCommit != 0;
            var proved := p.proof.statement == s && p.proof.session == context && Related(c.n, s, p.proof.secrets);
            && (verdict == Err(ProofRejected) <==> inRange && !proved)
            && (verdict == Ok(false) <==>
                !inRange || (proved && !(p.t == c.hashToGroup(context) && Cong(c.n, p.proof.secrets.nonce, nonce))))
            && verdict in {Ok(true), Ok(false), Err(ProofRejected)}
  {
    hide VerifierStatement, Related;
    var s := VerifierStatement(c, p, sk, m2);
    if Related(c.n, s, p.proof.secrets) && p.t == c.hashToGroup(context) {
      NonceIsDeclaredIff(c, p, sk, m2, context, nonce, p.proof.secrets);
    }
  }

  // ----- Completeness

  /** A present tag times (m1 + nonce) is the hashed context. */
  lemma TagInverts(c: Suite, m1: int, context: seq<Byte>, nonce: int)
    requires ValidSuite(c)
    requires Tag(c, m1, context, nonce).Some?
    ensures IsScalar(c.n, Tag(c, m1, context, nonce).value)
    ensures Cong(c.n, Tag(c, m1, context, nonce).value * (m1 + nonce), c.hashToGroup(context))
  {
    var n, t, k := c.n, c.hashToGroup(context), Red(c.n, m1 + nonce);
    var i := Invert(n, k).value;
    var tag := Tag(c, m1, context, nonce).value;
    InverseMultiplies(n, k);
    RedIsCong(n, m1 + nonce);
    RedIsCong(n, t * i);
    CongMul(n, tag, t * i, m1 + nonce, k);
    CongMul(n, t, t, k * i, 1);
    assert (t * i) * k == t * (k * i);
  }

  lemma TagTargetsAgree(n: int, t: int, tag: int, k: int)
    requires n > 1 && IsScalar(n, t) && Cong(n, tag * k, t)
    ensures t == Red(n, tag * Red(n, k))
  {
    RedIsCong(n, k);
    CongMul(n, tag, tag, Red(n, k), k);
    ReducedIsEqual(n, t, tag * Red(n, k));
  }

  lemma ReducedIsEqual(n: int, x: int, y: int)
    requires IsScalar(n, x) && Cong(n, x, y)
    ensures x == Red(n, y)
  {
    RedOfScalar(n, x);
  }

  /** For every credential, the prover's own secrets are a witness of its statement: proof creation cannot fail. */
  lemma ProverHasWitness(c: Suite, cred: Credential, u: int, tag: int, nonce: int, z: int, r: int)
    requires c.n > 1
    ensures var m1Commit, m1Tag := Red(c.n, u * cred.m1 + G * z), Red(c.n, tag * cred.m1);
            Related(c.n, ProverStatement(c, cred, u, m1Commit, tag, m1Tag, nonce, z, r), Witness(cred.m1, z, r, nonce))
  {
    var n, k := c.n, Red(c.n, cred.m1 + nonce);
    RedIsCong(n, u * cred.m1 + G * z);
    RedIsCong(n, tag * cred.m1);
    RedIsCong(n, cred.x1 * z - G * r);
    RedIsCong(n, cred.m1 + nonce);
    RedIsCong(n, tag * k);
    CongMul(n, tag, tag, k, cred.m1 + nonce);
    assert tag * (cred.m1 + nonce) == cred.m1 * tag + nonce * tag;
  }

  /** A presentation fails exactly when m1 + nonce is zero, and its proof carries the prover's secrets. */
  lemma PresentationIsProved(c: Suite, cred: Credential, context: seq<Byte>, nonce: nat, a: int, z: int, r: int)
    requires c.n > 1
    ensures var result := Present(c, cred, context, nonce, a, z, r);
            && (result.Err? <==> Red(c.n, cred.m1 + nonce) == 0)
            && (result.Err? ==> result.error == CannotInvert)
            && (result.Ok? ==>
                  var p := result.value;
                  p.proof == Proof(ProverStatement(c, cred, p.u, p.m1Commit, p.tag, p.m1Tag, nonce, z, r), context,
                                   Witness(cred.m1, z, r, nonce)))
  {
    hide Invert, Related, ProverStatement;
    var tag := Tag(c, cred.m1, context, nonce);
    if tag.Some? {
      ProverHasWitness(c, cred, Red(c.n, cred.u * a), tag.value, nonce, z, r);
    }
  }

  lemma RandomisedParts(c: Suite, cred: Credential, a: int, z: int, r: int)
    requires c.n > 1
    ensures var (u, uPrimeCommit, m1Commit) := Randomised(c, cred, a, z, r);
            && IsScalar(c.n, u) && IsScalar(c.n, uPrimeCommit) && IsScalar(c.n, m1Commit)
            && Cong(c.n, u, cred.u * a)
            && Cong(c.n, uPrimeCommit - r, cred.uPrime * a)
            && Cong(c.n, m1Commit, cred.m1 * u + z)
  {
    var n, u, uPrime := c.n, Red(c.n, cred.u * a), Red(c.n, cred.uPrime * a);
    RedIsCong(n, u * cred.m1 + G * z);
    RedIsCong(n, cred.u * a);
    RedIsCong(n, cred.uPrime * a);
    RedIsCong(n, uPrime + G * r);
    CongAdd(n, Red(n, uPrime + G * r), uPrime + G * r, r, r);
  }

  lemma TagParts(c: Suite, m1: int, context: seq<Byte>, nonce: nat)
    requires ValidSuite(c) && Tag(c, m1, context, nonce).Some?
    ensures var tag := Tag(c, m1, context, nonce).value;
            && IsScalar(c.n, tag)
            && Cong(c.n, tag * (m1 + nonce), c.hashToGroup(context))
            && Cong(c.n, Red(c.n, tag * m1), m1 * tag)
  {
    hide Tag;
    var tag := Tag(c, m1, context, nonce).value;
    TagInverts(c, m1, context, nonce);
    RedIsCong(c.n, tag * m1);
  }

  /** What a presentation of any credential contains. */
  lemma PresentationParts(c: Suite, cred: Credential, context: seq<Byte>, nonce: nat, a: int, z: int, r: int)
    requires ValidSuite(c) && Present(c, cred, context, nonce, a, z, r).Ok?
    ensures var p := Present(c, cred, context, nonce, a, z, r).value;
            && IsPresentation(c.n, p)
            && p.t == c.hashToGroup(context)
            && Cong(c.n, p.u, cred.u * a)
            && Cong(c.n, p.uPrimeCommit - r, cred.uPrime * a)
            && Cong(c.n, p.m1Commit, cred.m1 * p.u + z)
            && Cong(c.n, p.tag * (cred.m1 + nonce), p.t)
            && Cong(c.n, p.m1Tag, cred.m1 * p.tag)
  {
    hide Tag, Randomised, Prove, ProverStatement, Cong;
    RandomisedParts(c, cred, a, z, r);
    TagParts(c, cred.m1, context, nonce);
  }

  /** Prover and verifier compute the same V, for one X1, exactly when u' minus r is the MAC value. */
  lemma CommitmentsAgreeIff(c: Suite, cred: Credential, p: Presentation, sk: PrivateKey, m2: int, z: int, r: int)
    requires c.n > 1 && cred.x1 == DerivePublicKey(c, sk).x1
    requires Cong(c.n, p.m1Commit, cred.m1 * p.u + z)
    ensures VerifierStatement(c, p, sk, m2).v == Red(c.n, cred.x1 * z - G * r) <==>
            Cong(c.n, p.uPrimeCommit - r, MacKey(sk, cred.m1, m2) * p.u)
  {
    var s := VerifierStatement(c, p, sk, m2);
    VerifierSeesMac(c, p, sk, m2, cred.m1, z, r);
    assert z * s.x1 - r * s.g == cred.x1 * z - G * r;
    RedOfScalar(c.n, s.v);
  }

  /** Prover and verifier agree on the whole statement exactly for the server's X1 and the MAC value. */
  lemma StatementsAgreeIff(c: Suite, cred: Credential, p: Presentation, sk: PrivateKey, m2: int, nonce: nat, z: int, r: int)
    requires c.n > 1 && IsScalar(c.n, p.t)
    requires Cong(c.n, p.m1Commit, cred.m1 * p.u + z)
    requires Cong(c.n, p.tag * (cred.m1 + nonce), p.t)
    ensures ProverStatement(c, cred, p.u, p.m1Commit, p.tag, p.m1Tag, nonce, z, r) == VerifierStatement(c, p, sk, m2) <==>
            cred.x1 == DerivePublicKey(c, sk).x1 && Cong(c.n, p.uPrimeCommit - r, MacKey(sk, cred.m1, m2) * p.u)
  {
    TagTargetsAgree(c.n, p.t, p.tag, cred.m1 + nonce);
    if cred.x1 == DerivePublicKey(c, sk).x1 {
      CommitmentsAgreeIff(c, cred, p, sk, m2, z, r);
    }
  }

  /** A nonzero factor neither makes nor breaks a MAC. */
  lemma MacScalesIff(n: int, key: int, u: int, uPrime: int, a: int, ua: int)
    requires IsPrime(n) && Red(n, a) != 0 && IsScalar(n, uPrime) && Cong(n, ua, u * a)
    ensures Cong(n, uPrime * a, key * ua) <==> uPrime == Red(n, key * u)
  {
    CongMul(n, key, key, ua, u * a);
    MulAssociates(key, u, a);
    assert uPrime * a == a * uPrime && (key * u) * a == a * (key * u);
    RedOfScalar(n, uPrime);
    if Cong(n, uPrime * a, key * ua) {
      Cancel(n, a, uPrime, key * u);
    }
    if uPrime == Red(n, key * u) {
      CongMul(n, uPrime, key * u, a, a);
    }
  }

  /**
   The MAC decides: whoever presents any credential, valid or not, is verified exactly when
   the nonce is below the limit, neither randomised point is the identity, X1 is the
   server's, and the credential is a MAC under the server's key and attribute.
   */
  lemma PresentationVerifiesIffMac(c: Suite, cred: Credential, sk: PrivateKey, m2: int, context: seq<Byte>,
                                   nonce: nat, limit: nat, a: int, z: int, r: int)
    requires ValidSuite(c) && IsScalar(c.n, cred.uPrime)
    requires Present(c, cred, context, nonce, a, z, r).Ok?
    ensures var p := Present(c, cred, context, nonce, a, z, r).value;
            Verify(c, p, sk, m2, context, nonce, limit) == Ok(true) <==>
            && nonce < limit && p.u != 0 && p.uPrimeCommit != 0
            && cred.x1 == DerivePublicKey(c, sk).x1
            && IsMac(c, cred, sk, m2)
  {
    hide Present, Opens, ProverStatement, VerifierStatement, DerivePublicKey, MacKey;
    var n, p := c.n, Present(c, cred, context, nonce, a, z, r).value;
    PresentationIsProved(c, cred, context, nonce, a, z, r);
    PresentationParts(c, cred, context, nonce, a, z, r);
    RedOfScalar(n, p.u);
    NoZeroDivisors(n, cred.u, a);
    AcceptedIffOpens(c, p, sk, m2, context, nonce, limit);
    OpensIff(c, p, sk, m2, context, nonce, cred.m1, z, r);
    StatementsAgreeIff(c, cred, p, sk, m2, nonce, z, r);
    if p.u != 0 {
      MacScalesIff(n, MacKey(sk, cred.m1, m2), cred.u, cred.uPrime, a, p.u);
    }
  }

  lemma OpensIff(c: Suite, p: Presentation, sk: PrivateKey, m2: int, context: seq<Byte>, nonce: int,
                 m1: int, z: int, r: int)
    requires c.n > 1 && p.t == c.hashToGroup(context)
    requires Cong(c.n, p.m1Commit, m1 * p.u + z)
    requires Cong(c.n, p.tag * (m1 + nonce), p.t)
    requires Cong(c.n, p.m1Tag, m1 * p.tag)
    ensures Opens(c, p, sk, m2, context, nonce, m1, z, r) <==>
            Cong(c.n, p.uPrimeCommit - r, MacKey(sk, m1, m2) * p.u)
  {
  }

  /** The commitment to a MAC value is the identity exactly for the one r that cancels it. */
  lemma CommitmentVanishesIff(n: int, key: int, u: int, uPrime: int, a: int, ua: int, commit: int, r: int)
    requires n > 1 && IsScalar(n, commit) && uPrime == Red(n, key * u)
    requires Cong(n, ua, u * a) && Cong(n, commit - r, uPrime * a)
    ensures commit == 0 <==> Cong(n, r, -(key * ua))
  {
    RedIsCong(n, key * u);
    CongMul(n, uPrime, key * u, a, a);
    CongMul(n, key, key, ua, u * a);
    MulAssociates(key, u, a);
    CongAdd(n, commit - r, key * ua, r, r);
    RedOfScalar(n, commit);
    RedOfScalar(n, 0);
    if commit == 0 {
      CongAdd(n, 0, key * ua + r, key * ua, key * ua);
    }
    if Cong(n, r, -(key * ua)) {
      CongAdd(n, r, -(key * ua), key * ua, key * ua);
    }
  }

  /**
   End-to-end completeness, for every key, secret, attribute and random draw: the honest
   presentation exists exactly when m1 + nonce is not zero, and is verified exactly when the
   nonce is below the limit and neither randomised point is the identity; the first point
   is the identity exactly when one of the three random factors is zero, and the second one
   exactly when r cancels the MAC value.
   */
  lemma HonestPresentationVerifies(c: Suite, sk: PrivateKey, secrets: ClientSecrets, m2: int, b: int, r0: int,
                                   context: seq<Byte>, nonce: nat, limit: nat, a: int, z: int, r: int)
    requires ValidSuite(c)
    ensures var pk := DerivePublicKey(c, sk);
            var response := Issue(c, NewRequest(c, secrets, pk), sk, m2, b);
            var cred := Unblind(c, response, secrets, pk, r0);
            var result := Present(c, cred, context, nonce, a, z, r);
            && (result.Err? <==> Red(c.n, secrets.m1 + nonce) == 0)
            && (result.Ok? ==>
                  && (result.value.u == 0 <==> Red(c.n, b) == 0 || Red(c.n, r0) == 0 || Red(c.n, a) == 0)
                  && (result.value.uPrimeCommit == 0 <==>
                      Cong(c.n, r, -(MacKey(sk, secrets.m1, m2) * result.value.u)))
                  && (Verify(c, result.value, sk, m2, context, nonce, limit) == Ok(true) <==>
                      nonce < limit && result.value.u != 0 && result.value.uPrimeCommit != 0))
  {
    var n, pk := c.n, DerivePublicKey(c, sk);
    var response := Issue(c, NewRequest(c, secrets, pk), sk, m2, b);
    var cred := Unblind(c, response, secrets, pk, r0);
    assert cred.x1 == pk.x1 && cred.m1 == secrets.m1 && IsScalar(n, cred.u) && IsScalar(n, cred.uPrime);
    hide DerivePublicKey, Issue, NewRequest, Unblind, Present, Verify, MacKey;
    var result := Present(c, cred, context, nonce, a, z, r);
    IssuedCredentialIsMac(c, sk, secrets, m2, b, r0);
    PresentationIsProved(c, cred, context, nonce, a, z, r);
    if result.Ok? {
      PresentationParts(c, cred, context, nonce, a, z, r);
      PresentationVerifiesIffMac(c, cred, sk, m2, context, nonce, limit, a, z, r);
      RedOfScalar(n, cred.u);
      RedOfScalar(n, result.value.u);
      NoZeroDivisors(n, b, r0);
      NoZeroDivisors(n, cred.u, a);
      CommitmentVanishesIff(n, MacKey(sk, secrets.m1, m2), cred.u, cred.uPrime, a,
                            result.value.u, result.value.uPrimeCommit, r);
    }
  }

  // ----- Hiding

  /** Two private keys have one public key exactly when x1 and x2 agree and the blindings make up for x0. */
  lemma PublicKeysCoincideIff(c: Suite, sk: PrivateKey, sk': PrivateKey)
    requires c.n > 1
    requires IsScalar(c.n, sk.x1) && IsScalar(c.n, sk.x2) && IsScalar(c.n, sk'.x1) && IsScalar(c.n, sk'.x2)
    ensures DerivePublicKey(c, sk) == DerivePublicKey(c, sk') <==>
            && sk.x1 == sk'.x1 && sk.x2 == sk'.x2
            && Cong(c.n, sk.x0Blinding - sk'.x0Blinding, c.h * sk'.x0 - c.h * sk.x0)
  {
    var n := c.n;
    RedOfScalar(n, sk.x1);
    RedOfScalar(n, sk.x2);
    RedOfScalar(n, sk'.x1);
    RedOfScalar(n, sk'.x2);
    var e, e' := G * sk.x0Blinding + c.h * sk.x0, G * sk'.x0Blinding + c.h * sk'.x0;
    var shift := sk'.x0Blinding + c.h * sk.x0;
    if Cong(n, e, e') {
      CongAdd(n, e, e', shift, shift);
    }
    if Cong(n, sk.x0Blinding - sk'.x0Blinding, c.h * sk'.x0 - c.h * sk.x0) {
      CongAdd(n, sk.x0Blinding - sk'.x0Blinding, c.h * sk'.x0 - c.h * sk.x0, shift, shift);
    }
  }

  /** The blinded request fits every attribute, for exactly one blinding factor each. */
  lemma RequestHidesAttribute(c: Suite, secrets: ClientSecrets, pk: PublicKey, m1: int, s: int)
    requires c.n > 1 && IsScalar(c.n, s)
    ensures var request := NewRequest(c, secrets, pk);
            NewRequest(c, secrets.(m1 := m1, s := s), pk) == request <==>
            s == Red(c.n, request.m1CommitBlinded - pk.x1 * m1)
  {
    ShiftReaches(c.n, NewRequest(c, secrets, pk).m1CommitBlinded, pk.x1 * m1, s);
  }

  /** A commitment `e + s` reaches any target for exactly one scalar s. */
  lemma ShiftReaches(n: int, target: int, e: int, s: int)
    requires IsScalar(n, target) && IsScalar(n, s)
    ensures Red(n, e + G * s) == target <==> s == Red(n, target - e)
  {
    RedOfScalar(n, target);
    RedOfScalar(n, s);
    RedIsCong(n, target - e);
    if Red(n, e + G * s) == target {
      CongAdd(n, e + s, target, e, e);
    }
    if s == Red(n, target - e) {
      CongAdd(n, s, target - e, e, e);
    }
  }

  /** A nonzero element is scaled to any target by exactly one scalar. */
  lemma ScaleReaches(n: int, target: int, u: int, a: int)
    requires IsPrime(n) && IsScalar(n, target) && IsScalar(n, u) && u != 0 && IsScalar(n, a)
    ensures Red(n, u * a) == target <==> a == Red(n, Invert(n, u).value * target)
  {
    RedOfScalar(n, target);
    RedOfScalar(n, u);
    RedOfScalar(n, a);
    hide Invert;
    var a' := Red(n, Invert(n, u).value * target);
    InverseScales(n, target, u);
    if Red(n, u * a) == target {
      Cancel(n, u, a, a');
      ReducedIsEqual(n, a, a');
      RedOfScalar(n, a');
    }
  }

  lemma InverseScales(n: int, target: int, u: int)
    requires IsPrime(n) && IsScalar(n, target) && IsScalar(n, u) && u != 0
    ensures Red(n, u * Red(n, Invert(n, u).value * target)) == target
  {
    RedOfScalar(n, target);
    hide Invert;
    InverseMultiplies(n, u);
    ReciprocalScales(n, u, Invert(n, u).value, target);
  }

  lemma ReciprocalScales(n: int, u: int, i: int, target: int)
    requires n > 1 && Cong(n, u * i, 1)
    ensures Cong(n, u * Red(n, i * target), target)
  {
    RedIsCong(n, i * target);
    CongMul(n, u, u, Red(n, i * target), i * target);
    CongMul(n, u * i, 1, target, target);
    MulAssociates(u, i, target);
  }

  function Matching(c: Suite, cred: Credential, view: (int, int, int)): (int, int, int)
    requires c.n > 1 && IsScalar(c.n, cred.u) && cred.u != 0
  {
    var a := Red(c.n, Invert(c.n, cred.u).value * view.0);
    (a, Red(c.n, view.2 - view.0 * cred.m1), Red(c.n, view.1 - Red(c.n, cred.uPrime * a)))
  }

  /**
   Perfect hiding: whatever randomised part one credential shows, any other credential
   with a nonzero point shows it too, for exactly one choice of its own randomness.
   */
  lemma RandomisedPartHidesCredential(c: Suite, cred: Credential, other: Credential, a: int, z: int, r: int)
    requires ValidSuite(c)
    requires IsScalar(c.n, other.u) && other.u != 0
    ensures exists a', z', r' ::
              && IsScalar(c.n, a') && IsScalar(c.n, z') && IsScalar(c.n, r')
              && Randomised(c, other, a', z', r') == Randomised(c, cred, a, z, r)
    ensures forall a', z', r' ::
              && IsScalar(c.n, a') && IsScalar(c.n, z') && IsScalar(c.n, r')
              && Randomised(c, other, a', z', r') == Randomised(c, cred, a, z, r)
              ==> (a', z', r') == Matching(c, other, Randomised(c, cred, a, z, r))
  {
    var view := Randomised(c, cred, a, z, r);
    forall a', z', r' | IsScalar(c.n, a') && IsScalar(c.n, z') && IsScalar(c.n, r')
      ensures Randomised(c, other, a', z', r') == view <==> (a', z', r') == Matching(c, other, view)
    {
      ScaleReaches(c.n, view.0, other.u, a');
      ShiftReaches(c.n, view.1, Red(c.n, other.uPrime * a'), r');
      ShiftReaches(c.n, view.2, view.0 * other.m1, z');
    }
    var (a1, z1, r1) := Matching(c, other, view);
    assert Randomised(c, other, a1, z1, r1) == view;
  }

  // ----- Tags

  /** The tag is the only element whose (m1 + nonce)-th multiple is the hashed context. */
  lemma TagIsDetermined(c: Suite, m1: int, context: seq<Byte>, nonce: int, tag: int)
    requires ValidSuite(c) && IsScalar(c.n, tag)
    requires Cong(c.n, tag * (m1 + nonce), c.hashToGroup(context))
    ensures Tag(c, m1, context, nonce) == Some(tag)
  {
    var n, k := c.n, m1 + nonce;
    RedOfScalar(n, c.hashToGroup(context));
    RedOfScalar(n, tag);
    hide Invert;
    NoZeroDivisors(n, tag, k);
    TagInverts(c, m1, context, nonce);
    var own := Tag(c, m1, context, nonce).value;
    assert tag * k == k * tag && own * k == k * own;
    Cancel(n, k, tag, own);
    RedOfScalar(n, own);
  }

  /** Two tags for one context coincide exactly when attribute plus nonce does. */
  lemma TagsCoincide(c: Suite, context: seq<Byte>, m1: int, nonce: int, m1': int, nonce': int)
    requires ValidSuite(c)
    requires Tag(c, m1, context, nonce).Some? && Tag(c, m1', context, nonce').Some?
    ensures Tag(c, m1, context, nonce) == Tag(c, m1', context, nonce') <==>
            Cong(c.n, m1 + nonce, m1' + nonce')
  {
    if Tag(c, m1, context, nonce) == Tag(c, m1', context, nonce') {
      var tag := Tag(c, m1, context, nonce).value;
      TagInverts(c, m1, context, nonce);
      TagInverts(c, m1', context, nonce');
      TagIsNonzero(c.n, c.hashToGroup(context), tag, m1 + nonce);
      Cancel(c.n, tag, m1 + nonce, m1' + nonce');
    }
  }

  /** One attribute has different tags for different 64-bit nonces. */
  lemma NoncesSeparateTags(c: Suite, context: seq<Byte>, m1: int, nonce: nat, nonce': nat)
    requires ValidSuite(c) && nonce < U64_LIMIT && nonce' < U64_LIMIT
    requires Tag(c, m1, context, nonce).Some?
    requires Tag(c, m1, context, nonce) == Tag(c, m1, context, nonce')
    ensures nonce == nonce'
  {
    RedOfScalar(c.n, nonce);
    RedOfScalar(c.n, nonce');
    TagsCoincide(c, context, m1, nonce, m1, nonce');
    CongAdd(c.n, m1 + nonce, m1 + nonce', m1, m1);
  }

  /** Some presentation with this tag is accepted below the limit, proved with m1 as the attribute. */
  ghost predicate AcceptableTag(c: Suite, sk: PrivateKey, m2: int, context: seq<Byte>, limit: nat, m1: int, tag: int)
    requires c.n > 1
  {
    exists p: Presentation, nonce: nat ::
      && IsPresentation(c.n, p) && p.tag == tag && p.proof.secrets.m1 == m1
      && Verify(c, p, sk, m2, context, nonce, limit) == Ok(true)
  }

  /** The tag of an accepted presentation is the one of its proved attribute and declared nonce. */
  lemma AcceptedTagIsOwn(c: Suite, sk: PrivateKey, m2: int, context: seq<Byte>, limit: nat, p: Presentation, nonce: nat)
    requires ValidSuite(c) && IsPresentation(c.n, p)
    requires Verify(c, p, sk, m2, context, nonce, limit) == Ok(true)
    ensures nonce < limit && Tag(c, p.proof.secrets.m1, context, nonce) == Some(p.tag)
  {
    hide Verify, Tag;
    AcceptedIffOpens(c, p, sk, m2, context, nonce, limit);
    TagIsDetermined(c, p.proof.secrets.m1, context, nonce, p.tag);
  }

  /** Two accepted presentations with one tag and context agree on attribute plus nonce: a replay shows. */
  lemma EqualTagsLinkPresentations(c: Suite, sk: PrivateKey, m2: int, m2': int, context: seq<Byte>, limit: nat,
                                   p: Presentation, nonce: nat, p': Presentation, nonce': nat)
    requires ValidSuite(c) && IsPresentation(c.n, p) && IsPresentation(c.n, p') && p.tag == p'.tag
    requires Verify(c, p, sk, m2, context, nonce, limit) == Ok(true)
    requires Verify(c, p', sk, m2', context, nonce', limit) == Ok(true)
    ensures Cong(c.n, p.proof.secrets.m1 + nonce, p'.proof.secrets.m1 + nonce')
    ensures p.proof.secrets.m1 == p'.proof.secrets.m1 && limit <= U64_LIMIT ==> nonce == nonce'
  {
    hide Tag, Verify;
    var m1, m1' := p.proof.secrets.m1, p'.proof.secrets.m1;
    AcceptedTagIsOwn(c, sk, m2, context, limit, p, nonce);
    AcceptedTagIsOwn(c, sk, m2', context, limit, p', nonce');
    TagsCoincide(c, context, m1, nonce, m1', nonce');
    if m1 == m1' && limit <= U64_LIMIT {
      NoncesSeparateTags(c, context, m1, nonce, nonce');
    }
  }

  /** The tags of one attribute and context, for the nonces below the limit. */
  ghost function TagsBelow(c: Suite, m1: int, context: seq<Byte>, limit: nat): set<int>
    requires c.n > 1
  {
    set k | 0 <= k < limit && Tag(c, m1, context, k).Some? :: Tag(c, m1, context, k).value
  }

  /** Conversely, a MAC on m1 exists and presents every tag below the limit. */
  lemma TagBelowIsAcceptable(c: Suite, sk: PrivateKey, m2: int, context: seq<Byte>, limit: nat, m1: int, nonce: nat)
    requires ValidSuite(c) && nonce < limit && Tag(c, m1, context, nonce).Some?
    ensures AcceptableTag(c, sk, m2, context, limit, m1, Tag(c, m1, context, nonce).value)
  {
    var n := c.n;
    var cred := Credential(m1, 1, Red(n, MacKey(sk, m1, m2) * 1), DerivePublicKey(c, sk).x1);
    var r := if cred.uPrime == 0 then 1 else 0;
    PresentationIsProved(c, cred, context, nonce, 1, 0, r);
    var p := Present(c, cred, context, nonce, 1, 0, r).value;
    assert p.u == 1 && p.uPrimeCommit != 0 by {
      RedOfScalar(n, 1);
      RedOfScalar(n, cred.uPrime * 1);
      RedOfScalar(n, cred.uPrime * 1 + G * r);
    }
    hide Verify;
    PresentationParts(c, cred, context, nonce, 1, 0, r);
    PresentationVerifiesIffMac(c, cred, sk, m2, context, nonce, limit, 1, 0, r);
    assert Verify(c, p, sk, m2, context, nonce, limit) == Ok(true);
  }

  lemma UninvertibleNonce(n: int, m1: int, k: int)
    requires IsScalar(n, k)
    ensures Red(n, m1 + k) == 0 <==> k == Red(n, -m1)
  {
    RedOfScalar(n, 0);
    RedOfScalar(n, k);
    RedIsCong(n, -m1);
    if Red(n, m1 + k) == 0 {
      CongAdd(n, m1 + k, 0, m1, m1);
    }
    if k == Red(n, -m1) {
      CongAdd(n, k, -m1, m1, m1);
    }
  }

  /** Distinct nonces give distinct tags, so there is one tag per nonce, less the one nonce that cancels m1. */
  lemma {:induction false} CountTags(c: Suite, m1: int, context: seq<Byte>, limit: nat)
    requires ValidSuite(c) && limit <= U64_LIMIT
    ensures |TagsBelow(c, m1, context, limit)| == limit - (if Red(c.n, -m1) < limit then 1 else 0)
  {
    hide Invert;
    if limit > 0 {
      var k := limit - 1;
      CountTags(c, m1, context, k);
      UninvertibleNonce(c.n, m1, k);
      var before, last := TagsBelow(c, m1, context, k), Tag(c, m1, context, k);
      if last.Some? {
        assert last.value !in before by {
          if last.value in before {
            var j :| 0 <= j < k && Tag(c, m1, context, j) == last;
            NoncesSeparateTags(c, context, m1, j, k);
          }
        }
        assert TagsBelow(c, m1, context, limit) == before + {last.value};
      } else {
        assert TagsBelow(c, m1, context, limit) == before;
      }
    }
  }

  /**
   Rate limiting, exactly: the tags acceptable for one attribute and context are finitely
   many, one for each nonce below the limit except the nonce that cancels the attribute.
   */
  lemma AcceptableTagsAreLimited(c: Suite, sk: PrivateKey, m2: int, context: seq<Byte>, limit: nat, m1: int)
    requires ValidSuite(c) && limit <= U64_LIMIT
    ensures forall tag :: tag in TagsBelow(c, m1, context, limit) <==> AcceptableTag(c, sk, m2, context, limit, m1, tag)
    ensures |TagsBelow(c, m1, context, limit)| == limit - (if Red(c.n, -m1) < limit then 1 else 0)
  {
    hide Invert, Tag, Verify;
    CountTags(c, m1, context, limit);
    forall tag
      ensures tag in TagsBelow(c, m1, context, limit) <==> AcceptableTag(c, sk, m2, context, limit, m1, tag)
    {
      if tag in TagsBelow(c, m1, context, limit) {
        var k: nat :| k < limit && Tag(c, m1, context, k) == Some(tag);
        TagBelowIsAcceptable(c, sk, m2, context, limit, m1, k);
      }
      if AcceptableTag(c, sk, m2, context, limit, m1, tag) {
        var p: Presentation, nonce: nat :|
          && IsPresentation(c.n, p) && p.tag == tag && p.proof.secrets.m1 == m1
          && Verify(c, p, sk, m2, context, nonce, limit) == Ok(true);
        AcceptedTagIsOwn(c, sk, m2, context, limit, p, nonce);
      }
    }
  }
}
