/**
 Anonymous rate-limited credentials: blinded request, issuance, unblinding,
 randomised presentation and verification of an algebraic MAC.

 The prime-order group is represented by exponents of its generator: a group element
 is a scalar, the generator G is 1, and the point `P * s` is the product of the two
 numbers. Every random draw of the protocol is a parameter. The noninteractive proof is
 ideal: it is made only from a witness of its statement, and verifies only for that
 statement and session.
 */
module Arc {
  import opened Options
  import opened PrimeField
  import opened LinearRelations

  const G := 1
  const U64_LIMIT := 0x1_0000_0000_0000_0000
  const MAX_PRESENTATIONS := 1000

  newtype Byte = x: int | 0 <= x < 256

  /** The group order, the second generator and the tag hash. */
  datatype Suite = Suite(n: int, h: int, hashToGroup: seq<Byte> -> int)

  ghost predicate ValidSuite(c: Suite) {
    && IsPrime(c.n)
    && c.n > U64_LIMIT
    && IsScalar(c.n, c.h) && c.h != 0
    && forall context :: IsScalar(c.n, c.hashToGroup(context)) && c.hashToGroup(context) != 0
  }

  datatype PrivateKey = PrivateKey(x0: int, x1: int, x2: int, x0Blinding: int)
  datatype PublicKey = PublicKey(x0: int, x1: int, x2: int)
  datatype ClientSecrets = ClientSecrets(m1: int, s: int, r1: int, r2: int)
  datatype Request = Request(m1CommitBlinded: int, x0Aux: int, x1Aux: int, x2Aux: int)
  datatype Response = Response(u: int, encUPrime: int, x0Aux: int, x1Aux: int, x2Aux: int)
  datatype Credential = Credential(m1: int, u: int, uPrime: int, x1: int)
  datatype Proof = Proof(statement: Statement, session: seq<Byte>, secrets: Witness)
  datatype Presentation =
    Presentation(u: int, uPrimeCommit: int, m1Commit: int, tag: int, m1Tag: int, t: int, proof: Proof)

  datatype Error = RateLimitExceeded(used: nat, max: nat) | CannotInvert | CannotProve | ProofRejected
  datatype Result<+T> = Ok(value: T) | Err(error: Error)

  // ----- The protocol

  function DerivePublicKey(c: Suite, sk: PrivateKey): PublicKey
    requires c.n > 1
  {
    PublicKey(Red(c.n, G * sk.x0Blinding + c.h * sk.x0), Red(c.n, G * sk.x1), Red(c.n, G * sk.x2))
  }

  function NewRequest(c: Suite, secrets: ClientSecrets, pk: PublicKey): Request
    requires c.n > 1
  {
    Request(Red(c.n, G * secrets.s + pk.x1 * secrets.m1), Red(c.n, G * secrets.r1), 0, 0)
  }

  /** Blinded issuance for the server attribute `m2`; `b` is the server's random scalar. */
  function Issue(c: Suite, request: Request, sk: PrivateKey, m2: int, b: int): Response
    requires c.n > 1
  {
    var p := Red(c.n, G * b);
    var blindQ := Red(c.n, request.m1CommitBlinded * b + p * Red(c.n, sk.x0 + m2 * sk.x2));
    Response(p, Red(c.n, blindQ + request.x0Aux), request.x0Aux, request.x1Aux, request.x2Aux)
  }

  /** The client's unblinding; `r` is its rerandomisation scalar. */
  function Unblind(c: Suite, response: Response, secrets: ClientSecrets, pk: PublicKey, r: int): Credential
    requires c.n > 1
  {
    var p := response.u;
    var blindQ := Red(c.n, response.encUPrime - response.x0Aux);
    var q := Red(c.n, (blindQ - p * secrets.s) * r);
    Credential(secrets.m1, Red(c.n, p * r), q, pk.x1)
  }

  /** The tag of a nonce, absent when m1 + nonce has no inverse. */
  function Tag(c: Suite, m1: int, context: seq<Byte>, nonce: int): Option<int>
    requires c.n > 1
  {
    match Invert(c.n, Red(c.n, m1 + nonce))
    case None => None
    case Some(inverse) => Some(Red(c.n, c.hashToGroup(context) * inverse))
  }

  /** The randomised part of a presentation: u, the commitment to u' and the commitment to m1. */
  function Randomised(c: Suite, cred: Credential, a: int, z: int, r: int): (int, int, int)
    requires c.n > 1
  {
    var u := Red(c.n, cred.u * a);
    (u, Red(c.n, Red(c.n, cred.uPrime * a) + G * r), Red(c.n, u * cred.m1 + G * z))
  }

  /** The statement that the prover proves: it computes V and T from its own secrets. */
  function ProverStatement(c: Suite, cred: Credential, u: int, m1Commit: int, tag: int, m1Tag: int,
                           nonce: int, z: int, r: int): Statement
    requires c.n > 1
  {
    Statement(u, cred.x1, G, c.h, tag, m1Commit, Red(c.n, cred.x1 * z - G * r), m1Tag,
              Red(c.n, tag * Red(c.n, cred.m1 + nonce)))
  }

  function Prove(n: int, s: Statement, session: seq<Byte>, w: Witness): Option<Proof>
    requires n > 0
  {
    if Related(n, s, w) then Some(Proof(s, session, w)) else None
  }

  predicate ProofHolds(n: int, s: Statement, session: seq<Byte>, proof: Proof)
    requires n > 0
  {
    proof.statement == s && proof.session == session && Related(n, s, proof.secrets)
  }

  /** The presentation for the random scalars `a`, `z` and `r`. */
  function Present(c: Suite, cred: Credential, context: seq<Byte>, nonce: int, a: int, z: int, r: int)
    : Result<Presentation>
    requires c.n > 1
  {
    match Tag(c, cred.m1, context, nonce)
    case None => Err(CannotInvert)
    case Some(tag) =>
      var (u, uPrimeCommit, m1Commit) := Randomised(c, cred, a, z, r);
      var m1Tag := Red(c.n, tag * cred.m1);
      var s := ProverStatement(c, cred, u, m1Commit, tag, m1Tag, nonce, z, r);
      match Prove(c.n, s, context, Witness(cred.m1, z, r, nonce))
      case None => Err(CannotProve)
      case Some(proof) => Ok(Presentation(u, uPrimeCommit, m1Commit, tag, m1Tag, c.hashToGroup(context), proof))
  }

  /** The statement that the verifier checks: it computes V and X1 from the private key. */
  function VerifierStatement(c: Suite, p: Presentation, sk: PrivateKey, m2: int): Statement
    requires c.n > 1
  {
    var v := Red(c.n, p.m1Commit * sk.x1 + p.u * sk.x0 + p.u * Red(c.n, sk.x2 * m2) - p.uPrimeCommit);
    Statement(p.u, Red(c.n, G * sk.x1), G, c.h, p.tag, p.m1Commit, v, p.m1Tag, p.t)
  }

  /** Server-side verification. */
  function Verify(c: Suite, p: Presentation, sk: PrivateKey, m2: int, context: seq<Byte>,
                  nonce: nat, limit: nat): Result<bool>
    requires c.n > 1
  {
    if nonce >= limit then Ok(false)
    else if p.u == 0 || p.uPrimeCommit == 0 then Ok(false)
    else if !ProofHolds(c.n, VerifierStatement(c, p, sk, m2), context, p.proof) then Err(ProofRejected)
    else
      var expectedT := c.hashToGroup(context);
      var expectedM1Tag := Red(c.n, expectedT - p.tag * nonce);
      if p.t != expectedT || p.m1Tag != expectedM1Tag then Ok(false) else Ok(true)
  }

  /** A credential together with its presentation counter. */
  class CredentialHolder {
    const credential: Credential
    const maxPresentations: nat
    var presentationsUsed: nat

    constructor (credential: Credential)
      ensures this.credential == credential
      ensures maxPresentations == 1000 && presentationsUsed == 0
    {
      this.credential := credential;
      maxPresentations := MAX_PRESENTATIONS;
      presentationsUsed := 0;
    }

    function Remaining(): nat
      reads this
    {
      if presentationsUsed <= maxPresentations then maxPresentations - presentationsUsed else 0
    }

    /** Spends one presentation exactly when one is left, the tag exists and the proof is made. */
    method CreatePresentation(c: Suite, context: seq<Byte>, nonce: nat, a: int, z: int, r: int)
      returns (result: Result<Presentation>)
      requires c.n > 1
      modifies this`presentationsUsed
      ensures old(Remaining()) == 0 ==>
                result == Err(RateLimitExceeded(old(presentationsUsed), maxPresentations))
      ensures old(Remaining()) > 0 ==> result == Present(c, credential, context, nonce, a, z, r)
      ensures Remaining() == old(Remaining()) - (if result.Ok? then 1 else 0)
    {
      if presentationsUsed >= maxPresentations {
        return Err(RateLimitExceeded(presentationsUsed, maxPresentations));
      }
      result := Present(c, credential, context, nonce, a, z, r);
      if result.Ok? {
        presentationsUsed := presentationsUsed + 1;
      }
    }
  }
}
