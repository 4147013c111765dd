/**
 The linear relation behind a presentation proof: a builder that allocates scalar and
 element variables and constrains elements to be linear combinations, and the four
 equations that it denotes for a presentation.
 */
module LinearRelations {
  import opened PrimeField

  /** The public elements of a presentation proof. */
  datatype Statement =
    Statement(u: int, x1: int, g: int, h: int, tag: int, m1Commit: int, v: int, m1Tag: int, t: int)

  datatype Witness = Witness(m1: int, z: int, r: int, nonce: int)

  /** The four constraints of a presentation. */
  predicate Related(n: int, s: Statement, w: Witness)
    requires n > 0
  {
    && Cong(n, s.m1Commit, w.m1 * s.u + w.z * s.g)
    && Cong(n, s.v, w.z * s.x1 - w.r * s.g)
    && Cong(n, s.t, w.m1 * s.tag + w.nonce * s.tag)
    && Cong(n, s.m1Tag, w.m1 * s.tag)
  }

  // ----- The builder

  /** `sign * scalar * element`, by variable index. */
  datatype Term = Term(sign: int, scalar: nat, element: nat)

  /** The element variable `target` equals the sum of the terms. */
  datatype Equation = Equation(target: nat, terms: seq<Term>)

  function Combine(terms: seq<Term>, scalars: seq<int>, elements: seq<int>): int
    requires forall t <- terms :: t.scalar < |scalars| && t.element < |elements|
  {
    if terms == [] then 0
    else
      terms[0].sign * (scalars[terms[0].scalar] * elements[terms[0].element])
      + Combine(terms[1..], scalars, elements)
  }

  predicate WellFormed(equations: seq<Equation>, scalarCount: nat, elementCount: nat) {
    forall e <- equations ::
      && e.target < elementCount
      && forall t <- e.terms :: t.scalar < scalarCount && t.element < elementCount
  }

  predicate Satisfied(n: int, equations: seq<Equation>, elements: seq<int>, scalars: seq<int>)
    requires n > 0 && WellFormed(equations, |scalars|, |elements|)
  {
    forall e <- equations :: Cong(n, elements[e.target], Combine(e.terms, scalars, elements))
  }

  class LinearRelation {
    var scalarCount: nat
    var elements: seq<int>
    var equations: seq<Equation>

    constructor ()
      ensures scalarCount == 0 && elements == [] && equations == []
    {
      scalarCount, elements, equations := 0, [], [];
    }

    ghost predicate Valid()
      reads this
    {
      WellFormed(equations, scalarCount, |elements|)
    }

    method AllocateScalars(count: nat) returns (first: nat)
      requires Valid()
      modifies this`scalarCount
      ensures Valid()
      ensures first == old(scalarCount) && scalarCount == old(scalarCount) + count
    {
      first := scalarCount;
      scalarCount := scalarCount + count;
    }

    method AllocateElements(count: nat) returns (first: nat)
      requires Valid()
      modifies this`elements
      ensures Valid()
      ensures first == |old(elements)| && elements == old(elements) + seq(count, _ => 0)
    {
      first := |elements|;
      elements := elements + seq(count, _ => 0);
    }

    method AllocateEq(terms: seq<Term>) returns (target: nat)
      requires Valid()
      requires forall t <- terms :: t.scalar < scalarCount && t.element < |elements|
      modifies this`elements, this`equations
      ensures Valid()
      ensures target == |old(elements)| && elements == old(elements) + [0]
      ensures equations == old(equations) + [Equation(target, terms)]
    {
      target := |elements|;
      elements := elements + [0];
      equations := equations + [Equation(target, terms)];
    }

    method SetElement(i: nat, value: int)
      requires Valid() && i < |elements|
      modifies this`elements
      ensures Valid() && elements == old(elements)[i := value]
    {
      elements := elements[i := value];
    }

    /** The variables and the four constraints, before any element is set. */
    method AllocatePresentation()
      requires Valid() && scalarCount == 0 && elements == [] && equations == []
      modifies this
      ensures Valid() && scalarCount == 4 && |elements| == 9
      ensures equations == PresentationEquations()
    {
      hide WellFormed;
      var m1 := AllocateScalars(4);
      var z, r, nonce := m1 + 1, m1 + 2, m1 + 3;
      var u := AllocateElements(5);
      var x1, g, h, tag := u + 1, u + 2, u + 3, u + 4;
      var m1Commit := AllocateEq([Term(1, m1, u), Term(1, z, g)]);
      var v := AllocateEq([Term(1, z, x1), Term(-1, r, g)]);
      var t := AllocateEq([Term(1, m1, tag), Term(1, nonce, tag)]);
      var m1Tag := AllocateEq([Term(1, m1, tag)]);
    }

    /** Prover and verifier set the same variables to their public elements. */
    method SetStatement(s: Statement)
      requires Valid() && |elements| == 9
      modifies this`elements
      ensures Valid() && elements == PublicElements(s)
    {
      SetElement(0, s.u);
      SetElement(1, s.x1);
      SetElement(2, s.g);
      SetElement(3, s.h);
      SetElement(4, s.tag);
      SetElement(5, s.m1Commit);
      SetElement(6, s.v);
      SetElement(8, s.m1Tag);
      SetElement(7, s.t);
    }
  }

  function PresentationEquations(): seq<Equation> {
    [ Equation(5, [Term(1, 0, 0), Term(1, 1, 2)]),
      Equation(6, [Term(1, 1, 1), Term(-1, 2, 2)]),
      Equation(7, [Term(1, 0, 4), Term(1, 3, 4)]),
      Equation(8, [Term(1, 0, 4)]) ]
  }

  function PublicElements(s: Statement): seq<int> {
    [s.u, s.x1, s.g, s.h, s.tag, s.m1Commit, s.v, s.t, s.m1Tag]
  }

  function WitnessVector(w: Witness): seq<int> {
    [w.m1, w.z, w.r, w.nonce]
  }

  lemma CombineOne(t: Term, scalars: seq<int>, elements: seq<int>)
    requires t.scalar < |scalars| && t.element < |elements|
    ensures Combine([t], scalars, elements) == t.sign * (scalars[t.scalar] * elements[t.element])
  {
    assert [t][1..] == [];
  }

  lemma CombineTwo(t: Term, t': Term, scalars: seq<int>, elements: seq<int>)
    requires t.scalar < |scalars| && t.element < |elements|
    requires t'.scalar < |scalars| && t'.element < |elements|
    ensures Combine([t, t'], scalars, elements)
         == t.sign * (scalars[t.scalar] * elements[t.element])
            + t'.sign * (scalars[t'.scalar] * elements[t'.element])
  {
    CombineOne(t', scalars, elements);
    assert [t, t'][1..] == [t'];
  }

  /** The relation that the builder produces denotes the four constraints. */
  lemma BuiltRelationDenotesConstraints(n: int, s: Statement, w: Witness)
    requires n > 0
    ensures Satisfied(n, PresentationEquations(), PublicElements(s), WitnessVector(w)) <==> Related(n, s, w)
  {
    var es, ws := PublicElements(s), WitnessVector(w);
    var eqs := PresentationEquations();
    assert eqs[0] in eqs && eqs[1] in eqs && eqs[2] in eqs && eqs[3] in eqs;
    CombineTwo(Term(1, 0, 0), Term(1, 1, 2), ws, es);
    CombineTwo(Term(1, 1, 1), Term(-1, 2, 2), ws, es);
    CombineTwo(Term(1, 0, 4), Term(1, 3, 4), ws, es);
    CombineOne(Term(1, 0, 4), ws, es);
  }

  /** What both the prover and the verifier hand to the proof system for a statement. */
  method BuildRelation(s: Statement) returns (relation: LinearRelation)
    ensures fresh(relation) && relation.Valid() && relation.scalarCount == 4 && |relation.elements| == 9
    ensures forall n, w :: n > 0 ==>
              (Satisfied(n, relation.equations, relation.elements, WitnessVector(w)) <==> Related(n, s, w))
  {
    relation := new LinearRelation();
    relation.AllocatePresentation();
    relation.SetStatement(s);
    forall n, w | n > 0
      ensures Satisfied(n, relation.equations, relation.elements, WitnessVector(w)) <==> Related(n, s, w)
    {
      BuiltRelationDenotesConstraints(n, s, w);
    }
  }
}
