/** `rabbitescape.engine.solution.Solution`: an identified, ordered list of
    instructions, its compact text form, and its equality and hash code. */
module Solutions {
  import opened JavaRuntime
  import opened Delimited

  /** What Solution uses of the `Instruction` class, whose code is not part
      of this model: its own text form, `equals` and `hashCode`. */
  datatype InstructionOps<!I> = InstructionOps(
    relFormat: I -> string,
    equals: (I, I) -> bool,
    hashCode: I -> Int32)

  /** A solution: the final fields `solutionId` and `instructions`, as set
      by the constructor. */
  datatype Solution<I> = Solution(solutionId: Int32, instructions: seq<I>)

  /** The argument of `equals(Object)`: null, a Solution, or an object of
      any other class. */
  datatype JavaObject<I> = Null | SolutionObject(solution: Solution<I>) | OtherObject

  /** `relFormat()`: a `StringBuilder` and a `first` flag walk the
      instructions, putting the delimiter before every instruction but the
      first. The result is the pure join of the instruction texts. */
  method RelFormat<I>(s: Solution<I>, ops: InstructionOps<I>, delimiter: string)
    returns (text: string)
    ensures text == Join(ops.relFormat, delimiter, s.instructions)
    ensures |s.instructions| == 0 ==> text == ""
    ensures |s.instructions| == 1 ==> text == ops.relFormat(s.instructions[0])
  {
    var sb := "";
    var first := true;
    for k := 0 to |s.instructions|
      invariant first <==> k == 0
      invariant sb == Join(ops.relFormat, delimiter, s.instructions[..k])
    {
      var instruction := s.instructions[k];
      if !first {
        sb := sb + delimiter;
      }
      sb := sb + ops.relFormat(instruction);
      first := false;
      if k > 0 {
        assert s.instructions[..k + 1] == s.instructions[..k] + [instruction];
        JoinSnoc(ops.relFormat, delimiter, s.instructions[..k], instruction);
      }
    }
    assert s.instructions[..|s.instructions|] == s.instructions;
    text := sb;
  }

  /** `instructionsArray()`: a new array holding the instructions, with the
      same length and in the same order. */
  method InstructionsArray<I>(s: Solution<I>) returns (a: array<I>)
    ensures fresh(a)
    ensures a.Length == |s.instructions|
    ensures forall i :: 0 <= i < a.Length ==> a[i] == s.instructions[i]
  {
    var instructions := s.instructions;
    a := new I[|instructions|](i requires 0 <= i < |instructions| => instructions[i]);
  }

  /** `equals(Object)`: false for anything that is not a Solution; otherwise
      the same id and, compared position by position, equal instructions in
      arrays of the same length. */
  function Equals<I>(s: Solution<I>, other: JavaObject<I>, ops: InstructionOps<I>): (r: bool)
    ensures !other.SolutionObject? ==> !r
    ensures other.SolutionObject? ==>
      (r <==> var t := other.solution;
        && s.solutionId == t.solutionId
        && |s.instructions| == |t.instructions|
        && forall i :: 0 <= i < |s.instructions| ==> ops.equals(s.instructions[i], t.instructions[i]))
  {
    match other
    case SolutionObject(t) =>
      s.solutionId == t.solutionId && DeepEquals(s.instructions, t.instructions, ops.equals)
    case _ => false
  }

  /** `hashCode()`: the id plus the deep hash code of the instruction array,
      in `int` arithmetic. */
  function HashCode<I>(s: Solution<I>, ops: InstructionOps<I>): Int32
  {
    Wrap(s.solutionId + DeepHashCode(s.instructions, ops.hashCode))
  }

  /** The `Object.equals` contract for the instructions' own `equals`. */
  ghost predicate IsEquivalence<I(!new)>(eq: (I, I) -> bool)
  {
    && (forall a :: eq(a, a))
    && (forall a, b :: eq(a, b) ==> eq(b, a))
    && (forall a, b, c :: eq(a, b) && eq(b, c) ==> eq(a, c))
  }

  /** When the instructions' `equals` is an equivalence, so is Solution's:
      reflexive, symmetric and transitive. */
  lemma EqualsIsEquivalence<I(!new)>(s: Solution<I>, t: Solution<I>, u: Solution<I>, ops: InstructionOps<I>)
    requires IsEquivalence(ops.equals)
    ensures Equals(s, SolutionObject(s), ops)
    ensures Equals(s, SolutionObject(t), ops) ==> Equals(t, SolutionObject(s), ops)
    ensures Equals(s, SolutionObject(t), ops) && Equals(t, SolutionObject(u), ops) ==>
      Equals(s, SolutionObject(u), ops)
  {
    if Equals(s, SolutionObject(t), ops) && Equals(t, SolutionObject(u), ops) {
      forall i | 0 <= i < |s.instructions|
        ensures ops.equals(s.instructions[i], u.instructions[i])
      {
        assert ops.equals(s.instructions[i], t.instructions[i]);
        assert ops.equals(t.instructions[i], u.instructions[i]);
      }
    }
  }

  /** When instructions are equal exactly when they are the same value,
      Solution's `equals` is structural equality of id and instruction list. */
  lemma EqualsIsStructural<I>(s: Solution<I>, t: Solution<I>, ops: InstructionOps<I>)
    requires forall a, b :: ops.equals(a, b) <==> a == b
    ensures Equals(s, SolutionObject(t), ops) <==> s == t
  {
    if Equals(s, SolutionObject(t), ops) {
      assert s.instructions == t.instructions;
    }
  }

  /** Order is part of identity: exchanging two instructions that are not
      equal to each other gives a solution that is not equal to the
      original, although it holds the same instructions. */
  lemma ReorderingBreaksEquality<I>(s: Solution<I>, i: nat, j: nat, ops: InstructionOps<I>)
    requires i < j < |s.instructions|
    requires !ops.equals(s.instructions[i], s.instructions[j])
    ensures var xs := s.instructions;
      var swapped := xs[i := xs[j]][j := xs[i]];
      && multiset(swapped) == multiset(xs)
      && !Equals(s, SolutionObject(Solution(s.solutionId, swapped)), ops)
  {
    var xs := s.instructions;
    var swapped := xs[i := xs[j]][j := xs[i]];
    assert swapped[i] == xs[j];
  }

  /** Equal solutions have equal hash codes, provided the instructions'
      `hashCode` agrees with their `equals`. */
  lemma HashCodeConsistent<I(!new)>(s: Solution<I>, t: Solution<I>, ops: InstructionOps<I>)
    requires HashRespects(ops.equals, ops.hashCode)
    requires Equals(s, SolutionObject(t), ops)
    ensures HashCode(s, ops) == HashCode(t, ops)
  {
    DeepHashCodeRespectsDeepEquals(s.instructions, t.instructions, ops.equals, ops.hashCode);
  }
}
