# Rabbit Escape: the Solution value type

A model of `rabbitescape.engine.solution.Solution` from the Rabbit Escape
engine. A solution is an identified, ordered list of instructions that
replays a level. The class has two final fields, `solutionId` and
`instructions`, which its constructor sets. It has three operations:

- `relFormat()` builds the compact text form. It joins the instructions'
  own texts with the instruction delimiter in a `StringBuilder` loop with a
  `first` flag.
- `equals(Object)` is order-sensitive structural equality.
- `hashCode()` agrees with that equality.

The model has three modules.

- `JavaRuntime` (`java_runtime.dfy`) holds what the class takes from the
  Java platform. `Int32` and `Wrap` give `int` arithmetic with two's-complement
  wrap-around. `DeepEquals` and `DeepHashCode` give `Arrays.deepEquals` and
  `Arrays.deepHashCode` on an array of non-null, non-array elements.
- `Delimited` (`delimited.dfy`) holds `Join`, the pure recursive join that
  specifies the `relFormat` loop, and the facts about it. It also holds
  `Split`, a cut at a one-character separator, which serves as the join's
  partner. Its lemmas state the structural facts that any reader of the text
  relies on.
- `Solutions` (`solution.dfy`) holds the class itself. The datatype
  `Solution(solutionId, instructions)` is the immutable object; its datatype
  constructor models the Java constructor (Solution.java lines 13-17).
  `RelFormat` is a method whose loop keeps the same `StringBuilder` and
  `first` flag as the source. `Equals`, `InstructionsArray` and `HashCode`
  model the rest, and lemmas state equality and hash consistency.

`Instruction` and `SolutionFactory` are not part of this model. The
instruction type is a type parameter. `InstructionOps` carries the three
members of `Instruction` that Solution calls: `relFormat()`, `equals` and
`hashCode()`. `SolutionFactory.INSTRUCTION_DELIMITER` is the `delimiter`
parameter of `RelFormat`. Lemmas that need more about these unseen members
say so in their `requires`. Examples are the `Object.equals` contract
(`IsEquivalence`), the `equals`/`hashCode` contract (`HashRespects`), and a
one-character delimiter that no instruction's text contains.

## Model

| member | source | states |
|---|---|---|
| `Solutions.RelFormat` | rabbit-escape-engine/src/rabbitescape/engine/solution/Solution.java:19-33 | the loop's text is exactly `Join` of the instruction texts with the delimiter; an empty list gives "" and a single instruction gives its own text with no delimiter |
| `Delimited.JoinSnoc` | rabbit-escape-engine/src/rabbitescape/engine/solution/Solution.java:23-30 | appending one instruction to a non-empty list adds exactly delimiter + its text; the earlier text stays a prefix |
| `Delimited.JoinConcat` | rabbit-escape-engine/src/rabbitescape/engine/solution/Solution.java:23-31 | joining two non-empty runs puts exactly one delimiter at the seam |
| `Delimited.JoinEnds` | rabbit-escape-engine/src/rabbitescape/engine/solution/Solution.java:22-31 | a non-empty text begins with the first instruction's text and ends with the last one's; no delimiter leads or trails |
| `Delimited.Pieces` | rabbit-escape-engine/src/rabbitescape/engine/solution/Solution.java:22-30 | n instructions give 2n-1 pieces: instruction texts at even positions, in order, and the delimiter at the n-1 odd positions |
| `Delimited.JoinIsConcatOfPieces` | rabbit-escape-engine/src/rabbitescape/engine/solution/Solution.java:22-30 | the joined text is the concatenation of those pieces, so the delimiter is written exactly n-1 times |
| `Delimited.SplitJoin` | rabbit-escape-engine/src/rabbitescape/engine/solution/Solution.java:21-32 | with a one-character delimiter absent from every instruction text, cutting the text at the delimiter gives back each instruction's text in order (at least one instruction) |
| `Delimited.JoinInjective` | rabbit-escape-engine/src/rabbitescape/engine/solution/Solution.java:21-32 | under the same delimiter condition, equal texts come only from equal lists of instruction texts, when both lists are non-empty or no instruction text is empty |
| `Delimited.BlankElementCollides` | rabbit-escape-engine/src/rabbitescape/engine/solution/Solution.java:21-32 | the empty list and a list of one instruction with an empty text give the same text "", which is why `JoinInjective` needs non-empty texts when one list may be empty |
| `JavaRuntime.Wrap` | rabbit-escape-engine/src/rabbitescape/engine/solution/Solution.java:69 | `int` addition wraps: the result is the `int` congruent to the exact sum modulo 2^32, and equals it when no overflow occurs |
| `JavaRuntime.DeepEquals` | rabbit-escape-engine/src/rabbitescape/engine/solution/Solution.java:56-57 | `Arrays.deepEquals` holds iff the lengths match and the elements are equal position by position |
| `JavaRuntime.DeepHashCodeRespectsDeepEquals` | rabbit-escape-engine/src/rabbitescape/engine/solution/Solution.java:69 | arrays that `deepEquals` calls equal have the same `deepHashCode`, when element `hashCode` agrees with element `equals` |
| `Solutions.Equals` | rabbit-escape-engine/src/rabbitescape/engine/solution/Solution.java:44-59 | false for null and for any non-Solution argument; otherwise true iff same id, same number of instructions and instructions equal in the same order |
| `Solutions.InstructionsArray` | rabbit-escape-engine/src/rabbitescape/engine/solution/Solution.java:61-64 | a new array with the same length as the instruction list, holding its elements in the same order |
| `Solutions.EqualsIsEquivalence` | rabbit-escape-engine/src/rabbitescape/engine/solution/Solution.java:44-59 | when the instructions' `equals` is an equivalence, Solution's `equals` is reflexive, symmetric and transitive |
| `Solutions.EqualsIsStructural` | rabbit-escape-engine/src/rabbitescape/engine/solution/Solution.java:53-58 | when instruction equality is value identity, two solutions are equal iff they have the same id and the same instruction sequence |
| `Solutions.ReorderingBreaksEquality` | rabbit-escape-engine/src/rabbitescape/engine/solution/Solution.java:53-58 | swapping two unequal instructions keeps the same multiset of instructions but gives a solution that is not equal to the original |
| `Solutions.HashCodeConsistent` | rabbit-escape-engine/src/rabbitescape/engine/solution/Solution.java:66-70 | equal solutions have equal hash codes, when instruction `hashCode` agrees with instruction `equals` |

## Left out

- `Solution.toString` (Solution.java lines 35-42): debug text built by `Util.join`, which is not part of this model.
- Decoding and any round trip through `SolutionFactory`: that class is not part of this model. The `Delimited` lemmas state only what the encoder guarantees to a reader.
- The value of `SolutionFactory.INSTRUCTION_DELIMITER` and the text format of `Instruction.relFormat()`: both are parameters. `Instruction` is not part of this model.
- Aliasing of the instruction list: the Java constructor keeps the caller's `List` by reference, so a later change to that list changes the solution. The model treats the instructions as an immutable sequence.
- Null: a null instruction list and null list elements are outside the model. With a null list `relFormat` and `hashCode` throw `NullPointerException`. `equals` throws only when its argument is a Solution with the same id and either list is null: a null or non-Solution argument, or a different id, gives false before any list is read. Null elements take their own cases in `Arrays.deepEquals` and `Arrays.deepHashCode`.
- `Solutions.Equals`: inherits the gap of `DeepEquals` below. With an instruction `equals` that is not reflexive, Java returns true for a solution compared with one holding the very same `Instruction` objects, where the model may return false.
- `JavaRuntime.DeepEquals`: does not model the reference-identity shortcut (`e1 == e2`) that `Arrays.deepEquals` tries before `equals`. That shortcut changes nothing when `equals` is reflexive, as the `Object.equals` contract requires.
- `Solutions.HashCode`: has no contract of its own. Its only promised property, agreement with `equals`, is stated by `HashCodeConsistent`.
- The world simulation, the Swing GitHub client and the Android activity: they are outside this value type (network I/O, UI and foreign calls).
