/** The four phases of the box-breathing cycle and their labels. */
module Phases {

  const PhaseCount := 4

  /** The phase tracker's labels, in cycle order. */
  const Labels: seq<string> := ["Inhale", "Hold", "Exhale", "Wait"]

  /** `getInstruction`: the label of a phase number, and the empty text
      for a number outside the cycle. */
  function Instruction(count: int): (text: string)
    ensures text != [] <==> 0 <= count < PhaseCount
    ensures 0 <= count < PhaseCount ==> text == Labels[count]
  {
    match count
    case 0 => "Inhale"
    case 1 => "Hold"
    case 2 => "Exhale"
    case 3 => "Wait"
    case _ => ""
  }

  /** Different phases are announced with different words. */
  lemma InstructionDistinct(i: int, j: int)
    requires 0 <= i < PhaseCount && 0 <= j < PhaseCount && i != j
    ensures Instruction(i) != Instruction(j)
  {
    assert Instruction(i)[0] != Instruction(j)[0] || |Instruction(i)| != |Instruction(j)|;
  }
}
