/**
 * components/progress-bar.tsx: the five steps of the game, each shown done, current or pending
 * from its index and the current step, with a check mark or its number, and a connector after
 * every step but the last, highlighted when the step is done.
 */
module ProgressBar {
  import opened Wrappers

  const StepNames: seq<string> := ["Le Livre", "Double Mission", "La Carte", "L'Herboriste", "Finale"]

  datatype StepState = Done | Current | Pending
  datatype Badge = CheckMark | Number(n: int)

  function StateAt(index: int, currentStep: int): (s: StepState)
    ensures s == Done <==> index < currentStep
    ensures s == Current <==> index == currentStep
  {
    if index < currentStep then Done else if index == currentStep then Current else Pending
  }

  /** A done step shows a check mark, any other its one-based number */
  function BadgeAt(index: int, currentStep: int): (b: Badge)
    ensures b == CheckMark <==> StateAt(index, currentStep) == Done
    ensures b != CheckMark ==> b == Number(index + 1)
  {
    if index < currentStep then CheckMark else Number(index + 1)
  }

  /** The connector after a step: none after the last one, else whether it is highlighted */
  function ConnectorAt(index: int, currentStep: int): (c: Option<bool>)
    ensures c.Some? <==> index < |StepNames| - 1
    ensures c.Some? ==> (c.value <==> StateAt(index, currentStep) == Done)
  {
    if index < |StepNames| - 1 then Some(index < currentStep) else None
  }

  /** The states of the first n steps */
  function Row(n: nat, currentStep: int): (r: seq<StepState>)
    ensures |r| == n
  {
    seq(n, i => StateAt(i, currentStep))
  }

  /** The bar as drawn: one state per step */
  function States(currentStep: int): (r: seq<StepState>)
    ensures |r| == |StepNames| == 5
  {
    Row(|StepNames|, currentStep)
  }

  function Count(s: seq<StepState>, x: StepState): nat {
    if s == [] then 0 else Count(s[..|s| - 1], x) + (if s[|s| - 1] == x then 1 else 0)
  }

  function Clamp(c: int, lo: int, hi: int): int {
    if c < lo then lo else if c > hi then hi else c
  }

  lemma {:induction false} RowCounts(n: nat, currentStep: int)
    ensures Count(Row(n, currentStep), Done) == Clamp(currentStep, 0, n)
    ensures Count(Row(n, currentStep), Current) == if 0 <= currentStep < n then 1 else 0
  {
    if n > 0 {
      RowCounts(n - 1, currentStep);
      assert Row(n, currentStep)[..n - 1] == Row(n - 1, currentStep);
    }
  }

  /** With 0 <= currentStep < 5 exactly one step is current, the one at currentStep */
  lemma ExactlyOneCurrent(currentStep: int)
    requires 0 <= currentStep < |StepNames|
    ensures Count(States(currentStep), Current) == 1 && States(currentStep)[currentStep] == Current
  {
    RowCounts(|StepNames|, currentStep);
  }

  /** The done steps are the first currentStep ones, as many as fit in the bar */
  lemma DoneSteps(currentStep: int)
    ensures Count(States(currentStep), Done) == Clamp(currentStep, 0, 5)
    ensures forall i :: 0 <= i < 5 ==> (States(currentStep)[i] == Done <==> i < currentStep)
  {
    RowCounts(|StepNames|, currentStep);
  }
}
