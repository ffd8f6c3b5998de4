/** The three-step onboarding wizard: the global `onboardingStep`, the
    next/previous buttons and which buttons are visible on each step. */
module Onboarding {

  const FirstStep: int := 1
  const LastStep: int := 3

  /** Which of the prev, next and complete buttons are displayed. */
  datatype Visibility = Visibility(prev: bool, next: bool, complete: bool)

  /** `updateOnboardingUI`'s button rule. On a step of the wizard the
      complete button replaces the next button on the last step. */
  function Buttons(step: int): (v: Visibility)
    ensures v.prev <==> step > FirstStep
    ensures v.next <==> step < LastStep
    ensures v.complete <==> step == LastStep
    ensures FirstStep <= step <= LastStep ==> (v.next <==> !v.complete)
    ensures step == FirstStep ==> v == Visibility(false, true, false)
  {
    Visibility(step > FirstStep, step < LastStep, step == LastStep)
  }

  /** The `forEach` over the current step's required inputs: the step is
      valid when none of them is empty (an empty string is falsy). The
      loop visits every input, since each empty one is also highlighted. */
  method AllRequiredFilled(values: seq<string>) returns (isValid: bool)
    ensures isValid <==> forall i :: 0 <= i < |values| ==> values[i] != ""
  {
    isValid := true;
    var i := 0;
    while i < |values|
      invariant 0 <= i <= |values|
      invariant isValid <==> forall j :: 0 <= j < i ==> values[j] != ""
    {
      if values[i] == "" {
        isValid := false;
      }
      i := i + 1;
    }
  }

  class Wizard {
    var step: int

    ghost predicate Valid()
      reads this
    {
      FirstStep <= step <= LastStep
    }

    constructor ()
      ensures Valid() && step == FirstStep
    {
      step := FirstStep;
    }

    /** `nextOnboardingStep`: `requiredValues` are the values of the current
        step's required inputs. A failed validation (reported by
        `valid == false`, the source's error toast) keeps the step. */
    method Next(requiredValues: seq<string>) returns (valid: bool)
      requires Valid()
      modifies this
      ensures Valid()
      ensures valid <==> forall i :: 0 <= i < |requiredValues| ==> requiredValues[i] != ""
      ensures step == if valid && old(step) < LastStep then old(step) + 1 else old(step)
    {
      valid := AllRequiredFilled(requiredValues);
      if !valid {
        return;
      }
      if step < LastStep {
        step := step + 1;
      }
    }

    /** `prevOnboardingStep`. */
    method Prev()
      requires Valid()
      modifies this
      ensures Valid()
      ensures step == if old(step) > FirstStep then old(step) - 1 else old(step)
    {
      if step > FirstStep {
        step := step - 1;
      }
    }

    function Visible(): (v: Visibility)
      reads this
      requires Valid()
      ensures v.prev <==> step > FirstStep
      ensures v.next <==> step < LastStep
      ensures v.complete <==> step == LastStep
      ensures v.next != v.complete
    {
      Buttons(step)
    }
  }

  /** A client of the wizard: from the first step, two valid nexts reach the
      last step, where only prev and complete are visible; a third next and
      an invalid next both stay put, and prev goes back. */
  method WalkThrough(name: string, gender: string) returns (v: Visibility, back: Visibility)
    requires name != "" && gender != ""
    ensures v == Visibility(true, false, true)
    ensures back == Visibility(true, true, false)
  {
    var w := new Wizard();
    var ok := w.Next([name]);
    ok := w.Next([gender]);
    assert w.step == LastStep;
    ok := w.Next([""]);
    assert [""][0] == "";
    assert !ok && w.step == LastStep;
    ok := w.Next([]);
    assert ok && w.step == LastStep;
    v := w.Visible();
    w.Prev();
    back := w.Visible();
  }
}
