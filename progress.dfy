/**
  The step indicator: it looks the current step up among the capitalised
  step labels by lower-casing each label, and mounts exactly the panel of
  the current step.
 */
module Progress {
  import opened Types

  /** The labels of the stepper, in display order. */
  const StepLabels: seq<string> := ["Origin", "Destination", "Package"]

  /** The value a step has in the session. */
  function StepText(step: FormStep): string
  {
    match step
    case Origin => "origin"
    case Destination => "destination"
    case Package => "package"
  }

  /** Lower-cases one ASCII letter and leaves every other character alone. */
  function LowerChar(c: char): char
  {
    if 'A' <= c <= 'Z' then (c as int + 32) as char else c
  }

  /** String.prototype.toLowerCase on the ASCII letters the labels use. */
  function ToLower(s: string): (r: string)
    ensures |r| == |s|
    ensures forall i :: 0 <= i < |s| ==> r[i] == LowerChar(s[i])
  {
    if s == [] then [] else [LowerChar(s[0])] + ToLower(s[1..])
  }

  /** Array.prototype.findIndex for the label whose lower case is t: -1 when there is none. */
  function FindLabel(labels: seq<string>, t: string): (r: int)
    ensures -1 <= r < |labels|
    ensures r == -1 <==> forall i :: 0 <= i < |labels| ==> ToLower(labels[i]) != t
    ensures r >= 0 ==> ToLower(labels[r]) == t && forall i :: 0 <= i < r ==> ToLower(labels[i]) != t
  {
    if labels == [] then -1
    else if ToLower(labels[0]) == t then 0
    else
      var k := FindLabel(labels[1..], t);
      if k == -1 then -1 else k + 1
  }

  /** The index the stepper marks active. */
  function ActiveStepIndex(step: FormStep): (r: int)
    ensures -1 <= r < |StepLabels|
    ensures r >= 0 ==> ToLower(StepLabels[r]) == StepText(step)
  {
    FindLabel(StepLabels, StepText(step))
  }

  /** The ordinal of a step in the intake order. */
  function Ordinal(step: FormStep): nat
  {
    match step
    case Origin => 0
    case Destination => 1
    case Package => 2
  }

  lemma LowerOrigin()
    ensures ToLower(StepLabels[0]) == "origin"
  {
    assert StepLabels[0] == "Origin";
    var r := ToLower("Origin");
    LowerOriginLetters(r);
    assert r == [r[0], r[1], r[2], r[3], r[4], r[5]];
  }

  lemma LowerOriginLetters(r: string)
    requires r == ToLower("Origin")
    ensures |r| == 6 && r[0] == 'o' && r[1] == 'r' && r[2] == 'i' && r[3] == 'g' && r[4] == 'i' && r[5] == 'n'
  {
  }

  lemma LowerDestination()
    ensures ToLower(StepLabels[1]) == "destination"
  {
    assert StepLabels[1] == "Destination";
    var r := ToLower("Destination");
    LowerDestinationLetters(r);
    assert r == [r[0], r[1], r[2], r[3], r[4], r[5], r[6], r[7], r[8], r[9], r[10]];
  }

  lemma LowerDestinationLetters(r: string)
    requires r == ToLower("Destination")
    ensures |r| == 11 && r[0] == 'd' && r[1] == 'e' && r[2] == 's' && r[3] == 't' && r[4] == 'i' && r[5] == 'n' && r[6] == 'a' && r[7] == 't' && r[8] == 'i' && r[9] == 'o' && r[10] == 'n'
  {
  }

  lemma LowerPackage()
    ensures ToLower(StepLabels[2]) == "package"
  {
    assert StepLabels[2] == "Package";
    var r := ToLower("Package");
    LowerPackageLetters(r);
    assert r == [r[0], r[1], r[2], r[3], r[4], r[5], r[6]];
  }

  lemma LowerPackageLetters(r: string)
    requires r == ToLower("Package")
    ensures |r| == 7 && r[0] == 'p' && r[1] == 'a' && r[2] == 'c' && r[3] == 'k' && r[4] == 'a' && r[5] == 'g' && r[6] == 'e'
  {
  }

  /**
    Every step is found: the active index is the step's ordinal, so it is
    never -1, and the label found lower-cases to the step.
   */
  lemma ActiveStepIsOrdinal(step: FormStep)
    ensures ActiveStepIndex(step) == Ordinal(step)
    ensures 0 <= ActiveStepIndex(step) < |StepLabels|
    ensures ToLower(StepLabels[ActiveStepIndex(step)]) == StepText(step)
  {
    var labels := StepLabels;
    LowerOrigin();
    LowerDestination();
    LowerPackage();
    assert labels[1..] == ["Destination", "Package"] && labels[1..][1..] == ["Package"];
    match step
    case Origin =>
    case Destination =>
      assert "origin" != "destination";
      assert FindLabel(labels[1..], "destination") == 0;
    case Package =>
      assert "origin" != "package" && "destination" != "package";
      assert FindLabel(labels[1..][1..], "package") == 0;
      assert FindLabel(labels[1..], "package") == 1;
  }

  /** The active index follows the intake order. */
  lemma ActiveStepOrder(a: FormStep, b: FormStep)
    ensures ActiveStepIndex(a) < ActiveStepIndex(b) <==> Ordinal(a) < Ordinal(b)
    ensures ActiveStepIndex(a) == ActiveStepIndex(b) <==> a == b
  {
    ActiveStepIsOrdinal(a);
    ActiveStepIsOrdinal(b);
  }

  /** The panels mounted below the stepper: each is shown only on its own step. */
  function ShownPanels(current: FormStep): (r: seq<FormStep>)
    ensures forall s: FormStep :: s in r <==> s == current
    ensures |r| == 1
  {
    (if current == Origin then [Origin] else [])
    + (if current == Destination then [Destination] else [])
    + (if current == Package then [Package] else [])
  }
}
