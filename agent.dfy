/** The prompt rules of src/agent.py: detecting a request for a multi-legged
    robot and the chain-of-thought prompt built for one. */
module Agent {
  import opened Strings
  import opened Pieces

  /** The (count, word) pairs tried in order. */
  const LegCandidates: seq<(nat, string)> := [(4, "four"), (4, "4"), (6, "six"), (6, "6"), (8, "eight")]

  /** The words that mark a request as being about legs. */
  predicate MentionsLegs(lower: string) {
    Contains(lower, "leg") || Contains(lower, "legged") || Contains(lower, "quadruped") || Contains(lower, "hexapod")
  }

  /** A candidate fires when `str(n)` is in the raw prompt or its word is in
      the lower-cased prompt. */
  predicate CandidateFires(prompt: string, c: (nat, string)) {
    Contains(prompt, NatToString(c.0)) || Contains(Lower(prompt), c.1)
  }

  /** The loop over the candidates from index `i`, returning at the first one
      that fires while the prompt mentions legs. */
  function FirstLegMatch(prompt: string, i: nat): (r: (bool, nat))
    requires i <= |LegCandidates|
    ensures r.0 <==> r.1 > 0
    ensures r.0 ==> MentionsLegs(Lower(prompt))
    ensures r.0 ==> (exists j :: i <= j < |LegCandidates| && LegCandidates[j].0 == r.1
                                && CandidateFires(prompt, LegCandidates[j])
                                && forall k :: i <= k < j ==> !CandidateFires(prompt, LegCandidates[k]))
    ensures !r.0 && MentionsLegs(Lower(prompt)) ==>
              forall k :: i <= k < |LegCandidates| ==> !CandidateFires(prompt, LegCandidates[k])
    decreases |LegCandidates| - i
  {
    if i == |LegCandidates| then (false, 0)
    else if CandidateFires(prompt, LegCandidates[i]) && MentionsLegs(Lower(prompt)) then (true, LegCandidates[i].0)
    else FirstLegMatch(prompt, i + 1)
  }

  /** src/agent.py `is_multi_leg_request`. */
  function IsMultiLegRequest(prompt: string): (r: (bool, nat))
    ensures r.1 in {0, 4, 6, 8}
    ensures r.0 <==> r.1 > 0
    ensures !MentionsLegs(Lower(prompt)) ==> r == (false, 0)
  {
    FirstLegMatch(prompt, 0)
  }

  /** The count returned is that of the first candidate in list order that
      fires, when the prompt mentions legs; with no leg word the answer is
      always (False, 0). */
  lemma IsMultiLegRequestFirstMatch(prompt: string)
    ensures MentionsLegs(Lower(prompt)) && (exists k :: 0 <= k < |LegCandidates| && CandidateFires(prompt, LegCandidates[k]))
            ==> IsMultiLegRequest(prompt).0
    ensures IsMultiLegRequest(prompt).0 ==>
              exists j :: 0 <= j < |LegCandidates| && LegCandidates[j].0 == IsMultiLegRequest(prompt).1
                && CandidateFires(prompt, LegCandidates[j])
                && forall k :: 0 <= k < j ==> !CandidateFires(prompt, LegCandidates[k])
  {
  }

  /** "14 legs" asks for four legs: the digit test is a substring test. */
  lemma FourteenLegsIsFour()
    ensures IsMultiLegRequest("14 legs") == (true, 4)
  {
    var p := "14 legs";
    assert Lower(p) == p;
    assert OccursAt(p, 1, "4", false);
    ContainsAt(p, 1, "4");
    assert NatToString(4) == "4";
    assert OccursAt(p, 3, "leg", false);
    ContainsAt(p, 3, "leg");
    assert CandidateFires(p, LegCandidates[0]) && MentionsLegs(Lower(p));
  }

  /** "hexapod" alone names no count, so it is not a multi-leg request. */
  lemma HexapodAloneIsNotMultiLeg()
    ensures IsMultiLegRequest("hexapod") == (false, 0)
  {
    HexapodNamesNoCount();
  }

  lemma HexapodNamesNoCount()
    ensures forall k :: 0 <= k < |LegCandidates| ==> !CandidateFires("hexapod", LegCandidates[k])
  {
    var p := "hexapod";
    assert Lower(p) == p;
    assert NatToString(4) == "4" && NatToString(6) == "6" && NatToString(8) == "8";
    forall k | 0 <= k < |LegCandidates| ensures !CandidateFires(p, LegCandidates[k]) {
      if k == 0 {
        NotFiring(p, 4, "four", 0);
      } else if k == 1 {
        NotFiring(p, 4, "4", 0);
      } else if k == 2 {
        NotFiring(p, 6, "six", 0);
      } else if k == 3 {
        NotFiring(p, 6, "6", 0);
      } else {
        NotFiring(p, 8, "eight", 1);
      }
    }
  }

  /** A candidate does not fire on a lower-case prompt lacking its digits and
      a character of its word. */
  lemma NotFiring(p: string, n: nat, w: string, j: nat)
    requires Lower(p) == p && |NatToString(n)| == 1 && NatToString(n)[0] !in p
    requires j < |w| && w[j] !in p
    ensures !CandidateFires(p, (n, w))
  {
    NotContained(p, NatToString(n), 0);
    NotContained(p, w, j);
  }

  /** The angle of each leg: `i * (360 / n)` for `i` in `range(n)`. */
  function LegAngles(numLegs: nat): (r: seq<real>)
    requires numLegs > 0
    ensures |r| == numLegs
    ensures forall i :: 0 <= i < numLegs ==> r[i] == i as real * (360.0 / numLegs as real)
  {
    seq(numLegs, i requires 0 <= i < numLegs => i as real * (360.0 / numLegs as real))
  }

  /** The angles go round the body once: they start at 0, increase strictly
      and stay below 360. */
  lemma LegAnglesSpread(numLegs: nat)
    requires numLegs > 0
    ensures LegAngles(numLegs)[0] == 0.0
    ensures forall i, j :: 0 <= i < j < numLegs ==> LegAngles(numLegs)[i] < LegAngles(numLegs)[j]
    ensures forall i :: 0 <= i < numLegs ==> 0.0 <= LegAngles(numLegs)[i] < 360.0
  {
    var step := 360.0 / numLegs as real;
    assert step > 0.0;
    assert step * numLegs as real == 360.0;
    forall i, j | 0 <= i < j < numLegs ensures LegAngles(numLegs)[i] < LegAngles(numLegs)[j] {
      assert (j - i) as real * step > 0.0;
    }
    forall i | 0 <= i < numLegs ensures LegAngles(numLegs)[i] < 360.0 {
      assert (numLegs - i) as real * step > 0.0;
    }
  }

  /** The fixed text between the leg count and the angles. */
  const LegPromptIntro := "-legged robot.\n\nFIRST, calculate the angle for each leg: "

  /** The fixed text between the angles and the user's request. */
  const LegPromptSteps := " degrees.\nTHEN, for a cylindrical body of radius ~0.3m, compute (x,y) for each leg mount:\n  - angle_rad = angle_deg * pi/180\n  - x = 0.3 * cos(angle_rad)\n  - y = 0.3 * sin(angle_rad)\nFINALLY, generate the URDF XML with each leg at its computed (x, y, 0) offset.\n\nUser request: "

  /** src/agent.py `build_leg_prompt`: the instruction text with the leg count,
      the comma-separated angles and the user's request. The program calls it
      only with a positive count (it divides by the count). */
  function BuildLegPrompt(basePrompt: string, numLegs: nat): (r: Text)
    requires numLegs > 0
    ensures |r| > 1 && r[1] == Lit(NatToString(numLegs))
    ensures Numbers(r) == LegAngles(numLegs)
    ensures r[|r| - 1] == Lit(basePrompt)
  {
    var head := [Lit("You are generating a "), Lit(NatToString(numLegs)), Lit(LegPromptIntro)];
    var angles := JoinNums(LegAngles(numLegs), ", ");
    var tail := [Lit(LegPromptSteps), Lit(basePrompt)];
    LiteralsHaveNoNumbers(head);
    LiteralsHaveNoNumbers(tail[..1]);
    assert Numbers(tail) == Numbers(tail[..1]);
    NumbersAppend(head, angles);
    NumbersAppend(head + angles, tail);
    head + angles + tail
  }
}
