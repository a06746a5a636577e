/** The rule functions of src/simulate.py around the PyBullet run: feedback
    suggestions from the run's metrics, the de-duplication of self-collision
    contacts, the terrain dispatch and the clamped motor target. The
    simulator itself is not part of this model; what it reports (contact
    points, link names, `math.sin` values) comes in as parameters. */
module Simulate {
  import opened Wrappers
  import opened Strings
  import Score

  // ---------------------------------------------------------------------------
  // generate_feedback_suggestions
  // ---------------------------------------------------------------------------

  /** The suggestions the rules can give; each is a dict with a "text" shown
      to the user and a "prompt" sent back to the generator. */
  datatype Suggestion =
    | TooUnstable | FallsOver | TiltsSignificantly | TooLow | Launched | SelfCollisions | Explodes
    | ShorterLegs | LongerLegs | Heavier | Lighter | WiderStance
  {
    /** The "text" of the dict. */
    function Text(): string {
      match this
      case TooUnstable => "Robot is unstable \U{2014} too much displacement"
      case FallsOver => "Robot falls over easily"
      case TiltsSignificantly => "Robot tilts significantly"
      case TooLow => "Robot is too low to the ground"
      case Launched => "Robot launched into the air"
      case SelfCollisions => "Self-collisions between robot parts"
      case Explodes => "Robot structure is unstable (explodes)"
      case ShorterLegs => "Make the legs shorter"
      case LongerLegs => "Make the legs longer"
      case Heavier => "Make it heavier and more sturdy"
      case Lighter => "Make it lighter and more agile"
      case WiderStance => "Widen the stance"
    }

    /** The "prompt" of the dict. */
    function Prompt(): string {
      match this
      case TooUnstable => "Make the robot more stable by widening the base and lowering the center of gravity"
      case FallsOver => "Make the robot more balanced \U{2014} widen the legs/wheels and lower the center of mass"
      case TiltsSignificantly => "Improve balance by adjusting leg positions for better weight distribution"
      case TooLow => "Make the legs longer so the robot sits higher off the ground"
      case Launched => "Reduce joint effort and fix joint limits to prevent the robot from launching itself"
      case SelfCollisions => "Increase spacing between links to eliminate self-collisions; move joints further apart"
      case Explodes => "Reduce joint effort values and fix joint limits to prevent the robot from flying apart"
      case ShorterLegs => "Make the legs shorter"
      case LongerLegs => "Make the legs longer"
      case Heavier => "Increase the mass and make the robot sturdier"
      case Lighter => "Decrease the mass and make the robot lighter"
      case WiderStance => "Widen the stance by moving legs further apart"
    }
  }

  /** The tweaks offered when no rule fires. */
  const Generic: seq<Suggestion> := [ShorterLegs, LongerLegs, Heavier, Lighter, WiderStance]

  /** The metrics dict: each key optional; `finalZ` is the "z" of
      "final_position" when that is a dict holding one. `otherKeys` counts the
      keys the rules do not read. */
  datatype FeedbackMetrics = FeedbackMetrics(
    displacement: Option<real>,
    tiltCos: Option<real>,
    finalZ: Option<real>,
    otherKeys: nat)
  {
    /** An empty dict is falsy. */
    predicate IsEmpty() {
      displacement.None? && tiltCos.None? && finalZ.None? && otherKeys == 0
    }
  }

  /** The diagnostics dict of the sanity check; a missing list reads as `[]`
      (an empty diagnostics dict then behaves like `None`). */
  datatype Diagnostics = Diagnostics(
    selfCollisionsInitial: seq<string>,
    selfCollisionsFinal: seq<string>,
    issues: seq<string>)

  /** `"unstable" in s["text"].lower()`. */
  predicate MentionsUnstable(s: Suggestion) {
    Contains(Lower(s.Text()), "unstable")
  }

  /** `any("unstable" in s["text"].lower() for s in suggestions)`. */
  predicate AnyUnstable(ss: seq<Suggestion>) {
    exists i :: 0 <= i < |ss| && MentionsUnstable(ss[i])
  }

  /** The same test by kind: the list holds one of the two suggestions whose
      text says "unstable" (`AnyUnstableKinds` proves the two agree). */
  predicate SaysUnstable(ss: seq<Suggestion>) {
    TooUnstable in ss || Explodes in ss
  }

  predicate MentionsExplosion(issue: string) {
    Contains(Lower(issue), "explod")
  }

  predicate AnyExplosion(issues: seq<string>) {
    exists i :: 0 <= i < |issues| && MentionsExplosion(issues[i])
  }

  /** The physics rules: displacement, tilt (two exclusive bands) and final
      height. */
  function PhysicsSuggestions(m: FeedbackMetrics): seq<Suggestion> {
    var displacement := m.displacement.GetOr(0.0);
    var tilt := m.tiltCos.GetOr(1.0);
    var z := m.finalZ.GetOr(0.0);
    (if displacement > 2.0 then [TooUnstable] else [])
    + (if tilt < 0.3 then [FallsOver] else if tilt < 0.7 then [TiltsSignificantly] else [])
    + (if z < 0.1 then [TooLow] else [])
    + (if z > 3.0 then [Launched] else [])
  }

  /** `initial or final`. */
  function SelfCollisionList(d: Diagnostics): seq<string> {
    if d.selfCollisionsInitial != [] then d.selfCollisionsInitial else d.selfCollisionsFinal
  }

  /** The suggestions before the explosion rule. */
  function BaseSuggestions(m: FeedbackMetrics, diagnostics: Option<Diagnostics>): seq<Suggestion> {
    PhysicsSuggestions(m)
    + (if diagnostics.Some? && SelfCollisionList(diagnostics.value) != [] then [SelfCollisions] else [])
  }

  /** What the rules produce, as a specification of the method below. */
  function FeedbackSpec(metrics: Option<FeedbackMetrics>, diagnostics: Option<Diagnostics>): seq<Suggestion> {
    if metrics.None? || metrics.value.IsEmpty() then []
    else
      var base := BaseSuggestions(metrics.value, diagnostics);
      var all := base + (if diagnostics.Some? && AnyExplosion(diagnostics.value.issues) && !SaysUnstable(base)
                         then [Explodes] else []);
      if all == [] then Generic else all
  }

  /** src/simulate.py `generate_feedback_suggestions`, step by step: each rule
      appends its suggestion; the explosion rule reads the list built so far. */
  method GenerateFeedbackSuggestions(metrics: Option<FeedbackMetrics>, diagnostics: Option<Diagnostics>)
    returns (suggestions: seq<Suggestion>)
    ensures suggestions == FeedbackSpec(metrics, diagnostics)
  {
    suggestions := [];
    if metrics.None? || metrics.value.IsEmpty() {
      return;
    }
    var m := metrics.value;
    suggestions := AddPhysicsIssues(m);
    if diagnostics.Some? {
      var d := diagnostics.value;
      var selfColls := if d.selfCollisionsInitial != [] then d.selfCollisionsInitial else d.selfCollisionsFinal;
      if selfColls != [] {
        suggestions := suggestions + [SelfCollisions];
      }
      assert suggestions == BaseSuggestions(m, diagnostics);
      suggestions := AddExplosion(suggestions, d.issues);
    } else {
      assert suggestions == BaseSuggestions(m, diagnostics) + [];
    }
    if suggestions == [] {
      suggestions := Generic;
    }
  }

  /** The physics rules of the same function, with the metrics' defaults. */
  method AddPhysicsIssues(m: FeedbackMetrics) returns (suggestions: seq<Suggestion>)
    ensures suggestions == PhysicsSuggestions(m)
  {
    var displacement := m.displacement.GetOr(0.0);
    var tilt := m.tiltCos.GetOr(1.0);
    var z := m.finalZ.GetOr(0.0);
    suggestions := [];
    if displacement > 2.0 {
      suggestions := suggestions + [TooUnstable];
    }
    if tilt < 0.3 {
      suggestions := suggestions + [FallsOver];
    } else if tilt < 0.7 {
      suggestions := suggestions + [TiltsSignificantly];
    }
    if z < 0.1 {
      suggestions := suggestions + [TooLow];
    }
    if z > 3.0 {
      suggestions := suggestions + [Launched];
    }
  }

  /** The explosion rule: one pass over the issues, appending the explosion
      suggestion at an issue mentioning one unless some suggestion already
      mentions "unstable" (which the first append makes true). */
  method AddExplosion(base: seq<Suggestion>, issues: seq<string>) returns (suggestions: seq<Suggestion>)
    ensures suggestions == base + (if AnyExplosion(issues) && !SaysUnstable(base) then [Explodes] else [])
  {
    suggestions := base;
    var i := 0;
    while i < |issues|
      invariant 0 <= i <= |issues|
      invariant suggestions == if AnyExplosion(issues[..i]) && !SaysUnstable(base) then base + [Explodes] else base
    {
      ExplosionStep(issues, i);
      if MentionsExplosion(issues[i]) {
        var unstable := HasUnstable(suggestions);
        if !unstable {
          suggestions := suggestions + [Explodes];
        }
      }
      i := i + 1;
    }
    assert issues[..|issues|] == issues;
    assert base + [] == base;
  }

  /** The `any(...)` scan over the suggestion texts. */
  method HasUnstable(ss: seq<Suggestion>) returns (found: bool)
    ensures found <==> SaysUnstable(ss)
  {
    found := false;
    var i := 0;
    while i < |ss|
      invariant 0 <= i <= |ss|
      invariant found <==> TooUnstable in ss[..i] || Explodes in ss[..i]
    {
      assert ss[..i + 1] == ss[..i] + [ss[i]];
      var mentions := TextSaysUnstable(ss[i]);
      if mentions {
        found := true;
      }
      i := i + 1;
    }
    assert ss[..i] == ss;
  }

  /** `"unstable" in s["text"].lower()` for one suggestion. */
  method TextSaysUnstable(s: Suggestion) returns (mentions: bool)
    ensures mentions <==> s == TooUnstable || s == Explodes
  {
    MentionsUnstableIff(s);
    mentions := Contains(Lower(s.Text()), "unstable");
  }

  /** One more issue: the prefix mentions an explosion exactly when the
      shorter prefix does or the new issue does. */
  lemma ExplosionStep(issues: seq<string>, i: nat)
    requires i < |issues|
    ensures AnyExplosion(issues[..i + 1]) <==> AnyExplosion(issues[..i]) || MentionsExplosion(issues[i])
  {
    assert issues[..i + 1][i] == issues[i];
    assert forall k :: 0 <= k < i ==> issues[..i + 1][k] == issues[..i][k];
  }

  /** The text test and the kind test agree on every list. */
  lemma AnyUnstableKinds(ss: seq<Suggestion>)
    ensures AnyUnstable(ss) <==> SaysUnstable(ss)
  {
    forall i | 0 <= i < |ss| ensures MentionsUnstable(ss[i]) <==> ss[i] == TooUnstable || ss[i] == Explodes {
      MentionsUnstableIff(ss[i]);
    }
  }

  /** Exactly two suggestions mention "unstable": the displacement one and
      the explosion one. */
  lemma MentionsUnstableIff(s: Suggestion)
    ensures MentionsUnstable(s) <==> s == TooUnstable || s == Explodes
  {
    match s
    case TooUnstable => TooUnstableMentions();
    case Explodes => ExplodesMentions();
    case FallsOver => FallsOverLacks();
    case TiltsSignificantly => TiltsSignificantlyLacks();
    case TooLow => TooLowLacks();
    case Launched => LaunchedLacks();
    case SelfCollisions => SelfCollisionsLacks();
    case ShorterLegs => ShorterLegsLacks();
    case LongerLegs => LongerLegsLacks();
    case Heavier => HeavierLacks();
    case Lighter => LighterLacks();
    case WiderStance => WiderStanceLacks();
  }

  /** `text` contains `"unstable"` in lower case at index `at`. */
  lemma UnstableAt(text: string, at: nat)
    requires at + 8 <= |text| && text[at..at + 8] == "unstable"
    ensures Contains(Lower(text), "unstable")
  {
    LowerSlice(text, at, at + 8);
    assert Lower("unstable") == "unstable";
    assert OccursAt(Lower(text), at, "unstable", false);
    ContainsAt(Lower(text), at, "unstable");
  }

  /** A text lacking one of the letters of "unstable" (in both cases) does
      not mention it. */
  lemma LacksUnstable(text: string, j: nat)
    requires j < 8 && "unstable"[j] !in text && ("unstable"[j] as int - 32) as char !in text
    ensures !Contains(Lower(text), "unstable")
  {
    LowerLacks(text, "unstable"[j]);
    NotContained(Lower(text), "unstable", j);
  }

  /** A suggestion whose text lacks the letter `c` of "unstable" at index
      `j`, and its capital `upper`, does not mention it. */
  lemma NotUnstableWithout(s: Suggestion, j: nat, c: char, upper: char)
    requires j < 8 && c == "unstable"[j] && upper as int == c as int - 32
    requires forall k :: 0 <= k < |s.Text()| ==> s.Text()[k] != c && s.Text()[k] != upper
    ensures !MentionsUnstable(s)
  {
    LacksUnstable(s.Text(), j);
  }

  lemma TooUnstableMentions()
    ensures MentionsUnstable(TooUnstable)
  {
    assert TooUnstable.Text()[..17] == "Robot is unstable";
    UnstableAt(TooUnstable.Text(), 9);
  }

  lemma ExplodesMentions()
    ensures MentionsUnstable(Explodes)
  {
    assert Explodes.Text()[..27] == "Robot structure is unstable";
    UnstableAt(Explodes.Text(), 19);
  }

  lemma FallsOverLacks() ensures !MentionsUnstable(FallsOver)
  { NotUnstableWithout(FallsOver, 0, 'u', 'U'); }

  lemma TiltsSignificantlyLacks() ensures !MentionsUnstable(TiltsSignificantly)
  { NotUnstableWithout(TiltsSignificantly, 0, 'u', 'U'); }

  lemma TooLowLacks() ensures !MentionsUnstable(TooLow)
  { NotUnstableWithout(TooLow, 4, 'a', 'A'); }

  lemma LaunchedLacks() ensures !MentionsUnstable(Launched)
  { NotUnstableWithout(Launched, 2, 's', 'S'); }

  lemma SelfCollisionsLacks() ensures !MentionsUnstable(SelfCollisions)
  { NotUnstableWithout(SelfCollisions, 0, 'u', 'U'); }

  lemma ShorterLegsLacks() ensures !MentionsUnstable(ShorterLegs)
  { NotUnstableWithout(ShorterLegs, 0, 'u', 'U'); }

  lemma LongerLegsLacks() ensures !MentionsUnstable(LongerLegs)
  { NotUnstableWithout(LongerLegs, 0, 'u', 'U'); }

  lemma HeavierLacks() ensures !MentionsUnstable(Heavier)
  { NotUnstableWithout(Heavier, 5, 'b', 'B'); }

  lemma LighterLacks() ensures !MentionsUnstable(Lighter)
  { NotUnstableWithout(Lighter, 0, 'u', 'U'); }

  lemma WiderStanceLacks() ensures !MentionsUnstable(WiderStance)
  { NotUnstableWithout(WiderStance, 0, 'u', 'U'); }

  /** The base list mentions "unstable" exactly when the displacement rule
      fired. */
  lemma BaseUnstableIff(m: FeedbackMetrics, diagnostics: Option<Diagnostics>)
    ensures AnyUnstable(BaseSuggestions(m, diagnostics)) <==> m.displacement.GetOr(0.0) > 2.0
  {
    AnyUnstableKinds(BaseSuggestions(m, diagnostics));
    BaseSaysUnstable(m, diagnostics);
  }

  lemma BaseSaysUnstable(m: FeedbackMetrics, diagnostics: Option<Diagnostics>)
    ensures SaysUnstable(BaseSuggestions(m, diagnostics)) <==> m.displacement.GetOr(0.0) > 2.0
  {
  }

  /** Falsy metrics give no suggestions; truthy metrics always give some. */
  lemma FeedbackEmptyIffNoMetrics(metrics: Option<FeedbackMetrics>, diagnostics: Option<Diagnostics>)
    ensures FeedbackSpec(metrics, diagnostics) == [] <==> metrics.None? || metrics.value.IsEmpty()
  {
  }

  /** When no rule fires the result is exactly the five generic tweaks. */
  lemma GenericWhenNothingFires(m: FeedbackMetrics, diagnostics: Option<Diagnostics>)
    requires !m.IsEmpty()
    requires BaseSuggestions(m, diagnostics) == []
    requires diagnostics.None? || !AnyExplosion(diagnostics.value.issues)
    ensures FeedbackSpec(Some(m), diagnostics) == Generic
  {
  }

  /** "Falls over" and "tilts significantly" are never both given. */
  lemma TiltBandsExclusive(metrics: Option<FeedbackMetrics>, diagnostics: Option<Diagnostics>)
    ensures !(FallsOver in FeedbackSpec(metrics, diagnostics) && TiltsSignificantly in FeedbackSpec(metrics, diagnostics))
  {
    if FallsOver in FeedbackSpec(metrics, diagnostics) && TiltsSignificantly in FeedbackSpec(metrics, diagnostics) {
      FromBase(metrics, diagnostics, FallsOver);
      FromBase(metrics, diagnostics, TiltsSignificantly);
      TiltBands(metrics.value, diagnostics);
    }
  }

  /** A suggestion of the feedback other than the explosion one and the
      generic tweaks comes from the base rules. */
  lemma FromBase(metrics: Option<FeedbackMetrics>, diagnostics: Option<Diagnostics>, x: Suggestion)
    requires x in FeedbackSpec(metrics, diagnostics) && x != Explodes && x !in Generic
    ensures metrics.Some? && x in BaseSuggestions(metrics.value, diagnostics)
  {
  }

  /** Each tilt suggestion is given only in its own band. */
  lemma TiltBands(m: FeedbackMetrics, diagnostics: Option<Diagnostics>)
    ensures FallsOver in BaseSuggestions(m, diagnostics) ==> m.tiltCos.GetOr(1.0) < 0.3
    ensures TiltsSignificantly in BaseSuggestions(m, diagnostics) ==> m.tiltCos.GetOr(1.0) >= 0.3
  {
  }

  /** The explosion suggestion appears at most once, and never after the
      displacement rule has reported the robot unstable. */
  lemma ExplosionAtMostOnce(metrics: Option<FeedbackMetrics>, diagnostics: Option<Diagnostics>)
    requires metrics.Some? && !metrics.value.IsEmpty()
    ensures forall i, j :: 0 <= i < j < |FeedbackSpec(metrics, diagnostics)| ==>
              !(FeedbackSpec(metrics, diagnostics)[i] == Explodes == FeedbackSpec(metrics, diagnostics)[j])
    ensures metrics.value.displacement.GetOr(0.0) > 2.0 ==> Explodes !in FeedbackSpec(metrics, diagnostics)
  {
  }

  /** With only unread keys present, the defaults (displacement 0, tilt 1.0,
      height 0) make exactly the "too low" rule fire. */
  lemma MissingKeysGiveTooLow(otherKeys: nat)
    requires otherKeys > 0
    ensures FeedbackSpec(Some(FeedbackMetrics(None, None, None, otherKeys)), None) == [TooLow]
  {
  }

  // ---------------------------------------------------------------------------
  // _check_self_collisions: the pair filter
  // ---------------------------------------------------------------------------

  /** The unordered pair of two link indices. */
  function PairKey(a: int, b: int): (int, int) {
    if a <= b then (a, b) else (b, a)
  }

  /** Links one index apart (parent and child) touch by design. */
  predicate Adjacent(a: int, b: int) {
    -1 <= a - b <= 1
  }

  /** The contacts reported, as (link A, link B) in their original order: the
      first contact of each unordered non-adjacent pair not yet in `seen`. */
  function FirstSeenPairs(contacts: seq<(int, int)>, seen: set<(int, int)>): (r: seq<(int, int)>)
    ensures forall i :: 0 <= i < |r| ==> !Adjacent(r[i].0, r[i].1) && r[i] in contacts
    ensures forall i :: 0 <= i < |r| ==> PairKey(r[i].0, r[i].1) !in seen
    decreases |contacts|
  {
    if contacts == [] then []
    else
      var (a, b) := contacts[0];
      var rest := contacts[1..];
      if Adjacent(a, b) || PairKey(a, b) in seen then FirstSeenPairs(rest, seen)
      else [(a, b)] + FirstSeenPairs(rest, seen + {PairKey(a, b)})
  }

  predicate DistinctPairs(r: seq<(int, int)>) {
    forall i, j :: 0 <= i < j < |r| ==> PairKey(r[i].0, r[i].1) != PairKey(r[j].0, r[j].1)
  }

  /** No unordered pair is reported twice. */
  lemma {:induction false} FirstSeenPairsDistinct(contacts: seq<(int, int)>, seen: set<(int, int)>)
    ensures DistinctPairs(FirstSeenPairs(contacts, seen))
    decreases |contacts|
  {
    if contacts != [] {
      var (a, b) := contacts[0];
      var rest := contacts[1..];
      if Adjacent(a, b) || PairKey(a, b) in seen {
        assert FirstSeenPairs(contacts, seen) == FirstSeenPairs(rest, seen);
        FirstSeenPairsDistinct(rest, seen);
      } else {
        var tail := FirstSeenPairs(rest, seen + {PairKey(a, b)});
        FirstSeenPairsDistinct(rest, seen + {PairKey(a, b)});
        var r := [(a, b)] + tail;
        assert FirstSeenPairs(contacts, seen) == r;
        forall i, j | 0 <= i < j < |r| ensures PairKey(r[i].0, r[i].1) != PairKey(r[j].0, r[j].1) {
          assert r[j] == tail[j - 1];
          assert PairKey(tail[j - 1].0, tail[j - 1].1) !in seen + {PairKey(a, b)};
          if i > 0 {
            assert r[i] == tail[i - 1];
          }
        }
      }
    }
  }

  /** Every non-adjacent contact's pair is reported, unless already seen. */
  lemma {:induction false} FirstSeenPairsComplete(contacts: seq<(int, int)>, seen: set<(int, int)>, k: nat)
    requires k < |contacts| && !Adjacent(contacts[k].0, contacts[k].1)
    ensures var r := FirstSeenPairs(contacts, seen);
            PairKey(contacts[k].0, contacts[k].1) in seen
            || exists i :: 0 <= i < |r| && PairKey(r[i].0, r[i].1) == PairKey(contacts[k].0, contacts[k].1)
    decreases |contacts|
  {
    var (a, b) := contacts[0];
    var rest := contacts[1..];
    var key := PairKey(contacts[k].0, contacts[k].1);
    if k == 0 {
      if PairKey(a, b) !in seen {
        assert FirstSeenPairs(contacts, seen)[0] == (a, b);
      }
    } else if Adjacent(a, b) || PairKey(a, b) in seen {
      assert rest[k - 1] == contacts[k];
      assert FirstSeenPairs(contacts, seen) == FirstSeenPairs(rest, seen);
      FirstSeenPairsComplete(rest, seen, k - 1);
    } else {
      var seen' := seen + {PairKey(a, b)};
      assert rest[k - 1] == contacts[k];
      FirstSeenPairsComplete(rest, seen', k - 1);
      var tail := FirstSeenPairs(rest, seen');
      var r := [(a, b)] + tail;
      assert FirstSeenPairs(contacts, seen) == r;
      if key == PairKey(a, b) {
        assert r[0] == (a, b);
      } else if key !in seen {
        var i :| 0 <= i < |tail| && PairKey(tail[i].0, tail[i].1) == key;
        assert r[i + 1] == tail[i];
      }
    }
  }

  /** The reports keep the contacts' order and orientation: each reported pair
      is the contact at a position of `contacts`, these positions increase,
      and no earlier contact has the same unordered pair. */
  lemma {:induction false} FirstSeenPairsInOrder(contacts: seq<(int, int)>, seen: set<(int, int)>) returns (pos: seq<nat>)
    ensures var r := FirstSeenPairs(contacts, seen);
            && |pos| == |r|
            && (forall i :: 0 <= i < |pos| ==> pos[i] < |contacts| && contacts[pos[i]] == r[i])
            && (forall i, j :: 0 <= i < j < |pos| ==> pos[i] < pos[j])
            && (forall i, k :: 0 <= i < |pos| && 0 <= k < pos[i] ==>
                  PairKey(contacts[k].0, contacts[k].1) != PairKey(r[i].0, r[i].1))
    decreases |contacts|
  {
    if contacts == [] {
      pos := [];
    } else {
      var (a, b) := contacts[0];
      var rest := contacts[1..];
      if Adjacent(a, b) || PairKey(a, b) in seen {
        var tail := FirstSeenPairsInOrder(rest, seen);
        var r := FirstSeenPairs(rest, seen);
        assert FirstSeenPairs(contacts, seen) == r;
        forall i | 0 <= i < |r| ensures PairKey(r[i].0, r[i].1) != PairKey(a, b) {
          SameKeySameAdjacency(r[i].0, r[i].1, a, b);
        }
        pos := EarlierPositions(contacts, r, tail);
      } else {
        var seen' := seen + {PairKey(a, b)};
        var tail := FirstSeenPairsInOrder(rest, seen');
        var r := FirstSeenPairs(rest, seen');
        assert FirstSeenPairs(contacts, seen) == [(a, b)] + r;
        pos := EarlierPositions(contacts, r, tail);
        pos := FirstPosition(contacts, r, pos);
      }
    }
  }

  /** Each report is the first contact of its pair, at increasing positions. */
  ghost predicate FirstPositions(contacts: seq<(int, int)>, r: seq<(int, int)>, pos: seq<nat>) {
    && |pos| == |r|
    && (forall i :: 0 <= i < |pos| ==> pos[i] < |contacts| && contacts[pos[i]] == r[i])
    && (forall i, j :: 0 <= i < j < |pos| ==> pos[i] < pos[j])
    && (forall i, k :: 0 <= i < |pos| && 0 <= k < pos[i] ==>
          PairKey(contacts[k].0, contacts[k].1) != PairKey(r[i].0, r[i].1))
  }

  /** Positions in the tail, moved one place on, are positions in the whole
      list when the head's pair is not among the reports. */
  lemma EarlierPositions(contacts: seq<(int, int)>, r: seq<(int, int)>, tail: seq<nat>) returns (pos: seq<nat>)
    requires contacts != [] && FirstPositions(contacts[1..], r, tail)
    requires forall i :: 0 <= i < |r| ==> PairKey(r[i].0, r[i].1) != PairKey(contacts[0].0, contacts[0].1)
    ensures FirstPositions(contacts, r, pos)
    ensures forall i :: 0 <= i < |pos| ==> pos[i] >= 1
  {
    pos := seq(|tail|, i requires 0 <= i < |tail| => tail[i] + 1);
    forall i, k | 0 <= i < |pos| && 0 <= k < pos[i]
      ensures PairKey(contacts[k].0, contacts[k].1) != PairKey(r[i].0, r[i].1)
    {
      if k > 0 {
        assert contacts[k] == contacts[1..][k - 1];
      }
    }
  }

  /** Reporting the head contact first puts position 0 in front. */
  lemma FirstPosition(contacts: seq<(int, int)>, r: seq<(int, int)>, tail: seq<nat>) returns (pos: seq<nat>)
    requires contacts != [] && FirstPositions(contacts, r, tail)
    requires forall i :: 0 <= i < |tail| ==> tail[i] >= 1
    ensures FirstPositions(contacts, [contacts[0]] + r, pos)
  {
    pos := [0] + tail;
    var r' := [contacts[0]] + r;
    forall i | 1 <= i < |pos| ensures pos[i] < |contacts| && contacts[pos[i]] == r'[i] {
      assert pos[i] == tail[i - 1] && r'[i] == r[i - 1];
    }
    forall i, j | 0 <= i < j < |pos| ensures pos[i] < pos[j] {
      if i > 0 {
        assert pos[i] == tail[i - 1] && pos[j] == tail[j - 1];
      }
    }
    forall i, k | 0 <= i < |pos| && 0 <= k < pos[i]
      ensures PairKey(contacts[k].0, contacts[k].1) != PairKey(r'[i].0, r'[i].1)
    {
      assert pos[i] == tail[i - 1] && r'[i] == r[i - 1];
    }
  }

  /** Adjacency depends only on the unordered pair. */
  lemma SameKeySameAdjacency(a: int, b: int, c: int, d: int)
    ensures PairKey(a, b) == PairKey(c, d) ==> (Adjacent(a, b) <==> Adjacent(c, d))
  {
  }


  /** `"base"` for index -1 (any negative index), else the link's name. */
  function LinkLabel(index: int, linkName: nat -> string): string {
    if index >= 0 then linkName(index) else "base"
  }

  /** `f"{name_a}<->{name_b}"` for each reported contact. */
  function Describe(pairs: seq<(int, int)>, linkName: nat -> string): (r: seq<string>)
    ensures |r| == |pairs|
  {
    seq(|pairs|, i requires 0 <= i < |pairs| => LinkLabel(pairs[i].0, linkName) + "<->" + LinkLabel(pairs[i].1, linkName))
  }

  /** src/simulate.py `_check_self_collisions` after the contact query:
      `contacts` are the (linkIndexA, linkIndexB) of the contact points in
      order and `linkName` is the name PyBullet reports for a link index. */
  method CheckSelfCollisions(contacts: seq<(int, int)>, linkName: nat -> string) returns (collisions: seq<string>)
    ensures collisions == Describe(FirstSeenPairs(contacts, {}), linkName)
  {
    collisions := [];
    if contacts == [] {
      return;
    }
    var seen: set<(int, int)> := {};
    ghost var reported: seq<(int, int)> := [];
    var i := 0;
    assert contacts[0..] == contacts;
    while i < |contacts|
      invariant 0 <= i <= |contacts|
      invariant reported + FirstSeenPairs(contacts[i..], seen) == FirstSeenPairs(contacts, {})
      invariant collisions == Describe(reported, linkName)
    {
      var (a, b) := contacts[i];
      ReportStep(contacts, i, seen, reported, FirstSeenPairs(contacts, {}));
      if !Adjacent(a, b) && PairKey(a, b) !in seen {
        seen := seen + {PairKey(a, b)};
        var nameA := LinkLabel(a, linkName);
        var nameB := LinkLabel(b, linkName);
        DescribeAppend(reported, (a, b), linkName);
        collisions := collisions + [nameA + "<->" + nameB];
        reported := reported + [(a, b)];
      }
      i := i + 1;
    }
    assert contacts[|contacts|..] == [];
  }

  /** The loop's invariant carried past contact `i`. */
  lemma ReportStep(contacts: seq<(int, int)>, i: nat, seen: set<(int, int)>, reported: seq<(int, int)>,
                   total: seq<(int, int)>)
    requires i < |contacts| && reported + FirstSeenPairs(contacts[i..], seen) == total
    ensures var (a, b) := contacts[i];
            if Adjacent(a, b) || PairKey(a, b) in seen then reported + FirstSeenPairs(contacts[i + 1..], seen) == total
            else (reported + [(a, b)]) + FirstSeenPairs(contacts[i + 1..], seen + {PairKey(a, b)}) == total
  {
    var (a, b) := contacts[i];
    FirstSeenPairsStep(contacts, i, seen);
    if !(Adjacent(a, b) || PairKey(a, b) in seen) {
      var rest := FirstSeenPairs(contacts[i + 1..], seen + {PairKey(a, b)});
      assert (reported + [(a, b)]) + rest == reported + ([(a, b)] + rest);
    }
  }

  /** One step of the filter, from position `i` of the contacts. */
  lemma FirstSeenPairsStep(contacts: seq<(int, int)>, i: nat, seen: set<(int, int)>)
    requires i < |contacts|
    ensures var (a, b) := contacts[i];
            FirstSeenPairs(contacts[i..], seen)
            == if Adjacent(a, b) || PairKey(a, b) in seen then FirstSeenPairs(contacts[i + 1..], seen)
               else [(a, b)] + FirstSeenPairs(contacts[i + 1..], seen + {PairKey(a, b)})
  {
    assert contacts[i..][0] == contacts[i] && contacts[i..][1..] == contacts[i + 1..];
  }

  lemma DescribeAppend(pairs: seq<(int, int)>, pair: (int, int), linkName: nat -> string)
    ensures Describe(pairs + [pair], linkName)
            == Describe(pairs, linkName) + [LinkLabel(pair.0, linkName) + "<->" + LinkLabel(pair.1, linkName)]
  {
  }


  // ---------------------------------------------------------------------------
  // _load_terrain
  // ---------------------------------------------------------------------------

  datatype Terrain = Flat | Uneven | Stairs | Slope

  /** The loader `_load_terrain` dispatches to: the mode lower-cased, with
      `None`, `""` and unknown modes going to the flat loader. */
  function LoadTerrain(mode: Option<string>): (t: Terrain)
    ensures mode.None? || mode == Some("") ==> t == Flat
    ensures forall u :: u != Flat ==> (t == u <==> mode.Some? && Lower(mode.value) == TerrainName(u))
  {
    var m := Lower(if mode.None? || mode.value == "" then "flat" else mode.value);
    if m == "uneven" then Uneven
    else if m == "stairs" then Stairs
    else if m == "slope" then Slope
    else Flat
  }

  /** The spawn height each loader returns. */
  function SpawnHeight(t: Terrain): (h: real)
    ensures h >= 0.6
  {
    match t
    case Flat => 1.0
    case Uneven => 1.2
    case Stairs => 0.6
    case Slope => 1.0
  }

  /** The name of each terrain in `TERRAIN_MODES`. */
  function TerrainName(t: Terrain): string {
    match t
    case Flat => "flat"
    case Uneven => "uneven"
    case Stairs => "stairs"
    case Slope => "slope"
  }

  /** The dispatch ignores case, and every terrain is reached by its own
      name. */
  lemma LoadTerrainIgnoresCase(s: string)
    ensures LoadTerrain(Some(Lower(s))) == LoadTerrain(Some(s))
  {
    LowerIdempotent(s);
    if s != [] {
      assert Lower(s) != [];
    }
  }

  lemma LoadTerrainByName(t: Terrain)
    ensures LoadTerrain(Some(TerrainName(t))) == t
  {
    assert Lower("flat") == "flat" && Lower("uneven") == "uneven";
    assert Lower("stairs") == "stairs" && Lower("slope") == "slope";
  }

  /** Every terrain the simulator knows has an entry in the score's
      multiplier table, and that entry is at least 1. */
  lemma TerrainsHaveMultipliers(t: Terrain)
    ensures Score.TerrainTable(TerrainName(t)).Some?
    ensures Score.TerrainMultiplier(Some(TerrainName(t))) >= 1.0
  {
  }

  // ---------------------------------------------------------------------------
  // _apply_motor_control: the target formula
  // ---------------------------------------------------------------------------

  const Amplitude: real := 0.5

  /** How far the target may swing from the middle of `[lower, upper]`:
      `min(amplitude, half_range)`. */
  function Reach(lower: real, upper: real): (reach: real)
    requires lower < upper
    ensures 0.0 < reach <= Amplitude && reach <= (upper - lower) / 2.0
  {
    var halfRange := (upper - lower) / 2.0;
    if Amplitude <= halfRange then Amplitude else halfRange
  }

  /** The position target for a joint with limits `[lower, upper]`, given
      `wave`, the value of `math.sin(2*pi*f*t + phase)`: a swing about the
      middle of the range, or about 0 when the limits are not ordered. */
  function MotorTarget(lower: real, upper: real, wave: real): real {
    if lower < upper then (lower + upper) / 2.0 + Reach(lower, upper) * wave
    else Amplitude * wave
  }

  /** For any sine value the target stays within the joint limits and at most
      the amplitude away from the middle of the range. */
  lemma MotorTargetWithinLimits(lower: real, upper: real, wave: real)
    requires lower < upper && -1.0 <= wave <= 1.0
    ensures lower <= MotorTarget(lower, upper, wave) <= upper
    ensures -Amplitude <= MotorTarget(lower, upper, wave) - (lower + upper) / 2.0 <= Amplitude
  {
    var reach := Reach(lower, upper);
    var swing := reach * wave;
    BoundedProduct(reach, wave, swing);
    WithinHalfRange(lower, upper, reach, swing);
    assert MotorTarget(lower, upper, wave) == (lower + upper) / 2.0 + swing;
  }

  /** A swing no larger than half the range keeps the middle inside it. */
  lemma WithinHalfRange(lower: real, upper: real, reach: real, swing: real)
    requires lower < upper && reach <= (upper - lower) / 2.0 && -reach <= swing <= reach
    ensures lower <= (lower + upper) / 2.0 + swing <= upper
  {
  }

  /** Without ordered limits the target swings about 0 by the amplitude. */
  lemma MotorTargetWithoutLimits(lower: real, upper: real, wave: real)
    requires !(lower < upper) && -1.0 <= wave <= 1.0
    ensures -Amplitude <= MotorTarget(lower, upper, wave) <= Amplitude
  {
    BoundedProduct(Amplitude, wave, Amplitude * wave);
  }

  lemma BoundedProduct(reach: real, wave: real, swing: real)
    requires reach >= 0.0 && -1.0 <= wave <= 1.0 && swing == reach * wave
    ensures -reach <= swing <= reach
  {
    assert reach * (1.0 - wave) >= 0.0;
    assert reach * (wave + 1.0) >= 0.0;
  }
}
