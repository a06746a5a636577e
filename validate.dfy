/** The structural checks of src/validate.py. The URDF parser (urdfpy) is not
    part of this model: the checks take its outcome as a parameter, a parsed
    robot or the text of the exception it raised. */
module Validate {
  import opened Wrappers
  import opened Strings
  import opened Numbers
  import opened Pieces

  /** The `size` attribute of a parsed geometry: a vector or a scalar. */
  datatype Size = Vector(components: seq<real>) | Scalar(value: real)

  /** What the chassis-size estimate looks at on a geometry: whether it has a
      `size` attribute and whether it has a `radius` attribute. */
  datatype Geometry = Geometry(size: Option<Size>, radius: Option<real>)

  /** A collision element; its geometry may be missing. */
  datatype Collision = Collision(geometry: Option<Geometry>)

  /** A link's collision list; an entry may be `None`. */
  datatype Link = Link(collisions: seq<Option<Collision>>)

  /** A joint: parent and child link names and the translation part of its
      origin, `None` when it has no origin. */
  datatype Joint = Joint(parent: string, child: string, origin: Option<(real, real, real)>)

  datatype Robot = Robot(links: seq<Link>, joints: seq<Joint>)

  /** A check's verdict: `(valid, error_msg)`. */
  type Verdict = (bool, Text)

  const Passed: Verdict := (true, [])

  /** `max()` raises on an empty sequence. */
  const ErrEmptyMax: string := "max() arg is an empty sequence"

  const DefaultChassisSize: real := 0.5
  const MinOffset: real := 0.5
  const MinEffort: real := 100.0

  // ---------------------------------------------------------------------------
  // get_chassis_size
  // ---------------------------------------------------------------------------

  function Max(s: seq<real>): (m: real)
    requires s != []
    ensures m in s && forall x :: x in s ==> x <= m
  {
    if |s| == 1 then s[0]
    else
      var rest := Max(s[1..]);
      assert forall x :: x in s ==> x == s[0] || x in s[1..];
      if s[0] >= rest then s[0] else rest
  }

  /** The estimate a geometry gives, if any: `max(size) / 2` for a vector
      size, `size / 2` for a scalar, else the radius. */
  function GeometryEstimate(g: Geometry): Option<Result<real, string>> {
    match g.size
    case Some(Vector(s)) => Some(if s == [] then Err(ErrEmptyMax) else Ok(Max(s) / 2.0))
    case Some(Scalar(x)) => Some(Ok(x / 2.0))
    case None => if g.radius.Some? then Some(Ok(g.radius.value)) else None
  }

  /** The collisions of all links, in link order. */
  function AllCollisions(links: seq<Link>): (r: seq<Option<Collision>>)
    ensures forall l, c :: l in links && c in l.collisions ==> c in r
    ensures forall c :: c in r ==> exists l :: l in links && c in l.collisions
  {
    if links == [] then []
    else links[0].collisions + AllCollisions(links[1..])
  }

  /** A collision entry the estimate stops at. */
  predicate Estimates(c: Option<Collision>) {
    c.Some? && c.value.geometry.Some? && GeometryEstimate(c.value.geometry.value).Some?
  }

  /** The scan over the collisions from index `i`. */
  function FirstEstimate(cs: seq<Option<Collision>>, i: nat): (r: Result<real, string>)
    requires i <= |cs|
    ensures (forall k :: i <= k < |cs| ==> !Estimates(cs[k])) ==> r == Ok(DefaultChassisSize)
    ensures forall j :: i <= j < |cs| && Estimates(cs[j]) && (forall k :: i <= k < j ==> !Estimates(cs[k]))
              ==> r == GeometryEstimate(cs[j].value.geometry.value).value
    decreases |cs| - i
  {
    if i == |cs| then Ok(DefaultChassisSize)
    else if Estimates(cs[i]) then GeometryEstimate(cs[i].value.geometry.value).value
    else FirstEstimate(cs, i + 1)
  }

  /** src/validate.py `get_chassis_size`: the first collision geometry with a
      size or a radius decides, else 0.5. */
  function ChassisSize(robot: Robot): Result<real, string> {
    FirstEstimate(AllCollisions(robot.links), 0)
  }

  /** The links before `i` come first, then link `i`'s own collisions, in
      order, then the rest. */
  lemma {:induction false} AllCollisionsSplit(links: seq<Link>, i: nat)
    requires i < |links|
    ensures AllCollisions(links) == AllCollisions(links[..i]) + links[i].collisions + AllCollisions(links[i + 1..])
  {
    if i == 0 {
      assert links[..0] == [];
      assert links[1..] == links[i + 1..];
    } else {
      AllCollisionsSplit(links[1..], i - 1);
      assert links[1..][..i - 1] == links[1..i];
      assert links[1..][i - 1] == links[i] && links[1..][i..] == links[i + 1..];
      assert links[..i][0] == links[0] && links[..i][1..] == links[1..i];
    }
  }

  /** The estimate comes from the first estimating collision of the first link
      that has one. */
  lemma ChassisSizeFirst(robot: Robot, i: nat, j: nat)
    requires i < |robot.links| && j < |robot.links[i].collisions|
    requires forall l, c :: l in robot.links[..i] && c in l.collisions ==> !Estimates(c)
    requires forall k :: 0 <= k < j ==> !Estimates(robot.links[i].collisions[k])
    requires Estimates(robot.links[i].collisions[j])
    ensures ChassisSize(robot) == GeometryEstimate(robot.links[i].collisions[j].value.geometry.value).value
  {
    var before := AllCollisions(robot.links[..i]);
    var own := robot.links[i].collisions;
    AllCollisionsSplit(robot.links, i);
    var cs := AllCollisions(robot.links);
    assert cs == before + own + AllCollisions(robot.links[i + 1..]);
    assert cs[|before| + j] == own[j];
    forall k | 0 <= k < |before| + j ensures !Estimates(cs[k]) {
      if k < |before| {
        assert cs[k] == before[k] && before[k] in before;
      } else {
        assert cs[k] == own[k - |before|];
      }
    }
  }

  /** With no estimating collision anywhere, the default 0.5 is returned. */
  lemma ChassisSizeDefault(robot: Robot)
    requires forall l, c :: l in robot.links && c in l.collisions ==> !Estimates(c)
    ensures ChassisSize(robot) == Ok(DefaultChassisSize)
  {
    var cs := AllCollisions(robot.links);
    assert forall k :: 0 <= k < |cs| ==> cs[k] in cs;
  }

  /** A robot whose first collision geometry is a box of size `(a, b, c)`
      reports half its largest side. */
  lemma ChassisSizeOfBox(rest: seq<Link>, others: seq<Option<Collision>>, a: real, b: real, c: real, joints: seq<Joint>)
    requires 0.0 <= a && a <= b && c <= b
    ensures ChassisSize(Robot([Link([Some(Collision(Some(Geometry(Some(Vector([a, b, c])), None))))] + others)] + rest, joints))
            == Ok(b / 2.0)
  {
    var links := [Link([Some(Collision(Some(Geometry(Some(Vector([a, b, c])), None))))] + others)] + rest;
    var cs := AllCollisions(links);
    assert cs[0] == Some(Collision(Some(Geometry(Some(Vector([a, b, c])), None))));
    assert Max([a, b, c]) == b;
  }

  // ---------------------------------------------------------------------------
  // check_link_positions
  // ---------------------------------------------------------------------------

  /** A joint places its child on top of its parent: different links, an
      origin, and a translation shorter than 0.01 (compared squared). */
  predicate Coincident(j: Joint) {
    j.parent != j.child && j.origin.Some?
    && j.origin.value.0 * j.origin.value.0 + j.origin.value.1 * j.origin.value.1
       + j.origin.value.2 * j.origin.value.2 < 0.0001
  }

  /** The index of the first coincident joint. */
  function FirstCoincident(joints: seq<Joint>, i: nat): (r: Option<nat>)
    requires i <= |joints|
    ensures r.Some? ==> i <= r.value < |joints| && Coincident(joints[r.value])
                        && forall k :: i <= k < r.value ==> !Coincident(joints[k])
    ensures r.None? ==> forall k :: i <= k < |joints| ==> !Coincident(joints[k])
    decreases |joints| - i
  {
    if i == |joints| then None
    else if Coincident(joints[i]) then Some(i)
    else FirstCoincident(joints, i + 1)
  }

  /** The failure message naming the child link and the threshold. */
  function PositionMessage(child: string, threshold: real): Text {
    [Lit("Link '" + child + "' is at same position as parent. Offset must be > "),
     Fixed(threshold, 2),
     Lit("m to avoid self-collision.")]
  }

  /** src/validate.py `check_link_positions`: fails at the first joint whose
      child sits on its parent; the threshold `max(min_offset, chassis)`
      appears only in the message. `Err` is the exception `get_chassis_size`
      raises. */
  function CheckLinkPositions(robot: Robot, minOffset: real): (r: Result<Verdict, string>)
    ensures r.Err? <==> ChassisSize(robot).Err?
    ensures r.Ok? ==> (r.value.0 <==> forall j :: j in robot.joints ==> !Coincident(j))
    ensures r.Ok? && r.value.0 ==> r.value.1 == []
    ensures r.Ok? && !r.value.0 ==>
              exists i :: 0 <= i < |robot.joints| && Coincident(robot.joints[i])
                && (forall k :: 0 <= k < i ==> !Coincident(robot.joints[k]))
                && r.value.1 == PositionMessage(robot.joints[i].child, if minOffset >= ChassisSize(robot).value then minOffset else ChassisSize(robot).value)
  {
    var chassis :- ChassisSize(robot);
    var threshold := if minOffset >= chassis then minOffset else chassis;
    match FirstCoincident(robot.joints, 0)
    case None => Ok(Passed)
    case Some(i) => Ok((false, PositionMessage(robot.joints[i].child, threshold)))
  }

  /** The threshold never changes the decision, only the message. */
  lemma PositionDecisionIgnoresThreshold(robot: Robot, m1: real, m2: real)
    requires ChassisSize(robot).Ok?
    ensures CheckLinkPositions(robot, m1).value.0 == CheckLinkPositions(robot, m2).value.0
  {
  }

  /** A translation of length exactly 0.01 passes: the comparison is strict. */
  lemma OffsetOfOneCentimetrePasses(parent: string, child: string)
    ensures !Coincident(Joint(parent, child, Some((0.01, 0.0, 0.0))))
  {
  }

  /** Joints from a link to itself and joints without an origin never fail. */
  lemma SkippedJointsNeverFail(robot: Robot, j: Joint, minOffset: real)
    requires j.parent == j.child || j.origin.None?
    requires ChassisSize(robot).Ok?
    ensures CheckLinkPositions(Robot(robot.links, robot.joints + [j]), minOffset).value.0
            == CheckLinkPositions(robot, minOffset).value.0
  {
    var js := robot.joints + [j];
    assert forall x :: x in js ==> x in robot.joints || x == j;
    assert forall x :: x in robot.joints ==> x in js;
  }

  // ---------------------------------------------------------------------------
  // check_effort_limits: the scan with
  //   <limit[^>]*effort\s*=\s*["']([^"']+)["']    (case-insensitive)
  // ---------------------------------------------------------------------------

  predicate IsQuote(c: char) {
    c == '"' || c == '\''
  }

  /** The first index at or after `i` that is not whitespace. */
  function SkipSpace(s: string, i: nat): (r: nat)
    requires i <= |s|
    ensures i <= r <= |s| && (r < |s| ==> !IsSpace(s[r]))
    ensures forall k :: i <= k < r ==> IsSpace(s[k])
    decreases |s| - i
  {
    if i < |s| && IsSpace(s[i]) then SkipSpace(s, i + 1) else i
  }

  /** The first quote at or after `i`, or `|s|`. */
  function NextQuote(s: string, i: nat): (r: nat)
    requires i <= |s|
    ensures i <= r <= |s| && (r < |s| ==> IsQuote(s[r]))
    ensures forall k :: i <= k < r ==> !IsQuote(s[k])
    decreases |s| - i
  {
    if i < |s| && !IsQuote(s[i]) then NextQuote(s, i + 1) else i
  }

  /** The part of the pattern after `[^>]*`, tried at index `b`:
      `effort\s*=\s*["']([^"']+)["']`. On success, the start and end of the
      captured value and the end of the match. */
  function TailAt(s: string, b: nat): (r: Option<(nat, nat, nat)>)
    requires b <= |s|
    ensures r.Some? ==> b + 6 < r.value.0 < r.value.1 < r.value.2 <= |s|
    ensures r.Some? ==> forall k :: r.value.0 <= k < r.value.1 ==> !IsQuote(s[k])
  {
    if !OccursAt(s, b, "effort", true) then None else ValueAt(s, b + 6)
  }

  /** `\s*=\s*["']([^"']+)["']` tried at index `i`. */
  function ValueAt(s: string, i: nat): (r: Option<(nat, nat, nat)>)
    requires i <= |s|
    ensures r.Some? ==> i < r.value.0 < r.value.1 < r.value.2 <= |s|
    ensures r.Some? ==> forall k :: r.value.0 <= k < r.value.1 ==> !IsQuote(s[k])
  {
    var eq := SkipSpace(s, i);
    if eq == |s| || s[eq] != '=' then None
    else
      var q := SkipSpace(s, eq + 1);
      if q == |s| || !IsQuote(s[q]) then None
      else
        var ve := NextQuote(s, q + 1);
        if ve == |s| || ve == q + 1 then None
        else Some((q + 1, ve, ve + 1))
  }

  /** The tail of the pattern read declaratively: `effort` (any case), then
      the value. */
  ghost predicate TailMatches(s: string, b: nat, vs: nat, ve: nat, e: nat) {
    OccursAt(s, b, "effort", true) && ValueMatches(s, b + 6, vs, ve, e)
  }

  /** Spaces, `=`, spaces, a quote, a non-empty run of non-quotes, a quote. */
  ghost predicate ValueMatches(s: string, i: nat, vs: nat, ve: nat, e: nat) {
    && i < vs - 1 < vs < ve < e == ve + 1 <= |s|
    && IsQuote(s[vs - 1]) && IsQuote(s[ve])
    && (forall k :: vs <= k < ve ==> !IsQuote(s[k]))
    && exists w :: i <= w < vs - 1 && s[w] == '='
         && (forall k :: i <= k < w ==> IsSpace(s[k]))
         && (forall k :: w < k < vs - 1 ==> IsSpace(s[k]))
  }

  /** `TailAt` finds exactly the matches of the pattern's tail. */
  lemma TailAtIff(s: string, b: nat, vs: nat, ve: nat, e: nat)
    requires b <= |s|
    ensures TailAt(s, b) == Some((vs, ve, e)) <==> TailMatches(s, b, vs, ve, e)
  {
    if OccursAt(s, b, "effort", true) {
      ValueAtIff(s, b + 6, vs, ve, e);
    }
  }

  /** `ValueAt` finds exactly the matches of the value part. */
  lemma ValueAtIff(s: string, i: nat, vs: nat, ve: nat, e: nat)
    requires i <= |s|
    ensures ValueAt(s, i) == Some((vs, ve, e)) <==> ValueMatches(s, i, vs, ve, e)
  {
    if ValueAt(s, i) == Some((vs, ve, e)) {
      ValueAtSound(s, i, vs, ve, e);
    }
    if ValueMatches(s, i, vs, ve, e) {
      ValueAtComplete(s, i, vs, ve, e);
    }
  }

  lemma ValueAtSound(s: string, i: nat, vs: nat, ve: nat, e: nat)
    requires i <= |s| && ValueAt(s, i) == Some((vs, ve, e))
    ensures ValueMatches(s, i, vs, ve, e)
  {
    var eq := SkipSpace(s, i);
    var q := SkipSpace(s, eq + 1);
    assert eq < |s| && s[eq] == '=' && q == vs - 1 && IsQuote(s[q]);
    assert NextQuote(s, vs) == ve && ve < |s| && e == ve + 1;
    assert IsQuote(s[ve]);
    assert forall k :: i <= k < eq ==> IsSpace(s[k]);
    assert forall k :: eq < k < vs - 1 ==> IsSpace(s[k]);
  }

  lemma ValueAtComplete(s: string, i: nat, vs: nat, ve: nat, e: nat)
    requires i <= |s| && ValueMatches(s, i, vs, ve, e)
    ensures ValueAt(s, i) == Some((vs, ve, e))
  {
    var w :| i <= w < vs - 1 && s[w] == '='
       && (forall k :: i <= k < w ==> IsSpace(s[k]))
       && (forall k :: w < k < vs - 1 ==> IsSpace(s[k]));
    SkipSpaceLands(s, i, w);
    SkipSpaceLands(s, w + 1, vs - 1);
    NextQuoteLands(s, vs, ve);
    ValueAtSteps(s, i, w, vs, ve);
  }

  /** `ValueAt` read step by step: the `=` found after the spaces, the
      opening quote after more spaces, the closing quote after the value. */
  lemma ValueAtSteps(s: string, i: nat, w: nat, vs: nat, ve: nat)
    requires i <= w < vs - 1 < vs < ve < |s|
    requires SkipSpace(s, i) == w && s[w] == '='
    requires SkipSpace(s, w + 1) == vs - 1 && IsQuote(s[vs - 1])
    requires NextQuote(s, vs) == ve
    ensures ValueAt(s, i) == Some((vs, ve, ve + 1))
  {
  }

  /** Skipping the spaces before a non-space stops on it. */
  lemma SkipSpaceLands(s: string, i: nat, w: nat)
    requires i <= w < |s| && !IsSpace(s[w])
    requires forall k :: i <= k < w ==> IsSpace(s[k])
    ensures SkipSpace(s, i) == w
  {
  }

  /** Looking for a quote from before one stops on the first. */
  lemma NextQuoteLands(s: string, i: nat, q: nat)
    requires i <= q < |s| && IsQuote(s[q])
    requires forall k :: i <= k < q ==> !IsQuote(s[k])
    ensures NextQuote(s, i) == q
  {
  }

  /** The greedy `[^>]*` backing off from `hi` (the first `>` after the tag
      name, or the end): the largest `b` in `[a, hi]` where `found` holds,
      trying `hi` first. */
  function LastWhere(found: nat -> bool, a: nat, hi: nat): (b: Option<nat>)
    requires a <= hi
    ensures b.Some? ==> a <= b.value <= hi && found(b.value)
    ensures b.Some? ==> forall c :: b.value < c <= hi ==> !found(c)
    ensures b.None? ==> forall c :: a <= c <= hi ==> !found(c)
    decreases hi - a
  {
    if found(hi) then Some(hi)
    else if hi == a then None
    else LastWhere(found, a, hi - 1)
  }

  /** Where the pattern's tail matches in `s`. */
  function TailMatchesAt(s: string): nat -> bool {
    (b: nat) => b <= |s| && TailAt(s, b).Some?
  }

  /** The first `>` at or after `i`, or `|s|`. */
  function NextGt(s: string, i: nat): (r: nat)
    requires i <= |s|
    ensures i <= r <= |s| && (r < |s| ==> s[r] == '>')
    ensures forall k :: i <= k < r ==> s[k] != '>'
    decreases |s| - i
  {
    if i < |s| && s[i] != '>' then NextGt(s, i + 1) else i
  }

  /** The pattern tried at index `p`. */
  function MatchAt(s: string, p: nat): (r: Option<(nat, nat, nat)>)
    requires p <= |s|
    ensures r.Some? ==> p + 6 < r.value.0 < r.value.1 < r.value.2 <= |s|
    ensures r.Some? ==> forall k :: r.value.0 <= k < r.value.1 ==> !IsQuote(s[k])
  {
    if !OccursAt(s, p, "<limit", true) then None
    else match LastWhere(TailMatchesAt(s), p + 6, NextGt(s, p + 6))
      case None => None
      case Some(b) => TailAt(s, b)
  }

  /** The whole pattern read declaratively at `p`: `<limit` (any case), a run
      free of `>` up to `b`, and the tail matching at `b`. */
  ghost predicate PatternAt(s: string, p: nat, b: nat, vs: nat, ve: nat, e: nat) {
    && OccursAt(s, p, "<limit", true)
    && p + 6 <= b <= |s|
    && (forall k :: p + 6 <= k < b ==> s[k] != '>')
    && TailMatches(s, b, vs, ve, e)
  }

  /** The greedy `[^>]*`: no later split point lets the tail match. */
  ghost predicate Greediest(s: string, p: nat, b: nat) {
    forall b2, x, y, z :: b < b2 && PatternAt(s, p, b2, x, y, z) ==> false
  }

  /** `MatchAt` finds exactly the match of the pattern at `p` whose `[^>]*`
      runs furthest. */
  lemma MatchAtIff(s: string, p: nat, vs: nat, ve: nat, e: nat)
    requires p <= |s|
    ensures MatchAt(s, p) == Some((vs, ve, e)) <==>
              exists b :: PatternAt(s, p, b, vs, ve, e) && Greediest(s, p, b)
  {
    if MatchAt(s, p) == Some((vs, ve, e)) {
      var b := MatchAtSound(s, p, vs, ve, e);
    }
    if exists b :: PatternAt(s, p, b, vs, ve, e) && Greediest(s, p, b) {
      var b :| PatternAt(s, p, b, vs, ve, e) && Greediest(s, p, b);
      MatchAtComplete(s, p, b, vs, ve, e);
    }
  }

  /** A split point no later than the first `>` is one free of `>`. */
  lemma BeforeGt(s: string, p: nat, b: nat)
    requires p + 6 <= b <= |s|
    ensures b <= NextGt(s, p + 6) <==> forall k :: p + 6 <= k < b ==> s[k] != '>'
  {
    var g := NextGt(s, p + 6);
    if b > g {
      assert p + 6 <= g < b && s[g] == '>';
    }
  }

  lemma MatchAtSound(s: string, p: nat, vs: nat, ve: nat, e: nat) returns (b: nat)
    requires p <= |s| && MatchAt(s, p) == Some((vs, ve, e))
    ensures PatternAt(s, p, b, vs, ve, e) && Greediest(s, p, b)
  {
    var hi := NextGt(s, p + 6);
    b := LastWhere(TailMatchesAt(s), p + 6, hi).value;
    assert TailAt(s, b) == Some((vs, ve, e));
    TailAtIff(s, b, vs, ve, e);
    BeforeGt(s, p, b);
    forall b2, x, y, z | b < b2 && PatternAt(s, p, b2, x, y, z) ensures false {
      BeforeGt(s, p, b2);
      assert !TailMatchesAt(s)(b2);
      TailAtIff(s, b2, x, y, z);
    }
  }

  lemma MatchAtComplete(s: string, p: nat, b: nat, vs: nat, ve: nat, e: nat)
    requires PatternAt(s, p, b, vs, ve, e) && Greediest(s, p, b)
    ensures MatchAt(s, p) == Some((vs, ve, e))
  {
    var hi := NextGt(s, p + 6);
    BeforeGt(s, p, b);
    TailAtIff(s, b, vs, ve, e);
    assert TailMatchesAt(s)(b);
    var found := LastWhere(TailMatchesAt(s), p + 6, hi);
    assert found.Some?;
    var b1 := found.value;
    if b1 != b {
      assert b < b1;
      var t := TailAt(s, b1).value;
      TailAtIff(s, b1, t.0, t.1, t.2);
      BeforeGt(s, p, b1);
      assert PatternAt(s, p, b1, t.0, t.1, t.2);
      assert false;
    }
  }

  /** What the group `([^"']+)` can capture. */
  predicate IsCapture(v: string) {
    v != [] && forall k :: 0 <= k < |v| ==> !IsQuote(v[k])
  }

  /** A compiled pattern tried at each position of a text: on a match, the
      start and end of the captured group and the end of the whole match. */
  type Matcher = nat -> Option<(nat, nat, nat)>

  /** The matches of `m` on `s` lie inside `s` and end after they start. */
  ghost predicate WithinText(s: string, m: Matcher) {
    forall p: nat :: p < |s| && m(p).Some? ==> p < m(p).value.2 <= |s| && m(p).value.0 <= m(p).value.1 <= |s|
  }

  /** `finditer` from index `pos` with the pattern `m`: the captured values of
      the successive non-overlapping matches, left to right. A failed attempt
      moves on by one character; a match resumes the scan where it ends. */
  function Scan(s: string, m: Matcher, pos: nat): seq<string>
    requires pos <= |s| && WithinText(s, m)
    decreases |s| - pos
  {
    if pos == |s| then []
    else match m(pos)
      case None => Scan(s, m, pos + 1)
      case Some((vs, ve, e)) => [s[vs..ve]] + Scan(s, m, e)
  }

  /** The scan moves past positions where the pattern does not match. */
  lemma {:induction false} ScanSkips(s: string, m: Matcher, pos: nat, p: nat)
    requires pos <= p <= |s| && WithinText(s, m)
    requires forall q :: pos <= q < p ==> m(q).None?
    ensures Scan(s, m, pos) == Scan(s, m, p)
    decreases p - pos
  {
    if pos < p {
      ScanSkips(s, m, pos + 1, p);
    }
  }

  /** The next value the scan yields is captured by the first match at or
      after `pos`; the scan then resumes where that match ends. */
  lemma ScanNext(s: string, m: Matcher, pos: nat, p: nat, vs: nat, ve: nat, e: nat)
    requires pos <= p < |s| && WithinText(s, m)
    requires forall q :: pos <= q < p ==> m(q).None?
    requires m(p) == Some((vs, ve, e))
    ensures vs <= ve <= |s| && e <= |s|
    ensures Scan(s, m, pos) == [s[vs..ve]] + Scan(s, m, e)
  {
    ScanSkips(s, m, pos, p);
  }

  /** When every match captures a value with property `ok`, so does every
      value of the scan. */
  lemma {:induction false} ScanKeeps(s: string, m: Matcher, pos: nat, ok: string -> bool)
    requires pos <= |s| && WithinText(s, m)
    requires forall q :: pos <= q < |s| && m(q).Some? ==> ok(s[m(q).value.0..m(q).value.1])
    ensures forall i :: 0 <= i < |Scan(s, m, pos)| ==> ok(Scan(s, m, pos)[i])
    decreases |s| - pos
  {
    if pos < |s| {
      match m(pos)
      case None =>
        ScanKeeps(s, m, pos + 1, ok);
      case Some((vs, ve, e)) =>
        ScanKeeps(s, m, e, ok);
        var rest := Scan(s, m, e);
        assert Scan(s, m, pos) == [s[vs..ve]] + rest;
        assert forall i :: 0 <= i < |rest| ==> ([s[vs..ve]] + rest)[i + 1] == rest[i];
    }
  }

  /** The matcher of `<limit[^>]*effort\s*=\s*["']([^"']+)["']` on `s`. */
  function LimitMatcher(s: string): Matcher {
    (p: nat) => if p <= |s| then MatchAt(s, p) else None
  }

  lemma LimitMatcherWithin(s: string)
    ensures WithinText(s, LimitMatcher(s))
  {
    var m := LimitMatcher(s);
    forall p: nat | p < |s| && m(p).Some? ensures p < m(p).value.2 <= |s| && m(p).value.0 <= m(p).value.1 <= |s| {
      assert m(p) == MatchAt(s, p);
    }
  }

  /** `effort_pattern.finditer(urdf_str)` from index `pos`. */
  function FindIter(s: string, pos: nat): seq<string>
    requires pos <= |s|
  {
    LimitMatcherWithin(s);
    Scan(s, LimitMatcher(s), pos)
  }

  /** Every value `finditer` yields is a non-empty run of non-quotes. */
  lemma FindIterCaptures(s: string, pos: nat)
    requires pos <= |s|
    ensures forall i :: 0 <= i < |FindIter(s, pos)| ==> IsCapture(FindIter(s, pos)[i])
  {
    var m := LimitMatcher(s);
    LimitMatcherWithin(s);
    forall q | pos <= q < |s| && m(q).Some?
      ensures IsCapture(s[m(q).value.0..m(q).value.1])
    {
      CaptureOfMatch(s, q);
    }
    ScanKeeps(s, m, pos, IsCapture);
  }

  lemma CaptureOfMatch(s: string, p: nat)
    requires p <= |s| && MatchAt(s, p).Some?
    ensures IsCapture(s[MatchAt(s, p).value.0..MatchAt(s, p).value.1])
  {
    var (vs, ve, _) := MatchAt(s, p).value;
    var v := s[vs..ve];
    forall k | 0 <= k < |v| ensures !IsQuote(v[k]) {
      assert v[k] == s[vs + k];
    }
  }

  /** A text with no `<limit` in any case yields no matches. */
  lemma FindIterWithoutLimitTag(s: string, pos: nat)
    requires pos <= |s|
    requires forall p :: pos <= p ==> !OccursAt(s, p, "<limit", true)
    ensures FindIter(s, pos) == []
  {
    LimitMatcherWithin(s);
    ScanSkips(s, LimitMatcher(s), pos, |s|);
  }

  /** The next match of `finditer` after `pos` is the first position where the
      pattern matches; scanning resumes where that match ends. */
  lemma FindIterNext(s: string, pos: nat, p: nat, vs: nat, ve: nat, e: nat)
    requires pos <= p <= |s|
    requires forall q :: pos <= q < p ==> MatchAt(s, q).None?
    requires MatchAt(s, p) == Some((vs, ve, e))
    ensures FindIter(s, pos) == [s[vs..ve]] + FindIter(s, e)
  {
    var m := LimitMatcher(s);
    LimitMatcherWithin(s);
    assert m(p) == Some((vs, ve, e));
    ScanNext(s, m, pos, p, vs, ve, e);
  }

  /** The failure message for a weak effort value. */
  function EffortMessage(effort: real, minEffort: real): Text {
    [Lit("Joint effort "), Num(effort), Lit(" is too weak. Use at least "), Num(minEffort), Lit(" for heavy robots.")]
  }

  /** A value read as a number below the floor (`None` did not read). */
  predicate TooWeak(effort: Option<real>, minEffort: real) {
    effort.Some? && effort.value < minEffort
  }

  /** `float(v)` of each captured value, `None` where it raises. */
  function Efforts(values: seq<string>): (r: seq<Option<real>>)
    ensures |r| == |values| && forall i :: 0 <= i < |values| ==> r[i] == ParseFloat(values[i])
  {
    seq(|values|, i requires 0 <= i < |values| => ParseFloat(values[i]))
  }

  /** The loop over the efforts from index `i`. */
  function FirstWeak(efforts: seq<Option<real>>, i: nat, minEffort: real): (r: Verdict)
    requires i <= |efforts|
    ensures r.0 <==> forall k :: i <= k < |efforts| ==> !TooWeak(efforts[k], minEffort)
    ensures r.0 ==> r.1 == []
    ensures !r.0 ==> exists j :: i <= j < |efforts| && TooWeak(efforts[j], minEffort)
                      && (forall k :: i <= k < j ==> !TooWeak(efforts[k], minEffort))
                      && r.1 == EffortMessage(efforts[j].value, minEffort)
    decreases |efforts| - i
  {
    if i == |efforts| then Passed
    else if TooWeak(efforts[i], minEffort) then (false, EffortMessage(efforts[i].value, minEffort))
    else FirstWeak(efforts, i + 1, minEffort)
  }

  /** src/validate.py `check_effort_limits`: fails at the first captured value
      that reads as a number below `min_effort`; values that do not read as a
      number are skipped. */
  function CheckEffortLimits(urdf: string, minEffort: real): (r: Verdict)
    ensures var values := FindIter(urdf, 0);
              && (r.0 <==> forall v :: v in values ==> !TooWeak(ParseFloat(v), minEffort))
              && (!r.0 ==> exists j :: 0 <= j < |values| && TooWeak(ParseFloat(values[j]), minEffort)
                             && (forall k :: 0 <= k < j ==> !TooWeak(ParseFloat(values[k]), minEffort))
                             && r.1 == EffortMessage(ParseFloat(values[j]).value, minEffort))
  {
    var values := FindIter(urdf, 0);
    FirstWeakOfValues(values, minEffort);
    FirstWeak(Efforts(values), 0, minEffort)
  }

  /** The loop over the efforts read off the captured values. */
  lemma FirstWeakOfValues(values: seq<string>, minEffort: real)
    ensures var r := FirstWeak(Efforts(values), 0, minEffort);
              && (r.0 <==> forall v :: v in values ==> !TooWeak(ParseFloat(v), minEffort))
              && (!r.0 ==> exists j :: 0 <= j < |values| && TooWeak(ParseFloat(values[j]), minEffort)
                             && (forall k :: 0 <= k < j ==> !TooWeak(ParseFloat(values[k]), minEffort))
                             && r.1 == EffortMessage(ParseFloat(values[j]).value, minEffort))
  {
    assert forall v :: v in values ==> exists k :: 0 <= k < |values| && values[k] == v;
  }

  /** The floor is inclusive: "100" passes. */
  lemma EffortOfHundredPasses()
    ensures !TooWeak(ParseFloat("100"), MinEffort)
  {
    var t := "100";
    assert t[..2] == "10" && "10"[..1] == "1";
    assert DigitsValue(t) == 100;
    ParseFloatDigits(t);
  }

  /** "99" is below the floor. */
  lemma EffortOfNinetyNineFails()
    ensures TooWeak(ParseFloat("99"), MinEffort)
  {
    var t := "99";
    assert t[..1] == "9";
    assert DigitsValue(t) == 99;
    ParseFloatDigits(t);
  }

  /** A document with no `<limit` tag passes the effort check. */
  lemma EffortPassesWithoutLimitTags(urdf: string, minEffort: real)
    requires forall p :: !OccursAt(urdf, p, "<limit", true)
    ensures CheckEffortLimits(urdf, minEffort) == Passed
  {
    FindIterWithoutLimitTag(urdf, 0);
  }

  /** A value the `<limit` tag's regular expression reads whole: no quote, no
      `>`, and no letter that could start a later `effort`. */
  predicate PlainValue(v: string) {
    v != [] && forall k :: 0 <= k < |v| ==> !IsQuote(v[k]) && v[k] != '>' && LowerChar(v[k]) != 'e'
  }

  /** A document opening with the tag `<limit effort="v"/>`. */
  function LimitDoc(v: string, rest: string): string {
    "<limit effort=\"" + v + "\"/>" + rest
  }

  /** A document that opens with `<limit effort="v"/>` yields `v` first, and
      fails the check with `v`'s message when `v` reads as a weak effort,
      whatever follows. */
  lemma WeakLimitFails(v: string, rest: string, minEffort: real)
    requires PlainValue(v) && TooWeak(ParseFloat(v), minEffort)
    ensures FindIter(LimitDoc(v, rest), 0) != [] && FindIter(LimitDoc(v, rest), 0)[0] == v
    ensures CheckEffortLimits(LimitDoc(v, rest), minEffort) == (false, EffortMessage(ParseFloat(v).value, minEffort))
  {
    LimitDocYields(v, rest);
    var values := FindIter(LimitDoc(v, rest), 0);
    assert values[0] == v;
  }

  /** `finditer` on `<limit effort="v"/>` followed by `rest` yields `v`, then
      resumes after the closing quote. */
  lemma LimitDocYields(v: string, rest: string)
    requires PlainValue(v)
    ensures FindIter(LimitDoc(v, rest), 0) == [v] + FindIter(LimitDoc(v, rest), 16 + |v|)
  {
    var n := |v|;
    LimitTagMatches(v, rest);
    FindIterNext(LimitDoc(v, rest), 0, 0, 15, 15 + n, 16 + n);
    LimitDocChars(v, rest);
  }

  /** The pattern matches `<limit effort="v"/>` at its start, capturing `v`. */
  lemma LimitTagMatches(v: string, rest: string)
    requires PlainValue(v)
    ensures MatchAt(LimitDoc(v, rest), 0) == Some((15, 15 + |v|, 16 + |v|))
  {
    LimitDocPattern(v, rest);
    LimitDocGreediest(v, rest);
    MatchAtComplete(LimitDoc(v, rest), 0, 7, 15, 15 + |v|, 16 + |v|);
  }

  /** Splitting the tag before its `effort` matches the whole pattern. */
  lemma LimitDocPattern(v: string, rest: string)
    requires PlainValue(v)
    ensures PatternAt(LimitDoc(v, rest), 0, 7, 15, 15 + |v|, 16 + |v|)
  {
    var s := LimitDoc(v, rest);
    var n := |v|;
    LimitDocChars(v, rest);
    assert OccursAt(s, 0, "<limit", true) by {
      assert forall j :: 0 <= j < 6 ==> s[j] == "<limit"[j];
    }
    assert OccursAt(s, 7, "effort", true) by {
      assert forall j :: 0 <= j < 6 ==> s[7 + j] == "effort"[j];
    }
    assert ValueMatches(s, 13, 15, 15 + n, 16 + n) by {
      assert s[13] == '=' && s[14] == '"';
    }
    assert s[6] == ' ';
  }

  /** No later split point inside the tag matches: no `e` follows. */
  lemma LimitDocGreediest(v: string, rest: string)
    requires PlainValue(v)
    ensures Greediest(LimitDoc(v, rest), 0, 7)
  {
    var s := LimitDoc(v, rest);
    LimitDocChars(v, rest);
    forall b2, x, y, z | 7 < b2 && PatternAt(s, 0, b2, x, y, z) ensures false {
      EffortStartsWithE(s, b2);
      NoLaterE(v, rest, b2);
    }
  }

  /** The characters of `LimitDoc(v, rest)` around the value. */
  lemma LimitDocChars(v: string, rest: string)
    ensures var s := LimitDoc(v, rest);
              && |s| == 18 + |v| + |rest|
              && s[..15] == "<limit effort=\""
              && s[15..15 + |v|] == v
              && (forall k :: 0 <= k < |v| ==> s[15 + k] == v[k])
              && s[15 + |v|] == '"' && s[16 + |v|] == '/' && s[17 + |v|] == '>'
  {
    var s := LimitDoc(v, rest);
    assert s == "<limit effort=\"" + (v + ("\"/>" + rest));
    assert s[15..15 + |v|] == v;
  }

  /** An `effort` (any case) starts with `e` or `E`. */
  lemma EffortStartsWithE(s: string, b: nat)
    requires OccursAt(s, b, "effort", true)
    ensures b < |s| && LowerChar(s[b]) == 'e'
  {
    assert CharMatch(s[b + 0], "effort"[0], true);
  }

  /** Inside the tag, after its `effort`, no character lower-cases to `e`. */
  lemma NoLaterE(v: string, rest: string, b: nat)
    requires PlainValue(v) && 7 < b <= 17 + |v|
    ensures LowerChar(LimitDoc(v, rest)[b]) != 'e'
  {
    var s := LimitDoc(v, rest);
    LimitDocChars(v, rest);
    if b < 15 {
      assert s[b] == "<limit effort=\""[b];
    } else if b < 15 + |v| {
      assert s[b] == v[b - 15];
    }
  }

  // ---------------------------------------------------------------------------
  // validate_all
  // ---------------------------------------------------------------------------

  /** src/validate.py `validate_all`: the parse, then the positions, then the
      efforts; the first failure is returned, a parse failure prefixed with
      "Parse error: ". `parsed` is urdfpy's outcome on `urdf`. `Err` is an
      exception that escapes. */
  function ValidateAll(urdf: string, parsed: Result<Robot, string>): (r: Result<Verdict, string>)
    ensures parsed.Err? ==> r == Ok((false, [Lit("Parse error: " + parsed.error)]))
    ensures parsed.Ok? && CheckLinkPositions(parsed.value, MinOffset).Err? ==> r.Err?
    ensures (parsed.Ok? && CheckLinkPositions(parsed.value, MinOffset).Ok? && !CheckLinkPositions(parsed.value, MinOffset).value.0)
              ==> r == CheckLinkPositions(parsed.value, MinOffset)
    ensures (parsed.Ok? && CheckLinkPositions(parsed.value, MinOffset) == Ok(Passed))
              ==> r == Ok(CheckEffortLimits(urdf, MinEffort))
    ensures r.Ok? && r.value.0 ==> r.value == Passed
  {
    match parsed
    case Err(e) => Ok((false, [Lit("Parse error: " + e)]))
    case Ok(robot) =>
      var positions :- CheckLinkPositions(robot, MinOffset);
      if !positions.0 then Ok(positions)
      else
        var effort := CheckEffortLimits(urdf, MinEffort);
        if !effort.0 then Ok(effort) else Ok(Passed)
  }

  /** Validation succeeds exactly when the document parses, no joint puts a
      child on its parent, and no effort value is below the floor. */
  lemma ValidateAllPasses(urdf: string, parsed: Result<Robot, string>)
    ensures ValidateAll(urdf, parsed) == Ok(Passed) <==>
              && parsed.Ok? && ChassisSize(parsed.value).Ok?
              && (forall j :: j in parsed.value.joints ==> !Coincident(j))
              && (forall v :: v in FindIter(urdf, 0) ==> !TooWeak(ParseFloat(v), MinEffort))
  {
  }
}
