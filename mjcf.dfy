/** `urdf_to_mjcf` (`src/convert.py:88-245`): the MuJoCo document built from
    a parsed URDF robot. Each link reachable from the root becomes a `body`
    nested under its parent's body; the joint that attaches it becomes a
    `hinge` or `slide` joint element and a `motor` in the `actuator`
    section; visuals and collisions become `geom`s. */
module Mjcf {
  import opened Wrappers
  import opened Pieces
  import opened Xml
  import opened ConvertHelpers
  import opened UrdfTables

  /** Python's recursion limit, hit when `_build_body` nests too deep (a
      joint cycle makes it nest without end). */
  const RecursionError := "RecursionError: maximum recursion depth exceeded"

  /** What `_build_body` reads besides its arguments: the link table, the
      joint tables, and Python's `float`. */
  datatype Context = Context(links: map<Name, Node>, joints: JointTables, float: string -> Option<real>)

  // ---------------------------------------------------------------------------
  // The joint that attaches a body
  // ---------------------------------------------------------------------------

  /** `joint_el.get("name", f"joint_{link_name}")`. */
  function JointName(j: Node, link: Name): string {
    Get(j, "name", "joint_" + Show(link))
  }

  predicate IsHinge(t: string) {
    t == "revolute" || t == "continuous"
  }

  /** The `axis` attribute of the joint element, when the URDF joint has an
      `axis`. */
  function AxisAttr(j: Node): Attrs {
    match FindChild(j, "axis")
    case Some(a) => map["axis" := S(Get(a, "xyz", "0 0 1"))]
    case None => map[]
  }

  /** `f"{lower} {upper}"` with the given defaults. */
  function Range(limit: Node, lower: string, upper: string): Option<Text> {
    S(Get(limit, "lower", lower) + " " + Get(limit, "upper", upper))
  }

  /** The `range` attribute: a hinge has one when its type is exactly
      `revolute` and it has a limit; a slide whenever it has a limit. */
  function RangeAttr(j: Node): Attrs {
    match FindChild(j, "limit")
    case None => map[]
    case Some(l) =>
      if JointType(j) == "revolute" then map["range" := Range(l, "-3.14", "3.14")]
      else if JointType(j) == "prismatic" then map["range" := Range(l, "0", "1")]
      else map[]
  }

  /** `ctrllimited` and `ctrlrange="-e e"` on a hinge's motor when the
      joint has a limit. */
  function CtrlAttr(j: Node): Attrs {
    match FindChild(j, "limit")
    case None => map[]
    case Some(l) =>
      var e := Get(l, "effort", "100");
      map["ctrllimited" := S("true"), "ctrlrange" := S("-" + e + " " + e)]
  }

  /** The joint element and the motor a URDF joint yields for the child link
      `link`: a hinge for `revolute` and `continuous`, a slide for
      `prismatic`, nothing for any other type. */
  function JointElements(j: Node, link: Name): (seq<Tree>, seq<Tree>) {
    var n := JointName(j, link);
    var motor: Attrs := map["joint" := S(n), "name" := S("motor_" + n)];
    if IsHinge(JointType(j)) then
      ([Elem("joint", map["name" := S(n), "type" := S("hinge")] + AxisAttr(j) + RangeAttr(j), [])],
       [Elem("motor", motor + CtrlAttr(j), [])])
    else if JointType(j) == "prismatic" then
      ([Elem("joint", map["name" := S(n), "type" := S("slide")] + AxisAttr(j) + RangeAttr(j), [])],
       [Elem("motor", motor, [])])
    else ([], [])
  }

  /** `pos` from the joint origin, and `euler` unless the `rpy` text is
      exactly `"0 0 0"`. */
  function PoseAttrs(j: Node): Attrs {
    var pe := OriginToPosEuler(FindChild(j, "origin"));
    if pe.1 != Origin0() then map["pos" := S(pe.0), "euler" := S(pe.1)]
    else map["pos" := S(pe.0)]
  }

  /** What the joint attaching a body contributes: its position attributes,
      its joint element and its motor. A link that is no joint's child gets
      none of them. */
  datatype Attachment = Attachment(pose: Attrs, joint: seq<Tree>, motors: seq<Tree>)

  function Attach(joints: JointTables, link: Name): Attachment {
    if link !in joints.parentOf then Attachment(map[], [], [])
    else
      var j := joints.parentOf[link].0;
      var je := JointElements(j, link);
      Attachment(PoseAttrs(j), je.0, je.1)
  }

  // ---------------------------------------------------------------------------
  // Inertial and geoms
  // ---------------------------------------------------------------------------

  /** An `inertial` element when the link's inertial has a mass. */
  function Inertial(link: Node): seq<Tree> {
    match FindChild(link, "inertial")
    case None => []
    case Some(i) =>
      match FindChild(i, "mass")
      case None => []
      case Some(m) => [Elem("inertial", map["mass" := S(Get(m, "value", "1.0")), "pos" := S(Origin0())], [])]
  }

  /** The `pos` of an element's origin, when it has one. */
  function OriginPos(a: Attrs, e: Node): Attrs {
    match FindChild(e, "origin")
    case Some(o) => a["pos" := S(OriginToPosEuler(Some(o)).0)]
    case None => a
  }

  /** The `rgba` of a visual's material color, when it has one. */
  function ColorAttr(a: Attrs, v: Node): Attrs {
    match FindChild(v, "material")
    case None => a
    case Some(m) =>
      match FindChild(m, "color")
      case None => a
      case Some(c) => a["rgba" := S(Get(c, "rgba", "0.5 0.5 0.5 1"))]
  }

  /** The geom of one visual: none without a geometry, else the converted
      geometry named `<link>_visual` with the origin's position and the
      material's color. */
  function VisualGeom(v: Node, link: Name, float: string -> Option<real>): Result<seq<Tree>, string> {
    match FindChild(v, "geometry")
    case None => Ok([])
    case Some(g) =>
      var a :- GeomFold(map[], g.children, float);
      Ok([Elem("geom", ColorAttr(OriginPos(a["name" := S(Show(link) + "_visual")], v), v), [])])
  }

  /** The geom of one collision: named `<link>_collision`, colliding with
      everything (`contype` and `conaffinity` 1), at the origin's position. */
  function CollisionGeom(v: Node, link: Name, float: string -> Option<real>): Result<seq<Tree>, string> {
    match FindChild(v, "geometry")
    case None => Ok([])
    case Some(g) =>
      var a :- GeomFold(map[], g.children, float);
      var named := a["name" := S(Show(link) + "_collision")]["contype" := S("1")]["conaffinity" := S("1")];
      Ok([Elem("geom", OriginPos(named, v), [])])
  }

  /** `acc` followed by the trees of `r`, or `r`'s error. */
  function Then(acc: seq<Tree>, r: Result<seq<Tree>, string>): Result<seq<Tree>, string> {
    match r
    case Ok(ts) => Ok(acc + ts)
    case Err(e) => Err(e)
  }

  /** The geoms of the visuals (`collision` false) or collisions in order, or
      the first conversion error. */
  function Geoms(vs: seq<Node>, link: Name, collision: bool, float: string -> Option<real>): Result<seq<Tree>, string>
    decreases |vs|
  {
    if vs == [] then Ok([])
    else
      var g :- if collision then CollisionGeom(vs[0], link, float) else VisualGeom(vs[0], link, float);
      Then(g, Geoms(vs[1..], link, collision, float))
  }

  lemma ThenNothing(r: Result<seq<Tree>, string>)
    ensures Then([], r) == r
  {
    if r.Ok? {
      assert [] + r.value == r.value;
    }
  }

  lemma ThenThen(acc: seq<Tree>, g: seq<Tree>, r: Result<seq<Tree>, string>)
    ensures Then(acc, Then(g, r)) == Then(acc + g, r)
  {
    if r.Ok? {
      assert acc + (g + r.value) == acc + g + r.value;
    }
  }

  /** One iteration of the loops at `src/convert.py:206-222` (visuals) and
      `src/convert.py:225-236` (collisions). */
  method EmitGeom(v: Node, name: Name, collision: bool, float: string -> Option<real>) returns (r: Result<seq<Tree>, string>)
    ensures r == if collision then CollisionGeom(v, name, float) else VisualGeom(v, name, float)
  {
    var geomEl := FindChild(v, "geometry");
    if geomEl.None? {
      return Ok([]);
    }
    var geom := ConvertGeometry(geomEl.value, float);
    if geom.Err? {
      GeomFoldError(map[], geomEl.value.children, float);
      return Err(geom.error);
    }
    var a := geom.value.attrs;
    if collision {
      a := a["name" := S(Show(name) + "_collision")]["contype" := S("1")]["conaffinity" := S("1")];
      a := OriginPos(a, v);
    } else {
      a := ColorAttr(OriginPos(a["name" := S(Show(name) + "_visual")], v), v);
    }
    r := Ok([Elem("geom", a, [])]);
  }

  /** The loops at `src/convert.py:206-222` (`collision` false) and
      `src/convert.py:225-236`. */
  method EmitGeoms(link: Node, name: Name, collision: bool, float: string -> Option<real>) returns (r: Result<seq<Tree>, string>)
    ensures r == if collision then Collisions(link, name, float) else Visuals(link, name, float)
  {
    var vs := FindChildren(link.children, if collision then "collision" else "visual");
    var acc: seq<Tree> := [];
    ThenNothing(Geoms(vs, name, collision, float));
    for i := 0 to |vs|
      invariant Geoms(vs, name, collision, float) == Then(acc, Geoms(vs[i..], name, collision, float))
    {
      assert vs[i..][1..] == vs[i + 1..];
      var g := EmitGeom(vs[i], name, collision, float);
      if g.Err? {
        return Err(g.error);
      }
      ThenThen(acc, g.value, Geoms(vs[i + 1..], name, collision, float));
      acc := acc + g.value;
    }
    assert vs[|vs|..] == [];
    assert acc + [] == acc;
    r := Ok(acc);
  }

  /** The inertial and the two geom loops of `_build_body`
      (`src/convert.py:193-236`). */
  method BuildOwn(link: Node, name: Name, float: string -> Option<real>) returns (r: Result<seq<Tree>, string>)
    ensures r == Own(link, name, float)
  {
    var vis := EmitGeoms(link, name, false, float);
    if vis.Err? {
      return Err(vis.error);
    }
    var col := EmitGeoms(link, name, true, float);
    if col.Err? {
      return Err(col.error);
    }
    r := Ok(Inertial(link) + vis.value + col.value);
  }

  // ---------------------------------------------------------------------------
  // Bodies
  // ---------------------------------------------------------------------------

  /** The bodies emitted under one parent, and the motors they add to the
      actuator section, in creation order. */
  datatype Built = Built(bodies: seq<Tree>, motors: seq<Tree>)

  function Visuals(link: Node, name: Name, float: string -> Option<real>): Result<seq<Tree>, string> {
    Geoms(FindChildren(link.children, "visual"), name, false, float)
  }

  function Collisions(link: Node, name: Name, float: string -> Option<real>): Result<seq<Tree>, string> {
    Geoms(FindChildren(link.children, "collision"), name, true, float)
  }

  /** The elements a link's body holds of its own after the joint: the
      inertial, the visual geoms, then the collision geoms. */
  function Own(link: Node, name: Name, float: string -> Option<real>): Result<seq<Tree>, string> {
    var vis :- Visuals(link, name, float);
    var col :- Collisions(link, name, float);
    Ok(Inertial(link) + vis + col)
  }

  /** The body element of a link and its descendants
      (`_build_body(name, parent)`), with `fuel` the number of nested calls
      Python's recursion limit still allows. A name without a link emits
      nothing. */
  function Body(c: Context, name: Name, fuel: nat): Result<Built, string>
    decreases fuel, 0, 0
  {
    if fuel == 0 then Err(RecursionError)
    else if name !in c.links then Ok(Built([], []))
    else
      var at := Attach(c.joints, name);
      var own :- Own(c.links[name], name, c.float);
      var kids :- Bodies(c, ChildrenOf(c.joints, name), fuel - 1);
      Ok(Built([BodyTree(name, at, own, kids.bodies)], at.motors + kids.motors))
  }

  /** The `body` element: the name, the attachment's pose, then the joint
      element, the inertial and geoms, and the child bodies. */
  function BodyTree(name: Name, at: Attachment, own: seq<Tree>, kids: seq<Tree>): Tree {
    Elem("body", map["name" := NameValue(name)] + at.pose, at.joint + own + kids)
  }

  /** The bodies of `names` in order (`for child_name in children_of.get(...)`),
      each with its descendants. */
  function Bodies(c: Context, names: seq<Name>, fuel: nat): Result<Built, string>
    decreases fuel, 1, |names|
  {
    if names == [] then Ok(Built([], []))
    else
      var b :- Body(c, names[0], fuel);
      var rest :- Bodies(c, names[1..], fuel);
      Ok(Built(b.bodies + rest.bodies, b.motors + rest.motors))
  }

  /** `_build_body` as a closure over the tables that appends motors to the
      shared `actuator` element. */
  class BodyBuilder {
    const c: Context
    var actuator: seq<Tree>

    constructor(c: Context)
      ensures this.c == c && actuator == []
    {
      this.c := c;
      actuator := [];
    }

    /** `_build_body(name, parent)`: the bodies to append to `parent`. On
        success the actuator has gained the motors of the body and its
        descendants, in creation order. */
    method BuildBody(name: Name, fuel: nat) returns (r: Result<seq<Tree>, string>)
      modifies this
      decreases fuel, 0, 1
      ensures Mirrors(r, Body(c, name, fuel), old(actuator), actuator)
    {
      if fuel == 0 {
        return Err(RecursionError);
      }
      if name !in c.links {
        return Ok([]);
      }
      r := BuildLinkBody(name, fuel);
    }

    /** `_build_body` past its first check, on a link the robot has. */
    method BuildLinkBody(name: Name, fuel: nat) returns (r: Result<seq<Tree>, string>)
      requires fuel > 0 && name in c.links
      modifies this
      decreases fuel, 0, 0
      ensures Mirrors(r, Body(c, name, fuel), old(actuator), actuator)
    {
      var at := Attach(c.joints, name);
      ghost var before := actuator;
      actuator := actuator + at.motors;
      var own := BuildOwn(c.links[name], name, c.float);
      if own.Err? {
        return Err(own.error);
      }
      ghost var spec := Bodies(c, ChildrenOf(c.joints, name), fuel - 1);
      var kids := BuildChildren(ChildrenOf(c.joints, name), fuel - 1);
      if kids.Err? {
        BodyFromParts(c, name, fuel, own.value);
        return Err(kids.error);
      }
      BodyFromParts(c, name, fuel, own.value);
      r := Ok([BodyTree(name, at, own.value, kids.value)]);
      MotorsInOrder(before, at.motors, spec.value.motors);
    }

    /** The loop at `src/convert.py:239-240`. */
    method BuildChildren(names: seq<Name>, fuel: nat) returns (r: Result<seq<Tree>, string>)
      modifies this
      decreases fuel, 1, 0
      ensures Mirrors(r, Bodies(c, names, fuel), old(actuator), actuator)
    {
      var bodies: seq<Tree> := [];
      ghost var motors: seq<Tree> := [];
      JoinNothing(Bodies(c, names, fuel));
      for i := 0 to |names|
        invariant actuator == old(actuator) + motors
        invariant Bodies(c, names, fuel) == Join(Built(bodies, motors), Bodies(c, names[i..], fuel))
      {
        BodiesCons(c, names[i..], fuel);
        assert names[i..][1..] == names[i + 1..];
        ghost var first := Body(c, names[i], fuel);
        var b := BuildBody(names[i], fuel);
        if b.Err? {
          JoinErr(Built(bodies, motors), first.error);
          return Err(b.error);
        }
        JoinJoin(Built(bodies, motors), first.value, Bodies(c, names[i + 1..], fuel));
        MotorsInOrder(old(actuator), motors, first.value.motors);
        bodies := bodies + b.value;
        motors := motors + first.value.motors;
      }
      assert names[|names|..] == [];
      r := Ok(bodies);
      JoinEmpty(Built(bodies, motors));
    }
  }

  /** `r` and the actuator's growth from `before` to `after` are what
      `spec` gives: its error, or its bodies with its motors appended. */
  predicate Mirrors(r: Result<seq<Tree>, string>, spec: Result<Built, string>, before: seq<Tree>, after: seq<Tree>) {
    match spec
    case Err(e) => r == Err(e)
    case Ok(b) => r == Ok(b.bodies) && after == before + b.motors
  }

  /** A call of `_build_body` on a known link whose own elements were
      built: the children's error, or one body with the link's motors
      before its children's. */
  lemma BodyFromParts(c: Context, name: Name, fuel: nat, own: seq<Tree>)
    requires fuel > 0 && name in c.links && Own(c.links[name], name, c.float) == Ok(own)
    ensures var kids := Bodies(c, ChildrenOf(c.joints, name), fuel - 1);
            var at := Attach(c.joints, name);
            Body(c, name, fuel)
              == if kids.Err? then Err(kids.error)
                 else Ok(Built([BodyTree(name, at, own, kids.value.bodies)], at.motors + kids.value.motors))
  {
  }

  lemma MotorsInOrder(before: seq<Tree>, mine: seq<Tree>, theirs: seq<Tree>)
    ensures before + mine + theirs == before + (mine + theirs)
  {
  }

  /** `acc` followed by the bodies and motors of `r`, or `r`'s error. */
  function Join(acc: Built, r: Result<Built, string>): Result<Built, string> {
    match r
    case Ok(b) => Ok(Built(acc.bodies + b.bodies, acc.motors + b.motors))
    case Err(e) => Err(e)
  }

  /** The bodies of a list are the first name's body followed by the rest's,
      or the first error. */
  lemma BodiesCons(c: Context, names: seq<Name>, fuel: nat)
    requires names != []
    ensures Body(c, names[0], fuel).Err? ==> Bodies(c, names, fuel) == Err(Body(c, names[0], fuel).error)
    ensures Body(c, names[0], fuel).Ok? ==>
      Bodies(c, names, fuel) == Join(Body(c, names[0], fuel).value, Bodies(c, names[1..], fuel))
  {
  }

  lemma JoinNothing(r: Result<Built, string>)
    ensures Join(Built([], []), r) == r
  {
    if r.Ok? {
      assert [] + r.value.bodies == r.value.bodies && [] + r.value.motors == r.value.motors;
    }
  }

  lemma JoinEmpty(acc: Built)
    ensures Join(acc, Ok(Built([], []))) == Ok(acc)
  {
    assert acc.bodies + [] == acc.bodies && acc.motors + [] == acc.motors;
  }

  lemma JoinErr(acc: Built, e: string)
    ensures Join(acc, Err(e)) == Err(e)
  {
  }

  lemma JoinJoin(acc: Built, b: Built, r: Result<Built, string>)
    ensures Join(acc, Join(b, r)) == Join(Built(acc.bodies + b.bodies, acc.motors + b.motors), r)
  {
    if r.Ok? {
      assert acc.bodies + (b.bodies + r.value.bodies) == acc.bodies + b.bodies + r.value.bodies;
      assert acc.motors + (b.motors + r.value.motors) == acc.motors + b.motors + r.value.motors;
    }
  }

  // ---------------------------------------------------------------------------
  // The document
  // ---------------------------------------------------------------------------

  function Compiler(): Tree {
    Elem("compiler", map["angle" := S("radian"), "coordinate" := S("local")], [])
  }

  function SimOption(): Tree {
    Elem("option", map["gravity" := S("0 0 -9.81"), "timestep" := S("0.002")], [])
  }

  function Floor(): Tree {
    Elem("geom", map["type" := S("plane"), "size" := S("5 5 0.1"), "rgba" := S("0.8 0.8 0.8 1"), "name" := S("floor")], [])
  }

  function Light(): Tree {
    Elem("light", map["diffuse" := S("0.8 0.8 0.8"), "pos" := S("0 0 3"), "dir" := S("0 0 -1")], [])
  }

  /** The `mujoco` element: compiler, option, the world body (floor, light
      and the root's bodies) and the actuator section. */
  function Document(model: string, bodies: seq<Tree>, motors: seq<Tree>): Tree {
    Elem("mujoco", map["model" := S(model)],
      [Compiler(), SimOption(), Elem("worldbody", map[], [Floor(), Light()] + bodies), Elem("actuator", map[], motors)])
  }

  /** The document for a parsed robot, with `depth` the nesting Python's
      recursion limit allows; or the error raised while building it. */
  function Mujoco(robot: Node, float: string -> Option<real>, depth: nat): Result<Tree, string> {
    var links := Links(LinkNodes(robot));
    var joints :- Joints(JointNodes(robot));
    var root :- RootOf(links.order, joints.parentOf.Keys);
    var built :- Body(Context(links.table, joints, float), root, depth);
    Ok(Document(RobotName(robot), built.bodies, built.motors))
  }

  /** `urdf_to_mjcf`: parse the text after any leading junk, build the
      document, serialize it. `parse` stands for `ET.fromstring`. */
  function MjcfOf(urdf: string, parse: string -> Result<Node, string>, float: string -> Option<real>, depth: nat): Result<Tree, string> {
    var robot :- parse(StripLeadingJunk(urdf));
    var doc :- Mujoco(robot, float, depth);
    Serialize(doc)
  }

  /** The body of `urdf_to_mjcf` after parsing (`src/convert.py:98-243`). */
  method BuildMujoco(robot: Node, float: string -> Option<real>, depth: nat) returns (r: Result<Tree, string>)
    ensures r == Mujoco(robot, float, depth)
  {
    var links := BuildLinks(LinkNodes(robot));
    var joints := BuildJoints(JointNodes(robot));
    if joints.Err? {
      return Err(joints.error);
    }
    var root := RootOf(links.order, joints.value.parentOf.Keys);
    if root.Err? {
      return Err(root.error);
    }
    var builder := new BodyBuilder(Context(links.table, joints.value, float));
    var bodies := builder.BuildBody(root.value, depth);
    if bodies.Err? {
      return Err(bodies.error);
    }
    ghost var built := Body(Context(links.table, joints.value, float), root.value, depth).value;
    assert builder.actuator == built.motors by {
      assert [] + built.motors == built.motors;
    }
    r := Ok(Document(RobotName(robot), bodies.value, builder.actuator));
  }

  method UrdfToMjcf(urdf: string, parse: string -> Result<Node, string>, float: string -> Option<real>, depth: nat)
    returns (r: Result<Tree, string>)
    ensures r == MjcfOf(urdf, parse, float, depth)
  {
    var robot := parse(StripLeadingJunk(urdf));
    if robot.Err? {
      return Err(robot.error);
    }
    var doc := BuildMujoco(robot.value, float, depth);
    if doc.Err? {
      return Err(doc.error);
    }
    r := Serialize(doc.value);
  }

  // ---------------------------------------------------------------------------
  // Properties
  // ---------------------------------------------------------------------------

  /** `revolute` and `continuous` joints become a hinge and a motor driving
      it; the hinge has a `range` exactly when the type is `revolute` and a
      limit exists. */
  lemma HingeMapping(j: Node, link: Name)
    requires IsHinge(JointType(j))
    ensures var (js, ms) := JointElements(j, link);
      |js| == 1 && |ms| == 1 && js[0].tag == "joint" && ms[0].tag == "motor" &&
      js[0].attrs["type"] == S("hinge") &&
      js[0].attrs["name"] == ms[0].attrs["joint"] == S(JointName(j, link)) &&
      ("axis" in js[0].attrs <==> FindChild(j, "axis").Some?) &&
      ("range" in js[0].attrs <==> FindChild(j, "limit").Some? && JointType(j) == "revolute")
  {
    var n := JointName(j, link);
    var a := map["name" := S(n), "type" := S("hinge")] + AxisAttr(j) + RangeAttr(j);
    assert JointElements(j, link).0 == [Elem("joint", a, [])];
    assert "axis" in a <==> "axis" in AxisAttr(j);
    assert "range" in a <==> "range" in RangeAttr(j);
    assert a["type"] == S("hinge") && a["name"] == S(n);
  }

  /** A hinge's motor is limited to `-effort effort` (default effort 100)
      exactly when the joint has a limit, whatever the hinge's type. */
  lemma HingeMotorRange(j: Node, link: Name)
    requires IsHinge(JointType(j))
    ensures var ms := JointElements(j, link).1;
      |ms| == 1 &&
      ("ctrlrange" in ms[0].attrs <==> FindChild(j, "limit").Some?) &&
      (FindChild(j, "limit").Some? ==>
        var e := Get(FindChild(j, "limit").value, "effort", "100");
        ms[0].attrs["ctrlrange"] == S("-" + e + " " + e) && ms[0].attrs["ctrllimited"] == S("true"))
  {
  }

  /** `prismatic` joints become a slide and a motor without a control range;
      the slide has a `range` (defaults `0` and `1`) exactly when a limit
      exists. */
  lemma SlideMapping(j: Node, link: Name)
    requires JointType(j) == "prismatic"
    ensures var (js, ms) := JointElements(j, link);
      |js| == 1 && |ms| == 1 &&
      js[0].attrs["type"] == S("slide") &&
      js[0].attrs["name"] == ms[0].attrs["joint"] == S(JointName(j, link)) &&
      ("range" in js[0].attrs <==> FindChild(j, "limit").Some?) &&
      (FindChild(j, "limit").Some? ==> js[0].attrs["range"] == Range(FindChild(j, "limit").value, "0", "1")) &&
      "ctrlrange" !in ms[0].attrs && "ctrllimited" !in ms[0].attrs
  {
  }

  /** Every other joint type (`fixed`, `floating`, `planar`, unknown) emits
      neither a joint element nor a motor. */
  lemma OtherJointsVanish(j: Node, link: Name)
    requires !IsHinge(JointType(j)) && JointType(j) != "prismatic"
    ensures JointElements(j, link) == ([], [])
  {
  }

  /** A body attached by a joint sits at the joint origin's `xyz` (default
      `0 0 0`) and has an `euler` exactly when the `rpy` text is not
      `"0 0 0"`; a link no joint attaches gets neither. */
  lemma BodyPose(joints: JointTables, link: Name)
    ensures link !in joints.parentOf ==> Attach(joints, link) == Attachment(map[], [], [])
    ensures link in joints.parentOf ==>
      var j := joints.parentOf[link].0;
      var pose := Attach(joints, link).pose;
      var o := FindChild(j, "origin");
      "pos" in pose && pose["pos"] == S(if o.Some? then Get(o.value, "xyz", Origin0()) else Origin0()) &&
      ("euler" in pose <==> o.Some? && Get(o.value, "rpy", Origin0()) != Origin0())
  {
  }

  /** The links a depth-first walk from `name` visits in pre-order, each
      link's children in joint document order, within `fuel` levels; names
      without a link are skipped. */
  function Reach(c: Context, name: Name, fuel: nat): (r: seq<Name>)
    ensures forall i :: 0 <= i < |r| ==> r[i] in c.links
    decreases fuel, 0, 0
  {
    if fuel == 0 || name !in c.links then []
    else [name] + ReachAll(c, ChildrenOf(c.joints, name), fuel - 1)
  }

  function ReachAll(c: Context, names: seq<Name>, fuel: nat): (r: seq<Name>)
    ensures forall i :: 0 <= i < |r| ==> r[i] in c.links
    decreases fuel, 1, |names|
  {
    if names == [] then []
    else Reach(c, names[0], fuel) + ReachAll(c, names[1..], fuel)
  }

  /** The `name` attributes of the `body` elements of a forest, in document
      (pre-)order. */
  function BodyNames(ts: seq<Tree>): seq<Option<Text>>
    decreases ts
  {
    if ts == [] then [] else TreeBodyNames(ts[0]) + BodyNames(ts[1..])
  }

  function TreeBodyNames(t: Tree): seq<Option<Text>>
    decreases t
  {
    (if t.tag == "body" && "name" in t.attrs then [t.attrs["name"]] else []) + BodyNames(t.children)
  }

  function NameValues(ns: seq<Name>): (r: seq<Option<Text>>)
    ensures |r| == |ns|
  {
    if ns == [] then [] else [NameValue(ns[0])] + NameValues(ns[1..])
  }

  lemma {:induction false} BodyNamesAppend(a: seq<Tree>, b: seq<Tree>)
    ensures BodyNames(a + b) == BodyNames(a) + BodyNames(b)
  {
    if a == [] {
      assert a + b == b;
    } else {
      assert (a + b)[0] == a[0] && (a + b)[1..] == a[1..] + b;
      BodyNamesAppend(a[1..], b);
      var h := TreeBodyNames(a[0]);
      assert h + (BodyNames(a[1..]) + BodyNames(b)) == (h + BodyNames(a[1..])) + BodyNames(b);
    }
  }

  lemma {:induction false} NameValuesAppend(a: seq<Name>, b: seq<Name>)
    ensures NameValues(a + b) == NameValues(a) + NameValues(b)
  {
    if a == [] {
      assert a + b == b;
    } else {
      assert (a + b)[0] == a[0] && (a + b)[1..] == a[1..] + b;
      NameValuesAppend(a[1..], b);
      var h := [NameValue(a[0])];
      assert h + (NameValues(a[1..]) + NameValues(b)) == (h + NameValues(a[1..])) + NameValues(b);
    }
  }

  /** Trees that are not bodies and have no children name no body. */
  predicate Leaves(ts: seq<Tree>) {
    forall i :: 0 <= i < |ts| ==> ts[i].tag != "body" && ts[i].children == []
  }

  lemma {:induction false} LeavesNameNoBody(ts: seq<Tree>)
    requires Leaves(ts)
    ensures BodyNames(ts) == []
  {
    if ts != [] {
      LeavesNameNoBody(ts[1..]);
    }
  }

  lemma LeavesAppend(a: seq<Tree>, b: seq<Tree>)
    requires Leaves(a) && Leaves(b)
    ensures Leaves(a + b)
  {
  }

  lemma {:induction false} GeomsAreLeaves(vs: seq<Node>, link: Name, collision: bool, float: string -> Option<real>)
    requires Geoms(vs, link, collision, float).Ok?
    ensures Leaves(Geoms(vs, link, collision, float).value)
    decreases |vs|
  {
    if vs != [] {
      GeomsAreLeaves(vs[1..], link, collision, float);
    }
  }

  lemma JointIsLeaf(joints: JointTables, name: Name)
    ensures Leaves(Attach(joints, name).joint)
    ensures "name" !in Attach(joints, name).pose
  {
  }

  lemma InertialIsLeaf(link: Node)
    ensures Leaves(Inertial(link))
  {
  }

  /** When a body is built, so are its geoms and its children, and it is
      one `body` element. */
  lemma BodyOk(c: Context, name: Name, fuel: nat)
    requires Body(c, name, fuel).Ok? && fuel > 0 && name in c.links
    ensures Visuals(c.links[name], name, c.float).Ok?
    ensures Collisions(c.links[name], name, c.float).Ok?
    ensures Bodies(c, ChildrenOf(c.joints, name), fuel - 1).Ok?
    ensures Body(c, name, fuel).value.bodies == [BodyTree(name, Attach(c.joints, name),
      Inertial(c.links[name]) + Visuals(c.links[name], name, c.float).value + Collisions(c.links[name], name, c.float).value,
      Bodies(c, ChildrenOf(c.joints, name), fuel - 1).value.bodies)]
  {
  }

  /** A `body` element names itself, then its child bodies. */
  lemma BodyTreeNames(name: Name, at: Attachment, own: seq<Tree>, kids: seq<Tree>)
    requires Leaves(at.joint + own) && "name" !in at.pose
    ensures BodyNames([BodyTree(name, at, own, kids)]) == [NameValue(name)] + BodyNames(kids)
  {
    var t := BodyTree(name, at, own, kids);
    assert t.attrs["name"] == NameValue(name);
    assert BodyNames([t]) == TreeBodyNames(t) + BodyNames([]);
    assert t.children == (at.joint + own) + kids;
    BodyNamesAppend(at.joint + own, kids);
    LeavesNameNoBody(at.joint + own);
  }

  /** The bodies emitted for a link are named, in document order, by the
      pre-order walk of its subtree: depth-first, children in joint document
      order, only links that exist. */
  lemma {:induction false} BodyPreorder(c: Context, name: Name, fuel: nat)
    requires Body(c, name, fuel).Ok?
    ensures BodyNames(Body(c, name, fuel).value.bodies) == NameValues(Reach(c, name, fuel))
    decreases fuel, 0
  {
    if fuel > 0 && name in c.links {
      var link := c.links[name];
      var at := Attach(c.joints, name);
      BodyOk(c, name, fuel);
      var vis := Visuals(link, name, c.float).value;
      var col := Collisions(link, name, c.float).value;
      var kids := Bodies(c, ChildrenOf(c.joints, name), fuel - 1).value;
      GeomsAreLeaves(FindChildren(link.children, "visual"), name, false, c.float);
      GeomsAreLeaves(FindChildren(link.children, "collision"), name, true, c.float);
      JointIsLeaf(c.joints, name);
      InertialIsLeaf(link);
      LeavesAppend(Inertial(link), vis);
      LeavesAppend(Inertial(link) + vis, col);
      LeavesAppend(at.joint, Inertial(link) + vis + col);
      BodyTreeNames(name, at, Inertial(link) + vis + col, kids.bodies);
      BodiesPreorder(c, ChildrenOf(c.joints, name), fuel - 1);
      var rest := ReachAll(c, ChildrenOf(c.joints, name), fuel - 1);
      assert Reach(c, name, fuel) == [name] + rest;
      NameValuesAppend([name], rest);
    }
  }
  lemma {:induction false} BodiesPreorder(c: Context, names: seq<Name>, fuel: nat)
    requires Bodies(c, names, fuel).Ok?
    ensures BodyNames(Bodies(c, names, fuel).value.bodies) == NameValues(ReachAll(c, names, fuel))
    decreases fuel, 1, |names|
  {
    if names != [] {
      BodyPreorder(c, names[0], fuel);
      BodiesPreorder(c, names[1..], fuel);
      BodyNamesAppend(Body(c, names[0], fuel).value.bodies, Bodies(c, names[1..], fuel).value.bodies);
      NameValuesAppend(Reach(c, names[0], fuel), ReachAll(c, names[1..], fuel));
    }
  }

  /** The world body of a built document holds the floor, the light and
      then the bodies of the links reachable from the root, in pre-order. */
  lemma MujocoNesting(robot: Node, float: string -> Option<real>, depth: nat)
    requires Mujoco(robot, float, depth).Ok?
    ensures var links := Links(LinkNodes(robot));
      var joints := Joints(JointNodes(robot)).value;
      var root := RootOf(links.order, joints.parentOf.Keys).value;
      var world := Mujoco(robot, float, depth).value.children[2];
      world.tag == "worldbody" && world.children[..2] == [Floor(), Light()] &&
      BodyNames(world.children[2..]) == NameValues(Reach(Context(links.table, joints, float), root, depth))
  {
    var links := Links(LinkNodes(robot));
    var joints := Joints(JointNodes(robot)).value;
    var root := RootOf(links.order, joints.parentOf.Keys).value;
    var c := Context(links.table, joints, float);
    BodyPreorder(c, root, depth);
    var bodies := Body(c, root, depth).value.bodies;
    assert ([Floor(), Light()] + bodies)[2..] == bodies;
  }

  /** A document without links raises `IndexError` once the joints are read. */
  lemma NoLinks(robot: Node, float: string -> Option<real>, depth: nat)
    requires LinkNodes(robot) == [] && Joints(JointNodes(robot)).Ok?
    ensures Mujoco(robot, float, depth) == Err(IndexError)
  {
    RootSelection(LinkNodes(robot), Joints(JointNodes(robot)).value.parentOf.Keys);
  }

  /** One failing body makes the whole list of siblings fail. */
  lemma {:induction false} BodiesFailAt(c: Context, names: seq<Name>, fuel: nat, k: nat)
    requires k < |names| && Body(c, names[k], fuel).Err?
    ensures Bodies(c, names, fuel).Err?
    decreases k
  {
    if k > 0 && Body(c, names[0], fuel).Ok? {
      BodiesFailAt(c, names[1..], fuel, k - 1);
    }
  }

  /** A link that is its own child (a joint with the same parent and child)
      is never built, whatever the recursion limit: `_build_body` has no
      visited set and recurses until the limit is hit, if no geometry error
      stops it first. */
  lemma {:induction false} SelfLoopNeverBuilt(c: Context, name: Name, fuel: nat)
    requires name in c.links && name in ChildrenOf(c.joints, name)
    ensures Body(c, name, fuel).Err?
    decreases fuel
  {
    if fuel > 0 {
      SelfLoopNeverBuilt(c, name, fuel - 1);
      var kids := ChildrenOf(c.joints, name);
      var k :| 0 <= k < |kids| && kids[k] == name;
      BodiesFailAt(c, kids, fuel - 1, k);
    }
  }
}
