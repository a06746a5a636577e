/** `urdf_to_sdf` (`src/convert.py:251-390`): the Gazebo SDF document built
    from a parsed URDF robot. Unlike the MuJoCo converter it does not nest:
    every link becomes a `link` element and every joint a `joint` element of
    one `model`, in document order, links first. */
module Sdf {
  import opened Wrappers
  import opened Strings
  import opened Pieces
  import opened Xml
  import opened ConvertHelpers
  import opened UrdfTables

  // ---------------------------------------------------------------------------
  // Poses, inertials, visuals and collisions
  // ---------------------------------------------------------------------------

  /** `pose.text = f"{xyz} {rpy}"` for an `origin` element. */
  function Pose(origin: Node): Tree {
    var (xyz, rpy) := OriginToPosEuler(Some(origin));
    Leaf("pose", Some(xyz + " " + rpy))
  }

  /** A `pose` element when the URDF element has an `origin`. */
  function PoseOf(e: Node): seq<Tree> {
    match FindChild(e, "origin")
    case None => []
    case Some(o) => [Pose(o)]
  }

  /** The components of the inertia tensor, in the order they are emitted. */
  function InertiaKeys(): seq<string> {
    ["ixx", "ixy", "ixz", "iyy", "iyz", "izz"]
  }

  /** One element per key, its text the URDF attribute or `0.001`. */
  function InertiaLeaves(inertia: Node, keys: seq<string>): (r: seq<Tree>)
    ensures |r| == |keys|
    ensures forall i :: 0 <= i < |keys| ==> r[i] == Leaf(keys[i], Some(Get(inertia, keys[i], "0.001")))
  {
    if keys == [] then [] else [Leaf(keys[0], Some(Get(inertia, keys[0], "0.001")))] + InertiaLeaves(inertia, keys[1..])
  }

  /** `for attr in [...]: ET.SubElement(sdf_inertia, attr).text = ...`. */
  method EmitInertia(inertia: Node) returns (r: Tree)
    ensures r == Elem("inertia", map[], InertiaLeaves(inertia, InertiaKeys()))
  {
    var keys := InertiaKeys();
    var cs: seq<Tree> := [];
    for i := 0 to |keys|
      invariant cs == InertiaLeaves(inertia, keys[..i])
    {
      assert keys[..i + 1] == keys[..i] + [keys[i]];
      InertiaLeavesAppend(inertia, keys[..i], [keys[i]]);
      cs := cs + [Leaf(keys[i], Some(Get(inertia, keys[i], "0.001")))];
    }
    assert keys[..|keys|] == keys;
    r := Elem("inertia", map[], cs);
  }

  lemma InertiaLeavesAppend(inertia: Node, a: seq<string>, b: seq<string>)
    ensures InertiaLeaves(inertia, a + b) == InertiaLeaves(inertia, a) + InertiaLeaves(inertia, b)
  {
    assert |InertiaLeaves(inertia, a + b)| == |a + b|;
  }

  /** The `inertial` element of a link with one: its `mass` (default `1.0`)
      when it has one, its `inertia` when it has one, its `pose` when it has
      an origin. */
  function Inertial(link: Node): seq<Tree> {
    match FindChild(link, "inertial")
    case None => []
    case Some(i) =>
      var mass := match FindChild(i, "mass")
        case None => []
        case Some(m) => [Leaf("mass", Some(Get(m, "value", "1.0")))];
      var inertia := match FindChild(i, "inertia")
        case None => []
        case Some(t) => [Elem("inertia", map[], InertiaLeaves(t, InertiaKeys()))];
      [Elem("inertial", map[], mass + inertia + PoseOf(i))]
  }

  /** A `geometry` element holding the converted shapes, when the URDF
      element has a geometry. */
  function GeometryOf(e: Node): seq<Tree> {
    match FindChild(e, "geometry")
    case None => []
    case Some(g) => [Elem("geometry", map[], SdfShapes(g.children))]
  }

  /** A `material` element when the visual has one; it holds `ambient` and
      `diffuse`, both the color's `rgba` (default `0.5 0.5 0.5 1`), when
      the material has a color. */
  function MaterialOf(v: Node): seq<Tree> {
    match FindChild(v, "material")
    case None => []
    case Some(m) =>
      var colors := match FindChild(m, "color")
        case None => []
        case Some(c) =>
          var rgba := Get(c, "rgba", "0.5 0.5 0.5 1");
          [Leaf("ambient", Some(rgba)), Leaf("diffuse", Some(rgba))];
      [Elem("material", map[], colors)]
  }

  /** `f"{link_name}_{kind}_{i}"`. */
  function PartName(link: Name, kind: string, i: nat): string {
    Show(link) + "_" + kind + "_" + NatToString(i)
  }

  /** The `i`-th visual of a link. */
  function Visual(v: Node, link: Name, i: nat): Tree {
    Elem("visual", map["name" := S(PartName(link, "visual", i))], PoseOf(v) + GeometryOf(v) + MaterialOf(v))
  }

  /** The `i`-th collision of a link: like a visual, without material. */
  function Collision(v: Node, link: Name, i: nat): Tree {
    Elem("collision", map["name" := S(PartName(link, "collision", i))], PoseOf(v) + GeometryOf(v))
  }

  /** The `i`-th part of a link of the given kind. */
  function Part(v: Node, link: Name, collision: bool, i: nat): Tree {
    if collision then Collision(v, link, i) else Visual(v, link, i)
  }

  /** `enumerate(vs)` mapped through `f`. */
  function Enumerate(vs: seq<Node>, f: (Node, nat) -> Tree): (r: seq<Tree>)
    ensures |r| == |vs|
    ensures forall i :: 0 <= i < |vs| ==> r[i] == f(vs[i], i)
  {
    seq(|vs|, i requires 0 <= i < |vs| => f(vs[i], i))
  }

  lemma EnumerateSnoc(vs: seq<Node>, i: nat, f: (Node, nat) -> Tree)
    requires i < |vs|
    ensures Enumerate(vs[..i + 1], f) == Enumerate(vs[..i], f) + [f(vs[i], i)]
  {
    var a := Enumerate(vs[..i + 1], f);
    var b := Enumerate(vs[..i], f) + [f(vs[i], i)];
    assert forall k :: 0 <= k < |a| ==> a[k] == b[k];
  }

  /** `for i, visual in enumerate(...)` (and the same for collisions). */
  function Parts(vs: seq<Node>, link: Name, collision: bool): seq<Tree> {
    Enumerate(vs, (v, i: nat) => Part(v, link, collision, i))
  }

  /** The `link` element: the inertial, the visuals, the collisions. */
  function Link(l: Node): Tree {
    var name := NameOf(l);
    Elem("link", map["name" := NameValue(name)],
      Inertial(l) + Parts(FindChildren(l.children, "visual"), name, false)
        + Parts(FindChildren(l.children, "collision"), name, true))
  }

  /** The parts of one kind, one loop iteration each. */
  method EmitParts(vs: seq<Node>, link: Name, collision: bool) returns (r: seq<Tree>)
    ensures r == Parts(vs, link, collision)
  {
    var f := (v, i: nat) => Part(v, link, collision, i);
    r := [];
    for i := 0 to |vs|
      invariant r == Enumerate(vs[..i], f)
    {
      EnumerateSnoc(vs, i, f);
      r := r + [Part(vs[i], link, collision, i)];
    }
    assert vs[..|vs|] == vs;
  }

  /** One iteration of the link loop (`src/convert.py:270-336`). */
  method EmitLink(l: Node) returns (r: Tree)
    ensures r == Link(l)
  {
    var name := NameOf(l);
    var inertial: seq<Tree> := [];
    var i := FindChild(l, "inertial");
    if i.Some? {
      var mass: seq<Tree> := [];
      var m := FindChild(i.value, "mass");
      if m.Some? {
        mass := [Leaf("mass", Some(Get(m.value, "value", "1.0")))];
      }
      var inertia: seq<Tree> := [];
      var t := FindChild(i.value, "inertia");
      if t.Some? {
        var e := EmitInertia(t.value);
        inertia := [e];
      }
      inertial := [Elem("inertial", map[], mass + inertia + PoseOf(i.value))];
    }
    var visuals := EmitParts(FindChildren(l.children, "visual"), name, false);
    var collisions := EmitParts(FindChildren(l.children, "collision"), name, true);
    r := Elem("link", map["name" := NameValue(name)], inertial + visuals + collisions);
  }

  // ---------------------------------------------------------------------------
  // Joints
  // ---------------------------------------------------------------------------

  /** `sdf_type_map`. */
  function TypeTable(): map<string, string> {
    map["revolute" := "revolute", "continuous" := "revolute", "prismatic" := "prismatic",
        "fixed" := "fixed", "floating" := "ball", "planar" := "prismatic"]
  }

  /** `sdf_type_map.get(joint_type, "revolute")`. */
  function SdfType(t: string): string {
    if t in TypeTable() then TypeTable()[t] else "revolute"
  }

  /** The `xyz` of the joint's axis, default `0 0 1`. */
  function AxisXyz(j: Node): string {
    match FindChild(j, "axis")
    case None => "0 0 1"
    case Some(a) => Get(a, "xyz", "0 0 1")
  }

  /** The `limit` element when the URDF joint has one: `lower` and `upper`
      (defaults `-3.14` and `3.14`) unless the joint is `continuous`, then
      `effort` (default `100`) and `velocity` (default `1.0`). */
  function Limit(j: Node): seq<Tree> {
    match FindChild(j, "limit")
    case None => []
    case Some(l) =>
      var bounds := if JointType(j) != "continuous"
        then [Leaf("lower", Some(Get(l, "lower", "-3.14"))), Leaf("upper", Some(Get(l, "upper", "3.14")))]
        else [];
      [Elem("limit", map[], bounds + [Leaf("effort", Some(Get(l, "effort", "100"))), Leaf("velocity", Some(Get(l, "velocity", "1.0")))])]
  }

  /** The `axis` element of every joint that is not `fixed` in SDF. */
  function Axis(j: Node): seq<Tree> {
    if SdfType(JointType(j)) == "fixed" then []
    else [Elem("axis", map[], [Leaf("xyz", Some(AxisXyz(j)))] + Limit(j))]
  }

  /** The `joint` element for a joint whose `parent` and `child` links are
      `ends`. */
  function JointTree(j: Node, ends: (Name, Name)): Tree {
    Elem("joint", map["name" := NameValue(NameOf(j)), "type" := S(SdfType(JointType(j)))],
      [Leaf("parent", ends.0), Leaf("child", ends.1)] + PoseOf(j) + Axis(j))
  }

  /** One joint, or the `AttributeError` raised reading its ends. */
  function Joint(j: Node): Result<Tree, string> {
    var ends :- JointEnds(j);
    Ok(JointTree(j, ends))
  }

  /** The elements `f` makes of `js`, in order, or the first error it
      raises. */
  function Collect(js: seq<Node>, f: Node -> Result<Tree, string>): Result<seq<Tree>, string>
    decreases |js|
  {
    if js == [] then Ok([])
    else
      var front :- Collect(js[..|js| - 1], f);
      var last :- f(js[|js| - 1]);
      Ok(front + [last])
  }

  /** The joint elements in document order, or the first error. */
  function JointTrees(js: seq<Node>): Result<seq<Tree>, string> {
    Collect(js, Joint)
  }

  /** The joint loop (`src/convert.py:339-388`). */
  method EmitJoints(js: seq<Node>) returns (r: Result<seq<Tree>, string>)
    ensures r == JointTrees(js)
  {
    var acc: seq<Tree> := [];
    for i := 0 to |js|
      invariant Collect(js[..i], Joint) == Ok(acc)
    {
      assert js[..i + 1][..i] == js[..i];
      var t := Joint(js[i]);
      if t.Err? {
        CollectFailedPrefix(js, i + 1, Joint);
        return Err(t.error);
      }
      acc := acc + [t.value];
    }
    assert js[..|js|] == js;
    r := Ok(acc);
  }

  /** The first error of a prefix is the error of the whole list. */
  lemma {:induction false} CollectFailedPrefix(js: seq<Node>, n: nat, f: Node -> Result<Tree, string>)
    requires n <= |js| && Collect(js[..n], f).Err?
    ensures Collect(js, f) == Collect(js[..n], f)
    decreases |js|
  {
    if n < |js| {
      var front := js[..|js| - 1];
      assert front[..n] == js[..n];
      CollectFailedPrefix(front, n, f);
    } else {
      assert js[..n] == js;
    }
  }

  /** `Collect` succeeds exactly when `f` does on every element, and then
      holds `f`'s elements in order; its error is one `f` raised. */
  lemma {:induction false} CollectSpec(js: seq<Node>, f: Node -> Result<Tree, string>)
    ensures Collect(js, f).Ok? <==> forall i :: 0 <= i < |js| ==> f(js[i]).Ok?
    ensures Collect(js, f).Ok? ==>
      |Collect(js, f).value| == |js| &&
      forall i :: 0 <= i < |js| ==> Collect(js, f).value[i] == f(js[i]).value
    ensures Collect(js, f).Err? ==> exists i :: 0 <= i < |js| && f(js[i]) == Err(Collect(js, f).error)
    decreases |js|
  {
    if js != [] {
      var front := js[..|js| - 1];
      CollectSpec(front, f);
      assert forall i :: 0 <= i < |front| ==> front[i] == js[i];
      if Collect(front, f).Err? {
        var i :| 0 <= i < |front| && f(front[i]) == Err(Collect(front, f).error);
        assert f(js[i]) == Err(Collect(js, f).error);
      } else if f(js[|js| - 1]).Err? {
        assert f(js[|js| - 1]) == Err(Collect(js, f).error);
      }
    }
  }

  // ---------------------------------------------------------------------------
  // The document
  // ---------------------------------------------------------------------------

  /** `<sdf version="1.7"><model name=...><static>false</static>` then the
      links and the joints. */
  function Document(name: string, links: seq<Tree>, joints: seq<Tree>): Tree {
    Elem("sdf", map["version" := S("1.7")],
      [Elem("model", map["name" := S(name)], [Leaf("static", Some("false"))] + links + joints)])
  }

  function LinkTrees(ls: seq<Node>): (r: seq<Tree>)
    ensures |r| == |ls| && forall i :: 0 <= i < |ls| ==> r[i] == Link(ls[i])
  {
    seq(|ls|, i requires 0 <= i < |ls| => Link(ls[i]))
  }

  /** The document for a parsed robot, or the error raised building it. */
  function SdfDocument(robot: Node): Result<Tree, string> {
    var joints :- JointTrees(JointNodes(robot));
    Ok(Document(RobotName(robot), LinkTrees(LinkNodes(robot)), joints))
  }

  /** `urdf_to_sdf`: parse the text after any leading junk, build the
      document, serialize it. `parse` stands for `ET.fromstring`. */
  function SdfOf(urdf: string, parse: string -> Result<Node, string>): Result<Tree, string> {
    var robot :- parse(StripLeadingJunk(urdf));
    var doc :- SdfDocument(robot);
    Serialize(doc)
  }

  /** The body of `urdf_to_sdf` after parsing. */
  method BuildSdf(robot: Node) returns (r: Result<Tree, string>)
    ensures r == SdfDocument(robot)
  {
    var ls := LinkNodes(robot);
    var links: seq<Tree> := [];
    for i := 0 to |ls|
      invariant links == LinkTrees(ls[..i])
    {
      var l := EmitLink(ls[i]);
      links := links + [l];
    }
    assert ls[..|ls|] == ls;
    var joints := EmitJoints(JointNodes(robot));
    if joints.Err? {
      return Err(joints.error);
    }
    r := Ok(Document(RobotName(robot), links, joints.value));
  }

  method UrdfToSdf(urdf: string, parse: string -> Result<Node, string>) returns (r: Result<Tree, string>)
    ensures r == SdfOf(urdf, parse)
  {
    var robot := parse(StripLeadingJunk(urdf));
    if robot.Err? {
      return Err(robot.error);
    }
    var doc := BuildSdf(robot.value);
    if doc.Err? {
      return Err(doc.error);
    }
    r := Serialize(doc.value);
  }

  // ---------------------------------------------------------------------------
  // Properties
  // ---------------------------------------------------------------------------

  /** The joint-type table: only `fixed` stays fixed, only `floating`
      becomes a ball, `continuous` is revolute and `planar` prismatic, and
      any other type is revolute. */
  lemma TypeMapping(t: string)
    ensures SdfType(t) == "fixed" <==> t == "fixed"
    ensures SdfType(t) == "ball" <==> t == "floating"
    ensures SdfType(t) == "prismatic" <==> t == "prismatic" || t == "planar"
    ensures SdfType(t) == "revolute" <==> t != "fixed" && t != "floating" && t != "prismatic" && t != "planar"
  {
  }

  /** Every joint that is not fixed in SDF gets an axis, whose `xyz` is the
      URDF axis's or `0 0 1`; the axis holds a limit exactly when the URDF
      joint has one. A fixed joint has no axis. */
  lemma AxisShape(j: Node)
    ensures |Axis(j)| == 1 <==> JointType(j) != "fixed"
    ensures |Axis(j)| == 0 <==> JointType(j) == "fixed"
    ensures |Axis(j)| == 1 ==>
      Axis(j)[0].tag == "axis" &&
      Axis(j)[0].children[0] == Leaf("xyz", Some(AxisXyz(j))) &&
      (|Axis(j)[0].children| == 2 <==> FindChild(j, "limit").Some?) &&
      (|Axis(j)[0].children| == 1 <==> FindChild(j, "limit").None?)
    ensures FindChild(j, "axis").None? ==> AxisXyz(j) == "0 0 1"
  {
    TypeMapping(JointType(j));
  }

  /** The tags of a list of elements. */
  function Tags(ts: seq<Tree>): (r: seq<string>)
    ensures |r| == |ts| && forall i :: 0 <= i < |ts| ==> r[i] == ts[i].tag
  {
    if ts == [] then [] else [ts[0].tag] + Tags(ts[1..])
  }

  /** A limit holds `lower` and `upper` unless the joint is continuous, and
      always `effort` and `velocity`; the values are the URDF's or
      `-3.14`, `3.14`, `100` and `1.0`. */
  lemma LimitShape(j: Node)
    requires FindChild(j, "limit").Some?
    ensures var l := FindChild(j, "limit").value;
      var cs := Limit(j)[0].children;
      |Limit(j)| == 1 && Limit(j)[0].tag == "limit" &&
      (JointType(j) == "continuous" ==> Tags(cs) == ["effort", "velocity"]) &&
      (JointType(j) != "continuous" ==>
        Tags(cs) == ["lower", "upper", "effort", "velocity"] &&
        cs[0].text == Some(Str(Get(l, "lower", "-3.14"))) &&
        cs[1].text == Some(Str(Get(l, "upper", "3.14")))) &&
      cs[|cs| - 2].text == Some(Str(Get(l, "effort", "100"))) &&
      cs[|cs| - 1].text == Some(Str(Get(l, "velocity", "1.0")))
  {
  }

  /** A continuous joint never gets bounds. */
  lemma ContinuousUnbounded(j: Node)
    requires JointType(j) == "continuous"
    ensures forall a :: a in Axis(j) ==> forall l :: l in a.children ==>
      forall c :: c in l.children ==> c.tag != "lower" && c.tag != "upper"
  {
    if FindChild(j, "limit").Some? {
      LimitShape(j);
      var cs := Limit(j)[0].children;
      assert cs[0].tag == "effort" && cs[1].tag == "velocity";
    }
  }

  /** The joint list is built exactly when every joint has both ends, and
      then holds one element per joint, in document order; otherwise the
      conversion raises `AttributeError`. */
  lemma JointTreesSpec(js: seq<Node>)
    ensures JointTrees(js).Ok? <==> forall i :: 0 <= i < |js| ==> JointEnds(js[i]).Ok?
    ensures JointTrees(js).Ok? ==>
      |JointTrees(js).value| == |js| &&
      forall i :: 0 <= i < |js| ==> JointTrees(js).value[i] == JointTree(js[i], JointEnds(js[i]).value)
    ensures JointTrees(js).Err? ==> JointTrees(js).error == AttributeError
  {
    CollectSpec(js, Joint);
    if JointTrees(js).Err? {
      var i :| 0 <= i < |js| && Joint(js[i]) == Err(JointTrees(js).error);
      JointEndsSpec(js[i]);
    }
  }

  /** Two parts of the same kind and link have the same name only when they
      have the same index: the `_visual_<i>` names are distinct. */
  lemma PartNamesDistinct(link: Name, kind: string, i: nat, k: nat)
    requires PartName(link, kind, i) == PartName(link, kind, k)
    ensures i == k
  {
    var p := Show(link) + "_" + kind + "_";
    assert PartName(link, kind, i) == p + NatToString(i);
    assert PartName(link, kind, k) == p + NatToString(k);
    assert (p + NatToString(i))[|p|..] == NatToString(i);
    assert (p + NatToString(k))[|p|..] == NatToString(k);
    NatToStringRoundTrip(i);
    NatToStringRoundTrip(k);
  }

  /** SDF copies a sphere's radius as text; MuJoCo's size is the same
      text. */
  lemma SphereCopied(g: Attrs, c: Node, float: string -> Option<real>)
    requires ShapeOf(c.tag) == Sphere
    ensures SdfShape(c).value.children == [Leaf("radius", Some(Radius(c)))]
    ensures ApplyShape(g, c, float).Ok? && ApplyShape(g, c, float).value["size"] == S(Radius(c))
  {
    SphereAndMeshKept(g, c, float);
  }

  /** SDF copies a cylinder's radius and length as text, where MuJoCo keeps
      the radius and halves the length. */
  lemma CylinderCopied(g: Attrs, c: Node, float: string -> Option<real>)
    requires ShapeOf(c.tag) == Cylinder && float(Length(c)).Some?
    ensures SdfShape(c).value.children == [Leaf("radius", Some(Radius(c))), Leaf("length", Some(Length(c)))]
    ensures ApplyShape(g, c, float).Ok? && ApplyShape(g, c, float).value["size"].Some?
    ensures var size := ApplyShape(g, c, float).value["size"].value;
      |size| >= 1 && size[0] == Lit(Radius(c)) &&
      Pieces.Numbers(size) == [float(Length(c)).value / 2.0]
  {
    CylinderRadiusThenHalfLength(g, c, float);
  }

  /** SDF copies a box's size text unchanged. */
  lemma BoxCopied(c: Node)
    requires ShapeOf(c.tag) == Box
    ensures SdfShape(c).value.children == [Leaf("size", Some(BoxSize(c)))]
    ensures "size" !in c.attrs ==> BoxSize(c) == DefaultBoxSize()
  {
  }

  // Serialization: only the link and joint names can be `None`.

  predicate AllSerializable(ts: seq<Tree>) {
    forall i :: 0 <= i < |ts| ==> Serializable(ts[i])
  }

  lemma AllSerializableAppend(a: seq<Tree>, b: seq<Tree>)
    ensures AllSerializable(a + b) <==> AllSerializable(a) && AllSerializable(b)
  {
    if AllSerializable(a) && AllSerializable(b) {
      forall i | 0 <= i < |a + b|
        ensures Serializable((a + b)[i])
      {
        if i >= |a| {
          assert (a + b)[i] == b[i - |a|];
        } else {
          assert (a + b)[i] == a[i];
        }
      }
    }
    if AllSerializable(a + b) {
      forall i | 0 <= i < |a|
        ensures Serializable(a[i])
      {
        assert (a + b)[i] == a[i];
      }
      forall i | 0 <= i < |b|
        ensures Serializable(b[i])
      {
        assert (a + b)[|a| + i] == b[i];
      }
    }
  }

  /** An element is serializable exactly when its attributes are all
      strings and its children are serializable. */
  lemma ElemSerializable(tag: string, attrs: map<string, Option<Text>>, ts: seq<Tree>)
    ensures Serializable(Elem(tag, attrs, ts)) <==> (forall k :: k in attrs ==> attrs[k].Some?) && AllSerializable(ts)
  {
  }

  /** An element named `name` whose other attributes are strings and whose
      children are serializable is serializable exactly when the name is
      not `None`. */
  lemma NamedSerializable(tag: string, name: Option<Text>, attrs: map<string, Option<Text>>, ts: seq<Tree>)
    requires AllSerializable(ts) && forall k :: k in attrs ==> attrs[k].Some?
    ensures Serializable(Elem(tag, attrs["name" := name], ts)) <==> name.Some?
  {
    ElemSerializable(tag, attrs["name" := name], ts);
    assert "name" in attrs["name" := name];
  }

  lemma LeafSerializable(tag: string, v: Option<string>)
    ensures Serializable(Leaf(tag, v))
  {
  }

  lemma ShapeSerializable(c: Node)
    requires SdfShape(c).Some?
    ensures Serializable(SdfShape(c).value)
  {
    var t := SdfShape(c).value;
    assert t.attrs == map[];
    forall i | 0 <= i < |t.children|
      ensures Serializable(t.children[i])
    {
      assert t.children[i].attrs == map[] && t.children[i].children == [];
    }
  }

  lemma {:induction false} ShapesSerializable(cs: seq<Node>)
    ensures AllSerializable(SdfShapes(cs))
  {
    if cs != [] {
      ShapesSerializable(cs[1..]);
      var rest := SdfShapes(cs[1..]);
      match SdfShape(cs[0])
      case Some(t) =>
        ShapeSerializable(cs[0]);
        AllSerializableAppend([t], rest);
      case None =>
    }
  }

  lemma PoseSerializable(e: Node)
    ensures AllSerializable(PoseOf(e))
  {
  }

  lemma GeometrySerializable(e: Node)
    ensures AllSerializable(GeometryOf(e))
  {
    var g := FindChild(e, "geometry");
    if g.Some? {
      ShapesSerializable(g.value.children);
      ElemSerializable("geometry", map[], SdfShapes(g.value.children));
    }
  }

  lemma MaterialSerializable(v: Node)
    ensures AllSerializable(MaterialOf(v))
  {
    var m := FindChild(v, "material");
    if m.Some? {
      var colors := match FindChild(m.value, "color")
        case None => []
        case Some(c) =>
          var rgba := Get(c, "rgba", "0.5 0.5 0.5 1");
          [Leaf("ambient", Some(rgba)), Leaf("diffuse", Some(rgba))];
      ElemSerializable("material", map[], colors);
      assert MaterialOf(v) == [Elem("material", map[], colors)];
    }
  }

  lemma PartSerializable(v: Node, link: Name, collision: bool, i: nat)
    ensures Serializable(Part(v, link, collision, i))
  {
    PoseSerializable(v);
    GeometrySerializable(v);
    MaterialSerializable(v);
    AllSerializableAppend(PoseOf(v), GeometryOf(v));
    AllSerializableAppend(PoseOf(v) + GeometryOf(v), MaterialOf(v));
    if collision {
      ElemSerializable("collision", map["name" := S(PartName(link, "collision", i))], PoseOf(v) + GeometryOf(v));
    } else {
      ElemSerializable("visual", map["name" := S(PartName(link, "visual", i))], PoseOf(v) + GeometryOf(v) + MaterialOf(v));
    }
  }

  lemma PartsSerializable(vs: seq<Node>, link: Name, collision: bool)
    ensures AllSerializable(Parts(vs, link, collision))
  {
    forall i | 0 <= i < |vs|
      ensures Serializable(Parts(vs, link, collision)[i])
    {
      PartSerializable(vs[i], link, collision, i);
    }
  }

  lemma InertiaSerializable(t: Node)
    ensures Serializable(Elem("inertia", map[], InertiaLeaves(t, InertiaKeys())))
  {
    var ls := InertiaLeaves(t, InertiaKeys());
    forall i | 0 <= i < |ls|
      ensures Serializable(ls[i])
    {
      LeafSerializable(InertiaKeys()[i], Some(Get(t, InertiaKeys()[i], "0.001")));
    }
    ElemSerializable("inertia", map[], ls);
  }

  lemma InertialSerializable(l: Node)
    ensures AllSerializable(Inertial(l))
  {
    var i := FindChild(l, "inertial");
    if i.Some? {
      var mass := match FindChild(i.value, "mass")
        case None => []
        case Some(m) => [Leaf("mass", Some(Get(m, "value", "1.0")))];
      var inertia := match FindChild(i.value, "inertia")
        case None => []
        case Some(t) => [Elem("inertia", map[], InertiaLeaves(t, InertiaKeys()))];
      if FindChild(i.value, "inertia").Some? {
        InertiaSerializable(FindChild(i.value, "inertia").value);
      }
      PoseSerializable(i.value);
      AllSerializableAppend(mass, inertia);
      AllSerializableAppend(mass + inertia, PoseOf(i.value));
      ElemSerializable("inertial", map[], mass + inertia + PoseOf(i.value));
      assert Inertial(l) == [Elem("inertial", map[], mass + inertia + PoseOf(i.value))];
    }
  }

  /** A link element is serializable exactly when the link has a name. */
  lemma LinkSerializable(l: Node)
    ensures Serializable(Link(l)) <==> NameOf(l).Some?
  {
    var name := NameOf(l);
    var vs := Parts(FindChildren(l.children, "visual"), name, false);
    var cs := Parts(FindChildren(l.children, "collision"), name, true);
    InertialSerializable(l);
    PartsSerializable(FindChildren(l.children, "visual"), name, false);
    PartsSerializable(FindChildren(l.children, "collision"), name, true);
    AllSerializableAppend(Inertial(l), vs);
    AllSerializableAppend(Inertial(l) + vs, cs);
    NamedSerializable("link", NameValue(name), map[], Inertial(l) + vs + cs);
    assert map[]["name" := NameValue(name)] == map["name" := NameValue(name)];
  }

  lemma LimitSerializable(j: Node)
    ensures AllSerializable(Limit(j))
  {
    if FindChild(j, "limit").Some? {
      var l := FindChild(j, "limit").value;
      var bounds := if JointType(j) != "continuous"
        then [Leaf("lower", Some(Get(l, "lower", "-3.14"))), Leaf("upper", Some(Get(l, "upper", "3.14")))]
        else [];
      var rest := [Leaf("effort", Some(Get(l, "effort", "100"))), Leaf("velocity", Some(Get(l, "velocity", "1.0")))];
      AllSerializableAppend(bounds, rest);
      ElemSerializable("limit", map[], bounds + rest);
      assert Limit(j) == [Elem("limit", map[], bounds + rest)];
    }
  }

  lemma AxisSerializable(j: Node)
    ensures AllSerializable(Axis(j))
  {
    LimitSerializable(j);
    if Axis(j) != [] {
      var xs := [Leaf("xyz", Some(AxisXyz(j)))];
      AllSerializableAppend(xs, Limit(j));
      ElemSerializable("axis", map[], xs + Limit(j));
    }
  }

  /** A joint element is serializable exactly when the joint has a name. */
  lemma JointSerializable(j: Node, ends: (Name, Name))
    ensures Serializable(JointTree(j, ends)) <==> NameOf(j).Some?
  {
    var ls := [Leaf("parent", ends.0), Leaf("child", ends.1)];
    AxisSerializable(j);
    PoseSerializable(j);
    AllSerializableAppend(ls, PoseOf(j));
    AllSerializableAppend(ls + PoseOf(j), Axis(j));
    var attrs := map["type" := S(SdfType(JointType(j)))];
    NamedSerializable("joint", NameValue(NameOf(j)), attrs, ls + PoseOf(j) + Axis(j));
    assert attrs["name" := NameValue(NameOf(j))] == map["name" := NameValue(NameOf(j)), "type" := S(SdfType(JointType(j)))];
  }

  lemma LinksSerializable(ls: seq<Node>)
    ensures AllSerializable(LinkTrees(ls)) <==> forall i :: 0 <= i < |ls| ==> NameOf(ls[i]).Some?
  {
    forall i | 0 <= i < |ls|
      ensures Serializable(LinkTrees(ls)[i]) <==> NameOf(ls[i]).Some?
    {
      LinkSerializable(ls[i]);
    }
  }

  lemma JointsSerializable(js: seq<Node>)
    requires JointTrees(js).Ok?
    ensures AllSerializable(JointTrees(js).value) <==> forall i :: 0 <= i < |js| ==> NameOf(js[i]).Some?
  {
    JointTreesSpec(js);
    forall i | 0 <= i < |js|
      ensures Serializable(JointTrees(js).value[i]) <==> NameOf(js[i]).Some?
    {
      JointSerializable(js[i], JointEnds(js[i]).value);
    }
  }

  lemma TopSerializable(name: string, links: seq<Tree>, joints: seq<Tree>)
    ensures Serializable(Document(name, links, joints)) <==> AllSerializable(links) && AllSerializable(joints)
  {
    var head := [Leaf("static", Some("false"))];
    AllSerializableAppend(head, links);
    AllSerializableAppend(head + links, joints);
    var model := Elem("model", map["name" := S(name)], head + links + joints);
    ElemSerializable("model", map["name" := S(name)], head + links + joints);
    ElemSerializable("sdf", map["version" := S("1.7")], [model]);
    LeafSerializable("static", Some("false"));
    assert AllSerializable(head);
    assert [model][0] == model;
    assert AllSerializable([model]) <==> Serializable(model);
  }

  /** `ET.tostring` raises `TypeError` exactly when some link or joint has
      no name. */
  lemma DocumentSerializable(robot: Node)
    requires SdfDocument(robot).Ok?
    ensures Serializable(SdfDocument(robot).value) <==>
      (forall i :: 0 <= i < |LinkNodes(robot)| ==> NameOf(LinkNodes(robot)[i]).Some?) &&
      (forall i :: 0 <= i < |JointNodes(robot)| ==> NameOf(JointNodes(robot)[i]).Some?)
  {
    var links := LinkTrees(LinkNodes(robot));
    var joints := JointTrees(JointNodes(robot)).value;
    LinksSerializable(LinkNodes(robot));
    JointsSerializable(JointNodes(robot));
    TopSerializable(RobotName(robot), links, joints);
    assert SdfDocument(robot).value == Document(RobotName(robot), links, joints);
  }

  /** The outcome of `urdf_to_sdf` on a document that parses: the
      `AttributeError` of a joint without both ends, else the `TypeError` of
      a link or joint without a name, else the document. */
  lemma SdfOutcome(urdf: string, parse: string -> Result<Node, string>)
    requires parse(StripLeadingJunk(urdf)).Ok?
    ensures var robot := parse(StripLeadingJunk(urdf)).value;
      var ls := LinkNodes(robot);
      var js := JointNodes(robot);
      var ends := forall i :: 0 <= i < |js| ==> JointEnds(js[i]).Ok?;
      var named := (forall i :: 0 <= i < |ls| ==> NameOf(ls[i]).Some?) && (forall i :: 0 <= i < |js| ==> NameOf(js[i]).Some?);
      (!ends ==> SdfOf(urdf, parse) == Err(AttributeError)) &&
      (ends && !named ==> SdfOf(urdf, parse) == Err(TypeError)) &&
      (ends && named ==> SdfOf(urdf, parse) == SdfDocument(robot))
  {
    var robot := parse(StripLeadingJunk(urdf)).value;
    var doc := SdfDocument(robot);
    assert SdfOf(urdf, parse) == if doc.Ok? then Serialize(doc.value) else Err(doc.error);
    JointTreesSpec(JointNodes(robot));
    if doc.Ok? {
      DocumentSerializable(robot);
    }
  }

  lemma DocumentLayout(name: string, links: seq<Tree>, joints: seq<Tree>)
    ensures var model := Document(name, links, joints).children[0].children;
      |model| == 1 + |links| + |joints| && model[0] == Leaf("static", Some("false")) &&
      (forall i :: 0 <= i < |links| ==> model[1 + i] == links[i]) &&
      (forall i :: 0 <= i < |joints| ==> model[1 + |links| + i] == joints[i])
  {
  }

  /** A built model holds `static`, then one element per link, in
      document order, then the joints. */
  lemma SdfLinksLayout(robot: Node)
    requires SdfDocument(robot).Ok?
    ensures var ls := LinkNodes(robot);
      var model := SdfDocument(robot).value.children[0].children;
      |model| == 1 + |ls| + |JointNodes(robot)| && model[0] == Leaf("static", Some("false")) &&
      forall i :: 0 <= i < |ls| ==> model[1 + i] == Link(ls[i])
  {
    var links := LinkTrees(LinkNodes(robot));
    var joints := JointTrees(JointNodes(robot)).value;
    CollectSpec(JointNodes(robot), Joint);
    assert SdfDocument(robot).value == Document(RobotName(robot), links, joints);
    DocumentLayout(RobotName(robot), links, joints);
  }

  lemma JointsLayout(name: string, links: seq<Tree>, js: seq<Node>)
    requires JointTrees(js).Ok?
    ensures var model := Document(name, links, JointTrees(js).value).children[0].children;
      |model| == 1 + |links| + |js| &&
      forall i :: 0 <= i < |js| ==> Joint(js[i]) == Ok(model[1 + |links| + i])
  {
    CollectSpec(js, Joint);
    DocumentLayout(name, links, JointTrees(js).value);
  }

  /** After the links, the model holds the element of each joint, in
      document order. */
  lemma SdfJointsLayout(robot: Node)
    requires SdfDocument(robot).Ok?
    ensures var js := JointNodes(robot);
      var model := SdfDocument(robot).value.children[0].children;
      |model| == 1 + |LinkNodes(robot)| + |js| &&
      forall i :: 0 <= i < |js| ==> Joint(js[i]) == Ok(model[1 + |LinkNodes(robot)| + i])
  {
    var links := LinkTrees(LinkNodes(robot));
    assert SdfDocument(robot).value == Document(RobotName(robot), links, JointTrees(JointNodes(robot)).value);
    JointsLayout(RobotName(robot), links, JointNodes(robot));
  }
}
