/** The helpers of `src/convert.py` that both converters use: stripping what
    precedes the XML declaration, reading an `<origin>`, and turning a URDF
    `<geometry>` into an MJCF `geom` or into SDF geometry elements. */
module ConvertHelpers {
  import opened Wrappers
  import opened Strings
  import opened Numbers
  import opened Pieces
  import opened Xml

  const XmlDeclStart := "<?xml"

  /** `_parse_urdf`'s clean-up: from the first case-sensitive `<?xml` to the
      end of the input, or the whole input when there is none. */
  function StripLeadingJunk(s: string): (r: string)
    ensures Contains(s, XmlDeclStart) ==>
      |XmlDeclStart| <= |r| <= |s| && r[..|XmlDeclStart|] == XmlDeclStart &&
      s == s[..|s| - |r|] + r &&
      forall k :: 0 <= k < |s| - |r| ==> !OccursAt(s, k, XmlDeclStart, false)
    ensures !Contains(s, XmlDeclStart) ==> r == s
  {
    match Find(s, XmlDeclStart, 0, false)
    case Some(i) =>
      OccursAtIffSlice(s, i, XmlDeclStart);
      assert s == s[..i] + s[i..];
      assert s[i..][..|XmlDeclStart|] == s[i..i + |XmlDeclStart|];
      s[i..]
    case None => s
  }

  /** Stripping twice is stripping once: the result already starts with the
      declaration. */
  lemma StripLeadingJunkIdempotent(s: string)
    ensures StripLeadingJunk(StripLeadingJunk(s)) == StripLeadingJunk(s)
  {
    var r := StripLeadingJunk(s);
    if Contains(s, XmlDeclStart) {
      OccursAtIffSlice(r, 0, XmlDeclStart);
      FindIsFirst(r, XmlDeclStart, 0, 0, false);
    }
  }

  /** The default `xyz` and `rpy`. */
  function Origin0(): string { "0 0 0" }

  /** `_origin_to_pos_euler`: the `xyz` and `rpy` of an origin, each
      defaulting to `0 0 0`, and both `0 0 0` without an origin. */
  function OriginToPosEuler(origin: Option<Node>): (r: (string, string))
    ensures origin.None? ==> r == (Origin0(), Origin0())
    ensures origin.Some? ==> r.0 == Get(origin.value, "xyz", Origin0()) && r.1 == Get(origin.value, "rpy", Origin0())
  {
    match origin
    case None => (Origin0(), Origin0())
    case Some(o) => (Get(o, "xyz", Origin0()), Get(o, "rpy", Origin0()))
  }

  // ---------------------------------------------------------------------------
  // Shapes
  // ---------------------------------------------------------------------------

  /** The shape a geometry child names; the tag is compared lower-cased. */
  datatype Shape = Box | Cylinder | Sphere | Mesh | Other

  function ShapeOf(tag: string): Shape {
    if TagIs(tag, "box") then Box
    else if TagIs(tag, "cylinder") then Cylinder
    else if TagIs(tag, "sphere") then Sphere
    else if TagIs(tag, "mesh") then Mesh
    else Other
  }

  /** `tag.lower() == name` for a lower-case `name`. */
  predicate TagIs(tag: string, name: string) {
    |tag| == |name| && OccursAt(tag, 0, name, true)
  }

  // The defaults are functions rather than constants, so that the solver
  // meets their characters only where a default is read.
  function DefaultBoxSize(): string { "0.1 0.1 0.1" }
  function DefaultBoxComponent(): string { "0.1" }
  function DefaultRadius(): string { "0.05" }
  function DefaultLength(): string { "0.1" }
  const ValueError := "ValueError: could not convert string to float"

  function BoxSize(c: Node): string { Get(c, "size", DefaultBoxSize()) }
  function Radius(c: Node): string { Get(c, "radius", DefaultRadius()) }
  function Length(c: Node): string { Get(c, "length", DefaultLength()) }

  /** `size.split()` of a box's size, with the default's three words
      written out (`BoxWordsSplit` shows they are its split). */
  function BoxWords(c: Node): seq<string> {
    match Attr(c, "size")
    case Some(v) => Words(v)
    case None => [DefaultBoxComponent(), DefaultBoxComponent(), DefaultBoxComponent()]
  }
  function Filename(c: Node): string { Get(c, "filename", "") }

  /** `BoxWords` is the split of the size attribute, or of its default. */
  lemma BoxWordsSplit(c: Node)
    ensures BoxWords(c) == Words(BoxSize(c))
  {
    if "size" !in c.attrs {
      DefaultBoxWords();
    }
  }

  lemma DefaultBoxWords()
    ensures Words(DefaultBoxSize()) == [DefaultBoxComponent(), DefaultBoxComponent(), DefaultBoxComponent()]
  {
    var d := DefaultBoxComponent();
    DefaultBoxSpelled();
    ThreeWords(d, ' ');
  }

  lemma DefaultBoxSpelled()
    ensures IsWord(DefaultBoxComponent())
    ensures DefaultBoxSize() == DefaultBoxComponent() + ([' '] + (DefaultBoxComponent() + ([' '] + DefaultBoxComponent())))
  {
    var d := DefaultBoxComponent();
    assert d[0] == '0' && d[1] == '.' && d[2] == '1';
  }

  /** Every word reads as a float. */
  predicate AllFloats(words: seq<string>, float: string -> Option<real>) {
    forall i :: 0 <= i < |words| ==> float(words[i]).Some?
  }

  /** `float(v) / 2` for each word, or `ValueError` when a word is not a
      number. */
  function Halves(words: seq<string>, float: string -> Option<real>): (r: Result<seq<real>, string>)
    ensures r.Ok? <==> AllFloats(words, float)
    ensures r.Ok? ==> (|r.value| == |words| &&
      forall i :: 0 <= i < |words| ==> r.value[i] * 2.0 == float(words[i]).value)
  {
    if AllFloats(words, float) then Ok(seq(|words|, i requires 0 <= i < |words| => float(words[i]).value / 2.0))
    else Err(ValueError)
  }

  // ---------------------------------------------------------------------------
  // URDF geometry -> MJCF geom
  // ---------------------------------------------------------------------------

  type Attrs = map<string, Option<Text>>

  /** What one geometry child does to the attributes of the MJCF geom: a
      shape sets `type` and `size` (a mesh sets `type` and `mesh`); anything
      else leaves them alone. */
  function ApplyShape(g: Attrs, c: Node, float: string -> Option<real>): Result<Attrs, string> {
    match ShapeOf(c.tag)
    case Box =>
      var h :- Halves(BoxWords(c), float);
      Ok(g["type" := S("box")]["size" := Some(JoinNums(h, " "))])
    case Cylinder =>
      (match float(Length(c))
       case None => Err(ValueError)
       case Some(l) => Ok(g["type" := S("cylinder")]["size" := Some([Lit(Radius(c)), Lit(" "), Num(l / 2.0)])]))
    case Sphere => Ok(g["type" := S("sphere")]["size" := S(Radius(c))])
    case Mesh => Ok(g["type" := S("mesh")]["mesh" := S(Filename(c))])
    case Other => Ok(g)
  }

  /** The geom attributes after applying the children `cs` in order. */
  function GeomFold(g: Attrs, cs: seq<Node>, float: string -> Option<real>): Result<Attrs, string>
    decreases |cs|
  {
    if cs == [] then Ok(g)
    else
      var g' :- ApplyShape(g, cs[0], float);
      GeomFold(g', cs[1..], float)
  }

  /** `_convert_geometry`: a `geom` element whose attributes the children of
      `geom` set one after the other, so the last shape wins. */
  method ConvertGeometry(geom: Node, float: string -> Option<real>) returns (r: Result<Tree, string>)
    ensures r.Ok? <==> GeomFold(map[], geom.children, float).Ok?
    ensures r.Ok? ==> r.value == Elem("geom", GeomFold(map[], geom.children, float).value, [])
    ensures r.Err? ==> r == Err(ValueError)
  {
    var attrs: Attrs := map[];
    for i := 0 to |geom.children|
      invariant GeomFold(map[], geom.children, float) == GeomFold(attrs, geom.children[i..], float)
    {
      assert geom.children[i..][1..] == geom.children[i + 1..];
      var next := ApplyShape(attrs, geom.children[i], float);
      if next.Err? {
        GeomFoldError(map[], geom.children, float);
        return Err(ValueError);
      }
      attrs := next.value;
    }
    assert geom.children[|geom.children|..] == [];
    return Ok(Elem("geom", attrs, []));
  }

  /** The only error the geometry conversion raises is `ValueError`. */
  lemma {:induction false} GeomFoldError(g: Attrs, cs: seq<Node>, float: string -> Option<real>)
    requires GeomFold(g, cs, float).Err?
    ensures GeomFold(g, cs, float) == Err(ValueError)
    decreases |cs|
  {
    var c := cs[0];
    if ApplyShape(g, c, float).Ok? {
      GeomFoldError(ApplyShape(g, c, float).value, cs[1..], float);
    }
  }

  /** The index of the last child that names a shape, if any. */
  function LastShape(cs: seq<Node>): (r: Option<nat>)
    ensures r.Some? ==> (r.value < |cs| && ShapeOf(cs[r.value].tag) != Other &&
      forall j :: r.value < j < |cs| ==> ShapeOf(cs[j].tag) == Other)
    ensures r.None? ==> forall j :: 0 <= j < |cs| ==> ShapeOf(cs[j].tag) == Other
  {
    if cs == [] then None
    else if ShapeOf(cs[|cs| - 1].tag) != Other then Some(|cs| - 1)
    else LastShape(cs[..|cs| - 1])
  }

  /** The name `type` takes for a shape. */
  function ShapeName(s: Shape): string {
    match s
    case Box => "box"
    case Cylinder => "cylinder"
    case Sphere => "sphere"
    case Mesh => "mesh"
    case Other => ""
  }

  /** The last shape wins: after a successful conversion the geom's `type` is
      the last shape named among the children, and it has no `type` when no
      child names a shape. */
  lemma {:induction false} LastShapeWins(g: Attrs, cs: seq<Node>, float: string -> Option<real>)
    requires "type" !in g
    requires GeomFold(g, cs, float).Ok?
    ensures LastShape(cs).None? ==> "type" !in GeomFold(g, cs, float).value
    ensures LastShape(cs).Some? ==>
      "type" in GeomFold(g, cs, float).value &&
      GeomFold(g, cs, float).value["type"] == S(ShapeName(ShapeOf(cs[LastShape(cs).value].tag)))
  {
    LastShapeWinsFrom(g, cs, None, float);
  }

  /** The invariant behind `LastShapeWins`, with the shape already applied
      before `cs` as `prev`. */
  lemma {:induction false} LastShapeWinsFrom(g: Attrs, cs: seq<Node>, prev: Option<Shape>, float: string -> Option<real>)
    requires prev.None? ==> "type" !in g
    requires prev.Some? ==> "type" in g && g["type"] == S(ShapeName(prev.value))
    requires GeomFold(g, cs, float).Ok?
    ensures LastShape(cs).None? && prev.None? ==> "type" !in GeomFold(g, cs, float).value
    ensures LastShape(cs).None? && prev.Some? ==>
      "type" in GeomFold(g, cs, float).value && GeomFold(g, cs, float).value["type"] == S(ShapeName(prev.value))
    ensures LastShape(cs).Some? ==>
      "type" in GeomFold(g, cs, float).value &&
      GeomFold(g, cs, float).value["type"] == S(ShapeName(ShapeOf(cs[LastShape(cs).value].tag)))
    decreases |cs|
  {
    if cs != [] {
      var c := cs[0];
      var g' := ApplyShape(g, c, float).value;
      var sh := ShapeOf(c.tag);
      var prev' := if sh == Other then prev else Some(sh);
      ShapeSetsType(g, c, float);
      LastShapeWinsFrom(g', cs[1..], prev', float);
      LastShapeTail(cs);
    }
  }

  /** A shape sets `type` to its name; any other child changes nothing. */
  lemma ShapeSetsType(g: Attrs, c: Node, float: string -> Option<real>)
    requires ApplyShape(g, c, float).Ok?
    ensures ShapeOf(c.tag) == Other ==> ApplyShape(g, c, float).value == g
    ensures ShapeOf(c.tag) != Other ==>
      "type" in ApplyShape(g, c, float).value &&
      ApplyShape(g, c, float).value["type"] == S(ShapeName(ShapeOf(c.tag)))
  {
    var a := ApplyShape(g, c, float).value;
    match ShapeOf(c.tag)
    case Box =>
      var h := Halves(BoxWords(c), float).value;
      assert a == g["type" := S("box")]["size" := Some(JoinNums(h, " "))];
    case Cylinder =>
      var l := float(Length(c)).value;
      assert a == g["type" := S("cylinder")]["size" := Some([Lit(Radius(c)), Lit(" "), Num(l / 2.0)])];
    case Sphere =>
    case Mesh =>
    case Other =>
  }

  /** How the last shape of `cs` relates to that of `cs[1..]`. */
  lemma LastShapeTail(cs: seq<Node>)
    requires cs != []
    ensures LastShape(cs[1..]).Some? ==> LastShape(cs) == Some(LastShape(cs[1..]).value + 1)
    ensures LastShape(cs[1..]).None? && ShapeOf(cs[0].tag) != Other ==> LastShape(cs) == Some(0)
    ensures LastShape(cs[1..]).None? && ShapeOf(cs[0].tag) == Other ==> LastShape(cs).None?
  {
    var t := cs[1..];
    if LastShape(t).Some? {
      var k := LastShape(t).value;
      assert cs[k + 1] == t[k];
      LastShapeIs(cs, k + 1);
    } else if ShapeOf(cs[0].tag) != Other {
      LastShapeIs(cs, 0);
    }
  }

  /** `LastShape` is the index whose children after it name no shape. */
  lemma {:induction false} LastShapeIs(cs: seq<Node>, k: nat)
    requires k < |cs| && ShapeOf(cs[k].tag) != Other
    requires forall j :: k < j < |cs| ==> ShapeOf(cs[j].tag) == Other
    ensures LastShape(cs) == Some(k)
  {
    if k < |cs| - 1 {
      var init := cs[..|cs| - 1];
      assert forall j :: k < j < |init| ==> init[j] == cs[j];
      LastShapeIs(init, k);
    }
  }

  /** A box's MJCF size is its URDF size halved: one number per word of the
      URDF `size`, each half of that word's value. */
  lemma BoxHalved(g: Attrs, c: Node, float: string -> Option<real>)
    requires ShapeOf(c.tag) == Box
    requires AllFloats(BoxWords(c), float)
    ensures ApplyShape(g, c, float).Ok?
    ensures var a := ApplyShape(g, c, float).value;
      a["type"] == S("box") && a["size"].Some? &&
      var xs := Pieces.Numbers(a["size"].value);
      |xs| == |BoxWords(c)| &&
      forall i :: 0 <= i < |xs| ==> xs[i] * 2.0 == float(BoxWords(c)[i]).value
  {
    var h := Halves(BoxWords(c), float);
    assert h.Ok?;
    var a := g["type" := S("box")]["size" := Some(JoinNums(h.value, " "))];
    assert ApplyShape(g, c, float) == Ok(a);
    assert Pieces.Numbers(a["size"].value) == h.value;
  }

  /** A cylinder's MJCF size is its radius, unchanged, then half its
      length. */
  lemma CylinderRadiusThenHalfLength(g: Attrs, c: Node, float: string -> Option<real>)
    requires ShapeOf(c.tag) == Cylinder && float(Length(c)).Some?
    ensures ApplyShape(g, c, float).Ok?
    ensures var a := ApplyShape(g, c, float).value;
      a["type"] == S("cylinder") && a["size"].Some? &&
      a["size"].value[..2] == [Lit(Radius(c)), Lit(" ")] &&
      Pieces.Numbers(a["size"].value) == [float(Length(c)).value / 2.0]
  {
    var a := ApplyShape(g, c, float).value;
    assert Pieces.Numbers(a["size"].value) == Pieces.Numbers([Num(float(Length(c)).value / 2.0)]);
  }

  /** A sphere's MJCF size is its radius, unchanged; a mesh keeps the
      previous `size` and names its file. */
  lemma SphereAndMeshKept(g: Attrs, c: Node, float: string -> Option<real>)
    ensures ShapeOf(c.tag) == Sphere ==>
      ApplyShape(g, c, float) == Ok(g["type" := S("sphere")]["size" := S(Radius(c))])
    ensures ShapeOf(c.tag) == Mesh ==>
      ApplyShape(g, c, float).Ok? && ApplyShape(g, c, float).value["mesh"] == S(Filename(c)) &&
      ("size" in g ==> ApplyShape(g, c, float).value["size"] == g["size"])
  {
  }

  // ---------------------------------------------------------------------------
  // URDF geometry -> SDF geometry
  // ---------------------------------------------------------------------------

  /** The SDF element for one geometry child, if it names a shape: the
      URDF values are copied as text, unchanged. */
  function SdfShape(c: Node): (r: Option<Tree>)
    ensures r.Some? <==> ShapeOf(c.tag) != Other
  {
    match ShapeOf(c.tag)
    case Box => Some(Elem("box", map[], [Leaf("size", Some(BoxSize(c)))]))
    case Cylinder =>
      Some(Elem("cylinder", map[], [Leaf("radius", Some(Radius(c))), Leaf("length", Some(Length(c)))]))
    case Sphere => Some(Elem("sphere", map[], [Leaf("radius", Some(Radius(c)))]))
    case Mesh =>
      var scale := Attr(c, "scale");
      var uri := [Leaf("uri", Some(Filename(c)))];
      Some(Elem("mesh", map[], if scale.Some? && scale.value != "" then uri + [Leaf("scale", scale)] else uri))
    case Other => None
  }

  /** The SDF elements for the children `cs`, in order. */
  function SdfShapes(cs: seq<Node>): seq<Tree> {
    if cs == [] then []
    else
      var rest := SdfShapes(cs[1..]);
      match SdfShape(cs[0])
      case Some(t) => [t] + rest
      case None => rest
  }

  /** `_convert_geom_to_sdf`: appends to `sdfGeom` one element per child of
      `urdfGeom` that names a shape. */
  method ConvertGeomToSdf(urdfGeom: Node, sdfGeom: Tree) returns (r: Tree)
    ensures r == sdfGeom.(children := sdfGeom.children + SdfShapes(urdfGeom.children))
  {
    r := sdfGeom;
    var cs := urdfGeom.children;
    for i := 0 to |cs|
      invariant r == sdfGeom.(children := r.children)
      invariant r.children + SdfShapes(cs[i..]) == sdfGeom.children + SdfShapes(cs)
    {
      assert cs[i..][1..] == cs[i + 1..];
      var shape := SdfShape(cs[i]);
      if shape.Some? {
        r := r.(children := r.children + [shape.value]);
      }
    }
    assert cs[|cs|..] == [];
  }
}
