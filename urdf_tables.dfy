/** The lookup tables `urdf_to_mjcf` builds from a parsed URDF document
    before it emits any body (`src/convert.py:98-120`): the links by name,
    the joint that attaches each child link, the children of each parent
    link, and the root link. */
module UrdfTables {
  import opened Wrappers
  import opened Xml

  /** A name read with `el.get(...)`: `None` when the attribute is missing.
      Python dictionaries accept `None` as a key, and so do these tables. */
  type Name = Option<string>

  /** `joint_el.find("parent").get("link")` on a joint without a `parent`
      (or `child`) element. */
  const AttributeError := "AttributeError: 'NoneType' object has no attribute 'get'"
  /** `list(links.keys())[0]` on a document without links. */
  const IndexError := "IndexError: list index out of range"

  function NameOf(e: Node): Name {
    Attr(e, "name")
  }

  /** `urdf_root.get("name", "robot")`. */
  function RobotName(robot: Node): string {
    Get(robot, "name", "robot")
  }

  /** `urdf_root.findall("link")`. */
  function LinkNodes(robot: Node): seq<Node> {
    FindChildren(robot.children, "link")
  }

  /** `urdf_root.findall("joint")`. */
  function JointNodes(robot: Node): seq<Node> {
    FindChildren(robot.children, "joint")
  }

  /** `joint_el.get("type", "revolute")`. */
  function JointType(j: Node): string {
    Get(j, "type", "revolute")
  }

  /** The names of the elements, in document order. */
  function Names(es: seq<Node>): (r: seq<Name>)
    ensures |r| == |es|
    ensures forall i :: 0 <= i < |es| ==> r[i] == NameOf(es[i])
  {
    if es == [] then [] else [NameOf(es[0])] + Names(es[1..])
  }

  predicate Distinct(xs: seq<Name>) {
    forall i, j :: 0 <= i < j < |xs| ==> xs[i] != xs[j]
  }

  // ---------------------------------------------------------------------------
  // links = {name: link_el}
  // ---------------------------------------------------------------------------

  /** A dictionary from names to links: its keys in insertion order and the
      mapping. */
  datatype LinkTable = LinkTable(order: seq<Name>, table: map<Name, Node>)

  /** The keys listed in `order` are exactly the dictionary's keys, each
      once. */
  ghost predicate Keyed(t: LinkTable) {
    Distinct(t.order) && forall n :: n in t.table <==> n in t.order
  }

  /** `links[link_el.get("name")] = link_el` for each link in turn: a new
      key is appended to the order, an existing key keeps its place and
      gets the new link. */
  function LinkFold(t: LinkTable, ls: seq<Node>): LinkTable
    decreases |ls|
  {
    if ls == [] then t
    else
      var n := NameOf(ls[0]);
      LinkFold(LinkTable(if n in t.table then t.order else t.order + [n], t.table[n := ls[0]]), ls[1..])
  }

  function Links(ls: seq<Node>): LinkTable {
    LinkFold(LinkTable([], map[]), ls)
  }

  /** The loop at `src/convert.py:102-104`. */
  method BuildLinks(ls: seq<Node>) returns (t: LinkTable)
    ensures t == Links(ls)
  {
    var order: seq<Name> := [];
    var table: map<Name, Node> := map[];
    var i := 0;
    while i < |ls|
      invariant i <= |ls|
      invariant LinkFold(LinkTable(order, table), ls[i..]) == Links(ls)
    {
      var n := NameOf(ls[i]);
      if n !in table {
        order := order + [n];
      }
      table := table[n := ls[i]];
      assert ls[i..][1..] == ls[i + 1..];
      i := i + 1;
    }
    t := LinkTable(order, table);
  }

  /** The dictionary's keys are the names of the links, each listed once in
      the order of its first link. */
  lemma LinksKeyed(ls: seq<Node>)
    ensures Keyed(Links(ls))
    ensures forall n :: n in Links(ls).table <==> n in Names(ls)
  {
    LinkFoldKeys(LinkTable([], map[]), ls);
  }

  lemma {:induction false} LinkFoldKeys(t: LinkTable, ls: seq<Node>)
    requires Keyed(t)
    ensures Keyed(LinkFold(t, ls))
    ensures forall n :: n in LinkFold(t, ls).table <==> n in t.table || n in Names(ls)
    decreases |ls|
  {
    if ls != [] {
      var n := NameOf(ls[0]);
      var t' := LinkTable(if n in t.table then t.order else t.order + [n], t.table[n := ls[0]]);
      LinkFoldKeys(t', ls[1..]);
      assert Names(ls) == [n] + Names(ls[1..]);
    }
  }

  /** A name is mapped to the last link that carries it. */
  lemma {:induction false} LastLinkWins(ls: seq<Node>, i: nat)
    requires i < |ls|
    requires forall j :: i < j < |ls| ==> NameOf(ls[j]) != NameOf(ls[i])
    ensures NameOf(ls[i]) in Links(ls).table && Links(ls).table[NameOf(ls[i])] == ls[i]
  {
    LastLinkWinsFrom(LinkTable([], map[]), ls, i);
  }

  lemma {:induction false} LastLinkWinsFrom(t: LinkTable, ls: seq<Node>, i: nat)
    requires i < |ls|
    requires forall j :: i < j < |ls| ==> NameOf(ls[j]) != NameOf(ls[i])
    ensures NameOf(ls[i]) in LinkFold(t, ls).table && LinkFold(t, ls).table[NameOf(ls[i])] == ls[i]
    decreases |ls|
  {
    var n := NameOf(ls[0]);
    var t' := LinkTable(if n in t.table then t.order else t.order + [n], t.table[n := ls[0]]);
    if i == 0 {
      KeptUnlessRenamed(t', ls[1..], n);
    } else {
      LastLinkWinsFrom(t', ls[1..], i - 1);
    }
  }

  /** Links with other names leave a key's link alone. */
  lemma {:induction false} KeptUnlessRenamed(t: LinkTable, ls: seq<Node>, n: Name)
    requires n in t.table
    requires forall j :: 0 <= j < |ls| ==> NameOf(ls[j]) != n
    ensures n in LinkFold(t, ls).table && LinkFold(t, ls).table[n] == t.table[n]
    decreases |ls|
  {
    if ls != [] {
      var m := NameOf(ls[0]);
      var t' := LinkTable(if m in t.table then t.order else t.order + [m], t.table[m := ls[0]]);
      KeptUnlessRenamed(t', ls[1..], n);
    }
  }

  // ---------------------------------------------------------------------------
  // Root selection
  // ---------------------------------------------------------------------------

  /** The first of `xs` that is not in `c`. */
  function FirstOutside(xs: seq<Name>, c: set<Name>): (r: Option<Name>)
    ensures r.Some? ==> r.value in xs && r.value !in c
    ensures r.None? <==> forall j :: 0 <= j < |xs| ==> xs[j] in c
  {
    if xs == [] then None
    else if xs[0] !in c then Some(xs[0])
    else FirstOutside(xs[1..], c)
  }

  /** `root_links[0] if root_links else list(links.keys())[0]` over the
      dictionary's keys `order` and the child names `c`. */
  function RootOf(order: seq<Name>, c: set<Name>): Result<Name, string> {
    match FirstOutside(order, c)
    case Some(n) => Ok(n)
    case None => if order == [] then Err(IndexError) else Ok(order[0])
  }

  /** The root is the name of the first link in document order that is no
      joint's child; when every link is a child it is the first link's name;
      a document without links has none. */
  lemma RootSelection(ls: seq<Node>, c: set<Name>)
    ensures FirstOutside(Names(ls), c).Some? ==> RootOf(Links(ls).order, c) == Ok(FirstOutside(Names(ls), c).value)
    ensures FirstOutside(Names(ls), c).None? && ls != [] ==> RootOf(Links(ls).order, c) == Ok(NameOf(ls[0]))
    ensures ls == [] ==> RootOf(Links(ls).order, c) == Err(IndexError)
  {
    var t := Links(ls);
    FirstOutsideFold(LinkTable([], map[]), ls, c);
    if ls != [] {
      var n := NameOf(ls[0]);
      assert [] + [n] == [n];
      assert t == LinkFold(LinkTable([n], map[n := ls[0]]), ls[1..]);
      OrderExtends(LinkTable([n], map[n := ls[0]]), ls[1..]);
    }
  }

  /** Folding only appends to the order. */
  lemma {:induction false} OrderExtends(t: LinkTable, ls: seq<Node>)
    ensures |t.order| <= |LinkFold(t, ls).order| && LinkFold(t, ls).order[..|t.order|] == t.order
    decreases |ls|
  {
    if ls != [] {
      var n := NameOf(ls[0]);
      var t' := LinkTable(if n in t.table then t.order else t.order + [n], t.table[n := ls[0]]);
      OrderExtends(t', ls[1..]);
      assert t'.order[..|t.order|] == t.order;
    }
  }

  /** When every key so far is a child, the first non-child key is the
      first non-child name among the remaining links. */
  lemma {:induction false} FirstOutsideFold(t: LinkTable, ls: seq<Node>, c: set<Name>)
    requires Keyed(t)
    requires forall j :: 0 <= j < |t.order| ==> t.order[j] in c
    ensures FirstOutside(LinkFold(t, ls).order, c) == FirstOutside(Names(ls), c)
    decreases |ls|
  {
    var o := LinkFold(t, ls).order;
    if ls == [] {
      assert FirstOutside(t.order, c).None?;
    } else {
      var n := NameOf(ls[0]);
      var t' := LinkTable(if n in t.table then t.order else t.order + [n], t.table[n := ls[0]]);
      assert Names(ls) == [n] + Names(ls[1..]);
      assert Keyed(t') by {
        if n !in t.table {
          assert n !in t.order;
        }
      }
      if n in c {
        FirstOutsideFold(t', ls[1..], c);
      } else {
        assert n !in t.table;
        OrderExtends(t', ls[1..]);
        assert o[..|t'.order|] == t'.order;
        FirstOutsideAt(o, c, |t.order|);
      }
    }
  }

  /** The first element outside `c` is at `k` when everything before `k` is
      inside. */
  lemma {:induction false} FirstOutsideAt(xs: seq<Name>, c: set<Name>, k: nat)
    requires k < |xs| && xs[k] !in c
    requires forall j :: 0 <= j < k ==> xs[j] in c
    ensures FirstOutside(xs, c) == Some(xs[k])
  {
    if k > 0 {
      FirstOutsideAt(xs[1..], c, k - 1);
    }
  }

  // ---------------------------------------------------------------------------
  // parent_child_map and children_of
  // ---------------------------------------------------------------------------

  /** The `link` attributes of a joint's `parent` and `child` elements, or
      the `AttributeError` raised when either element is missing. */
  function JointEnds(j: Node): Result<(Name, Name), string> {
    match FindChild(j, "parent")
    case None => Err(AttributeError)
    case Some(p) =>
      match FindChild(j, "child")
      case None => Err(AttributeError)
      case Some(c) => Ok((Attr(p, "link"), Attr(c, "link")))
  }

  /** A joint has ends exactly when it has a `parent` and a `child`
      element; otherwise the lookup raises `AttributeError`. */
  lemma JointEndsSpec(j: Node)
    ensures JointEnds(j).Ok? <==>
      (exists c :: c in j.children && c.tag == "parent") && (exists c :: c in j.children && c.tag == "child")
    ensures JointEnds(j).Err? ==> JointEnds(j).error == AttributeError
  {
    FindChildSpec(j, "parent");
    FindChildSpec(j, "child");
  }

  /** `parent_child_map`: child name to (joint, parent name); and
      `children_of`: parent name to its child names. */
  datatype JointTables = JointTables(parentOf: map<Name, (Node, Name)>, childrenOf: map<Name, seq<Name>>)

  /** `children_of.get(p, [])`. */
  function ChildrenOf(t: JointTables, p: Name): seq<Name> {
    if p in t.childrenOf then t.childrenOf[p] else []
  }

  /** One joint's entries: the child is mapped to the joint and its parent
      (replacing an earlier joint with the same child), and appended to the
      parent's children. */
  function AddJoint(t: JointTables, j: Node, p: Name, c: Name): JointTables {
    JointTables(t.parentOf[c := (j, p)], t.childrenOf[p := ChildrenOf(t, p) + [c]])
  }

  /** The tables after the joints `js`, in document order: the entries of
      every joint before the last, then the last joint's; or the error of
      the first joint without both ends. */
  function Joints(js: seq<Node>): Result<JointTables, string> {
    if js == [] then Ok(JointTables(map[], map[]))
    else
      var t :- Joints(js[..|js| - 1]);
      var e :- JointEnds(js[|js| - 1]);
      Ok(AddJoint(t, js[|js| - 1], e.0, e.1))
  }

  /** The loop at `src/convert.py:110-115`. */
  method BuildJoints(js: seq<Node>) returns (r: Result<JointTables, string>)
    ensures r == Joints(js)
  {
    var parentOf: map<Name, (Node, Name)> := map[];
    var childrenOf: map<Name, seq<Name>> := map[];
    var i := 0;
    while i < |js|
      invariant i <= |js|
      invariant Joints(js[..i]) == Ok(JointTables(parentOf, childrenOf))
    {
      assert js[..i + 1][..i] == js[..i];
      var e := JointEnds(js[i]);
      if e.Err? {
        FailedPrefix(js, i + 1);
        return Err(e.error);
      }
      var p := e.value.0;
      var c := e.value.1;
      parentOf := parentOf[c := (js[i], p)];
      childrenOf := childrenOf[p := (if p in childrenOf then childrenOf[p] else []) + [c]];
      i := i + 1;
    }
    assert js[..i] == js;
    r := Ok(JointTables(parentOf, childrenOf));
  }

  /** A joint without both ends fails the whole table with
      `AttributeError`. */
  lemma {:induction false} FailedPrefix(js: seq<Node>, n: nat)
    requires n <= |js| && Joints(js[..n]).Err?
    ensures Joints(js) == Err(AttributeError)
    decreases |js|
  {
    if n < |js| {
      var front := js[..|js| - 1];
      assert front[..n] == js[..n];
      FailedPrefix(front, n);
    } else {
      assert js[..n] == js;
      JointsError(js);
    }
  }

  lemma {:induction false} JointsError(js: seq<Node>)
    requires Joints(js).Err?
    ensures Joints(js) == Err(AttributeError)
    decreases |js|
  {
    var front := js[..|js| - 1];
    if Joints(front).Err? {
      JointsError(front);
    }
  }

  /** The ends of every joint, in document order, or the error of the first
      joint without both. */
  function AllEnds(js: seq<Node>): (r: Result<seq<(Name, Name)>, string>)
    ensures r.Ok? ==> |r.value| == |js|
  {
    if js == [] then Ok([])
    else
      var front :- AllEnds(js[..|js| - 1]);
      var e :- JointEnds(js[|js| - 1]);
      Ok(front + [e])
  }

  /** `AllEnds` succeeds exactly when every joint has both ends. */
  lemma {:induction false} AllEndsOk(js: seq<Node>)
    ensures AllEnds(js).Ok? <==> forall i :: 0 <= i < |js| ==> JointEnds(js[i]).Ok?
  {
    if js != [] {
      var front := js[..|js| - 1];
      var last := js[|js| - 1];
      AllEndsOk(front);
      assert AllEnds(js).Ok? <==> AllEnds(front).Ok? && JointEnds(last).Ok?;
      if AllEnds(js).Ok? {
        forall i | 0 <= i < |js| ensures JointEnds(js[i]).Ok? {
          if i < |front| {
            assert front[i] == js[i];
          }
        }
      } else if AllEnds(front).Err? {
        var i :| 0 <= i < |front| && !JointEnds(front[i]).Ok?;
        assert front[i] == js[i];
      } else {
        assert !JointEnds(js[|js| - 1]).Ok?;
      }
    }
  }

  /** `AllEnds` lists each joint's ends. */
  lemma {:induction false} AllEndsAt(js: seq<Node>, i: nat)
    requires AllEnds(js).Ok? && i < |js|
    ensures JointEnds(js[i]) == Ok(AllEnds(js).value[i])
  {
    var front := js[..|js| - 1];
    assert AllEnds(js).value == AllEnds(front).value + [JointEnds(js[|js| - 1]).value];
    if i < |front| {
      AllEndsAt(front, i);
      assert front[i] == js[i];
    }
  }

  /** The child names of the joints whose parent is `p`, in document
      order. */
  function ChildrenIn(ends: seq<(Name, Name)>, p: Name): seq<Name> {
    if ends == [] then []
    else if ends[|ends| - 1].0 == p then ChildrenIn(ends[..|ends| - 1], p) + [ends[|ends| - 1].1]
    else ChildrenIn(ends[..|ends| - 1], p)
  }

  /** The child names of the joints. */
  function ChildSet(ends: seq<(Name, Name)>): set<Name> {
    if ends == [] then {} else ChildSet(ends[..|ends| - 1]) + {ends[|ends| - 1].1}
  }

  lemma {:induction false} ChildSetMembers(ends: seq<(Name, Name)>)
    ensures forall c :: c in ChildSet(ends) <==> exists i :: 0 <= i < |ends| && ends[i].1 == c
  {
    if ends != [] {
      var front := ends[..|ends| - 1];
      ChildSetMembers(front);
      assert forall i :: 0 <= i < |front| ==> front[i] == ends[i];
    }
  }

  /** The tables exist exactly when every joint has both ends; then
      `children_of` lists, for each parent, the children of its joints in
      document order, and the keys of `parent_child_map` are exactly the
      joints' children. */
  lemma {:induction false} JointTablesSpec(js: seq<Node>)
    ensures Joints(js).Ok? <==> AllEnds(js).Ok?
    ensures Joints(js).Ok? ==> forall p :: ChildrenOf(Joints(js).value, p) == ChildrenIn(AllEnds(js).value, p)
    ensures Joints(js).Ok? ==> Joints(js).value.parentOf.Keys == ChildSet(AllEnds(js).value)
  {
    if js != [] {
      var front := js[..|js| - 1];
      JointTablesSpec(front);
      if Joints(js).Ok? {
        var e := JointEnds(js[|js| - 1]).value;
        var ends := AllEnds(js).value;
        assert ends[..|ends| - 1] == AllEnds(front).value;
        assert ends[|ends| - 1] == e;
      }
    }
  }

  /** A link is a key of `parent_child_map` exactly when some joint names it
      as its child. */
  lemma ChildKeys(js: seq<Node>)
    requires Joints(js).Ok? && AllEnds(js).Ok?
    ensures forall c :: c in Joints(js).value.parentOf <==>
      exists i :: 0 <= i < |js| && AllEnds(js).value[i].1 == c
  {
    JointTablesSpec(js);
    ChildSetMembers(AllEnds(js).value);
  }

  /** `parent_child_map` maps a child to the last joint naming it, with
      that joint's parent. */
  lemma {:induction false} LastJointWins(js: seq<Node>, k: nat)
    requires Joints(js).Ok? && AllEnds(js).Ok? && k < |js|
    requires forall j :: k < j < |js| ==> AllEnds(js).value[j].1 != AllEnds(js).value[k].1
    ensures AllEnds(js).value[k].1 in Joints(js).value.parentOf
    ensures Joints(js).value.parentOf[AllEnds(js).value[k].1] == (js[k], AllEnds(js).value[k].0)
  {
    JointTablesSpec(js);
    var front := js[..|js| - 1];
    var ends := AllEnds(js).value;
    assert ends[..|ends| - 1] == AllEnds(front).value;
    if k < |js| - 1 {
      forall j | k < j < |front| ensures AllEnds(front).value[j].1 != AllEnds(front).value[k].1 {
        assert AllEnds(front).value[j] == ends[j];
      }
      LastJointWins(front, k);
      assert front[k] == js[k] && AllEnds(front).value[k] == ends[k];
    }
  }
}
