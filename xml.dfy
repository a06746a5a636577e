/** Element trees as the converters in `src/convert.py` see them.

    A parsed URDF document is a tree of `Node`s: a tag, string attributes and
    ordered children (ElementTree's `find`, `findall` and `get`). The
    converters build `Tree`s: a tag, attributes, ordered children and an
    optional text. An attribute value is `None` when the program passed
    Python's `None` (a link or joint without a `name`); ElementTree accepts
    that while building and refuses it when the tree is serialized. */
module Xml {
  import opened Wrappers
  import opened Strings
  import opened Pieces

  datatype Node = Node(tag: string, attrs: map<string, string>, children: seq<Node>)

  /** `el.get(key)`: the attribute, or `None`. */
  function Attr(e: Node, key: string): (r: Option<string>)
    ensures r.Some? <==> key in e.attrs
  {
    if key in e.attrs then Some(e.attrs[key]) else None
  }

  /** `el.get(key, default)`. */
  function Get(e: Node, key: string, default: string): (r: string)
    ensures key !in e.attrs ==> r == default
    ensures key in e.attrs ==> r == e.attrs[key]
  {
    if key in e.attrs then e.attrs[key] else default
  }

  /** The nodes of `cs` with tag `tag`, in order (`el.findall(tag)` over
      `el`'s children `cs`). */
  function FindChildren(cs: seq<Node>, tag: string): seq<Node> {
    if cs == [] then []
    else
      var rest := FindChildren(cs[1..], tag);
      if cs[0].tag == tag then [cs[0]] + rest else rest
  }

  /** `findall` keeps exactly the children with the tag. */
  lemma {:induction false} FindChildrenSpec(cs: seq<Node>, tag: string)
    ensures |FindChildren(cs, tag)| <= |cs|
    ensures forall i :: 0 <= i < |FindChildren(cs, tag)| ==> FindChildren(cs, tag)[i].tag == tag && FindChildren(cs, tag)[i] in cs
    ensures forall c :: c in cs && c.tag == tag ==> c in FindChildren(cs, tag)
  {
    if cs != [] {
      FindChildrenSpec(cs[1..], tag);
    }
  }

  /** `el.find(tag)`: the first child with the tag, or `None`. */
  function FindChild(e: Node, tag: string): Option<Node> {
    var all := FindChildren(e.children, tag);
    if all == [] then None else Some(all[0])
  }

  /** `find` returns a child with the tag, and `None` only when there is
      none. */
  lemma FindChildSpec(e: Node, tag: string)
    ensures FindChild(e, tag).Some? ==> FindChild(e, tag).value in e.children && FindChild(e, tag).value.tag == tag
    ensures FindChild(e, tag).None? <==> forall c :: c in e.children ==> c.tag != tag
  {
    FindChildrenSpec(e.children, tag);
  }

  /** `find` returns the first child with the tag in document order. */
  lemma {:induction false} FindChildIsFirst(cs: seq<Node>, tag: string, k: nat)
    requires k < |cs| && cs[k].tag == tag
    requires forall j :: 0 <= j < k ==> cs[j].tag != tag
    ensures FindChild(Node("", map[], cs), tag) == Some(cs[k])
  {
    if k > 0 {
      FindChildIsFirst(cs[1..], tag, k - 1);
    }
  }

  /** An output element. `text` is `None` when no text was set, or when it
      was set to Python's `None`. */
  datatype Tree = Tree(tag: string, attrs: map<string, Option<Text>>, children: seq<Tree>, text: Option<Text>)

  /** An attribute value given as a plain string. */
  function S(s: string): Option<Text> {
    Some(Str(s))
  }

  /** An attribute value that is the name read from a URDF element, which may
      be missing. */
  function NameValue(n: Option<string>): Option<Text> {
    match n
    case Some(s) => S(s)
    case None => None
  }

  /** `f"{n}"` for a name that may be `None`. */
  function Show(n: Option<string>): string {
    match n
    case Some(s) => s
    case None => "None"
  }

  /** An element with attributes and children and no text. */
  function Elem(tag: string, attrs: map<string, Option<Text>>, children: seq<Tree>): Tree {
    Tree(tag, attrs, children, None)
  }

  /** `ET.SubElement(parent, tag).text = value`. */
  function Leaf(tag: string, value: Option<string>): (r: Tree)
    ensures r.children == [] && r.attrs == map[]
    ensures value.Some? <==> r.text.Some?
  {
    Tree(tag, map[], [], match value case Some(v) => Some(Str(v)) case None => None)
  }

  /** Every attribute of the tree is a string: serialization does not raise
      `TypeError`. */
  predicate Serializable(t: Tree)
    decreases t
  {
    (forall k :: k in t.attrs ==> t.attrs[k].Some?) &&
    forall i :: 0 <= i < |t.children| ==> Serializable(t.children[i])
  }

  const TypeError := "TypeError: cannot serialize None (type NoneType)"

  /** `ET.tostring`: the tree, or the `TypeError` it raises on a `None`
      attribute. */
  function Serialize(t: Tree): (r: Result<Tree, string>)
    ensures r.Ok? <==> Serializable(t)
    ensures r.Ok? ==> r.value == t
  {
    if Serializable(t) then Ok(t) else Err(TypeError)
  }
}
