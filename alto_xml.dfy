/**
 * Parsed ALTO documents and the three element selectors of the plugin.
 *
 * A document is a tree of elements and text nodes. An element is addressed by its
 * path: the sequence of child indices that leads to it from the root. The three
 * selectors return paths in document order (preorder), as an XPath evaluation does.
 */
module AltoXml {
  import opened Wrappers

  /** The attributes of one element that are in no namespace, by name. */
  type Attributes = map<string, string>

  datatype XmlNode =
    | Element(prefix: string, localName: string, attributes: Attributes, children: seq<XmlNode>)
    | Text(content: string)

  type Path = seq<nat>

  predicate ValidPath(n: XmlNode, p: Path)
    decreases |p|
  {
    p == [] || (n.Element? && p[0] < |n.children| && ValidPath(n.children[p[0]], p[1..]))
  }

  /** The node at path p (meaningful when ValidPath(n, p)). */
  function At(n: XmlNode, p: Path): XmlNode
    decreases |p|
  {
    if p != [] && n.Element? && p[0] < |n.children| then At(n.children[p[0]], p[1..]) else n
  }

  /** The attributes of the element at p; empty for a text node or a path that leads nowhere. */
  function AttributesAt(n: XmlNode, p: Path): Attributes
    decreases |p|
  {
    if p == [] then (if n.Element? then n.attributes else map[])
    else if n.Element? && p[0] < |n.children| then AttributesAt(n.children[p[0]], p[1..])
    else map[]
  }

  /** The local name of the parent element of the node at p; `parent` is that of n itself. */
  function ParentOf(n: XmlNode, parent: Option<string>, p: Path): Option<string>
    decreases |p|
  {
    if p != [] && n.Element? && p[0] < |n.children| then ParentOf(n.children[p[0]], Some(n.localName), p[1..])
    else parent
  }

  /** Replaces the attributes of the element at q; any other tree is returned unchanged. */
  function SetAttributes(n: XmlNode, q: Path, a: Attributes): XmlNode
    decreases |q|
  {
    if q == [] then (if n.Element? then n.(attributes := a) else n)
    else if n.Element? && q[0] < |n.children| then
      n.(children := n.children[q[0] := SetAttributes(n.children[q[0]], q[1..], a)])
    else n
  }

  /** Writes vs[k] as the attributes of the element at ps[k], for each k in turn. */
  function WriteBack(n: XmlNode, ps: seq<Path>, vs: seq<Attributes>): XmlNode
    decreases |ps|
  {
    if ps == [] || vs == [] then n else WriteBack(SetAttributes(n, ps[0], vs[0]), ps[1..], vs[1..])
  }

  /** The tree with every attribute map emptied: names, namespace prefixes, order and text. */
  function Skeleton(n: XmlNode): XmlNode
    decreases n
  {
    match n
    case Text(_) => n
    case Element(pre, name, _, cs) =>
      Element(pre, name, map[], seq(|cs|, i requires 0 <= i < |cs| => Skeleton(cs[i])))
  }

  // ---------------------------------------------------------------------------
  // Roles and selection

  /** The three kinds of layout element that receive identifiers. */
  datatype Role = Block | Line | Word

  function RoleName(r: Role): string
  {
    match r
    case Block => "TextBlock"
    case Line => "TextLine"
    case Word => "String"
  }

  /**
   * The node n, whose parent element has local name `parent` (None when n is the
   * root element), is selected for role r. Only local names are compared, so the
   * namespace prefix of neither element matters. Blocks may sit anywhere; a line
   * must be a child of a TextBlock, a word a child of a TextLine.
   */
  predicate Matches(r: Role, parent: Option<string>, n: XmlNode)
  {
    n.Element? && n.localName == RoleName(r) &&
    match r
    case Block => true
    case Line => parent == Some("TextBlock")
    case Word => parent == Some("TextLine")
  }

  function Prepend(i: nat, ps: seq<Path>): (qs: seq<Path>)
    ensures |qs| == |ps|
    ensures forall k :: 0 <= k < |ps| ==> qs[k] == [i] + ps[k]
  {
    seq(|ps|, k requires 0 <= k < |ps| => [i] + ps[k])
  }

  /** The paths of the nodes of n selected for role r, in document order. */
  function Select(n: XmlNode, parent: Option<string>, r: Role): seq<Path>
    decreases n, 1, 0
  {
    (if Matches(r, parent, n) then [[]] else []) + SelectChildren(n, 0, r)
  }

  /** The selected paths that start in the children i, i+1, ... of n. */
  function SelectChildren(n: XmlNode, i: nat, r: Role): seq<Path>
    decreases n, 0, if n.Element? && i <= |n.children| then |n.children| - i else 0
  {
    if n.Element? && i < |n.children| then
      Prepend(i, Select(n.children[i], Some(n.localName), r)) + SelectChildren(n, i + 1, r)
    else []
  }

  /** The selection for role r over a whole document, whose root has no parent element. */
  function SelectIn(root: XmlNode, r: Role): seq<Path>
  {
    Select(root, None, r)
  }

  /** The name of the identifier attribute. */
  const IdKey: string := "ID"

  /** An element lacks an identifier when it has no ID attribute; an empty value counts as present. */
  predicate HasNoId(a: Attributes)
  {
    IdKey !in a
  }

  /** The attribute maps of the elements selected for role r, in document order. */
  function RoleAttributes(root: XmlNode, r: Role): (attrs: seq<Attributes>)
    ensures |attrs| == |SelectIn(root, r)|
  {
    var ps := SelectIn(root, r);
    seq(|ps|, k requires 0 <= k < |ps| => AttributesAt(root, ps[k]))
  }

  /** Document order: p is a proper prefix of q, or p branches off to an earlier child. */
  predicate PathBefore(p: Path, q: Path)
    decreases |p|
  {
    |q| > 0 && (|p| == 0 || p[0] < q[0] || (p[0] == q[0] && PathBefore(p[1..], q[1..])))
  }

  predicate InDocumentOrder(ps: seq<Path>)
  {
    forall i, j :: 0 <= i < j < |ps| ==> PathBefore(ps[i], ps[j])
  }

  // ---------------------------------------------------------------------------
  // What the selectors select

  lemma PrependMember(i: nat, ps: seq<Path>, p: Path)
    ensures p in Prepend(i, ps) <==> p != [] && p[0] == i && p[1..] in ps
  {
    var qs := Prepend(i, ps);
    if p in qs {
      var k :| 0 <= k < |qs| && qs[k] == p;
      assert p[1..] == ps[k];
    }
    if p != [] && p[0] == i && p[1..] in ps {
      var k :| 0 <= k < |ps| && ps[k] == p[1..];
      assert qs[k] == p;
    }
  }

  /**
   * A path is selected for role r exactly when it leads to an element that the
   * XPath expression of that role matches: one with the role's local name (and,
   * for lines and words, whose parent has the required local name).
   */
  lemma {:induction false} SelectMatches(n: XmlNode, parent: Option<string>, r: Role)
    ensures forall p :: p in Select(n, parent, r) <==>
      ValidPath(n, p) && Matches(r, ParentOf(n, parent, p), At(n, p))
    decreases n, 1, 0
  {
    SelectChildrenMatches(n, 0, r);
    forall p | ValidPath(n, p) && p != []
      ensures ParentOf(n, parent, p) == ParentOf(n, None, p)
    {
    }
  }

  lemma {:induction false} SelectChildrenMatches(n: XmlNode, i: nat, r: Role)
    ensures forall p :: p in SelectChildren(n, i, r) <==>
      ValidPath(n, p) && p != [] && p[0] >= i && Matches(r, ParentOf(n, None, p), At(n, p))
    decreases n, 0, if n.Element? && i <= |n.children| then |n.children| - i else 0
  {
    if n.Element? && i < |n.children| {
      var child := n.children[i];
      var here := Select(child, Some(n.localName), r);
      SelectMatches(child, Some(n.localName), r);
      SelectChildrenMatches(n, i + 1, r);
      forall p
        ensures p in Prepend(i, here) <==>
          ValidPath(n, p) && p != [] && p[0] == i && Matches(r, ParentOf(n, None, p), At(n, p))
      {
        PrependMember(i, here, p);
      }
    }
  }

  lemma PathBeforeIrreflexive(p: Path)
    ensures !PathBefore(p, p)
  {
  }

  lemma SortedConcat(a: seq<Path>, b: seq<Path>)
    requires InDocumentOrder(a) && InDocumentOrder(b)
    requires forall i, j :: 0 <= i < |a| && 0 <= j < |b| ==> PathBefore(a[i], b[j])
    ensures InDocumentOrder(a + b)
  {
    var c := a + b;
    forall i, j | 0 <= i < j < |c| ensures PathBefore(c[i], c[j]) {
      if j < |a| {
        assert c[i] == a[i] && c[j] == a[j];
      } else if i >= |a| {
        assert c[i] == b[i - |a|] && c[j] == b[j - |a|];
      } else {
        assert c[i] == a[i] && c[j] == b[j - |a|];
      }
    }
  }

  lemma PrependSorted(i: nat, ps: seq<Path>)
    requires InDocumentOrder(ps)
    ensures InDocumentOrder(Prepend(i, ps))
  {
    var qs := Prepend(i, ps);
    forall a, b | 0 <= a < b < |qs| ensures PathBefore(qs[a], qs[b]) {
      assert qs[a][1..] == ps[a] && qs[b][1..] == ps[b];
    }
  }

  /** Every selector returns its paths in document order, each once. */
  lemma {:induction false} SelectSorted(n: XmlNode, parent: Option<string>, r: Role)
    ensures InDocumentOrder(Select(n, parent, r))
    decreases n, 1, 0
  {
    SelectChildrenSorted(n, 0, r);
    var m: seq<Path> := if Matches(r, parent, n) then [[]] else [];
    SortedConcat(m, SelectChildren(n, 0, r));
  }

  lemma {:induction false} SelectChildrenSorted(n: XmlNode, i: nat, r: Role)
    ensures InDocumentOrder(SelectChildren(n, i, r))
    ensures forall p :: p in SelectChildren(n, i, r) ==> p != [] && p[0] >= i
    decreases n, 0, if n.Element? && i <= |n.children| then |n.children| - i else 0
  {
    if n.Element? && i < |n.children| {
      var here := Select(n.children[i], Some(n.localName), r);
      SelectSorted(n.children[i], Some(n.localName), r);
      SelectChildrenSorted(n, i + 1, r);
      PrependSorted(i, here);
      forall p | p in Prepend(i, here) ensures p != [] && p[0] == i {
        PrependMember(i, here, p);
      }
      SortedConcat(Prepend(i, here), SelectChildren(n, i + 1, r));
    }
  }

  lemma SortedDistinct(ps: seq<Path>)
    requires InDocumentOrder(ps)
    ensures forall i, j :: 0 <= i < j < |ps| ==> ps[i] != ps[j]
  {
    forall i, j | 0 <= i < j < |ps| ensures ps[i] != ps[j] {
      PathBeforeIrreflexive(ps[i]);
    }
  }

  /** Elements of different roles have different local names, so no path is selected twice. */
  lemma RolesDisjoint(root: XmlNode, r: Role, r': Role, p: Path)
    requires r != r'
    ensures !(p in SelectIn(root, r) && p in SelectIn(root, r'))
  {
    SelectMatches(root, None, r);
    SelectMatches(root, None, r');
  }

  // ---------------------------------------------------------------------------
  // Namespaces do not matter

  /** The tree with every element's namespace prefix replaced by `ns`. */
  function WithNamespace(n: XmlNode, ns: string): XmlNode
    decreases n
  {
    match n
    case Text(_) => n
    case Element(_, name, a, cs) =>
      Element(ns, name, a, seq(|cs|, i requires 0 <= i < |cs| => WithNamespace(cs[i], ns)))
  }

  /** Selection compares local names only: moving every element to another namespace selects the same paths. */
  lemma {:induction false} SelectIgnoresNamespace(n: XmlNode, parent: Option<string>, r: Role, ns: string)
    ensures Select(WithNamespace(n, ns), parent, r) == Select(n, parent, r)
    decreases n, 1, 0
  {
    SelectChildrenIgnoresNamespace(n, 0, r, ns);
  }

  lemma {:induction false} SelectChildrenIgnoresNamespace(n: XmlNode, i: nat, r: Role, ns: string)
    ensures SelectChildren(WithNamespace(n, ns), i, r) == SelectChildren(n, i, r)
    decreases n, 0, if n.Element? && i <= |n.children| then |n.children| - i else 0
  {
    if n.Element? && i < |n.children| {
      assert WithNamespace(n, ns).children[i] == WithNamespace(n.children[i], ns);
      SelectIgnoresNamespace(n.children[i], Some(n.localName), r, ns);
      SelectChildrenIgnoresNamespace(n, i + 1, r, ns);
    }
  }

  /**
   * A String inside a TextLine is a word even when that TextLine is not inside a
   * TextBlock and so is not itself a line.
   */
  lemma WordUnderStrayLine()
    ensures var page := Element("", "Page", map[], [Element("", "TextLine", map[], [Element("", "String", map[], [])])]);
      SelectIn(page, Line) == [] && SelectIn(page, Word) == [[0, 0]]
  {
    var word := Element("", "String", map[], []);
    var line := Element("", "TextLine", map[], [word]);
    var page := Element("", "Page", map[], [line]);
    assert SelectChildren(word, 0, Line) == [] && SelectChildren(word, 0, Word) == [];
    assert Select(word, Some("TextLine"), Line) == [];
    assert Select(word, Some("TextLine"), Word) == [[]];
    assert SelectChildren(line, 1, Line) == [] && SelectChildren(page, 1, Line) == [];
    assert SelectChildren(line, 1, Word) == [] && SelectChildren(page, 1, Word) == [];
    assert SelectChildren(line, 0, Line) == [];
    assert Prepend(0, [[]])[0] == [0];
    assert SelectChildren(line, 0, Word) == [[0]];
    assert Select(line, Some("Page"), Line) == [] && Select(line, Some("Page"), Word) == [[0]];
    assert Prepend(0, [[0]])[0] == [0, 0];
    assert SelectChildren(page, 0, Word) == [[0, 0]];
  }

  // ---------------------------------------------------------------------------
  // Selection depends only on the skeleton; writing attributes keeps the skeleton

  lemma {:induction false} SelectSkeleton(n: XmlNode, parent: Option<string>, r: Role)
    ensures Select(Skeleton(n), parent, r) == Select(n, parent, r)
    decreases n, 1, 0
  {
    SelectChildrenSkeleton(n, 0, r);
  }

  lemma {:induction false} SelectChildrenSkeleton(n: XmlNode, i: nat, r: Role)
    ensures SelectChildren(Skeleton(n), i, r) == SelectChildren(n, i, r)
    decreases n, 0, if n.Element? && i <= |n.children| then |n.children| - i else 0
  {
    if n.Element? && i < |n.children| {
      assert Skeleton(n).children[i] == Skeleton(n.children[i]);
      SelectSkeleton(n.children[i], Some(n.localName), r);
      SelectChildrenSkeleton(n, i + 1, r);
    }
  }

  lemma {:induction false} SetAttributesSkeleton(n: XmlNode, q: Path, a: Attributes)
    ensures Skeleton(SetAttributes(n, q, a)) == Skeleton(n)
    decreases |q|
  {
    if q != [] && n.Element? && q[0] < |n.children| {
      var n' := SetAttributes(n, q, a);
      SetAttributesSkeleton(n.children[q[0]], q[1..], a);
      assert Skeleton(n').children == Skeleton(n).children;
    }
  }

  /** Writing the attributes at q changes those at q and nothing else. */
  lemma {:induction false} SetAttributesAt(n: XmlNode, q: Path, a: Attributes, p: Path)
    ensures AttributesAt(SetAttributes(n, q, a), p) ==
      if p == q && ValidPath(n, q) && At(n, q).Element? then a else AttributesAt(n, p)
    decreases |q|
  {
    if q != [] && n.Element? && q[0] < |n.children| && p != [] && p[0] == q[0] {
      SetAttributesAt(n.children[q[0]], q[1..], a, p[1..]);
      if p == q {
        assert p[1..] == q[1..];
      } else {
        assert p[1..] != q[1..];
      }
    }
  }

  lemma {:induction false} SetAttributesSame(n: XmlNode, q: Path)
    requires ValidPath(n, q) && At(n, q).Element?
    ensures SetAttributes(n, q, AttributesAt(n, q)) == n
    decreases |q|
  {
    if q != [] {
      SetAttributesSame(n.children[q[0]], q[1..]);
      assert n.children[q[0] := n.children[q[0]]] == n.children;
    }
  }

  /**
   * Writing back distinct selected paths of one role puts each value at its path,
   * leaves every other path's attributes as they were, and keeps the skeleton.
   */
  lemma {:induction false} WriteBackAttributes(n: XmlNode, r: Role, ps: seq<Path>, vs: seq<Attributes>)
    requires |vs| == |ps|
    requires forall k :: 0 <= k < |ps| ==> ps[k] in SelectIn(n, r)
    requires forall i, j :: 0 <= i < j < |ps| ==> ps[i] != ps[j]
    ensures Skeleton(WriteBack(n, ps, vs)) == Skeleton(n)
    ensures forall k :: 0 <= k < |ps| ==> AttributesAt(WriteBack(n, ps, vs), ps[k]) == vs[k]
    ensures forall p :: p !in ps ==> AttributesAt(WriteBack(n, ps, vs), p) == AttributesAt(n, p)
    decreases |ps|
  {
    if ps != [] {
      var n1 := SetAttributes(n, ps[0], vs[0]);
      SetAttributesSkeleton(n, ps[0], vs[0]);
      SelectSkeleton(n, None, r);
      SelectSkeleton(n1, None, r);
      assert SelectIn(n1, r) == SelectIn(n, r);
      WriteBackAttributes(n1, r, ps[1..], vs[1..]);
      var w := WriteBack(n, ps, vs);
      assert w == WriteBack(n1, ps[1..], vs[1..]);
      SelectMatches(n, None, r);
      assert ValidPath(n, ps[0]) && At(n, ps[0]).Element?;
      forall p ensures AttributesAt(n1, p) == if p == ps[0] then vs[0] else AttributesAt(n, p) {
        SetAttributesAt(n, ps[0], vs[0], p);
      }
      forall k | 0 <= k < |ps| ensures AttributesAt(w, ps[k]) == vs[k] {
        if k == 0 {
          assert ps[0] !in ps[1..];
        } else {
          assert ps[1..][k - 1] == ps[k];
        }
      }
      forall p | p !in ps ensures AttributesAt(w, p) == AttributesAt(n, p) {
        assert p !in ps[1..];
      }
    }
  }

  /** Writing back the attributes that are already there changes nothing. */
  lemma {:induction false} WriteBackSame(n: XmlNode, ps: seq<Path>)
    requires forall k :: 0 <= k < |ps| ==> ValidPath(n, ps[k]) && At(n, ps[k]).Element?
    ensures WriteBack(n, ps, seq(|ps|, k requires 0 <= k < |ps| => AttributesAt(n, ps[k]))) == n
    decreases |ps|
  {
    if ps != [] {
      var vs := seq(|ps|, k requires 0 <= k < |ps| => AttributesAt(n, ps[k]));
      SetAttributesSame(n, ps[0]);
      WriteBackSame(n, ps[1..]);
      assert vs[1..] == seq(|ps[1..]|, k requires 0 <= k < |ps[1..]| => AttributesAt(n, ps[1..][k]));
    }
  }
}
