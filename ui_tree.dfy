/**
 * The UI element tree of a page: typed nodes with an optional id, a text, a
 * selectable flag and an ordered list of children, addressed from the root by
 * a path of child indices (the empty path is the root). Elements are values;
 * the page manager holds the tree that the controller edits in place.
 */
module UiTree {
  import opened Wrappers

  datatype ElementKind = Rows | Columns | Spacer | Button | TextEntry | Text

  datatype Element = Element(
    kind: ElementKind,
    id: Option<string>,
    text: string,
    selectable: bool,
    children: seq<Element>)

  /** Child indices from the root; `[]` is the root itself. */
  type Path = seq<nat>

  /** A fresh element of `kind`: no id, empty text, not selectable, no children. */
  function NewElement(kind: ElementKind): (e: Element)
    ensures e.kind == kind && e.text == "" && !e.selectable
    ensures e.id == None && e.children == []
  {
    Element(kind, None, "", false, [])
  }

  /** A plain label showing `s`. */
  function FromString(s: string): (e: Element)
    ensures e.kind == Text && e.text == s && !e.selectable
    ensures e.id == None && e.children == []
  {
    Element(Text, None, s, false, [])
  }

  // ---------------------------------------------------------------- ids

  /** The ids carried by `e` and all its descendants, with multiplicity. */
  function Ids(e: Element): (m: multiset<string>)
    decreases e
  {
    (if e.id.Some? then multiset{e.id.value} else multiset{}) + IdsOf(e.children)
  }

  function IdsOf(cs: seq<Element>): (m: multiset<string>)
    decreases cs
  {
    if cs == [] then multiset{} else Ids(cs[0]) + IdsOf(cs[1..])
  }

  /** No id occurs twice in the tree. */
  predicate UniqueIds(e: Element) {
    forall id | id in Ids(e) :: Ids(e)[id] == 1
  }

  lemma {:induction false} IdsOfAppend(cs: seq<Element>, c: Element)
    ensures IdsOf(cs + [c]) == IdsOf(cs) + Ids(c)
    decreases cs
  {
    if cs == [] {
      assert [c][1..] == [];
    } else {
      assert (cs + [c])[1..] == cs[1..] + [c];
      IdsOfAppend(cs[1..], c);
    }
  }

  lemma {:induction false} IdsOfUpdate(cs: seq<Element>, i: nat, c: Element)
    requires i < |cs| && Ids(c) == Ids(cs[i])
    ensures IdsOf(cs[i := c]) == IdsOf(cs)
    decreases cs
  {
    if i == 0 {
      assert cs[i := c][1..] == cs[1..];
    } else {
      assert cs[i := c][1..] == cs[1..][i - 1 := c];
      IdsOfUpdate(cs[1..], i - 1, c);
    }
  }

  /** UiElement::append_child: `child` becomes the last child. */
  function AppendChild(e: Element, child: Element): (r: Element)
    ensures SameAttrs(e, r) && Extends(e, r)
    ensures |r.children| == |e.children| + 1 && r.children[|e.children|] == child
  {
    e.(children := e.children + [child])
  }

  /** Peels one tree off the front of a suffix of a forest. */
  lemma IdsOfSuffix(cs: seq<Element>, k: nat)
    requires k < |cs|
    ensures IdsOf(cs[k..]) == Ids(cs[k]) + IdsOf(cs[k + 1..])
  {
    assert cs[k..][1..] == cs[k + 1..];
  }

  /** An element without an id carries exactly its children's ids. */
  lemma RootIds(e: Element)
    requires e.id == None
    ensures Ids(e) == IdsOf(e.children)
  {
  }

  /** A childless element carries only its own id. */
  lemma LeafIds(e: Element)
    requires e.children == []
    ensures Ids(e) == if e.id.Some? then multiset{e.id.value} else multiset{}
  {
  }

  /** Appending a child adds exactly the child's ids to the tree's. */
  lemma AppendChildIds(e: Element, child: Element)
    ensures Ids(AppendChild(e, child)) == Ids(e) + Ids(child)
  {
    IdsOfAppend(e.children, child);
  }

  // ---------------------------------------------------------------- paths

  /** The element at path `p`, or None when some index along `p` is out of range. */
  function Lookup(e: Element, p: Path): (r: Option<Element>)
    ensures p == [] ==> r == Some(e)
    decreases p
  {
    if p == [] then Some(e)
    else if p[0] < |e.children| then Lookup(e.children[p[0]], p[1..])
    else None
  }

  /** The element a path leads to lies inside the tree: its ids are among the tree's. */
  lemma {:induction false} LookupIds(e: Element, p: Path)
    requires ValidPath(e, p)
    ensures Ids(Lookup(e, p).value) <= Ids(e)
    decreases p
  {
    if p != [] {
      IdsOfHas(e.children, p[0]);
      LookupIds(e.children[p[0]], p[1..]);
    }
  }

  /** Every tree of a forest carries a part of the forest's ids. */
  lemma {:induction false} IdsOfHas(cs: seq<Element>, i: nat)
    requires i < |cs|
    ensures Ids(cs[i]) <= IdsOf(cs)
    decreases cs
  {
    if i > 0 {
      IdsOfHas(cs[1..], i - 1);
    }
  }

  predicate ValidPath(e: Element, p: Path) {
    Lookup(e, p).Some?
  }

  lemma LookupCons(e: Element, i: nat, q: Path)
    requires i < |e.children|
    ensures Lookup(e, [i] + q) == Lookup(e.children[i], q)
  {
    assert ([i] + q)[0] == i && ([i] + q)[1..] == q;
  }

  /** `e` with the element at `p` replaced by `n`; afterwards `p` leads to `n`. */
  function Replace(e: Element, p: Path, n: Element): (r: Element)
    requires ValidPath(e, p)
    ensures Lookup(r, p) == Some(n)
    decreases p
  {
    if p == [] then n
    else e.(children := e.children[p[0] := Replace(e.children[p[0]], p[1..], n)])
  }

  /** `b` is `a` with possibly more children appended after `a`'s own. */
  predicate Extends(a: Element, b: Element) {
    |a.children| <= |b.children| && b.children[..|a.children|] == a.children
  }

  /** `b` differs from `a` only in kind, text or selectability. */
  predicate SameShape(a: Element, b: Element) {
    a.id == b.id && a.children == b.children
  }

  /** `a` and `b` agree on everything but their children. */
  predicate SameAttrs(a: Element, b: Element) {
    a.kind == b.kind && a.id == b.id && a.text == b.text && a.selectable == b.selectable
  }

  /** Replacing a node by one that extends it keeps every path that resolved before. */
  lemma {:induction false} ReplaceKeepsPaths(e: Element, p: Path, n: Element, q: Path)
    requires ValidPath(e, p) && Extends(Lookup(e, p).value, n)
    requires ValidPath(e, q)
    ensures ValidPath(Replace(e, p, n), q)
    decreases q
  {
    var r := Replace(e, p, n);
    if q == [] {
    } else if p == [] {
      assert r.children[q[0]] == e.children[q[0]];
    } else {
      var i, j := p[0], q[0];
      if i == j {
        ReplaceKeepsPaths(e.children[i], p[1..], n, q[1..]);
      } else {
        assert r.children[j] == e.children[j];
      }
    }
  }

  /**
   * Editing the attributes of the node at `p` leaves every path resolving as
   * before; the node at `p` becomes `n` and every other node keeps its attributes.
   */
  lemma {:induction false} ReplaceLookup(e: Element, p: Path, n: Element, q: Path)
    requires ValidPath(e, p) && SameShape(Lookup(e, p).value, n)
    ensures ValidPath(Replace(e, p, n), q) <==> ValidPath(e, q)
    ensures ValidPath(e, q) && q == p ==> Lookup(Replace(e, p, n), q) == Some(n)
    ensures ValidPath(e, q) && q != p ==> SameAttrs(Lookup(Replace(e, p, n), q).value, Lookup(e, q).value)
    decreases q
  {
    var r := Replace(e, p, n);
    if q == [] {
    } else if p == [] {
      assert r.children == e.children;
    } else {
      var i, j := p[0], q[0];
      if j < |e.children| {
        if i == j {
          ReplaceLookup(e.children[i], p[1..], n, q[1..]);
          assert q == p <==> q[1..] == p[1..] by {
            if q[1..] == p[1..] { assert q == [q[0]] + q[1..] && p == [p[0]] + p[1..]; }
          }
        } else {
          assert r.children[j] == e.children[j];
        }
      }
    }
  }

  /** An attribute edit keeps the ids of the tree. */
  lemma {:induction false} ReplaceKeepsIds(e: Element, p: Path, n: Element)
    requires ValidPath(e, p) && SameShape(Lookup(e, p).value, n)
    ensures Ids(Replace(e, p, n)) == Ids(e)
    decreases p
  {
    if p != [] {
      var i := p[0];
      ReplaceKeepsIds(e.children[i], p[1..], n);
      IdsOfUpdate(e.children, i, Replace(e.children[i], p[1..], n));
    }
  }

  // ---------------------------------------------------------------- lookup by id

  /** The path of the first element in preorder whose id is `id`. */
  function FindById(e: Element, id: string): (r: Option<Path>)
    decreases e
  {
    if e.id == Some(id) then Some([]) else FindIn(e.children, id)
  }

  /** The path, relative to the parent of `cs`, of the first element of the forest `cs` with id `id`. */
  function FindIn(cs: seq<Element>, id: string): (r: Option<Path>)
    decreases cs
  {
    if cs == [] then None
    else match FindById(cs[0], id)
      case Some(q) => Some([0] + q)
      case None =>
        match FindIn(cs[1..], id)
        case Some(q) => Some([q[0] + 1] + q[1..])
        case None => None
  }

  /** The lookup behind `get_by_id_mut`: the element with id `id`, if any. */
  function GetById(e: Element, id: string): (r: Option<Element>) {
    match FindById(e, id)
    case Some(p) => Lookup(e, p)
    case None => None
  }

  /** The text of the element with id `id`, if any. */
  function TextById(e: Element, id: string): (r: Option<string>) {
    match GetById(e, id)
    case Some(n) => Some(n.text)
    case None => None
  }

  lemma {:induction false} FindByIdCorrect(e: Element, id: string)
    ensures FindById(e, id).Some? <==> id in Ids(e)
    ensures FindById(e, id).Some? ==>
      ValidPath(e, FindById(e, id).value) && Lookup(e, FindById(e, id).value).value.id == Some(id)
    decreases e
  {
    if e.id != Some(id) {
      FindInCorrect(e.children, id);
      var f := FindIn(e.children, id);
      if f.Some? {
        LookupCons(e, f.value[0], f.value[1..]);
        assert f.value == [f.value[0]] + f.value[1..];
      }
    }
  }

  lemma {:induction false} FindInCorrect(cs: seq<Element>, id: string)
    ensures FindIn(cs, id).Some? <==> id in IdsOf(cs)
    ensures FindIn(cs, id).Some? ==>
      var q := FindIn(cs, id).value;
      |q| >= 1 && q[0] < |cs| && ValidPath(cs[q[0]], q[1..]) && Lookup(cs[q[0]], q[1..]).value.id == Some(id)
    decreases cs
  {
    if cs != [] {
      FindByIdCorrect(cs[0], id);
      FindInCorrect(cs[1..], id);
      var f := FindById(cs[0], id);
      if f.Some? {
        assert FindIn(cs, id) == Some([0] + f.value);
        assert ([0] + f.value)[1..] == f.value;
      } else {
        var g := FindIn(cs[1..], id);
        assert IdsOf(cs) == Ids(cs[0]) + IdsOf(cs[1..]);
        if g.Some? {
          var q := [g.value[0] + 1] + g.value[1..];
          assert FindIn(cs, id) == Some(q);
          assert q[1..] == g.value[1..];
          assert cs[q[0]] == cs[1..][g.value[0]];
        }
      }
    }
  }

  /** In a forest, lookup by id finds the first tree carrying the id at its root when no earlier tree carries it at all. */
  lemma {:induction false} FindInFirst(cs: seq<Element>, id: string, k: nat)
    requires k < |cs| && cs[k].id == Some(id)
    requires forall j :: 0 <= j < k ==> id !in Ids(cs[j])
    ensures FindIn(cs, id) == Some([k])
    decreases k
  {
    FindByIdCorrect(cs[0], id);
    if k == 0 {
      assert FindById(cs[0], id) == Some([]);
      assert [0] + [] == [0];
    } else {
      assert FindById(cs[0], id) == None;
      FindInFirst(cs[1..], id, k - 1);
      assert [k - 1][1..] == [];
      assert [k - 1 + 1] + [k - 1][1..] == [k];
    }
  }

  /** Lookup by id succeeds exactly for the ids present, and returns an element carrying that id. */
  lemma GetByIdCorrect(e: Element, id: string)
    ensures GetById(e, id).Some? <==> id in Ids(e)
    ensures GetById(e, id).Some? ==> GetById(e, id).value.id == Some(id)
  {
    FindByIdCorrect(e, id);
  }

  /** Lookup by id reaches child `k` of `e` when it carries the id and nothing before it does. */
  lemma TextByIdChild(e: Element, id: string, k: nat)
    requires k < |e.children| && e.id != Some(id) && e.children[k].id == Some(id)
    requires forall j :: 0 <= j < k ==> id !in Ids(e.children[j])
    ensures TextById(e, id) == Some(e.children[k].text)
  {
    FindInFirst(e.children, id, k);
    LookupCons(e, k, []);
  }

  lemma {:induction false} FindInUpdate(cs: seq<Element>, i: nat, c: Element, id: string)
    requires i < |cs| && FindById(c, id) == FindById(cs[i], id)
    ensures FindIn(cs[i := c], id) == FindIn(cs, id)
    decreases cs
  {
    if i == 0 {
      assert cs[i := c][1..] == cs[1..];
    } else {
      assert cs[i := c][1..] == cs[1..][i - 1 := c];
      FindInUpdate(cs[1..], i - 1, c, id);
    }
  }

  /** An attribute edit does not move any id: lookups by id resolve to the same paths. */
  lemma {:induction false} ReplaceKeepsFind(e: Element, p: Path, n: Element, id: string)
    requires ValidPath(e, p) && SameShape(Lookup(e, p).value, n)
    ensures FindById(Replace(e, p, n), id) == FindById(e, id)
    decreases p
  {
    if p != [] {
      var i := p[0];
      ReplaceKeepsFind(e.children[i], p[1..], n, id);
      FindInUpdate(e.children, i, Replace(e.children[i], p[1..], n), id);
    }
  }

  /** The handle's `set_text`: the element at `p` shows `t`. */
  function SetTextAt(e: Element, p: Path, t: string): (r: Element)
    requires ValidPath(e, p)
    ensures Lookup(r, p) == Some(Lookup(e, p).value.(text := t))
  {
    Replace(e, p, Lookup(e, p).value.(text := t))
  }

  /**
   * Setting the text of the element found under id `x` to `t`: the tree keeps
   * its ids and where they are, looking up `x` now gives text `t`, and every
   * other id shows the text it had.
   */
  lemma SetTextById(e: Element, x: string, t: string, y: string)
    requires FindById(e, x).Some?
    ensures
      var p := FindById(e, x).value;
      && ValidPath(e, p)
      && var r := SetTextAt(e, p, t);
      && Ids(r) == Ids(e)
      && FindById(r, y) == FindById(e, y)
      && TextById(r, y) == if y == x then Some(t) else TextById(e, y)
  {
    FindByIdCorrect(e, x);
    FindByIdCorrect(e, y);
    var p := FindById(e, x).value;
    var n := Lookup(e, p).value.(text := t);
    ReplaceKeepsIds(e, p, n);
    ReplaceKeepsFind(e, p, n, y);
    if FindById(e, y).Some? {
      ReplaceLookup(e, p, n, FindById(e, y).value);
    }
  }
}
