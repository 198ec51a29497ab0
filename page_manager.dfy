/**
 * The page manager the controller uses: one page (owner, title, element
 * tree), mutation through handles, and a dirty set of the elements changed
 * since the last drain. Only the surface the controller relies on is
 * modelled: a handle is the path of the element it was obtained for, every
 * mutation through a handle records that element as changed, and
 * `GetChanges` returns the recorded changes and clears them.
 */
module PageManager {
  import opened Wrappers
  import opened UiTree

  /** The local identity of the peripheral, supplied by the client; opaque here. */
  datatype Identity = Identity(key: string)

  datatype Page = Page(owner: Identity, title: string, root: Element)

  class UiPageManager {
    var page: Page
    /** Paths of the elements changed since the last drain. */
    var dirty: set<Path>

    /** Every pending change names an element that exists in the tree. */
    ghost predicate Valid()
      reads this
    {
      forall p | p in dirty :: ValidPath(page.root, p)
    }

    /** UiPageManager::new: a page whose root is a blank element, with nothing pending. */
    constructor (owner: Identity, title: string)
      ensures Valid()
      ensures page == Page(owner, title, NewElement(Text)) && dirty == {}
    {
      page := Page(owner, title, NewElement(Text));
      dirty := {};
    }

    /** get_element_mut: a handle on the element at `p`, or None when `p` does not resolve. */
    method GetElementMut(p: Path) returns (h: Option<Path>)
      ensures h.Some? <==> ValidPath(page.root, p)
      ensures h.Some? ==> h.value == p
    {
      if ValidPath(page.root, p) {
        h := Some(p);
      } else {
        h := None;
      }
    }

    /**
     * get_by_id_mut: a handle on the element whose id is `id`; None exactly
     * when no element carries that id.
     */
    method GetByIdMut(id: string) returns (h: Option<Path>)
      ensures h.Some? <==> id in Ids(page.root)
      ensures h.Some? ==> ValidPath(page.root, h.value) && Lookup(page.root, h.value).value.id == Some(id)
      ensures h == FindById(page.root, id)
    {
      FindByIdCorrect(page.root, id);
      h := FindById(page.root, id);
    }

    /** set_text through handle `h`: the element shows `t` and is recorded as changed. */
    method SetText(h: Path, t: string)
      requires Valid() && ValidPath(page.root, h)
      modifies this
      ensures Valid()
      ensures page == old(page).(root := SetTextAt(old(page.root), h, t))
      ensures dirty == old(dirty) + {h}
    {
      var n := Lookup(page.root, h).value.(text := t);
      forall q | q in dirty ensures ValidPath(Replace(page.root, h, n), q) {
        ReplaceKeepsPaths(page.root, h, n, q);
      }
      page := page.(root := Replace(page.root, h, n));
      dirty := dirty + {h};
    }

    /** set_kind through handle `h`: the element gets kind `k` and is recorded as changed. */
    method SetKind(h: Path, k: ElementKind)
      requires Valid() && ValidPath(page.root, h)
      modifies this
      ensures Valid()
      ensures page == old(page).(root := Replace(old(page.root), h, Lookup(old(page.root), h).value.(kind := k)))
      ensures dirty == old(dirty) + {h}
    {
      var n := Lookup(page.root, h).value.(kind := k);
      forall q | q in dirty ensures ValidPath(Replace(page.root, h, n), q) {
        ReplaceKeepsPaths(page.root, h, n, q);
      }
      page := page.(root := Replace(page.root, h, n));
      dirty := dirty + {h};
    }

    /**
     * append_child through handle `h`: `child` becomes the last child of the
     * element, which is recorded as changed; every element that existed keeps its path.
     */
    method AppendChild(h: Path, child: Element)
      requires Valid() && ValidPath(page.root, h)
      modifies this
      ensures Valid()
      ensures page == old(page).(root := Replace(old(page.root), h, UiTree.AppendChild(Lookup(old(page.root), h).value, child)))
      ensures dirty == old(dirty) + {h}
      ensures forall q | ValidPath(old(page.root), q) :: ValidPath(page.root, q)
    {
      var n := UiTree.AppendChild(Lookup(page.root, h).value, child);
      forall q | ValidPath(page.root, q) ensures ValidPath(Replace(page.root, h, n), q) {
        ReplaceKeepsPaths(page.root, h, n, q);
      }
      page := page.(root := Replace(page.root, h, n));
      dirty := dirty + {h};
    }

    /**
     * get_changes: returns every change recorded since the previous drain (or
     * since construction) and clears the record; the page itself is untouched.
     */
    method GetChanges() returns (changes: set<Path>)
      requires Valid()
      modifies this
      ensures Valid()
      ensures changes == old(dirty) && dirty == {} && page == old(page)
      ensures forall p | p in changes :: ValidPath(page.root, p)
    {
      changes := dirty;
      dirty := {};
    }
  }
}
