/**
 * The counter page the controller builds once at start-up: a `Rows` root
 * holding a caption, the counter display "data", two rows of increase and
 * decrease buttons, a reset button, the "Output" label and a text entry.
 */
module CounterPage {
  import opened Wrappers
  import opened UiTree

  /** The name the peripheral announces for itself. */
  const PeripheralName: string := "Test Peripheral"

  const Title: string := "Test Page..."

  /** The ids the counter page declares. */
  function PageIds(): (m: multiset<string>) {
    multiset{"data", "button", "increase_5", "decrease", "decrease_5", "button3", "Output", "TextInput"}
  }

  /** A selectable button showing `caption`, with id `id`. */
  function ButtonElement(caption: string, id: string): (e: Element)
    ensures e.kind == Button && e.selectable && e.text == caption
    ensures e.id == Some(id) && e.children == []
  {
    FromString(caption).(kind := Button, selectable := true, id := Some(id))
  }

  /** A row of two buttons after a caption and a spacer, built child by child. */
  function CounterRow(caption: string, first: Element, second: Element): (r: Element)
    ensures r.kind == Columns && r.id == None && |r.children| == 4
    ensures r.text == "" && !r.selectable
    ensures r.children[0] == FromString(caption) && r.children[1] == NewElement(Spacer)
    ensures r.children[2] == first && r.children[3] == second
  {
    var row := AppendChild(NewElement(Columns), FromString(caption));
    var row := AppendChild(row, NewElement(Spacer));
    var row := AppendChild(row, first);
    AppendChild(row, second)
  }

  lemma CounterRowIds(caption: string, first: Element, second: Element)
    ensures Ids(CounterRow(caption, first, second)) == Ids(first) + Ids(second)
  {
    var r0 := NewElement(Columns);
    var r1 := AppendChild(r0, FromString(caption));
    var r2 := AppendChild(r1, NewElement(Spacer));
    var r3 := AppendChild(r2, first);
    AppendChildIds(r0, FromString(caption));
    AppendChildIds(r1, NewElement(Spacer));
    AppendChildIds(r2, first);
    AppendChildIds(r3, second);
  }

  /** The children of the page's root, in the order `State.Init` appends them. */
  function InitialChildren(): (cs: seq<Element>) {
    [ FromString("Value is: "),
      FromString("0").(id := Some("data")),
      CounterRow("Increase:", ButtonElement("Increase", "button"), ButtonElement("Increase Five", "increase_5")),
      CounterRow("Decrease:", ButtonElement("Decrease", "decrease"), ButtonElement("Decrease Five", "decrease_5")),
      ButtonElement("Reset", "button3"),
      FromString("Output:").(id := Some("Output")),
      FromString("Text Input").(kind := TextEntry, selectable := true, id := Some("TextInput")) ]
  }

  /** The tree `State.Init` builds: a `Rows` root over the initial children. */
  function InitialTree(): (t: Element) {
    Element(Rows, None, "", false, InitialChildren())
  }

  /** A button carries exactly its own id. */
  lemma ButtonIds(caption: string, id: string)
    ensures Ids(ButtonElement(caption, id)) == multiset{id}
  {
    LeafIds(ButtonElement(caption, id));
  }

  /** A counter row carries exactly the ids of its two buttons. */
  lemma ButtonRowIds(caption: string, firstCaption: string, firstId: string, secondCaption: string, secondId: string)
    ensures Ids(CounterRow(caption, ButtonElement(firstCaption, firstId), ButtonElement(secondCaption, secondId)))
         == multiset{firstId} + multiset{secondId}
  {
    CounterRowIds(caption, ButtonElement(firstCaption, firstId), ButtonElement(secondCaption, secondId));
    ButtonIds(firstCaption, firstId);
    ButtonIds(secondCaption, secondId);
  }

  // One lemma per child of the initial root, so that each proof only
  // evaluates the one literal child it is about.

  lemma CaptionIds(cs: seq<Element>)
    requires cs == InitialChildren()
    ensures Ids(cs[0]) == multiset{}
  {
    LeafIds(cs[0]);
  }

  lemma DataIds(cs: seq<Element>)
    requires cs == InitialChildren()
    ensures Ids(cs[1]) == multiset{"data"}
  {
    LeafIds(cs[1]);
  }

  lemma IncreaseRowIds(cs: seq<Element>)
    requires cs == InitialChildren()
    ensures Ids(cs[2]) == multiset{"button"} + multiset{"increase_5"}
  {
    assert cs[2] == CounterRow("Increase:", ButtonElement("Increase", "button"), ButtonElement("Increase Five", "increase_5"));
    ButtonRowIds("Increase:", "Increase", "button", "Increase Five", "increase_5");
  }

  lemma DecreaseRowIds(cs: seq<Element>)
    requires cs == InitialChildren()
    ensures Ids(cs[3]) == multiset{"decrease"} + multiset{"decrease_5"}
  {
    assert cs[3] == CounterRow("Decrease:", ButtonElement("Decrease", "decrease"), ButtonElement("Decrease Five", "decrease_5"));
    ButtonRowIds("Decrease:", "Decrease", "decrease", "Decrease Five", "decrease_5");
  }

  lemma ResetIds(cs: seq<Element>)
    requires cs == InitialChildren()
    ensures Ids(cs[4]) == multiset{"button3"}
  {
    ButtonIds("Reset", "button3");
  }

  lemma OutputIds(cs: seq<Element>)
    requires cs == InitialChildren()
    ensures Ids(cs[5]) == multiset{"Output"}
  {
    LeafIds(cs[5]);
  }

  lemma TextInputIds(cs: seq<Element>)
    requires cs == InitialChildren()
    ensures Ids(cs[6]) == multiset{"TextInput"}
  {
    LeafIds(cs[6]);
  }

  /** The ids each child of the initial root carries. */
  lemma InitialChildrenIds(cs: seq<Element>)
    requires cs == InitialChildren()
    ensures
      && Ids(cs[0]) == multiset{}
      && Ids(cs[1]) == multiset{"data"}
      && Ids(cs[2]) == multiset{"button"} + multiset{"increase_5"}
      && Ids(cs[3]) == multiset{"decrease"} + multiset{"decrease_5"}
      && Ids(cs[4]) == multiset{"button3"}
      && Ids(cs[5]) == multiset{"Output"}
      && Ids(cs[6]) == multiset{"TextInput"}
  {
    CaptionIds(cs); DataIds(cs); IncreaseRowIds(cs); DecreaseRowIds(cs);
    ResetIds(cs); OutputIds(cs); TextInputIds(cs);
  }

  lemma PageIdsUnique()
    ensures forall id | id in PageIds() :: PageIds()[id] == 1
  {
  }

  lemma IdsOfSeven(cs: seq<Element>)
    requires |cs| == 7
    ensures IdsOf(cs) == Ids(cs[0]) + (Ids(cs[1]) + (Ids(cs[2]) + (Ids(cs[3]) + (Ids(cs[4]) + (Ids(cs[5]) + (Ids(cs[6]) + multiset{}))))))
  {
    assert IdsOf(cs[7..]) == multiset{} by { assert cs[7..] == []; }
    IdsOfSuffix(cs, 6);
    var m6 := Ids(cs[6]) + multiset{};
    IdsOfSuffix(cs, 5);
    var m5 := Ids(cs[5]) + m6;
    IdsOfSuffix(cs, 4);
    var m4 := Ids(cs[4]) + m5;
    IdsOfSuffix(cs, 3);
    var m3 := Ids(cs[3]) + m4;
    IdsOfSuffix(cs, 2);
    var m2 := Ids(cs[2]) + m3;
    IdsOfSuffix(cs, 1);
    assert IdsOf(cs[1..]) == Ids(cs[1]) + m2;
    IdsOfSuffix(cs, 0);
    assert cs[0..] == cs;
  }

  /** Seven trees carrying the ids listed for the page's children carry exactly the page's ids. */
  lemma SevenIdsSum(cs: seq<Element>)
    requires |cs| == 7
    requires
      && Ids(cs[0]) == multiset{}
      && Ids(cs[1]) == multiset{"data"}
      && Ids(cs[2]) == multiset{"button"} + multiset{"increase_5"}
      && Ids(cs[3]) == multiset{"decrease"} + multiset{"decrease_5"}
      && Ids(cs[4]) == multiset{"button3"}
      && Ids(cs[5]) == multiset{"Output"}
      && Ids(cs[6]) == multiset{"TextInput"}
    ensures IdsOf(cs) == PageIds()
  {
    IdsOfSeven(cs);
  }

  /** The initial page carries exactly the eight ids. */
  lemma InitialChildrenIdsSum(cs: seq<Element>)
    requires cs == InitialChildren()
    ensures IdsOf(cs) == PageIds()
  {
    InitialChildrenIds(cs);
    SevenIdsSum(cs);
  }

  lemma InitialIds(t: Element)
    requires t == InitialTree()
    ensures Ids(t) == PageIds()
  {
    RootIds(t);
    InitialChildrenIdsSum(t.children);
  }

  /** A tree carrying exactly the page's ids carries none twice. */
  lemma PageIdsUniqueIn(t: Element)
    requires Ids(t) == PageIds()
    ensures UniqueIds(t)
  {
    PageIdsUnique();
  }

  /** The page `State.Init` builds carries each of the eight ids exactly once. */
  lemma InitialIdsUnique(t: Element)
    requires t == InitialTree()
    ensures Ids(t) == PageIds() && UniqueIds(t)
  {
    InitialIds(t);
    PageIdsUniqueIn(t);
  }

  /** No child before the "Output" label carries its id. */
  lemma OutputIsFirst(cs: seq<Element>)
    requires cs == InitialChildren()
    ensures forall j | 0 <= j < 5 :: "Output" !in Ids(cs[j])
  {
    InitialChildrenIds(cs);
    forall j | 0 <= j < 5 ensures "Output" !in Ids(cs[j]) {
      assert j == 0 || j == 1 || j == 2 || j == 3 || j == 4;
    }
  }

  /** In the initial tree, "data" shows 0. */
  lemma InitialData(t: Element)
    requires t == InitialTree()
    ensures TextById(t, "data") == Some("0")
  {
    CaptionIds(t.children);
    TextByIdChild(t, "data", 1);
  }

  /** In the initial tree, "Output" shows its caption. */
  lemma InitialOutput(t: Element)
    requires t == InitialTree()
    ensures TextById(t, "Output") == Some("Output:")
  {
    OutputIsFirst(t.children);
    TextByIdChild(t, "Output", 5);
  }
}
