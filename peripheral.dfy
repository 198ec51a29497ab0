/**
 * The test peripheral's controller: it builds the counter page once, sends it
 * whole, and then answers each input event by updating its counter or its
 * text, writing the new value into the page and sending the drained changes
 * as one update. The pure functions here specify a step; class `State` is the
 * controller itself, proved against them.
 */
module Peripheral {
  import opened Wrappers
  import opened Decimal
  import opened UiTree
  import opened PageManager
  import opened Protocol
  import opened CounterPage

  // ---------------------------------------------------------------- one step, as a function

  /** The controller's own state: the counter and the last committed text. */
  datatype Ctl = Ctl(pageNum: nat, pageText: string)

  /** The element a step writes into, and the text it writes. */
  datatype Shown = Shown(id: string, text: string)

  /** What one message does: nothing at all, or a new state, an optional write, and one update sent. */
  datatype Reaction = Ignore | Update(next: Ctl, shown: Option<Shown>)

  /** Rust's `usize::saturating_sub`: `a - b`, or 0 when that would be negative. */
  function SaturatingSub(a: nat, b: nat): (r: nat)
    ensures r <= a && r + b >= a
    ensures r == 0 || r + b == a
  {
    if a >= b then a - b else 0
  }

  const CounterIds: set<string> := {"button", "increase_5", "decrease", "decrease_5", "button3"}
  const InputIds: set<string> := CounterIds + {"TextInput"}

  /** The counter after an input on element `id`, for the ids that change the counter. */
  function CounterStep(n: nat, id: string): (r: Option<nat>)
    ensures r.Some? <==> id in CounterIds
  {
    if id == "button" then Some(n + 1)
    else if id == "increase_5" then Some(n + 5)
    else if id == "decrease" then Some(SaturatingSub(n, 1))
    else if id == "decrease_5" then Some(SaturatingSub(n, 5))
    else if id == "button3" then Some(0)
    else None
  }

  /** The reaction to `Input(id, _, input)`. */
  function InputReaction(c: Ctl, id: string, input: UiInput): (r: Reaction)
    ensures r.Ignore? <==> id !in InputIds
    ensures id in CounterIds ==>
      r.Update? && r.next.pageText == c.pageText && r.shown == Some(Shown("data", NatToString(r.next.pageNum)))
    ensures id == "TextInput" ==> r.Update? && r.next.pageNum == c.pageNum
    ensures id == "TextInput" && input.Text? ==>
      r.next.pageText == input.value && r.shown == Some(Shown("Output", "Output: " + input.value))
    ensures id == "TextInput" && !input.Text? ==> r == Update(c, None)
  {
    match CounterStep(c.pageNum, id)
    case Some(n) => Update(c.(pageNum := n), Some(Shown("data", NatToString(n))))
    case None =>
      if id != "TextInput" then Ignore
      else if input.Text? then Update(c.(pageText := input.value), Some(Shown("Output", "Output: " + input.value)))
      else Update(c, None)
  }

  function UiReaction(c: Ctl, m: UiMessage): (r: Reaction)
    ensures r.Ignore? <==> !(m.Input? && m.elementId in InputIds)
  {
    if m.Input? then InputReaction(c, m.elementId, m.input) else Ignore
  }

  /** An input event on one of the six ids the controller handles. */
  predicate Recognized(msg: Message) {
    msg.Ui? && msg.ui.Input? && msg.ui.elementId in InputIds
  }

  /** The reaction to any message: only recognised inputs do anything. */
  function React(c: Ctl, msg: Message): (r: Reaction)
    ensures r.Ignore? <==> !Recognized(msg)
  {
    if msg.Ui? then UiReaction(c, msg.ui) else Ignore
  }

  function Apply(c: Ctl, msg: Message): (r: Ctl)
    ensures !Recognized(msg) ==> r == c
    ensures r.pageText != c.pageText ==>
      msg.Ui? && msg.ui.Input? && msg.ui.elementId == "TextInput" && msg.ui.input.Text?
  {
    match React(c, msg)
    case Ignore => c
    case Update(next, _) => next
  }

  /** The controller state after processing `msgs` in arrival order. */
  function Replay(c: Ctl, msgs: seq<Message>): (r: Ctl)
    ensures (forall i :: 0 <= i < |msgs| ==> !Recognized(msgs[i])) ==> r == c
    decreases |msgs|
  {
    if msgs == [] then c else Apply(Replay(c, msgs[..|msgs| - 1]), msgs[|msgs| - 1])
  }

  /** How many messages the controller sends while processing `msgs`: at most one per message. */
  function Emitted(msgs: seq<Message>): (k: nat)
    ensures k <= |msgs|
    ensures k == 0 <==> forall i :: 0 <= i < |msgs| ==> !Recognized(msgs[i])
    decreases |msgs|
  {
    if msgs == [] then 0
    else Emitted(msgs[..|msgs| - 1]) + (if Recognized(msgs[|msgs| - 1]) then 1 else 0)
  }

  /** The paths a step records as changed, in the tree it edits. */
  function ChangedPaths(root: Element, shown: Option<Shown>): (ps: set<Path>) {
    if shown.Some? && FindById(root, shown.value.id).Some? then {FindById(root, shown.value.id).value} else {}
  }

  /** The tree after a step writes `shown` into the element carrying its id; unchanged when nothing is shown. */
  function ShownRoot(root: Element, shown: Option<Shown>): (r: Element) {
    if shown.Some? && FindById(root, shown.value.id).Some? then
      FindByIdCorrect(root, shown.value.id);
      SetTextAt(root, FindById(root, shown.value.id).value, shown.value.text)
    else root
  }

  /**
   * Writing a step's text keeps every id and where it is, changes the text
   * of the shown id only, and leaves every other id's text as it was.
   */
  lemma ShownRootKeeps(root: Element, shown: Option<Shown>)
    ensures Ids(ShownRoot(root, shown)) == Ids(root)
    ensures forall y :: FindById(ShownRoot(root, shown), y) == FindById(root, y)
    ensures forall y ::
              TextById(ShownRoot(root, shown), y) ==
                if shown.Some? && shown.value.id == y && FindById(root, y).Some? then Some(shown.value.text)
                else TextById(root, y)
  {
    if shown.Some? && FindById(root, shown.value.id).Some? {
      forall y ensures
        && Ids(ShownRoot(root, shown)) == Ids(root)
        && FindById(ShownRoot(root, shown), y) == FindById(root, y)
        && TextById(ShownRoot(root, shown), y) == if shown.value.id == y then Some(shown.value.text) else TextById(root, y)
      {
        SetTextById(root, shown.value.id, shown.value.text, y);
      }
      SetTextById(root, shown.value.id, shown.value.text, shown.value.id);
    }
  }

  /** Processing `a` then `b` is processing `a + b`; the updates sent add up. */
  lemma {:induction false} ReplayAppend(c: Ctl, a: seq<Message>, b: seq<Message>)
    ensures Replay(c, a + b) == Replay(Replay(c, a), b)
    ensures Emitted(a + b) == Emitted(a) + Emitted(b)
    decreases |b|
  {
    if b == [] {
      assert a + b == a;
    } else {
      var b' := b[..|b| - 1];
      assert (a + b)[..|a + b| - 1] == a + b';
      assert (a + b)[|a + b| - 1] == b[|b| - 1];
      ReplayAppend(c, a, b');
    }
  }

  /** The messages the receive loop hands on, in order: those before the first denial. */
  function Handled(rs: seq<ClientResponse>): (ms: seq<Message>)
    ensures |ms| <= |rs|
    decreases |rs|
  {
    if rs == [] then []
    else match rs[0]
      case Denied => []
      case Incoming(m) => [m] + Handled(rs[1..])
      case OtherResponse => Handled(rs[1..])
  }

  /** Before any denial, the messages handed on from `a + b` are those from `a`, then from `b`. */
  lemma {:induction false} HandledAppend(a: seq<ClientResponse>, b: seq<ClientResponse>)
    requires forall j | 0 <= j < |a| :: !a[j].Denied?
    ensures Handled(a + b) == Handled(a) + Handled(b)
    decreases |a|
  {
    if a == [] {
      assert a + b == b;
    } else {
      assert (a + b)[0] == a[0];
      assert (a + b)[1..] == a[1..] + b;
      HandledAppend(a[1..], b);
      if a[0].Incoming? {
        assert Handled(a + b) == [a[0].msg] + (Handled(a[1..]) + Handled(b));
      }
    }
  }

  /** A denial ends the stream: nothing after it is handed on. */
  lemma HandledDenied(rs: seq<ClientResponse>)
    requires rs != [] && rs[0].Denied?
    ensures Handled(rs) == []
  {
  }

  /** The loop's view of a prefix: one more response hands on what that response alone would. */
  lemma HandledStep(rs: seq<ClientResponse>, i: nat)
    requires i < |rs| && forall j | 0 <= j < i :: !rs[j].Denied?
    requires !rs[i].Denied?
    ensures Handled(rs[..i + 1]) == Handled(rs[..i]) + Handled([rs[i]])
    ensures forall j | 0 <= j < i + 1 :: !rs[j].Denied?
  {
    assert rs[..i + 1] == rs[..i] + [rs[i]];
    HandledAppend(rs[..i], [rs[i]]);
  }

  /** Where the loop stops (a denial, or the end), it has handed on everything the stream hands on. */
  lemma HandledUpTo(rs: seq<ClientResponse>, i: nat)
    requires i <= |rs| && forall j | 0 <= j < i :: !rs[j].Denied?
    requires i == |rs| || rs[i].Denied?
    ensures Handled(rs) == Handled(rs[..i])
  {
    if i < |rs| {
      assert rs[..i] + rs[i..] == rs;
      HandledAppend(rs[..i], rs[i..]);
      HandledDenied(rs[i..]);
      assert Handled(rs[..i]) + [] == Handled(rs[..i]);
    } else {
      assert rs[..i] == rs;
    }
  }

  /** `log` is `before` followed only by element updates. */
  predicate UpdatesAfter(before: seq<Message>, log: seq<Message>) {
    && |before| <= |log| && log[..|before|] == before
    && forall j | |before| <= j < |log| :: log[j].Ui? && log[j].ui.UpdateElements?
  }

  lemma UpdatesAfterTrans(a: seq<Message>, b: seq<Message>, c: seq<Message>)
    requires UpdatesAfter(a, b) && UpdatesAfter(b, c)
    ensures UpdatesAfter(a, c)
  {
    assert c[..|a|] == c[..|b|][..|a|];
  }

  // ---------------------------------------------------------------- properties of a step

  /** An input event on element `id`; the controller ignores the path it carries. */
  function InputMsg(id: string, path: Option<Path>, input: UiInput): (m: Message) {
    Ui(Input(id, path, input))
  }

  /** "button" adds exactly 1 and "increase_5" exactly 5; the text stays. */
  lemma Increases(c: Ctl, path: Option<Path>, input: UiInput)
    ensures Apply(c, InputMsg("button", path, input)) == c.(pageNum := c.pageNum + 1)
    ensures Apply(c, InputMsg("increase_5", path, input)) == c.(pageNum := c.pageNum + 5)
  {
  }

  /** A decrease never goes below 0, and at the floor still writes "0" and sends an update. */
  lemma DecreasesSaturate(c: Ctl, path: Option<Path>, input: UiInput)
    ensures Apply(c, InputMsg("decrease", path, input)).pageNum == if c.pageNum >= 1 then c.pageNum - 1 else 0
    ensures Apply(c, InputMsg("decrease_5", path, input)).pageNum == if c.pageNum >= 5 then c.pageNum - 5 else 0
    ensures c.pageNum == 0 ==>
      React(c, InputMsg("decrease", path, input)) == Update(c, Some(Shown("data", "0")))
    ensures c.pageNum < 5 ==>
      React(c, InputMsg("decrease_5", path, input)) == Update(c.(pageNum := 0), Some(Shown("data", "0")))
  {
  }

  /** A decrease undoes the matching increase. */
  lemma DecreaseUndoesIncrease(c: Ctl, path: Option<Path>, input: UiInput)
    ensures Apply(Apply(c, InputMsg("button", path, input)), InputMsg("decrease", path, input)) == c
    ensures Apply(Apply(c, InputMsg("increase_5", path, input)), InputMsg("decrease_5", path, input)) == c
  {
  }

  /** An increase after a decrease restores the counter only above the floor. */
  lemma IncreaseAfterDecrease(c: Ctl, path: Option<Path>, input: UiInput)
    ensures Apply(Apply(c, InputMsg("decrease", path, input)), InputMsg("button", path, input)).pageNum ==
      if c.pageNum == 0 then 1 else c.pageNum
  {
  }

  /** "button3" sets the counter to 0 from any state. */
  lemma ResetZeroes(c: Ctl, path: Option<Path>, input: UiInput)
    ensures Apply(c, InputMsg("button3", path, input)) == c.(pageNum := 0)
    ensures React(c, InputMsg("button3", path, input)).shown == Some(Shown("data", "0"))
  {
  }

  /** The counter's total rise that `msgs` can cause: 1 per "button", 5 per "increase_5". */
  function Gain(msgs: seq<Message>): (g: nat)
    decreases |msgs|
  {
    if msgs == [] then 0
    else
      var m := msgs[|msgs| - 1];
      Gain(msgs[..|msgs| - 1]) +
        (if m.Ui? && m.ui.Input? && m.ui.elementId == "button" then 1
         else if m.Ui? && m.ui.Input? && m.ui.elementId == "increase_5" then 5
         else 0)
  }

  /** The counter never exceeds its start plus the increases applied. */
  lemma {:induction false} ReplayBound(c: Ctl, msgs: seq<Message>)
    ensures Replay(c, msgs).pageNum <= c.pageNum + Gain(msgs)
    decreases |msgs|
  {
    if msgs != [] {
      ReplayBound(c, msgs[..|msgs| - 1]);
    }
  }

  /** An input that lowers or resets the counter. */
  predicate Lowers(m: Message) {
    m.Ui? && m.ui.Input? && m.ui.elementId in {"decrease", "decrease_5", "button3"}
  }

  /** Without decreases or resets, the counter is exactly its start plus the increases applied. */
  lemma {:induction false} ReplayExact(c: Ctl, msgs: seq<Message>)
    requires forall i :: 0 <= i < |msgs| ==> !Lowers(msgs[i])
    ensures Replay(c, msgs).pageNum == c.pageNum + Gain(msgs)
    decreases |msgs|
  {
    if msgs != [] {
      ReplayExact(c, msgs[..|msgs| - 1]);
    }
  }

  /** A committed text input: the only kind of message that changes the text. */
  predicate SetsText(m: Message) {
    m.Ui? && m.ui.Input? && m.ui.elementId == "TextInput" && m.ui.input.Text?
  }

  /** Without a committed text input, the text stays as it was. */
  lemma {:induction false} ReplayKeepsText(c: Ctl, msgs: seq<Message>)
    requires forall i :: 0 <= i < |msgs| ==> !SetsText(msgs[i])
    ensures Replay(c, msgs).pageText == c.pageText
    decreases |msgs|
  {
    if msgs != [] {
      ReplayKeepsText(c, msgs[..|msgs| - 1]);
    }
  }

  /**
   * The page shows controller state `c`: "data" shows the counter, and
   * "Output" shows the text (or still its caption, before any text was
   * committed).
   */
  ghost predicate Displays(root: Element, c: Ctl) {
    && TextById(root, "data") == Some(NatToString(c.pageNum))
    && (|| TextById(root, "Output") == Some("Output: " + c.pageText)
        || (c.pageText == "" && TextById(root, "Output") == Some("Output:")))
  }

  /** The initial page shows a zero counter and an empty text. */
  lemma InitialDisplays(root: Element)
    requires root == InitialTree()
    ensures Displays(root, Ctl(0, ""))
  {
    InitialData(root);
    InitialOutput(root);
  }

  // ---------------------------------------------------------------- the controller

  /** Sending `a` and then `b` appends the two in that order. */
  lemma SentTwo(s: seq<Message>, a: Message, b: Message)
    ensures s + [a] + [b] == s + [a, b]
  {
  }

  /** Page manager `pm` between messages for controller state `c`: nothing is pending, and the page shows `c`. */
  ghost predicate Settled(pm: UiPageManager, c: Ctl)
    reads pm
  {
    && pm.Valid()
    && pm.dirty == {}
    && Displays(pm.page.root, c)
  }

  class State {
    var testPage: UiPageManager
    var pageNum: nat
    var pageText: string

    /**
     * Between messages nothing is pending, "data" shows the counter, and
     * "Output" shows the text (or still its caption, before any text was
     * committed). Which ids the page carries is stated by `IdsKept`.
     */
    ghost predicate Valid()
      reads this, testPage
    {
      Settled(testPage, Ctl(pageNum, pageText))
    }

    /** The page keeps its owner, its title, and every id at the path it had. */
    twostate predicate IdsKept()
      reads this, testPage
    {
      && testPage.page.owner == old(testPage.page.owner)
      && testPage.page.title == old(testPage.page.title)
      && Ids(testPage.page.root) == old(Ids(testPage.page.root))
      && forall y :: FindById(testPage.page.root, y) == old(FindById(testPage.page.root, y))
    }

    /** What processing one message with reaction `r` did to the controller, its page and the channel. */
    twostate predicate Reacted(client: ClientChannel, r: Reaction)
      reads this, testPage, client
    {
      match r
      case Ignore =>
        && pageNum == old(pageNum) && pageText == old(pageText)
        && testPage.page == old(testPage.page)
        && client.sent == old(client.sent)
      case Update(next, shown) =>
        && pageNum == next.pageNum && pageText == next.pageText
        && testPage.page == old(testPage.page).(root := ShownRoot(old(testPage.page.root), shown))
        && client.sent == old(client.sent) + [Ui(UpdateElements(ChangedPaths(old(testPage.page.root), shown)))]
        && forall id :: TextById(testPage.page.root, id) ==
             if shown.Some? && shown.value.id == id then Some(shown.value.text)
             else TextById(old(testPage.page.root), id)
    }

    /**
     * State::init: announces the peripheral's name, builds the page, drains
     * the changes construction recorded, and sends the whole page.
     */
    constructor Init(client: ClientChannel, owner: Identity)
      modifies client
      ensures Valid() && fresh(testPage)
      ensures pageNum == 0 && pageText == ""
      ensures testPage.page == Page(owner, Title, InitialTree())
      ensures client.sent ==
        old(client.sent) + [Router(SetIdentityProperty("name", PeripheralName)), Ui(SetPage(testPage.page))]
    {
      ghost var sent0 := client.sent;
      var announce := Router(SetIdentityProperty("name", PeripheralName));
      client.Send(announce);
      var page := PublishPage(client, owner);
      testPage := page;
      pageNum := 0;
      pageText := "";
      SentTwo(sent0, announce, Ui(SetPage(page.page)));
    }

    /** The rest of State::init: builds the page, drains what construction recorded, and sends the page whole. */
    static method PublishPage(client: ClientChannel, owner: Identity) returns (page: UiPageManager)
      modifies client
      ensures fresh(page) && page.Valid() && page.dirty == {}
      ensures page.page == Page(owner, Title, InitialTree())
      ensures Settled(page, Ctl(0, ""))
      ensures client.sent == old(client.sent) + [Ui(SetPage(page.page))]
    {
      page := BuildPage(owner);
      var _ := page.GetChanges();
      client.Send(Ui(SetPage(page.page)));
      InitialIds(page.page.root);
      InitialDisplays(page.page.root);
    }

    /** The tree construction of `State::init`: a `Rows` root and its children appended one by one. */
    static method BuildPage(owner: Identity) returns (page: UiPageManager)
      ensures fresh(page) && page.Valid()
      ensures page.page == Page(owner, Title, InitialTree())
    {
      page := new UiPageManager(owner, Title);
      var root := page.GetElementMut([]);
      var h := root.value;
      page.SetKind(h, Rows);
      ghost var built := NewElement(Rows);
      var children := InitialChildren();
      var k := 0;
      while k < |children|
        invariant 0 <= k <= |children|
        invariant page.Valid() && h == []
        invariant page.page == Page(owner, Title, built)
        invariant built == Element(Rows, None, "", false, children[..k])
        invariant fresh(page)
      {
        page.AppendChild(h, children[k]);
        assert children[..k + 1] == children[..k] + [children[k]];
        built := AppendChild(built, children[k]);
        k := k + 1;
      }
      assert children[..k] == children;
    }

    /** Looks up the element with id `id` and sets its text to `t`, recording it as changed. */
    method Show(id: string, t: string)
      requires testPage.Valid() && testPage.dirty == {}
      requires TextById(testPage.page.root, id).Some?
      modifies testPage
      ensures testPage.Valid()
      ensures testPage.page.owner == old(testPage.page.owner) && testPage.page.title == old(testPage.page.title)
      ensures testPage.page.root == ShownRoot(old(testPage.page.root), Some(Shown(id, t)))
      ensures Ids(testPage.page.root) == old(Ids(testPage.page.root))
      ensures forall y :: FindById(testPage.page.root, y) == FindById(old(testPage.page.root), y)
      ensures FindById(old(testPage.page.root), id).Some?
      ensures testPage.dirty == {FindById(old(testPage.page.root), id).value}
      ensures forall y ::
        TextById(testPage.page.root, y) == if y == id then Some(t) else TextById(old(testPage.page.root), y)
    {
      GetByIdCorrect(testPage.page.root, id);
      var element := testPage.GetByIdMut(id);
      ghost var before := testPage.page.root;
      testPage.SetText(element.value, t);
      forall y ensures
        && TextById(testPage.page.root, y) == (if y == id then Some(t) else TextById(before, y))
        && FindById(testPage.page.root, y) == FindById(before, y)
      {
        SetTextById(before, id, t, y);
      }
      SetTextById(before, id, t, id);
    }

    /**
     * The state after one handled input, before its changes are drained:
     * the controller holds `next`, the page shows it, and the only element
     * marked changed is the one `shown` names, which now carries its text.
     */
    twostate predicate Staged(next: Ctl, shown: Shown)
      reads this, testPage
    {
      && pageNum == next.pageNum && pageText == next.pageText
      && testPage == old(testPage) && testPage.Valid()
      && testPage.page.owner == old(testPage.page.owner)
      && testPage.page.title == old(testPage.page.title)
      && testPage.page.root == ShownRoot(old(testPage.page.root), Some(shown))
      && Ids(testPage.page.root) == Ids(old(testPage.page.root))
      && Displays(testPage.page.root, next)
      && testPage.dirty == ChangedPaths(old(testPage.page.root), Some(shown))
      && forall id :: TextById(testPage.page.root, id) ==
           if shown.id == id then Some(shown.text) else TextById(old(testPage.page.root), id)
    }

    /** One of the counter arms of ui_handler: the counter becomes `n` and "data" shows it. */
    method SetCounter(n: nat)
      requires Valid()
      modifies this, testPage
      ensures Staged(Ctl(n, old(pageText)), Shown("data", NatToString(n)))
    {
      pageNum := n;
      Show("data", NatToString(pageNum));
    }

    /** The "TextInput" arm of ui_handler: the text becomes `text` and "Output" shows it. */
    method SetOutput(text: string)
      requires Valid()
      modifies this, testPage
      ensures Staged(Ctl(old(pageNum), text), Shown("Output", "Output: " + text))
    {
      pageText := text;
      Show("Output", "Output: " + pageText);
    }

    /** ui_handler: the reaction to one UI message. */
    method UiHandler(client: ClientChannel, msg: UiMessage)
      requires Valid()
      modifies this, testPage, client
      ensures Valid() && testPage == old(testPage)
      ensures Reacted(client, UiReaction(Ctl(old(pageNum), old(pageText)), msg))
    {
      if !msg.Input? {
        return;
      }
      var id := msg.elementId;
      if id == "button" {
        CounterArm(client, pageNum + 1);
      } else if id == "increase_5" {
        CounterArm(client, pageNum + 5);
      } else if id == "decrease" {
        CounterArm(client, SaturatingSub(pageNum, 1));
      } else if id == "decrease_5" {
        CounterArm(client, SaturatingSub(pageNum, 5));
      } else if id == "button3" {
        CounterArm(client, 0);
      } else if id == "TextInput" {
        if msg.input.Text? {
          OutputArm(client, msg.input.value);
        } else {
          SendChanges(client);
        }
      }
    }

    /** A counter arm of ui_handler followed by the shared tail: counter `n` is shown and the change sent. */
    method CounterArm(client: ClientChannel, n: nat)
      requires Valid()
      modifies this, testPage, client
      ensures Valid() && testPage == old(testPage)
      ensures Reacted(client, Update(Ctl(n, old(pageText)), Some(Shown("data", NatToString(n)))))
    {
      SetCounter(n);
      var changes := testPage.GetChanges();
      client.Send(Ui(UpdateElements(changes)));
    }

    /** The text arm of ui_handler followed by the shared tail: `text` is shown and the change sent. */
    method OutputArm(client: ClientChannel, text: string)
      requires Valid()
      modifies this, testPage, client
      ensures Valid() && testPage == old(testPage)
      ensures Reacted(client, Update(Ctl(old(pageNum), text), Some(Shown("Output", "Output: " + text))))
    {
      SetOutput(text);
      var changes := testPage.GetChanges();
      client.Send(Ui(UpdateElements(changes)));
    }

    /** The shared tail of ui_handler when nothing was written: the (empty) pending changes are still sent. */
    method SendChanges(client: ClientChannel)
      requires Valid()
      modifies testPage, client
      ensures Valid() && testPage == old(testPage)
      ensures Reacted(client, Update(Ctl(pageNum, pageText), None))
    {
      var changes := testPage.GetChanges();
      client.Send(Ui(UpdateElements(changes)));
    }

    /** msg_handler: UI messages go to `UiHandler`; router, dataset and error messages are ignored. */
    method MsgHandler(client: ClientChannel, msg: Message)
      requires Valid()
      modifies this, testPage, client
      ensures Valid() && testPage == old(testPage)
      ensures Reacted(client, React(Ctl(old(pageNum), old(pageText)), msg))
      ensures Ctl(pageNum, pageText) == Apply(Ctl(old(pageNum), old(pageText)), msg)
      ensures !Recognized(msg) ==> client.sent == old(client.sent)
      ensures Recognized(msg) ==>
        && |client.sent| == |old(client.sent)| + 1 && client.sent[..|old(client.sent)|] == old(client.sent)
        && client.sent[|old(client.sent)|].Ui? && client.sent[|old(client.sent)|].ui.UpdateElements?
      ensures IdsKept()
    {
      match msg {
        case Ui(m) => UiHandler(client, m);
        case Router(_) =>
        case Dataset =>
        case Error =>
      }
      ghost var r := React(Ctl(old(pageNum), old(pageText)), msg);
      if r.Update? {
        ShownRootKeeps(old(testPage.page.root), r.shown);
      }
    }

    /**
     * One turn of main's receive loop, on a response that is not a denial:
     * a message goes to `MsgHandler`, anything else is skipped.
     */
    method Receive(client: ClientChannel, r: ClientResponse)
      requires Valid() && !r.Denied?
      modifies this, testPage, client
      ensures Valid() && testPage == old(testPage)
      ensures Ctl(pageNum, pageText) == Replay(Ctl(old(pageNum), old(pageText)), Handled([r]))
      ensures |client.sent| == |old(client.sent)| + Emitted(Handled([r]))
      ensures UpdatesAfter(old(client.sent), client.sent)
      ensures IdsKept()
    {
      match r
      case Incoming(msg) =>
        assert Handled([r]) == [msg] by { assert [r][1..] == []; }
        MsgHandler(client, msg);
      case OtherResponse =>
        assert Handled([r]) == [] by { assert [r][1..] == []; }
    }

    /**
     * The receive loop of main over a finite stream of responses: messages
     * go to `MsgHandler` in arrival order, other responses are skipped, and
     * a denial or the end of the stream ends the loop. The state follows
     * `Replay` over the messages handled, and each recognised input adds
     * exactly one update to what was sent.
     */
    method Run(client: ClientChannel, rs: seq<ClientResponse>)
      requires Valid()
      modifies this, testPage, client
      ensures Valid() && testPage == old(testPage)
      ensures Ctl(pageNum, pageText) == Replay(Ctl(old(pageNum), old(pageText)), Handled(rs))
      ensures |client.sent| == |old(client.sent)| + Emitted(Handled(rs))
      ensures UpdatesAfter(old(client.sent), client.sent)
      ensures IdsKept()
    {
      ghost var c0 := Ctl(pageNum, pageText);
      ghost var sent0 := client.sent;
      var i := 0;
      while i < |rs| && !rs[i].Denied?
        invariant 0 <= i <= |rs|
        invariant forall j | 0 <= j < i :: !rs[j].Denied?
        invariant Valid() && testPage == old(testPage)
        invariant Ctl(pageNum, pageText) == Replay(c0, Handled(rs[..i]))
        invariant |client.sent| == |sent0| + Emitted(Handled(rs[..i]))
        invariant UpdatesAfter(sent0, client.sent)
        invariant IdsKept()
      {
        ghost var sentBefore := client.sent;
        Receive(client, rs[i]);
        HandledStep(rs, i);
        ReplayAppend(c0, Handled(rs[..i]), Handled([rs[i]]));
        UpdatesAfterTrans(sent0, sentBefore, client.sent);
        i := i + 1;
      }
      HandledUpTo(rs, i);
    }
  }
}
