# Test peripheral controller, modelled in Dafny

This project models the controller of the spider test peripheral (`src/main.rs`).
At start-up the peripheral announces its name. It then builds one UI page, the
"counter page": a `Rows` root with a caption, the counter display `data`, two
rows of increase/decrease buttons, a reset button, the `Output` label and a
text entry. It drains the changes that construction recorded and sends the
whole page.

After that, each `Input` event on one of six element ids does three things:
- It updates the counter, with saturating subtraction on the decreases, or the committed text.
- It writes the new value into `data` (as a decimal) or into `Output` (`"Output: " + text`).
- It drains the page's pending changes and sends them as exactly one `UpdateElements`.

Every other message changes nothing and sends nothing.

Layout, one module per file:

- `wrappers.dfy`: `Option`.
- `decimal.dfy`: `format!("{}", n)` for an unsigned counter, with its inverse.
- `ui_tree.dfy`: UI elements as a value tree, paths into it, lookup by id, and text edits.
- `page_manager.dfy`: the page manager the controller drives, as a class. It holds a page and the set of element paths changed since the last drain.
- `protocol.dfy`: the message datatypes, and the outbound client channel as a class that logs what is sent.
- `counter_page.dfy`: the counter page's constants, its exact initial tree, and facts about that tree.
- `peripheral.dfy`: two parts.
  - The controller's step as pure functions (`React`, `Apply`, `Replay`, `Emitted`, `Handled`) with their lemmas.
  - The controller itself, class `State`, whose methods are proved against those functions.

Two details of `src/main.rs` the model keeps:
- An input on `TextInput` whose payload is not text still drains and sends one `UpdateElements`. That update is empty, because nothing was written (`src/main.rs:185-198`).
- Before any text is committed, `Output` shows its construction caption `"Output:"`, not `"Output: " + ""` (`src/main.rs:85-89`). The page invariant `Displays` therefore allows either form while the text is empty.

## Model

| member | source | states |
|---|---|---|
| Decimal.NatToString | src/main.rs:163 | the rendering of a counter is a nonempty string of ASCII digits without a leading zero (unless it is "0"), one character long exactly when the counter is below 10 |
| Decimal.ParseNatToString | src/main.rs:163 | reading back the text written into `data` gives the counter: the rendering loses nothing |
| Decimal.NatToStringParse | src/main.rs:163 | every canonical digit string is the rendering of the number it reads as, so the rendering is onto the canonical strings |
| Decimal.ParseNatPositive | src/main.rs:163 | a canonical string not starting with '0' reads as a positive number |
| Decimal.NatToStringInjective | src/main.rs:161-183 | two counter values give the same `data` text exactly when they are equal |
| UiTree.FindByIdCorrect | src/main.rs:161 | lookup by id succeeds exactly when some element carries the id, and the path found resolves to an element carrying it |
| UiTree.FindInCorrect | src/main.rs:161 | the same, for the search through a list of children |
| UiTree.FindInFirst | src/main.rs:161 | lookup by id finds the first child carrying the id when no earlier child carries it anywhere |
| UiTree.GetByIdCorrect | src/main.rs:161 | the lookup behind `get_by_id_mut` returns an element exactly for the ids present, and that element carries the id |
| UiTree.TextByIdChild | src/main.rs:161 | the text found by id is that of the first child carrying it |
| UiTree.NewElement | src/main.rs:36 | `UiElement::new(kind)`: an element of that kind with empty text, no id, not selectable and no children |
| UiTree.FromString | src/main.rs:30 | `UiElement::from_string(s)`: a text label showing s, with no id, not selectable and no children |
| UiTree.AppendChild | src/main.rs:37-52 | `append_child` on a value: the child becomes the last child, the element's own attributes and its earlier children are kept |
| UiTree.Lookup | src/main.rs:24-26 | the element a path leads to, the empty path giving the root itself |
| UiTree.LookupIds | src/main.rs:24-26 | the element a path leads to carries no id the whole tree does not |
| UiTree.FindById | src/main.rs:161 | the path of the first element, in preorder, carrying the id; its meaning is stated by `FindByIdCorrect` and `FindInFirst` |
| UiTree.SetTextAt | src/main.rs:163 | `set_text` through a handle: the element at the path now shows t and keeps all its other attributes |
| UiTree.AppendChildIds | src/main.rs:28-96 | appending a child adds exactly the child's ids to the tree's ids |
| UiTree.IdsOfAppend | src/main.rs:28-96 | the ids of a list with one more child are the old ids plus that child's |
| UiTree.Replace | src/main.rs:163 | after replacing the element at a path, that path resolves to the new element |
| UiTree.ReplaceKeepsPaths | src/main.rs:163 | an edit at a path keeps every other path that resolved before |
| UiTree.ReplaceLookup | src/main.rs:163 | after an edit, a path resolves exactly when it did before; the edited path gives the new element, and every other path gives an element with the same attributes |
| UiTree.ReplaceKeepsIds | src/main.rs:163 | an edit that keeps the id and children leaves the tree's ids unchanged |
| UiTree.ReplaceKeepsFind | src/main.rs:163 | such an edit leaves every lookup by id resolving to the same path |
| UiTree.SetTextById | src/main.rs:161-163 | `set_text` on the element found for id x makes x's text the new text and leaves every other id's text and every id's path unchanged |
| PageManager.UiPageManager.constructor | src/main.rs:23 | a new page has the given owner and title, a blank root, and nothing pending |
| PageManager.UiPageManager.GetElementMut | src/main.rs:24-26 | a handle is returned exactly when the path resolves, and it is that path |
| PageManager.UiPageManager.GetByIdMut | src/main.rs:161 | a handle is returned exactly when the id is present, and it resolves to an element carrying the id |
| PageManager.UiPageManager.SetText | src/main.rs:163 | the element shows the new text, the rest of the page is unchanged, and its path joins the pending changes |
| PageManager.UiPageManager.SetKind | src/main.rs:27 | the element gets the new kind and its path joins the pending changes |
| PageManager.UiPageManager.AppendChild | src/main.rs:28 | the child becomes the element's last child, the element's path joins the pending changes, and every path that resolved still does |
| PageManager.UiPageManager.GetChanges | src/main.rs:99 | returns exactly the pending changes, leaves nothing pending, and does not touch the page |
| Protocol.ClientChannel.Send | src/main.rs:102 | the message is appended to what was sent, in order |
| CounterPage.CounterRowIds | src/main.rs:35-54 | a button row carries exactly the ids of its two buttons |
| CounterPage.InitialChildrenIds | src/main.rs:28-96 | each of the seven children of the root carries exactly the ids listed for it |
| CounterPage.InitialIds | src/main.rs:22-96 | the tree built at start-up carries exactly the eight ids data, button, increase_5, decrease, decrease_5, button3, Output, TextInput |
| CounterPage.InitialIdsUnique | src/main.rs:22-96 | the tree built at start-up carries each of the eight ids exactly once |
| CounterPage.PageIdsUniqueIn | src/main.rs:22-96 | any tree carrying exactly the page's ids carries none twice |
| CounterPage.InitialData | src/main.rs:29-33 | in the initial tree, `data` shows "0" |
| CounterPage.InitialOutput | src/main.rs:85-89 | in the initial tree, `Output` shows its caption "Output:" |
| CounterPage.ButtonElement | src/main.rs:77-83 | a selectable button showing its caption and carrying its id, with no children |
| CounterPage.CounterRow | src/main.rs:35-54 | a `Columns` row with no id, no text and not selectable, of four children: a plain label showing the caption, a spacer, then the two buttons in order |
| CounterPage.InitialChildren | src/main.rs:28-96 | the seven children `init` appends to the root, in order; what they carry is stated by `InitialChildrenIds` |
| CounterPage.InitialTree | src/main.rs:27-96 | the root turned into `Rows` holding those seven children; stated by `InitialIds`, `InitialData` and `InitialOutput` |
| Peripheral.SaturatingSub | src/main.rs:172 | `usize::saturating_sub`: the result never exceeds a, it is 0 or exactly a - b, and it is never below a - b |
| Peripheral.CounterStep | src/main.rs:159-184 | a counter arm runs, giving a new counter value, exactly for the five counter ids |
| Peripheral.UiReaction | src/main.rs:147-158 | a UI message is ignored exactly when it is not an `Input` on one of the six ids |
| Peripheral.Apply | src/main.rs:138-198 | a message that is not a recognised input leaves the counter and text unchanged, and only a text-carrying input on `TextInput` changes the text |
| Peripheral.Replay | src/main.rs:126-135 | the messages handed on are applied in arrival order, and a stream without a recognised input leaves the state unchanged |
| Peripheral.InputReaction | src/main.rs:158-192 | an input is ignored exactly when its id is not one of the six. A counter id keeps the text and writes the new counter's decimal into `data`. `TextInput` keeps the counter; with a text payload it sets the text and writes "Output: " + text into `Output`, and otherwise it writes nothing but still answers |
| Peripheral.React | src/main.rs:138-157 | a message does anything exactly when it is an `Input` on one of the six ids |
| Peripheral.Emitted | src/main.rs:195-198 | a stream of messages causes at most one update per message, and none exactly when no message is a recognised input |
| Peripheral.ReplayAppend | src/main.rs:126-135 | processing two streams one after the other is processing their concatenation, and the updates sent add up |
| Peripheral.Handled | src/main.rs:126-135 | the loop never hands on more messages than it received |
| Peripheral.HandledAppend | src/main.rs:126-135 | before any denial, the messages handed on from two stretches of the stream are those of the first, then those of the second |
| Peripheral.HandledDenied | src/main.rs:131 | a denial ends the loop: nothing from it onwards is handed on |
| Peripheral.HandledStep | src/main.rs:127-133 | one more non-denial response hands on exactly what that response alone would |
| Peripheral.HandledUpTo | src/main.rs:126-135 | where the loop stops, at a denial or at the end, it has handed on everything the stream hands on |
| Peripheral.UpdatesAfterTrans | src/main.rs:195-198 | the logs of two consecutive stretches of updates-only sending compose into one |
| Peripheral.Increases | src/main.rs:158-169 | for an input carrying any path and any payload, "button" raises the counter by exactly 1 and "increase_5" by exactly 5, and the text stays |
| Peripheral.DecreasesSaturate | src/main.rs:158-179 | for any path and payload, "decrease" / "decrease_5" give max(n - 1, 0) / max(n - 5, 0). At the floor (n = 0 for "decrease", n < 5 for "decrease_5") the counter becomes 0, "0" is still written and an update is still sent |
| Peripheral.DecreaseUndoesIncrease | src/main.rs:158-179 | for any path and payload, a decrease right after the matching increase restores the state |
| Peripheral.IncreaseAfterDecrease | src/main.rs:158-174 | for any path and payload, an increase after a decrease restores the counter, except at the floor 0, where it gives 1 |
| Peripheral.ResetZeroes | src/main.rs:180-184 | for any path and payload, "button3" sets the counter to 0 from any state and writes "0" |
| Peripheral.ReplayBound | src/main.rs:160-184 | over any stream, the counter never exceeds its start plus 1 per "button" and 5 per "increase_5" |
| Peripheral.ReplayExact | src/main.rs:160-169 | without decreases or resets, the counter is exactly its start plus those increases |
| Peripheral.ReplayKeepsText | src/main.rs:185-191 | without a text-carrying `TextInput`, the text never changes |
| Peripheral.ShownRootKeeps | src/main.rs:161-163 | writing a step's text into the element carrying its id keeps every id and the path it is at, sets that id's text, and leaves every other id's text unchanged |
| Peripheral.InitialDisplays | src/main.rs:29-33 | the initial tree shows counter 0 in `data` and the empty text's caption in `Output` |
| Peripheral.State.Init | src/main.rs:17-109 | announces the name, then sends the exact initial page owned by the peripheral's identity. Counter 0 and empty text, nothing pending, and the page shows the state |
| Peripheral.State.PublishPage | src/main.rs:99-102 | the page is built, drained before sending, sent whole, and shows counter 0 |
| Peripheral.State.BuildPage | src/main.rs:23-96 | building through handles yields exactly the counter page's tree |
| Peripheral.State.Show | src/main.rs:161-163 | `get_by_id_mut(id).set_text(t)`: the new tree is the old one with only id's element's text set to t. So id now shows t, every other id keeps its text, the ids and the path of every id stay the same, and the only pending change is id's element |
| Peripheral.State.SetCounter | src/main.rs:160-184 | a counter arm: the counter becomes n and the text stays. The new tree is the old one with only `data`'s text set to n's decimal, `data` is the only pending change, and the page shows the new state |
| Peripheral.State.SetOutput | src/main.rs:185-190 | the text arm: the text becomes t and the counter stays. The new tree is the old one with only `Output`'s text set to "Output: " + t, and `Output` is the only pending change |
| Peripheral.State.CounterArm | src/main.rs:160-198 | a counter arm, then the shared tail: the new page is exactly the old one with `data` showing n, and the one update sent carries `data`'s path |
| Peripheral.State.OutputArm | src/main.rs:185-198 | the text arm with a text payload, then the shared tail: the new page is exactly the old one with `Output` showing "Output: " + t, and the one update sent carries `Output`'s path |
| Peripheral.State.SendChanges | src/main.rs:185-198 | a `TextInput` without a text payload: the page and state stay, and one empty `UpdateElements` is still sent |
| Peripheral.State.UiHandler | src/main.rs:147-202 | the state and the page follow `UiReaction`. An ignored message changes nothing and sends nothing. A handled input sets exactly one element's text and changes nothing else in the page: the whole new page is stated. It sends exactly one `UpdateElements` carrying the drained changes, leaves nothing pending, and keeps the page showing the state |
| Peripheral.State.MsgHandler | src/main.rs:138-145 | UI messages go to `UiHandler`; router, dataset and error messages change nothing and send nothing. Every message keeps the page's ids, each at its path |
| Peripheral.State.Receive | src/main.rs:127-133 | one turn of the receive loop: a message is handled and anything else is skipped. The page keeps its ids, each at its path |
| Peripheral.State.Run | src/main.rs:126-135 | after the loop, the counter and text are `Replay` over the messages handed on. Exactly `Emitted` of them were sent, all `UpdateElements`, appended after what was sent before. The page keeps its owner, title, ids and their paths, so after `Init` it still carries each of the eight ids exactly once |

## Left out

- The async runtime, client builder, fixed addresses, keyfile and state file in `main` (`src/main.rs:112-124`): session set-up and I/O with no logic of their own. `Run` takes the received responses as a finite sequence.
- The identity the client reports (`src/main.rs:22`) is an opaque parameter, `owner`.
- Peripheral.State.Init: the page's owner is this parameter rather than a value read from the channel.
- `UiPageManager`, `UiElement` and `UiPath` come from an external crate whose source is not part of this model. Only the surface the controller uses is modelled.
  - A handle is the path of its element.
  - Each mutation through a handle records that path as changed.
  - `get_changes` returns the recorded set and clears it.
  - Change-record formats, collapsing and ordering are not modelled, because they are not visible here.
  - The default attributes of a new page's root are not visible either. The model takes a blank text element, which `init` turns into `Rows` anyway.
- Peripheral.State.Show: the source's `unwrap` on a missing id is a panic. The model requires the id to be present instead, and `Valid` guarantees that for "data" and "Output".
- Counter overflow: `page_num` is a `usize`, and `+= 1` / `+= 5` could overflow (`src/main.rs:162`, `167`). The model uses an unbounded `nat`.
- Peripheral.State.Valid (the controller invariant) says which texts the page shows, not which ids it carries. The ids are covered instead by three facts:
  - `Init` fixes the exact initial tree.
  - `CounterPage.InitialIdsUnique` shows that tree carries the eight ids once each.
  - `MsgHandler`, `Receive` and `Run` each ensure `IdsKept`: the ids stay, each at its path.
  `Valid` is kept to texts so that `Init`'s proof does not expand the id multiset of the literal initial tree.
- Message payloads the controller never reads are dropped from their variants: router messages other than the identity announcement, the dataset and error contents, and the other `UiMessage` variants.
- `UiInput` variants other than text are merged into one `Click` case, because the controller only tells text apart from the rest.
