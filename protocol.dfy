/**
 * The messages the controller receives and sends, and the outbound side of
 * the client channel. Payloads the controller never looks at are left out of
 * the variants that carry them.
 */
module Protocol {
  import opened Wrappers
  import opened UiTree
  import opened PageManager

  /** What an input event carries: a plain activation, or the text committed in a text entry. */
  datatype UiInput = Click | Text(value: string)

  datatype UiMessage =
    | Subscribe
    | Pages
    | GetPage
    | PageContent
    | UpdateElementsFor
    | InputFor
    | SetPage(page: Page)
    | ClearPage
    | UpdateElements(changes: set<Path>)
    | Input(elementId: string, path: Option<Path>, input: UiInput)
    | UiDataset

  /** Router messages: only the identity property the controller announces is told apart. */
  datatype RouterMessage = SetIdentityProperty(name: string, value: string) | OtherRouterMessage

  datatype Message = Router(router: RouterMessage) | Ui(ui: UiMessage) | Dataset | Error

  /** What the client channel yields on a receive: a message, a denial, or anything else. */
  datatype ClientResponse = Incoming(msg: Message) | Denied | OtherResponse

  /** The outbound half of the client channel: everything sent, in order. */
  class ClientChannel {
    var sent: seq<Message>

    constructor ()
      ensures sent == []
    {
      sent := [];
    }

    method Send(m: Message)
      modifies this
      ensures sent == old(sent) + [m]
    {
      sent := sent + [m];
    }
  }
}
