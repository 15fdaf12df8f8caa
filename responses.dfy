/** The three dialog actions the code hook can hand back to the bot platform,
    and the helpers that build them (index.js, lines 18-50). */
module Responses {
  import opened Wrappers
  import opened JsStrings

  /** A `{contentType, content}` message record. */
  datatype Message = Message(contentType: string, content: string)

  /** A plain-text message, the only kind the hook produces. */
  function PlainText(content: string): Message {
    Message("PlainText", content)
  }

  /** The `dialogAction` record; the constructor stands for its `type` tag. */
  datatype DialogAction =
    | ElicitSlot(intentName: string, slots: map<string, JsValue>, slotToElicit: Option<string>, message: Option<Message>)
    | Close(fulfillmentState: string, message: Option<Message>)
    | Delegate(slots: map<string, JsValue>)
  {
    /** The `type` field of the record. */
    function Type(): string {
      match this
      case ElicitSlot(_, _, _, _) => "ElicitSlot"
      case Close(_, _) => "Close"
      case Delegate(_) => "Delegate"
    }
  }

  /** The whole response: session attributes (absent stands for `null` or
      `undefined`) and one dialog action. */
  datatype Response = Response(sessionAttributes: Option<map<string, string>>, dialogAction: DialogAction)

  /** `elicitSlot(...)`: ask the user again for one slot. */
  function ElicitSlotResponse(sessionAttributes: Option<map<string, string>>, intentName: string,
                              slots: map<string, JsValue>, slotToElicit: Option<string>,
                              message: Option<Message>): (r: Response)
    ensures r.dialogAction.Type() == "ElicitSlot"
    ensures r.sessionAttributes == sessionAttributes
    ensures r.dialogAction.ElicitSlot? && r.dialogAction.intentName == intentName
    ensures r.dialogAction.slots == slots && r.dialogAction.slotToElicit == slotToElicit
    ensures r.dialogAction.message == message
  {
    Response(sessionAttributes, ElicitSlot(intentName, slots, slotToElicit, message))
  }

  /** `close(...)`: end the conversation with a final message. */
  function CloseResponse(sessionAttributes: Option<map<string, string>>, fulfillmentState: string,
                         message: Option<Message>): (r: Response)
    ensures r.dialogAction.Type() == "Close"
    ensures r.sessionAttributes == sessionAttributes
    ensures r.dialogAction.Close? && r.dialogAction.fulfillmentState == fulfillmentState
    ensures r.dialogAction.message == message
  {
    Response(sessionAttributes, Close(fulfillmentState, message))
  }

  /** `delegate(...)`: let the platform choose the next step. */
  function DelegateResponse(sessionAttributes: Option<map<string, string>>,
                            slots: map<string, JsValue>): (r: Response)
    ensures r.dialogAction.Type() == "Delegate"
    ensures r.sessionAttributes == sessionAttributes
    ensures r.dialogAction.Delegate? && r.dialogAction.slots == slots
  {
    Response(sessionAttributes, Delegate(slots))
  }

  /** The `type` tag tells the three kinds of action apart. */
  lemma TypeTagIdentifiesAction(a: DialogAction, b: DialogAction)
    ensures a.Type() == b.Type() <==>
      (a.ElicitSlot? && b.ElicitSlot?) || (a.Close? && b.Close?) || (a.Delegate? && b.Delegate?)
  {
  }
}
