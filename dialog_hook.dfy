/** The dialog-phase branch of `suggestDinner` and the intent-name check of
    `dispatch` (index.js, lines 100-121 and 185-195). */
module DialogHook {
  import opened Wrappers
  import opened JsStrings
  import opened Responses
  import opened Validation

  const DialogCodeHook: string := "DialogCodeHook"
  const SuggestDinnerIntent: string := "Suggest_dinner"

  /** What one invocation of the hook leads to: a response handed to the
      platform's callback, or the fulfillment search of `suggestDinnerFunc`,
      which is not part of this model. */
  datatype HookOutcome = Respond(response: Response) | Fulfill

  /** Reading `slots.<name>`: a missing key reads as `undefined`. */
  function SlotValue(slots: map<string, JsValue>, name: string): JsValue {
    if name in slots then slots[name] else Undefined
  }

  /** `validateSuggestDinner` applied to the two slots of the intent. */
  function ValidateSlots(slots: map<string, JsValue>): ValidationResult {
    ValidateSuggestDinner(SlotValue(slots, MainIngredientSlot), SlotValue(slots, RecipeLibrarySlot))
  }

  /** `intentRequest.sessionAttributes || {}`: any object is truthy. */
  function OrEmpty(sessionAttributes: Option<map<string, string>>): map<string, string> {
    match sessionAttributes
    case Some(attributes) => attributes
    case None => map[]
  }

  /** One invocation of `suggestDinner`: its outcome and the slot map it
      leaves behind.  No key is added or removed, and a value changes only
      by being cleared to `null`, for one of the two validated slots. */
  function DialogStep(invocationSource: string, sessionAttributes: Option<map<string, string>>,
                      intentName: string, slots: map<string, JsValue>): (result: (HookOutcome, map<string, JsValue>))
    ensures result.0.Fulfill? <==> invocationSource != DialogCodeHook
    ensures result.1.Keys == slots.Keys
    ensures forall k :: k in slots && result.1[k] != slots[k] ==>
              result.1[k] == Null && (k == RecipeLibrarySlot || k == MainIngredientSlot)
  {
    if invocationSource != DialogCodeHook then (Fulfill, slots)
    else
      var validationResult := ValidateSlots(slots);
      if !validationResult.isValid then
        var violated := validationResult.violatedSlot.value;
        var slots' := slots[violated := Null];
        (Respond(ElicitSlotResponse(sessionAttributes, intentName, slots', validationResult.violatedSlot,
                                    validationResult.message)), slots')
      else
        (Respond(DelegateResponse(Some(OrEmpty(sessionAttributes)), slots)), slots)
  }

  /** The intent-name check of `dispatch`: only the exact, case-sensitive name
      "Suggest_dinner" is handled; any other name is the message of the thrown
      error. */
  function UnsupportedIntent(intentName: string): (error: Option<string>)
    ensures error.None? <==> intentName == SuggestDinnerIntent
    ensures error.Some? ==> error.value == "Intent with name " + intentName + " not supported"
  {
    if intentName == SuggestDinnerIntent then None
    else Some("Intent with name " + intentName + " not supported")
  }

  /** An intent request as the hook sees it.  Only `currentIntent.slots` is
      changed by the hook, in place; the other fields are read. */
  class IntentRequest {
    const invocationSource: string
    const sessionAttributes: Option<map<string, string>>
    const intentName: string
    var slots: map<string, JsValue>

    constructor (invocationSource: string, sessionAttributes: Option<map<string, string>>,
                 intentName: string, slots: map<string, JsValue>)
      ensures this.invocationSource == invocationSource && this.sessionAttributes == sessionAttributes
      ensures this.intentName == intentName && this.slots == slots
    {
      this.invocationSource := invocationSource;
      this.sessionAttributes := sessionAttributes;
      this.intentName := intentName;
      this.slots := slots;
    }

    /** `suggestDinner(intentRequest, callback)`: in the dialog phase, clear
        the first violated slot and ask for it again, or delegate. */
    method SuggestDinner() returns (outcome: HookOutcome)
      modifies this
      ensures (outcome, slots) == DialogStep(invocationSource, sessionAttributes, intentName, old(slots))
    {
      var mainIngredient := SlotValue(slots, MainIngredientSlot);
      var recipeLibrary := SlotValue(slots, RecipeLibrarySlot);
      if invocationSource == DialogCodeHook {
        var validationResult := ValidateSuggestDinner(mainIngredient, recipeLibrary);
        if !validationResult.isValid {
          slots := slots[validationResult.violatedSlot.value := Null];
          outcome := Respond(ElicitSlotResponse(sessionAttributes, intentName, slots,
                                                validationResult.violatedSlot, validationResult.message));
          return;
        }
        var outputSessionAttributes := OrEmpty(sessionAttributes);
        outcome := Respond(DelegateResponse(Some(outputSessionAttributes), slots));
        return;
      }
      outcome := Fulfill;
    }

    /** `dispatch(intentRequest, callback)`: run the handler for the one
        supported intent, or fail with the error that `dispatch` throws. */
    method Dispatch() returns (result: Result<HookOutcome, string>)
      modifies this
      ensures intentName == SuggestDinnerIntent ==>
                result.Success? && (result.value, slots) == DialogStep(invocationSource, sessionAttributes, intentName, old(slots))
      ensures intentName != SuggestDinnerIntent ==>
                result == Failure(UnsupportedIntent(intentName).value) && slots == old(slots)
    {
      var error := UnsupportedIntent(intentName);
      if error.None? {
        var outcome := SuggestDinner();
        return Success(outcome);
      }
      result := Failure(error.value);
    }
  }

  /** On a violation the hook clears exactly the violated slot, which was
      present and truthy, keeps every other slot, and asks for that slot again
      under the same intent name with the validation message, passing the
      session attributes through as they came. */
  lemma ViolationElicitsClearedSlot(sessionAttributes: Option<map<string, string>>, intentName: string,
                                    slots: map<string, JsValue>)
    requires !ValidateSlots(slots).isValid
    ensures var (outcome, after) := DialogStep(DialogCodeHook, sessionAttributes, intentName, slots);
            var violated := if Acceptable(SlotValue(slots, RecipeLibrarySlot), Libraries)
                            then MainIngredientSlot else RecipeLibrarySlot;
            && violated in slots && Truthy(slots[violated])
            && after == slots[violated := Null]
            && outcome == Respond(Response(sessionAttributes,
                                           ElicitSlot(intentName, after, Some(violated), ValidateSlots(slots).message)))
  {
  }

  /** When both slots pass, the hook delegates with the slots untouched and
      the incoming session attributes, or an empty object when there are none. */
  lemma ValidSlotsDelegate(sessionAttributes: Option<map<string, string>>, intentName: string,
                           slots: map<string, JsValue>)
    requires ValidateSlots(slots).isValid
    ensures DialogStep(DialogCodeHook, sessionAttributes, intentName, slots)
            == (Respond(Response(Some(OrEmpty(sessionAttributes)), Delegate(slots))), slots)
    ensures sessionAttributes.None? ==>
              DialogStep(DialogCodeHook, sessionAttributes, intentName, slots).0.response.sessionAttributes == Some(map[])
  {
  }

  /** The slot that was cleared is not reported again: validating the slots
      the hook leaves behind names a different slot, or none. */
  lemma ClearedSlotNotReportedAgain(sessionAttributes: Option<map<string, string>>, intentName: string,
                                    slots: map<string, JsValue>)
    requires !ValidateSlots(slots).isValid
    ensures var after := DialogStep(DialogCodeHook, sessionAttributes, intentName, slots).1;
            ValidateSlots(after).violatedSlot != ValidateSlots(slots).violatedSlot
  {
  }

  /** Without new input from the user, two dialog rounds clear every bad
      slot: the slots left after the second round validate. */
  lemma TwoRoundsSettle(sessionAttributes: Option<map<string, string>>, intentName: string,
                        slots: map<string, JsValue>)
    ensures var once := DialogStep(DialogCodeHook, sessionAttributes, intentName, slots).1;
            var twice := DialogStep(DialogCodeHook, sessionAttributes, intentName, once).1;
            ValidateSlots(twice).isValid
  {
  }

  /** The intent-name match is case-sensitive, unlike the slot checks. */
  lemma IntentNameIsCaseSensitive()
    ensures UnsupportedIntent("suggest_dinner").Some?
    ensures SameUpToCase("suggest_dinner", SuggestDinnerIntent)
  {
  }

  /** The thrown error names the intent: different names give different
      messages. */
  lemma {:induction false} UnsupportedMessageNamesIntent(a: string, b: string)
    ensures UnsupportedIntent(a) == UnsupportedIntent(b) ==> a == b
  {
    var prefix, suffix := "Intent with name ", " not supported";
    if UnsupportedIntent(a) == UnsupportedIntent(b) && UnsupportedIntent(a).Some? {
      var m := prefix + a + suffix;
      assert m == prefix + b + suffix;
      assert |a| == |b|;
      assert a == m[|prefix|..|prefix| + |a|];
      assert b == m[|prefix|..|prefix| + |b|];
    }
  }
}
