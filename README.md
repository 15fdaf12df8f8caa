# Dinner-suggestion bot: the Lex code hook's dialog logic

This project models the decision logic of the dinner-suggestion bot's code hook
(`index.js`). The bot platform calls the hook with an intent request. The model covers:

- the slot validator (`buildValidationResult`, `validateSuggestDinner`). It checks
  the `RecipeLibrary` and `MainIngredient` slots against fixed allow-lists, ignores
  letter case, and reports only the first violation;
- the dialog-phase branch of `suggestDinner`. When a slot is bad, it sets that slot
  to `null` in the request's own slot map and answers `ElicitSlot`. Otherwise it
  answers `Delegate`;
- the response builders `elicitSlot`, `close` and `delegate`;
- the intent-name check of `dispatch`.

Modules:

- `Wrappers` (`wrappers.dfy`): `Option` and `Result`.
- `JsStrings` (`js_strings.dfy`): slot values (`Undefined`, `Null` or a string),
  JavaScript truthiness, `toLowerCase`, `indexOf`, and a reference definition of
  case-insensitive equality (`SameUpToCase`) that uses no lower-casing function.
- `Responses` (`responses.dfy`): the `dialogAction` records and their builders.
- `Validation` (`validation.dfy`): the validator. `Acceptable` states what a slot
  check accepts: a falsy value, or an allow-list word in any letter case.
  `ValidateSuggestDinner` is proved against it.
- `DialogHook` (`dialog_hook.dfy`): the class `IntentRequest`. Its `slots` field is
  the map the hook updates in place. The methods `SuggestDinner` and `Dispatch` are
  proved against the pure function `DialogStep`, and lemmas about `DialogStep`
  state what the hook promises.

Two behaviours of `index.js` are worth stating up front:

- `Delegate` replaces absent session attributes with `{}` (index.js:115);
  `ElicitSlot` passes them through as they came (index.js:111).
- The library allow-list is the single word `fine` (index.js:86). "Tine" itself
  is refused, though the refusal message names it (index.js:89).

## Model

| member | source | states |
|---|---|---|
| JsStrings.LowerChar | index.js:88 | lower-casing one character keeps the same letter up to case and never yields a capital |
| JsStrings.ToLowerCase | index.js:88 | `toLowerCase` gives a string of the same length that equals the input up to case, has no capitals, and lower-cases each character in place |
| JsStrings.IndexOf | index.js:88 | `indexOf` returns -1 exactly when the element is absent; otherwise it returns the position of the first occurrence |
| JsStrings.LowerCharMatches | index.js:92 | for a character `d` with no capital, lower-casing `c` gives `d` exactly when `c` and `d` are the same letter up to case |
| JsStrings.LowerCaseMatches | index.js:92 | for a word without capitals, "lower-cased input equals the word" holds exactly when the input equals the word up to case |
| JsStrings.FoundIgnoringCase | index.js:88 | looking up the lower-cased value in a list of lower-case words succeeds exactly when some list word equals the value up to case |
| JsStrings.SameUpToCaseAgreesOnLowerCase | index.js:92 | strings equal up to case have the same lower-case form |
| Responses.ElicitSlotResponse | index.js:18-29 | the response has type `ElicitSlot` and carries the given session attributes, intent name, slots, slot to elicit and message |
| Responses.CloseResponse | index.js:31-40 | the response has type `Close` and carries the given session attributes, fulfillment state and message |
| Responses.DelegateResponse | index.js:42-50 | the response has type `Delegate` and carries the given session attributes and slots |
| Responses.TypeTagIdentifiesAction | index.js:22-46 | two dialog actions have the same `type` tag exactly when they are the same kind of action |
| Validation.BuildValidationResult | index.js:71-83 | the result keeps `isValid` and `violatedSlot`; it has a `message` exactly when the content is non-null, and that message is plain text with the given content |
| Validation.AllowListsHaveNoCapitals | index.js:86-87 | the allow-lists hold only lower-case words, so comparing against the lower-cased input is a case-insensitive comparison |
| Validation.Flagged | index.js:88 | the test `value && list.indexOf(value.toLowerCase()) === -1` flags a value exactly when the value is truthy and is no list word in any letter case |
| Validation.ValidateSuggestDinner | index.js:85-96 | the result is valid exactly when both slots are acceptable. A bad library is reported as `RecipeLibrary` with its message, whatever the ingredient. Otherwise a bad ingredient is reported as `MainIngredient` with its message. A valid result has neither a violated slot nor a message |
| Validation.MissingSlotsAreNeverFlagged | index.js:88-95 | absent, `null` and empty slots are never the violated slot. With both slots missing, the result is `{isValid: true, violatedSlot: null}` with no message |
| Validation.VerdictIgnoresCase | index.js:88-93 | slot values that are equal up to case get the same verdict and the same violated slot |
| Validation.TineIsRefused | index.js:86-89 | the library "Tine" is reported as a `RecipeLibrary` violation |
| Validation.CapitalIngredientAccepted | index.js:87-95 | "FISH" with no library is valid |
| Validation.LibraryReportedFirst | index.js:88-94 | with an unknown ingredient (`pasta`) and an unknown library (`matprat`), the reported slot is `RecipeLibrary` |
| DialogHook.DialogStep | index.js:100-121 | the fulfillment branch is taken exactly outside the dialog phase. No slot key is added or removed. A slot value changes only by being set to `null`, and only for `RecipeLibrary` or `MainIngredient` |
| DialogHook.UnsupportedIntent | index.js:188-194 | only the exact name `Suggest_dinner` is handled; any other name yields the error message `Intent with name <name> not supported` |
| DialogHook.IntentRequest.SuggestDinner | index.js:100-121 | the response and the slot map after the call are those `DialogStep` gives for the slot map before it |
| DialogHook.IntentRequest.Dispatch | index.js:185-195 | for `Suggest_dinner`, the call behaves as `SuggestDinner`. For any other name, it fails with the unsupported-intent error and leaves the slots unchanged |
| DialogHook.ViolationElicitsClearedSlot | index.js:105-112 | on a violation, the violated slot was present and truthy. It is set to `null` and every other slot is kept. The response is `ElicitSlot` for that slot, with the current intent name, the validation message and the incoming session attributes unchanged |
| DialogHook.ValidSlotsDelegate | index.js:115-116 | when both slots pass, the response is `Delegate` with the slots unchanged. Its session attributes are the incoming ones, or `{}` when there are none |
| DialogHook.ClearedSlotNotReportedAgain | index.js:108-110 | validating the slots left after a violation never reports the same slot again |
| DialogHook.TwoRoundsSettle | index.js:105-117 | with no new user input, the slots left after two dialog rounds validate |
| DialogHook.IntentNameIsCaseSensitive | index.js:191 | `suggest_dinner` is rejected, although it equals `Suggest_dinner` up to case |
| DialogHook.UnsupportedMessageNamesIntent | index.js:194 | for any two intent names, the same check outcome (the same error message, or none) means the same name |

## Left out

- `suggestDinnerFunc` (index.js:123-178) is not modelled. It does an HTTP request and scrapes HTML through two foreign libraries. The model stops at the outcome `Fulfill`, which stands for handing control to it. The model also leaves out its defects: the inverted result test at lines 157-159 and `.first()` on an array at line 162.
- The search URL (index.js:125) appends the raw ingredient to a fixed tine.no prefix; it belongs to `suggestDinnerFunc` and is not modelled.
- `parseLocalDate` and `isValidDate` (index.js:54-69) are not modelled. They rest on JavaScript `Date` semantics and nothing calls them.
- `exports.handler` (index.js:201-214) is not modelled: it sets the time zone, logs, and plumbs callback errors. A bot-name mismatch calls the callback but does not return, so `dispatch` runs anyway.
- The call at module load (index.js:216) and all console output are not modelled.
- JsStrings.ToLowerCase: lower-cases only the ASCII letters A-Z, not the full Unicode mapping of `toLowerCase`. No other character lower-cases to a single letter of the allow-list words, except the Kelvin sign, which becomes `k`, and no allow-list word contains `k`.
- The request is assumed to carry a `currentIntent.slots` object; a request without one throws a TypeError at index.js:101-102, which is not modelled.
- Slot values are a string, `null` or missing. Other JavaScript values, on which `toLowerCase` would throw, are not modelled.
- The callback boundary is modelled as a returned outcome. The slots in a response are the value of the slot map when the response is built, not a shared reference to it.
- The `sessionAttributes` and `intentName` fields are modelled as a string map (or absent) and a string, which is what the platform sends.
