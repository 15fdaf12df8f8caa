/** The slot validator of the dinner bot: `buildValidationResult` and
    `validateSuggestDinner` (index.js, lines 71-96). */
module Validation {
  import opened Wrappers
  import opened JsStrings
  import opened Responses

  const RecipeLibrarySlot: string := "RecipeLibrary"
  const MainIngredientSlot: string := "MainIngredient"

  /** The recipe libraries the bot accepts.  The only entry is "fine", which
      stands in for the hard-to-pronounce "tine"; "tine" itself is refused. */
  const Libraries: seq<string> := ["fine"]

  /** The main ingredients the bot accepts. */
  const MainIngredients: seq<string> := ["meat", "fish", "plants"]

  /** `{isValid, violatedSlot}` plus a `message` field that exists only when
      a message was given. */
  datatype ValidationResult = ValidationResult(isValid: bool, violatedSlot: Option<string>, message: Option<Message>)

  function UnsupportedLibraryMessage(recipeLibrary: string): string {
    "We do not support recipes from " + recipeLibrary + ". At the moment we only support Tine."
  }

  function UnknownIngredientMessage(mainIngredient: string): string {
    "I don't know about " + mainIngredient + ". Try something else, for example fish."
  }

  /** `buildValidationResult(isValid, violatedSlot, messageContent)`: the
      `message` field is there exactly when `messageContent` is not null, and
      then holds that content as plain text. */
  function BuildValidationResult(isValid: bool, violatedSlot: Option<string>, messageContent: Option<string>): (r: ValidationResult)
    ensures r.isValid == isValid && r.violatedSlot == violatedSlot
    ensures r.message.Some? <==> messageContent.Some?
    ensures r.message.Some? ==> r.message.value.contentType == "PlainText" && r.message.value.content == messageContent.value
  {
    if messageContent.None? then ValidationResult(isValid, violatedSlot, None)
    else ValidationResult(isValid, violatedSlot, Some(PlainText(messageContent.value)))
  }

  /** What the validator accepts for one slot: a falsy value (not yet given),
      or a word of the allow-list written in any mix of upper and lower case. */
  ghost predicate Acceptable(value: JsValue, allowed: seq<string>) {
    !Truthy(value) || exists w :: w in allowed && SameUpToCase(value.s, w)
  }

  lemma AllowListsHaveNoCapitals()
    ensures forall w :: w in Libraries ==> NoCapitals(w)
    ensures forall w :: w in MainIngredients ==> NoCapitals(w)
  {
  }

  /** The test `value && allowed.indexOf(value.toLowerCase()) === -1`: the
      value is flagged exactly when the validator does not accept it. */
  function Flagged(value: JsValue, allowed: seq<string>): (b: bool)
    requires forall w :: w in allowed ==> NoCapitals(w)
    ensures b <==> !Acceptable(value, allowed)
    ensures b ==> Truthy(value)
  {
    if Truthy(value) then
      FoundIgnoringCase(value.s, allowed);
      IndexOf(allowed, ToLowerCase(value.s)) == -1
    else false
  }

  /** `validateSuggestDinner(mainIngredient, recipeLibrary)`.  The recipe
      library is checked first, so when both slots are bad the reported slot
      is always "RecipeLibrary"; a valid result carries neither a violated
      slot nor a message, and an invalid one carries both. */
  function ValidateSuggestDinner(mainIngredient: JsValue, recipeLibrary: JsValue): (r: ValidationResult)
    ensures r.isValid <==> Acceptable(recipeLibrary, Libraries) && Acceptable(mainIngredient, MainIngredients)
    ensures !Acceptable(recipeLibrary, Libraries) ==>
      r == ValidationResult(false, Some(RecipeLibrarySlot), Some(PlainText(UnsupportedLibraryMessage(recipeLibrary.s))))
    ensures Acceptable(recipeLibrary, Libraries) && !Acceptable(mainIngredient, MainIngredients) ==>
      r == ValidationResult(false, Some(MainIngredientSlot), Some(PlainText(UnknownIngredientMessage(mainIngredient.s))))
    ensures r.isValid ==> r == ValidationResult(true, None, None)
  {
    AllowListsHaveNoCapitals();
    if Flagged(recipeLibrary, Libraries) then
      BuildValidationResult(false, Some(RecipeLibrarySlot), Some(UnsupportedLibraryMessage(recipeLibrary.s)))
    else if Flagged(mainIngredient, MainIngredients) then
      BuildValidationResult(false, Some(MainIngredientSlot), Some(UnknownIngredientMessage(mainIngredient.s)))
    else
      BuildValidationResult(true, None, None)
  }

  /** A slot is flagged only for a value it was given: absent, `null` and
      empty values are never reported, and with both slots missing the result
      is valid with no message. */
  lemma MissingSlotsAreNeverFlagged(mainIngredient: JsValue, recipeLibrary: JsValue)
    ensures !Truthy(recipeLibrary) ==> ValidateSuggestDinner(mainIngredient, recipeLibrary).violatedSlot != Some(RecipeLibrarySlot)
    ensures !Truthy(mainIngredient) ==> ValidateSuggestDinner(mainIngredient, recipeLibrary).violatedSlot != Some(MainIngredientSlot)
    ensures !Truthy(mainIngredient) && !Truthy(recipeLibrary) ==>
      ValidateSuggestDinner(mainIngredient, recipeLibrary) == ValidationResult(true, None, None)
  {
  }

  /** The verdict does not depend on the case of the letters typed: values
      that agree up to case are accepted or refused together, for the same slot. */
  lemma {:induction false} VerdictIgnoresCase(mainIngredient: string, mainIngredient': string,
                                             recipeLibrary: string, recipeLibrary': string)
    requires SameUpToCase(mainIngredient, mainIngredient')
    requires SameUpToCase(recipeLibrary, recipeLibrary')
    ensures var r := ValidateSuggestDinner(Str(mainIngredient), Str(recipeLibrary));
            var r' := ValidateSuggestDinner(Str(mainIngredient'), Str(recipeLibrary'));
            r.isValid == r'.isValid && r.violatedSlot == r'.violatedSlot
  {
    SameUpToCaseAgreesOnLowerCase(mainIngredient, mainIngredient');
    SameUpToCaseAgreesOnLowerCase(recipeLibrary, recipeLibrary');
    AllowListsHaveNoCapitals();
    FoundIgnoringCase(mainIngredient, MainIngredients);
    FoundIgnoringCase(mainIngredient', MainIngredients);
    FoundIgnoringCase(recipeLibrary, Libraries);
    FoundIgnoringCase(recipeLibrary', Libraries);
  }

  /** "Tine", the library the refusal message names, is itself refused. */
  lemma TineIsRefused(mainIngredient: JsValue)
    ensures ValidateSuggestDinner(mainIngredient, Str("Tine")).violatedSlot == Some(RecipeLibrarySlot)
  {
  }

  /** Members of the ingredient list are accepted in capitals too. */
  lemma CapitalIngredientAccepted()
    ensures ValidateSuggestDinner(Str("FISH"), Undefined).isValid
  {
    assert SameUpToCase("FISH", "fish");
  }

  /** When both slots hold unknown values, the recipe library is reported. */
  lemma LibraryReportedFirst()
    ensures ValidateSuggestDinner(Str("pasta"), Str("matprat")).violatedSlot == Some(RecipeLibrarySlot)
  {
  }
}
