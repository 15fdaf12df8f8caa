/** The small part of JavaScript's value semantics the dinner bot's slot checks
    rely on: slot values, truthiness, `String.prototype.toLowerCase` and
    `Array.prototype.indexOf` on a list of strings. */
module JsStrings {

  /** A slot value as the bot platform delivers it: a string, `null`, or a
      missing key, which JavaScript reads back as `undefined`. */
  datatype JsValue = Undefined | Null | Str(s: string)

  /** JavaScript truthiness of a slot value: only a non-empty string is truthy. */
  predicate Truthy(v: JsValue) {
    v.Str? && |v.s| > 0
  }

  predicate IsUpper(c: char) { 'A' <= c <= 'Z' }

  predicate IsLower(c: char) { 'a' <= c <= 'z' }

  /** No ASCII capital letter occurs in `s`. */
  predicate NoCapitals(s: string) {
    forall i :: 0 <= i < |s| ==> !IsUpper(s[i])
  }

  /** `c` and `d` are the same character once the case of an ASCII letter is
      ignored.  This is the reference notion of "case-insensitive", stated
      without any lower-casing function. */
  predicate CaseVariant(c: char, d: char) {
    || c == d
    || (IsLower(c) && d as int == c as int - 32)
    || (IsLower(d) && c as int == d as int - 32)
  }

  /** `s` and `t` spell the same word when the case of letters is ignored. */
  predicate SameUpToCase(s: string, t: string) {
    |s| == |t| && forall i :: 0 <= i < |s| ==> CaseVariant(s[i], t[i])
  }

  /** `toLowerCase` on one character: the same letter, never a capital. */
  function LowerChar(c: char): (d: char)
    ensures CaseVariant(c, d) && !IsUpper(d)
    ensures !IsUpper(c) ==> d == c
  {
    if IsUpper(c) then (c as int + 32) as char else c
  }

  /** `s.toLowerCase()`: the same word up to case, without capitals, and
      lower-cased character by character. */
  function ToLowerCase(s: string): (r: string)
    ensures |r| == |s|
    ensures forall i :: 0 <= i < |s| ==> r[i] == LowerChar(s[i])
    ensures SameUpToCase(s, r) && NoCapitals(r)
  {
    if s == [] then [] else [LowerChar(s[0])] + ToLowerCase(s[1..])
  }

  /** `xs.indexOf(x)`: the position of the first element equal to `x`,
      or -1 when there is none. */
  function IndexOf<T(==)>(xs: seq<T>, x: T): (r: int)
    ensures -1 <= r < |xs|
    ensures r == -1 <==> x !in xs
    ensures 0 <= r ==> xs[r] == x && x !in xs[..r]
  {
    if xs == [] then -1
    else if xs[0] == x then 0
    else
      var k := IndexOf(xs[1..], x);
      if k == -1 then -1
      else
        assert xs[..k + 1] == [xs[0]] + xs[1..][..k];
        k + 1
  }

  /** Lower-casing a character gives a lower-case `d` exactly when the two
      are the same letter up to case. */
  lemma LowerCharMatches(c: char, d: char)
    requires !IsUpper(d)
    ensures LowerChar(c) == d <==> CaseVariant(c, d)
  {
  }

  /** Against a word without capitals, comparing the lower-cased form is the
      same as comparing while ignoring case. */
  lemma LowerCaseMatches(s: string, w: string)
    requires NoCapitals(w)
    ensures ToLowerCase(s) == w <==> SameUpToCase(s, w)
  {
  }

  /** Looking up the lower-cased form in a list of words without capitals
      finds it exactly when some word of the list equals it up to case. */
  lemma FoundIgnoringCase(s: string, words: seq<string>)
    requires forall w :: w in words ==> NoCapitals(w)
    ensures IndexOf(words, ToLowerCase(s)) != -1 <==> exists w :: w in words && SameUpToCase(s, w)
  {
    if w :| w in words && SameUpToCase(s, w) {
      LowerCaseMatches(s, w);
    }
  }

  /** Words equal up to case have the same lower-case form. */
  lemma SameUpToCaseAgreesOnLowerCase(s: string, t: string)
    requires SameUpToCase(s, t)
    ensures ToLowerCase(s) == ToLowerCase(t)
  {
    var ls, lt := ToLowerCase(s), ToLowerCase(t);
    forall i | 0 <= i < |s|
      ensures ls[i] == lt[i]
    {
      VariantsLowerAlike(s[i], t[i]);
    }
    assert ls == lt;
  }

  /** Case variants lower-case to the same character. */
  lemma VariantsLowerAlike(c: char, d: char)
    requires CaseVariant(c, d)
    ensures LowerChar(c) == LowerChar(d)
  {
  }
}
