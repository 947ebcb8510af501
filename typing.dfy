/**
 * `humanType` in its two variants. Each first decides how to normalise the text from
 * a field-kind classification (the content script looks at the selector string, the
 * popup's injected script at the element's `name`), then types the text one character
 * at a time, then reads the value back and compares it under a per-kind rule; a
 * mismatch is only reported, never corrected.
 */
module Typing {
  import opened Wrappers
  import opened Text
  import opened IdValue
  import opened Dom

  // ---------------------------------------------------------------------------
  // Classification and normalisation

  predicate MentionsId(s: string) {
    Contains(s, "idValue") || Contains(s, "IDValue") || Contains(s, "id") || Contains(s, "ID")
  }

  predicate MentionsName(s: string) {
    Contains(s, "name") || Contains(s, "Name")
  }

  /** The content script ID-cleans when the selector mentions an id, but no name and no mobile. */
  predicate ContentIdCleans(selector: string) {
    MentionsId(selector) && !MentionsName(selector) && !Contains(selector, "mobile")
  }

  /** `cleanedText` of the content script: the ID rule first, then the name rule overriding it. */
  function ContentCleanedText(selector: string, text: string): string {
    var afterId := if ContentIdCleans(selector) then ContentCleanIdValue(text) else text;
    if MentionsName(selector) then Trim(Upper(text)) else afterId
  }

  /** `textToType`, which is also `expectedValue`. */
  function ContentTypedText(selector: string, text: string): string {
    Trim(ContentCleanedText(selector, text))
  }

  /** The popup's script tests the element's `name`, and only when it is non-empty. */
  predicate PopupIdCleans(name: string) {
    name != "" && MentionsId(name) && !MentionsName(name)
  }

  function PopupCleanedText(name: string, text: string): string {
    var afterId := if PopupIdCleans(name) then PopupCleanIdValue(text) else text;
    if name != "" && MentionsName(name) then Trim(Upper(text)) else afterId
  }

  function PopupTypedText(name: string, text: string): string {
    Trim(PopupCleanedText(name, text))
  }

  // ---------------------------------------------------------------------------
  // Read-back verification

  datatype CheckRule = NameRule | IdRule | AgeRule | ExactRule

  /** The content script picks the first rule whose keyword the selector contains. */
  function ContentCheckRule(selector: string): CheckRule {
    if MentionsName(selector) then NameRule
    else if Contains(selector, "idValue") || Contains(selector, "IDValue") then IdRule
    else if Contains(selector, "age") then AgeRule
    else ExactRule
  }

  /** `toLowerCase().replace(/\s+/g, ' ').trim()` */
  function NameNormal(s: string): string {
    Trim(CollapseSpaces(Lower(s)))
  }

  /** Whether the read-back value passes; `parseInt` giving NaN on both sides still fails, as NaN !== NaN. */
  predicate ContentAgrees(rule: CheckRule, expected: string, actual: string) {
    match rule
    case NameRule => NameNormal(actual) == NameNormal(expected)
    case IdRule => RemoveSpaces(actual) == RemoveSpaces(expected)
    case AgeRule => ParseInt(expected).Some? && ParseInt(actual) == ParseInt(expected)
    case ExactRule => actual == expected
  }

  /** The popup compares case-insensitively when the `name` contains "name" (lower case only), exactly otherwise. */
  predicate PopupAgrees(name: string, expected: string, actual: string) {
    if name != "" && Contains(name, "name") then Lower(actual) == Lower(expected)
    else actual == expected
  }

  datatype TypeReport = ElementNotFound | Typed | Mismatch

  // ---------------------------------------------------------------------------
  // The typing loop

  /** One `input` event per typed character, each seeing one more character of `t`. */
  function InputTrace(t: string, n: nat): seq<Event>
    requires n <= |t|
  {
    if n == 0 then [] else InputTrace(t, n - 1) + [Input(t[..n])]
  }

  /** Everything dispatched to the element while typing `t`. */
  function TypingEvents(t: string): seq<Event> {
    [Focus, Click] + InputTrace(t, |t|) + [Change(t), Blur]
  }

  lemma {:induction false} InputTraceShape(t: string, n: nat)
    requires n <= |t|
    ensures |InputTrace(t, n)| == n
    ensures forall k :: 0 <= k < n ==> InputTrace(t, n)[k] == Input(t[..k + 1])
  {
    if n > 0 {
      InputTraceShape(t, n - 1);
    }
  }

  /**
   * The typing loop shared by both variants: clear, append character by character, then
   * `change` and `blur`; what the page's listeners make of the typed text is what is left.
   */
  method TypeInto(el: Element, t: string)
    modifies el`value, el`events
    ensures el.value == el.reaction(t)
    ensures el.events == old(el.events) + TypingEvents(t)
  {
    el.events := el.events + [Focus, Click];
    el.value := "";
    var i := 0;
    while i < |t|
      invariant 0 <= i <= |t|
      invariant el.value == t[..i]
      invariant el.events == old(el.events) + [Focus, Click] + InputTrace(t, i)
    {
      el.value := el.value + [t[i]];
      el.events := el.events + [Input(el.value)];
      assert t[..i + 1] == t[..i] + [t[i]];
      i := i + 1;
    }
    assert t[..|t|] == t;
    el.events := el.events + [Change(el.value), Blur];
    el.value := el.reaction(t);
  }

  /** `humanType(selector, text)` of the content script. */
  method ContentHumanType(doc: Document, selector: string, text: string) returns (report: TypeReport)
    modifies (if selector in doc then {doc[selector]} else {})`value, (if selector in doc then {doc[selector]} else {})`events
    ensures selector !in doc ==> report == ElementNotFound
    ensures selector in doc ==>
      var t := ContentTypedText(selector, text);
      && doc[selector].value == doc[selector].reaction(t)
      && doc[selector].events == old(doc[selector].events) + TypingEvents(t)
      && report == (if ContentAgrees(ContentCheckRule(selector), t, doc[selector].reaction(t)) then Typed else Mismatch)
  {
    if selector !in doc {
      return ElementNotFound;
    }
    var el := doc[selector];
    var expected := ContentTypedText(selector, text);
    TypeInto(el, expected);
    report := if ContentAgrees(ContentCheckRule(selector), expected, el.value) then Typed else Mismatch;
  }

  /** `humanType(element, text)` of the popup's injected script. */
  method PopupHumanType(el: Element, text: string) returns (report: TypeReport)
    modifies el`value, el`events
    ensures var t := PopupTypedText(el.name, text);
      && el.value == el.reaction(t)
      && el.events == old(el.events) + TypingEvents(t)
      && report == (if PopupAgrees(el.name, t, el.reaction(t)) then Typed else Mismatch)
  {
    var expected := PopupTypedText(el.name, text);
    TypeInto(el, expected);
    report := if PopupAgrees(el.name, expected, el.value) then Typed else Mismatch;
  }

  // ---------------------------------------------------------------------------
  // What gets typed

  /** A selector mentioning "name" or "Name" is typed upper-cased and trimmed, whatever ID rule it also meets, and verified by the name rule. */
  lemma {:induction false} ContentNameOverridesId(selector: string, text: string)
    requires MentionsName(selector)
    ensures ContentTypedText(selector, text) == Trim(Upper(text))
    ensures !ContentIdCleans(selector)
    ensures ContentCheckRule(selector) == NameRule
  {
    TrimIdempotent(Upper(text));
  }

  /** A selector under the ID rule gets exactly the content script's cleaned value (already trimmed). */
  lemma {:induction false} ContentIdTyped(selector: string, text: string)
    requires ContentIdCleans(selector)
    ensures ContentTypedText(selector, text) == ContentCleanIdValue(text)
  {
    ContentCleanIsTrimmed(text);
  }

  /** Any other selector gets the raw text, trimmed. */
  lemma {:induction false} ContentOtherTyped(selector: string, text: string)
    requires !ContentIdCleans(selector) && !MentionsName(selector)
    ensures ContentTypedText(selector, text) == Trim(text)
  {
  }

  lemma {:induction false} ContentCleanIsTrimmed(text: string)
    ensures Trim(ContentCleanIdValue(text)) == ContentCleanIdValue(text)
  {
    if text != [] {
      if LooksLikeDashedAadhaar(text) {
        TrimIdempotent(text);
      } else {
        TrimIdempotent(RemoveSpaces(text));
      }
    }
  }

  /**
   * On a page that leaves the typed value alone, reading it back fails only under the age
   * rule, and only when the typed text has no number for `parseInt`.
   */
  lemma {:induction false} ContentReadBack(selector: string, text: string)
    ensures var t := ContentTypedText(selector, text);
      !ContentAgrees(ContentCheckRule(selector), t, t)
      <==> ContentCheckRule(selector) == AgeRule && ParseInt(t).None?
  {
  }

  /** A `name` mentioning "name" or "Name" is typed upper-cased and trimmed and never ID-cleaned. */
  lemma {:induction false} PopupNameOverridesId(name: string, text: string)
    requires MentionsName(name)
    ensures PopupTypedText(name, text) == Trim(Upper(text))
    ensures !PopupIdCleans(name)
  {
    TrimIdempotent(Upper(text));
  }

  /** A `name` under the ID rule gets the popup's cleaned value: no dash, underscore or white space is typed. */
  lemma {:induction false} PopupIdTyped(name: string, text: string)
    requires PopupIdCleans(name)
    ensures PopupTypedText(name, text) == PopupCleanIdValue(text)
    ensures forall i :: 0 <= i < |PopupTypedText(name, text)| ==> !IsSeparator(PopupTypedText(name, text)[i])
  {
    PopupCleanStrips(text);
    SpacesAreSeparators();
    TrimNoSpace(PopupCleanIdValue(text));
  }

  /** The name rule tolerates a page that changes the letter case. */
  lemma {:induction false} NameRuleIgnoresCase(t: string)
    ensures ContentAgrees(NameRule, t, Upper(t)) && ContentAgrees(NameRule, t, Lower(t))
  {
    LowerOfUpper(t);
    LowerIdempotent(t);
  }

  /** The name rule tolerates a page that widens a single space after a word into a run of spaces. */
  lemma {:induction false} NameRuleIgnoresSpaceRuns(w: string, y: string)
    requires forall i :: 0 <= i < |w| ==> !IsSpace(w[i])
    ensures ContentAgrees(NameRule, w + " " + y, w + "   " + y)
  {
    LowerAppend(w, " " + y);
    LowerAppend(w, "   " + y);
    LowerAppend(" ", y);
    LowerAppend("   ", y);
    assert w + " " + y == w + (" " + y);
    assert w + "   " + y == w + ("   " + y);
    assert Lower(" ") == " " && Lower("   ") == "   ";
    assert forall i :: 0 <= i < |Lower(w)| ==> !IsSpace(Lower(w)[i]);
    CollapseWord(Lower(w), " " + Lower(y));
    CollapseWord(Lower(w), "   " + Lower(y));
    CollapseRun(Lower(y));
  }

  /** The ID rule tolerates white space the page adds, but not a dash the page drops. */
  lemma {:induction false} IdRuleTolerance(x: string, y: string)
    ensures ContentAgrees(IdRule, x + y, x + " " + y)
    ensures !ContentAgrees(IdRule, x + "-" + y, x + y)
  {
    WithoutAppend(x, y, IsSpace);
    WithoutAppend(x, " ", IsSpace);
    WithoutAppend(x + " ", y, IsSpace);
    WithoutAppend(x, "-", IsSpace);
    WithoutAppend(x + "-", y, IsSpace);
    assert RemoveSpaces(" ") == [];
    assert RemoveSpaces("-") == "-";
  }

  /** The age rule compares the numbers `parseInt` reads, so trailing text is tolerated but an emptied field is not. */
  lemma {:induction false} AgeRuleTolerance(n: nat, s: string)
    requires s == [] || !IsDigit(s[0])
    ensures ContentAgrees(AgeRule, NatToString(n), NatToString(n) + s)
    ensures !ContentAgrees(AgeRule, NatToString(n), "")
  {
    ParseIntNatToString(n);
    ParseIntNumberThenText(n, s);
  }

  /**
   * The popup's read-back accepts what it typed; under a `name` containing "name" it
   * tolerates a change of letter case, and otherwise only the very text it typed.
   */
  lemma {:induction false} PopupReadBack(name: string, text: string, actual: string)
    ensures var t := PopupTypedText(name, text); PopupAgrees(name, t, t)
    ensures var t := PopupTypedText(name, text);
      name != "" && Contains(name, "name") ==> PopupAgrees(name, t, Upper(t)) && PopupAgrees(name, t, Lower(t))
    ensures var t := PopupTypedText(name, text);
      !(name != "" && Contains(name, "name")) ==> (PopupAgrees(name, t, actual) <==> actual == t)
  {
    var t := PopupTypedText(name, text);
    LowerOfUpper(t);
    LowerIdempotent(t);
  }
}
