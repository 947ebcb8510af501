/**
 * The console script that repairs age inputs: every input whose name, placeholder or id
 * contains "age" becomes an editable number field limited to 1..120, with an `input`
 * listener that sets or clears the custom validity message.
 */
module FixAge {
  import opened Wrappers
  import opened Text
  import opened Dom
  import opened Typing

  /** `input[name*="age"], input[placeholder*="age"], input[id*="age"]` (attribute values compare case-sensitively). */
  predicate MatchesAgeSelector(e: Element) {
    e.tag == InputTag && (Contains(e.name, "age") || Contains(e.placeholder, "age") || Contains(e.id, "age"))
  }

  const AgeMessage: string := "Age must be between 1 and 120"

  /** The listener's rule: a parsed value below 1 or above 120 is invalid; NaN fails both tests and is accepted. */
  function AgeValidityMessage(value: string): string {
    match ParseInt(value)
    case None => ""
    case Some(n) => if n < 1 || n > 120 then AgeMessage else ""
  }

  /** What the script leaves on a matched field. */
  predicate Fixed(e: Element)
    reads e
  {
    e.inputType == "number" && e.min == "1" && e.max == "120" && e.step == "1"
    && !e.disabled && !e.readOnly && e.ageListener
  }

  /** The body of `ageFields.forEach(...)` for one matched field. */
  method FixField(field: Element)
    modifies field
    ensures Fixed(field)
    ensures field.value == old(field.value) && field.events == old(field.events)
    ensures field.validationMessage == old(field.validationMessage)
  {
    field.inputType := "number";
    field.min := "1";
    field.max := "120";
    field.step := "1";
    field.ageListener := true;
    field.disabled := false;
    field.readOnly := false;
  }

  /** `ageFields.forEach(...)` over the page's controls in document order. */
  method FixAgeFields(controls: seq<Element>)
    modifies set k | 0 <= k < |controls| :: controls[k]
    ensures forall k :: 0 <= k < |controls| && MatchesAgeSelector(controls[k]) ==> Fixed(controls[k])
    ensures forall k :: 0 <= k < |controls| && !MatchesAgeSelector(controls[k]) ==> unchanged(controls[k])
    ensures forall k :: 0 <= k < |controls| ==>
      controls[k].value == old(controls[k].value) && controls[k].events == old(controls[k].events)
      && controls[k].validationMessage == old(controls[k].validationMessage)
  {
    var i := 0;
    while i < |controls|
      invariant 0 <= i <= |controls|
      invariant forall k :: 0 <= k < i && MatchesAgeSelector(controls[k]) ==> Fixed(controls[k])
      invariant forall k :: 0 <= k < |controls| && !MatchesAgeSelector(controls[k]) ==> unchanged(controls[k])
      invariant forall k :: 0 <= k < |controls| ==>
        controls[k].value == old(controls[k].value) && controls[k].events == old(controls[k].events)
        && controls[k].validationMessage == old(controls[k].validationMessage)
    {
      if MatchesAgeSelector(controls[i]) {
        FixField(controls[i]);
      }
      i := i + 1;
    }
  }

  /** The `input` listener: `setCustomValidity` with the rule's message; a field without the listener is left alone. */
  method OnAgeInput(field: Element)
    modifies field`validationMessage
    ensures field.ageListener ==> field.validationMessage == AgeValidityMessage(field.value)
    ensures !field.ageListener ==> field.validationMessage == old(field.validationMessage)
    ensures field.value == old(field.value) && field.events == old(field.events)
    ensures old(Fixed(field)) ==> Fixed(field)
  {
    if field.ageListener {
      var msg := "";
      var parsed := ParseInt(field.value);
      if parsed.Some? && (parsed.value < 1 || parsed.value > 120) {
        msg := AgeMessage;
      }
      assert msg == AgeValidityMessage(field.value);
      field.validationMessage := msg;
    }
  }

  /** For a typed whole number the message is clear exactly when it lies in 1..120. */
  lemma {:induction false} AgeValidityForNat(n: nat)
    ensures AgeValidityMessage(NatToString(n)) == "" <==> 1 <= n <= 120
  {
    ParseIntNatToString(n);
  }

  /** A typed negative number is always flagged. */
  lemma {:induction false} AgeValidityForNegative(n: nat)
    requires n > 0
    ensures AgeValidityMessage("-" + NatToString(n)) == AgeMessage
  {
    var s := "-" + NatToString(n);
    assert !IsSpace(s[0]);
    assert TrimStart(s) == s;
    assert s[1..] == NatToString(n);
    DigitPrefixOfDigits(NatToString(n));
    DigitsValueOfNat(n);
  }

  /** Any text in which `parseInt` finds no number, the empty field included, clears the message. */
  lemma {:induction false} NonNumericAccepted()
    ensures forall s :: ParseInt(s).None? ==> AgeValidityMessage(s) == ""
    ensures AgeValidityMessage("") == ""
    ensures AgeValidityMessage("abc") == ""
  {
    assert !IsSpace('a') && !IsDigit('a');
  }

  /** A number followed by other text is judged by the number alone: "25 years" passes, "200abc" is flagged. */
  lemma {:induction false} TrailingTextIgnored(n: nat, rest: string)
    requires rest == [] || !IsDigit(rest[0])
    ensures AgeValidityMessage(NatToString(n) + rest) == AgeValidityMessage(NatToString(n))
  {
    ParseIntNatToString(n);
    ParseIntNumberThenText(n, rest);
    assert ParseInt(NatToString(n) + rest) == ParseInt(NatToString(n));
  }

  /**
   * The message the `input` listener has left once `evs` were dispatched to a field that
   * held `m0`: its verdict on the value the last `input` carried, or `m0` when none fired.
   */
  function MessageAfter(evs: seq<Event>, m0: string): string
    decreases |evs|
  {
    if evs == [] then m0
    else MessageAfter(evs[1..], if evs[0].Input? then AgeValidityMessage(evs[0].value) else m0)
  }

  /** An `input` event leaves the verdict on the value it carried, whatever came before it. */
  lemma {:induction false} MessageAfterInput(evs: seq<Event>, v: string, m0: string)
    ensures MessageAfter(evs + [Input(v)], m0) == AgeValidityMessage(v)
    decreases |evs|
  {
    if evs != [] {
      assert (evs + [Input(v)])[1..] == evs[1..] + [Input(v)];
      MessageAfterInput(evs[1..], v, if evs[0].Input? then AgeValidityMessage(evs[0].value) else m0);
    }
  }

  /** After typing `t`, the message is the verdict on the whole text, or the old one when `t` is empty. */
  lemma {:induction false} MessageAfterTyping(t: string, m0: string)
    ensures t != "" ==> MessageAfter(InputTrace(t, |t|), m0) == AgeValidityMessage(t)
    ensures t == "" ==> MessageAfter(InputTrace(t, |t|), m0) == m0
  {
    if t != "" {
      assert t[..|t|] == t;
      MessageAfterInput(InputTrace(t, |t| - 1), t, m0);
    }
  }

  /** One keystroke of the typing loop: the next character added, `input` dispatched, the listener run. */
  method Keystroke(field: Element, t: string, i: nat, m0: string)
    requires field.ageListener && i < |t| && field.value == t[..i]
    modifies field`value, field`events, field`validationMessage
    ensures field.value == t[..i + 1]
    ensures field.events == old(field.events) + [Input(t[..i + 1])]
    ensures field.validationMessage == MessageAfter(InputTrace(t, i + 1), m0)
  {
    field.value := t[..i + 1];
    field.events := field.events + [Input(field.value)];
    OnAgeInput(field);
    MessageAfterInput(InputTrace(t, i), t[..i + 1], m0);
  }

  /** The typing loop with the field's `input` listener run after every keystroke. */
  method TypeListened(field: Element, t: string)
    requires field.ageListener
    modifies field`value, field`events, field`validationMessage
    ensures field.value == field.reaction(t)
    ensures field.events == old(field.events) + TypingEvents(t)
    ensures field.validationMessage == MessageAfter(InputTrace(t, |t|), old(field.validationMessage))
  {
    var m0 := field.validationMessage;
    field.events := field.events + [Focus, Click];
    field.value := "";
    var i := 0;
    while i < |t|
      invariant 0 <= i <= |t|
      invariant field.ageListener
      invariant field.value == t[..i]
      invariant field.events == old(field.events) + [Focus, Click] + InputTrace(t, i)
      invariant field.validationMessage == MessageAfter(InputTrace(t, i), m0)
    {
      Keystroke(field, t, i, m0);
      i := i + 1;
    }
    assert t[..|t|] == t;
    field.events := field.events + [Change(field.value), Blur];
    field.value := field.reaction(t);
  }

  /**
   * A fill typing into a repaired field leaves it repaired. The listener runs on every
   * keystroke, so the message is the rule's verdict on the whole typed text, which the
   * last `input` event saw; an empty text fires no `input` at all, so the message stays.
   */
  method TypeIntoFixed(field: Element, t: string)
    requires Fixed(field)
    modifies field`value, field`events, field`validationMessage
    ensures Fixed(field)
    ensures field.value == field.reaction(t)
    ensures field.events == old(field.events) + TypingEvents(t)
    ensures t != "" ==> field.validationMessage == AgeValidityMessage(t)
    ensures t == "" ==> field.validationMessage == old(field.validationMessage)
  {
    TypeListened(field, t);
    assert Fixed(field);
    MessageAfterTyping(t, old(field.validationMessage));
  }
}
