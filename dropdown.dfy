/**
 * `humanSelectDropdown`, identical in the content script and the popup's injected
 * script apart from delays and how the element is found: a first pass looks for an
 * option whose lower-cased value or text equals the trimmed, lower-cased request, a
 * second pass for one that contains it; the first hit in list order is selected.
 */
module Dropdown {
  import opened Wrappers
  import opened Text
  import opened Search
  import opened Dom

  /** `String(value).trim().toLowerCase()` */
  function RequestKey(value: string): string {
    Lower(Trim(value))
  }

  predicate ExactHit(o: OptionItem, key: string) {
    Lower(o.value) == key || Lower(o.text) == key
  }

  predicate PartialHit(o: OptionItem, key: string) {
    Contains(Lower(o.value), key) || Contains(Lower(o.text), key)
  }

  function IsExact(key: string): OptionItem -> bool {
    o => ExactHit(o, key)
  }

  function IsPartial(key: string): OptionItem -> bool {
    o => PartialHit(o, key)
  }

  /** The option both passes together settle on, if any. */
  function ChooseOption(options: seq<OptionItem>, value: string): (r: Option<nat>)
    ensures r.Some? ==> r.value < |options|
  {
    var key := RequestKey(value);
    match FirstIndex(options, IsExact(key))
    case Some(k) => Some(k)
    case None => FirstIndex(options, IsPartial(key))
  }

  /** The element's value after the selection: the chosen option's value, or the old value. */
  function SelectedValue(options: seq<OptionItem>, chosen: Option<nat>, old_value: string): string {
    if chosen.Some? && chosen.value < |options| then options[chosen.value].value else old_value
  }

  /** focus and click to open; on a hit focus again, then `change` and `input`. */
  function SelectionEvents(options: seq<OptionItem>, chosen: Option<nat>): seq<Event> {
    var v := SelectedValue(options, chosen, "");
    [Focus, Click] + (if chosen.Some? then [Focus, Change(v), Input(v)] else [])
  }

  /** The two passes over `el.options`, the exact one first. */
  method SelectOption(el: Element, value: string) returns (chosen: Option<nat>)
    modifies el`value, el`events
    ensures chosen == ChooseOption(el.options, value)
    ensures el.value == SelectedValue(el.options, chosen, old(el.value))
    ensures el.events == old(el.events) + SelectionEvents(el.options, chosen)
  {
    el.events := el.events + [Focus, Click];
    var key := RequestKey(value);
    chosen := FindFirst(el.options, IsExact(key));
    if chosen.None? {
      chosen := FindFirst(el.options, IsPartial(key));
    }
    if chosen.Some? {
      el.value := el.options[chosen.value].value;
      el.events := el.events + [Focus, Change(el.value), Input(el.value)];
    }
  }

  datatype SelectReport = DropdownNotFound | Selected(index: nat) | NoOptionMatched

  /** `humanSelectDropdown(selector, value)` of the content script: a selector that matches nothing changes nothing. */
  method ContentHumanSelectDropdown(doc: Document, selector: string, value: string) returns (report: SelectReport)
    modifies (if selector in doc then {doc[selector]} else {})`value, (if selector in doc then {doc[selector]} else {})`events
    ensures selector !in doc ==> report == DropdownNotFound
    ensures selector in doc ==>
      var el := doc[selector];
      var chosen := ChooseOption(el.options, value);
      && report == (if chosen.Some? then Selected(chosen.value) else NoOptionMatched)
      && el.value == SelectedValue(el.options, chosen, old(el.value))
      && el.events == old(el.events) + SelectionEvents(el.options, chosen)
  {
    if selector !in doc {
      return DropdownNotFound;
    }
    var chosen := SelectOption(doc[selector], value);
    report := if chosen.Some? then Selected(chosen.value) else NoOptionMatched;
  }

  // ---------------------------------------------------------------------------
  // Properties of the matching rule

  lemma {:induction false} ContainsSelf(s: string)
    ensures Contains(s, s)
  {
    ContainsAt(s, s, 0);
  }

  lemma {:induction false} ExactIsPartial(o: OptionItem, key: string)
    requires ExactHit(o, key)
    ensures PartialHit(o, key)
  {
    ContainsSelf(key);
  }

  /** An exact hit anywhere beats every substring hit: the choice is then the first exact hit. */
  lemma {:induction false} ExactWins(options: seq<OptionItem>, value: string, k: nat)
    requires k < |options| && ExactHit(options[k], RequestKey(value))
    ensures ChooseOption(options, value).Some?
    ensures var c := ChooseOption(options, value).value;
      c <= k && ExactHit(options[c], RequestKey(value))
      && forall j :: 0 <= j < c ==> !ExactHit(options[j], RequestKey(value))
  {
    var key := RequestKey(value);
    assert IsExact(key)(options[k]);
    var r := FirstIndex(options, IsExact(key));
    assert r.Some?;
    assert IsExact(key)(options[r.value]);
  }

  /** Without an exact hit, the choice is the first option containing the request. */
  lemma {:induction false} PartialFallback(options: seq<OptionItem>, value: string)
    requires forall j :: 0 <= j < |options| ==> !ExactHit(options[j], RequestKey(value))
    ensures ChooseOption(options, value) == FirstIndex(options, IsPartial(RequestKey(value)))
  {
  }

  /** Nothing is selected exactly when no option's value or text contains the request. */
  lemma {:induction false} NoMatchIff(options: seq<OptionItem>, value: string)
    ensures ChooseOption(options, value).None?
        <==> forall j :: 0 <= j < |options| ==> !PartialHit(options[j], RequestKey(value))
  {
    var key := RequestKey(value);
    if forall j :: 0 <= j < |options| ==> !PartialHit(options[j], key) {
      forall j | 0 <= j < |options| ensures !ExactHit(options[j], key) {
        if ExactHit(options[j], key) {
          ExactIsPartial(options[j], key);
        }
      }
      PartialFallback(options, value);
    } else {
      var j :| 0 <= j < |options| && PartialHit(options[j], key);
      if forall i :: 0 <= i < |options| ==> !ExactHit(options[i], key) {
        PartialFallback(options, value);
        assert IsPartial(key)(options[j]);
      } else {
        var i :| 0 <= i < |options| && ExactHit(options[i], key);
        ExactWins(options, value, i);
      }
    }
  }

  /**
   * A blank request (empty once trimmed) selects the first option whose value or text is
   * blank; when there is none, every option contains the empty string, so the first
   * option of the list is selected, and nothing only from an empty list.
   */
  lemma {:induction false} BlankRequestPicksFirst(options: seq<OptionItem>, value: string)
    requires RequestKey(value) == ""
    ensures (exists j :: 0 <= j < |options| && ExactHit(options[j], "")) ==>
      var c := ChooseOption(options, value);
      c.Some? && ExactHit(options[c.value], "") && forall j :: 0 <= j < c.value ==> !ExactHit(options[j], "")
    ensures (forall j :: 0 <= j < |options| ==> !ExactHit(options[j], "")) ==>
      ChooseOption(options, value) == if |options| > 0 then Some(0) else None
  {
    if j :| 0 <= j < |options| && ExactHit(options[j], "") {
      ExactWins(options, value, j);
    } else {
      PartialFallback(options, value);
      if |options| > 0 {
        assert PartialHit(options[0], "");
        assert IsPartial("")(options[0]);
      }
    }
  }

  /**
   * Selecting the same request again chooses the same option and leaves the same value,
   * yet a hit dispatches `change` and `input` again: every selection replays the same
   * events, whether or not the value moved.
   */
  lemma {:induction false} SelectionRepeatable(options: seq<OptionItem>, value: string, v0: string)
    ensures var c := ChooseOption(options, value);
      var v1 := SelectedValue(options, c, v0);
      && SelectedValue(options, c, v1) == v1
      && (c.Some? ==> v1 == options[c.value].value
                      && SelectionEvents(options, c) == [Focus, Click, Focus, Change(v1), Input(v1)])
      && (c.None? ==> v1 == v0 && SelectionEvents(options, c) == [Focus, Click])
  {
  }
}
