/**
 * The per-visitor field lists and their candidate selectors. The booking form names
 * visitor `i`'s fields `data[dataGrid1][i][field]`; each field is tried first by that
 * exact name, then by the `[i][field]` fragment, then by generic fallbacks.
 */
module Candidates {
  import opened Wrappers
  import opened Text
  import opened Search
  import opened Dom
  import opened Typing

  /** `${slot}` for an integer slot. */
  function SlotText(slot: int): (r: string)
    ensures forall i :: 0 <= i < |r| ==> IsDigit(r[i]) || r[i] == '-'
  {
    if slot < 0 then "-" + NatToString(-slot) else NatToString(slot)
  }

  const GridPrefix: string := "data[dataGrid1]["

  /** The `name` attribute the booking form gives visitor `slot`'s field `key`. */
  function GridName(slot: int, key: string): string {
    GridPrefix + SlotText(slot) + ("][" + key + "]")
  }

  /** `tag[name="data[dataGrid1][slot][key]"]` */
  function ExactSelector(tag: string, slot: int, key: string): string {
    tag + "[name=\"" + GridName(slot, key) + "\"]"
  }

  /** `tag[name*="[slot][key]"]` */
  function FragmentSelector(tag: string, slot: int, key: string): string {
    tag + "[name*=\"" + Fragment(slot, key) + "\"]"
  }

  function Fragment(slot: int, key: string): string {
    "[" + SlotText(slot) + "][" + key + "]"
  }

  /** A field's candidate selectors, tried in order; every field has at least two. */
  type Selectors = s: seq<string> | |s| >= 2 witness ["input", "input"]

  datatype FieldSpec = FieldSpec(name: string, value: string, selectors: Selectors, isDropdown: bool, isMobile: bool)

  /** One spreadsheet row, its cells as text. */
  datatype Record = Record(name: string, gender: string, touristType: string, idType: string,
                           idValue: string, age: string, mobileNumber: string)

  /** `select` for a dropdown field, `input` otherwise. */
  function TagFor(isDropdown: bool): string {
    if isDropdown then "select" else "input"
  }

  /** A per-visitor field: its exact and fragment selectors first, then the given fallbacks. */
  function SlotField(slot: int, key: string, value: string, isDropdown: bool, fallbacks: seq<string>): (f: FieldSpec)
    ensures f.name == key && f.isDropdown == isDropdown && !f.isMobile
    ensures |f.selectors| == 2 + |fallbacks|
    ensures f.selectors[0] == ExactSelector(TagFor(isDropdown), slot, key)
    ensures f.selectors[1] == FragmentSelector(TagFor(isDropdown), slot, key)
  {
    var tag := TagFor(isDropdown);
    FieldSpec(key, value, [ExactSelector(tag, slot, key), FragmentSelector(tag, slot, key)] + fallbacks, isDropdown, false)
  }

  /** The generic fallbacks tried after a per-visitor field's exact and fragment selectors. */
  const NameFallbacks: seq<string> := ["input[name*=\"name\" i]", "input[placeholder*=\"name\" i]", "input[id*=\"name\" i]",
    "input[type=\"text\"]"]

  const GenderFallbacks: seq<string> := ["select[name*=\"gender\" i]", "select[id*=\"gender\" i]", "select"]

  const TouristTypeFallbacks: seq<string> := ["select[name*=\"touristType\" i]", "select[id*=\"touristType\" i]",
    "select[name=\"data[dataGrid1][0][touristType]\"]"]

  const IdTypeFallbacks: seq<string> := ["select[name*=\"idType\" i]", "select[id*=\"idType\" i]",
    "select[name=\"data[dataGrid1][0][idType]\"]"]

  const IdValueFallbacks: seq<string> := ["input[name*=\"idValue\" i]", "input[id*=\"idValue\" i]", "input[placeholder*=\"ID Proof\" i]",
    "input[name=\"data[dataGrid1][0][idValue]\"]"]

  const AgeFallbacks: seq<string> := ["input[name*=\"age\" i]", "input[placeholder*=\"age\" i]", "input[id*=\"age\" i]",
    "input[type=\"number\"]"]

  /** The six per-visitor fields, in the order both the content script and the popup fill them. */
  function SlotFields(r: Record, slot: int): (fs: seq<FieldSpec>)
    ensures |fs| == 6
  {
    [ SlotField(slot, "name", Trim(Upper(r.name)), false, NameFallbacks),
      SlotField(slot, "gender", r.gender, true, GenderFallbacks),
      SlotField(slot, "touristType", r.touristType, true, TouristTypeFallbacks),
      SlotField(slot, "idType", r.idType, true, IdTypeFallbacks),
      SlotField(slot, "idValue", r.idValue, false, IdValueFallbacks),
      SlotField(slot, "age", r.age, false, AgeFallbacks)
    ]
  }

  /** A per-visitor field tried first by its exact name, then by its `[slot][key]` fragment, with at least three fallbacks. */
  predicate SlotShaped(f: FieldSpec, slot: int) {
    && |f.selectors| >= 5 && !f.isMobile
    && f.selectors[0] == ExactSelector(TagFor(f.isDropdown), slot, f.name)
    && f.selectors[1] == FragmentSelector(TagFor(f.isDropdown), slot, f.name)
  }

  /** Every per-visitor field is tried first by its exact name, then by its `[slot][key]` fragment. */
  lemma {:induction false} SlotFieldsShape(r: Record, slot: int)
    ensures forall k :: 0 <= k < 6 ==> SlotShaped(SlotFields(r, slot)[k], slot)
  {
    var fs := SlotFields(r, slot);
    forall k | 0 <= k < 6
      ensures SlotShaped(fs[k], slot)
    {
      if k == 0 {
        assert |NameFallbacks| == 4;
      } else if k == 1 {
        assert |GenderFallbacks| == 3;
      } else if k == 2 {
        assert |TouristTypeFallbacks| == 3;
      } else if k == 3 {
        assert |IdTypeFallbacks| == 3;
      } else if k == 4 {
        assert |IdValueFallbacks| == 4;
      } else {
        assert |AgeFallbacks| == 4;
      }
    }
  }

  const DefaultMobile: string := "9876543210"

  /** The content script's seventh field: the mobile number, with a fixed fallback when the cell is empty. */
  function MobileField(r: Record): FieldSpec {
    FieldSpec("mobileNumber", if r.mobileNumber != "" then r.mobileNumber else DefaultMobile,
      MobileSelectors, false, true)
  }

  const MobileSelectors: seq<string> := [
    "input[id=\"mobileNumber\"]", "input[class*=\"iti__tel-input\"]", "input[name=\"mobileNumber\"]",
    "input[placeholder*=\"mobile\" i]", "input[placeholder*=\"phone\" i]", "input[type=\"tel\"]"
  ]

  function ContentFieldsToFill(r: Record, slot: int): seq<FieldSpec> {
    SlotFields(r, slot) + [MobileField(r)]
  }

  function PopupFieldsToFill(r: Record, slot: int): seq<FieldSpec> {
    SlotFields(r, slot)
  }

  // ---------------------------------------------------------------------------
  // First-match resolution

  function InDocument(doc: Document): string -> bool {
    s => s in doc
  }

  /** The first selector that matches something in the document. */
  function FirstMatch(doc: Document, selectors: seq<string>): Option<nat> {
    FirstIndex(selectors, InDocument(doc))
  }

  /** `for (selector of selectors) { el = document.querySelector(selector); if (el) break; }` */
  method ResolveFirst(doc: Document, selectors: seq<string>) returns (found: Option<nat>)
    ensures found == FirstMatch(doc, selectors)
    ensures found.Some? ==> found.value < |selectors| && selectors[found.value] in doc
    ensures found.None? ==> forall s :: s in selectors ==> s !in doc
  {
    found := FindFirst(selectors, InDocument(doc));
  }

  // ---------------------------------------------------------------------------
  // Properties of the candidate lists

  lemma {:induction false} SlotTextInjective(a: int, b: int)
    requires SlotText(a) == SlotText(b)
    ensures a == b
  {
    assert SlotText(a)[0] == '-' <==> a < 0;
    assert SlotText(b)[0] == '-' <==> b < 0;
    if a < 0 && b < 0 {
      assert SlotText(a)[1..] == NatToString(-a);
      assert SlotText(b)[1..] == NatToString(-b);
      NatToStringInjective(-a, -b);
    } else if a >= 0 && b >= 0 {
      NatToStringInjective(a, b);
    }
  }

  /** Equal strings with equal margins have equal middles. */
  lemma {:induction false} MiddleEqual(p: string, x: string, y: string, q: string)
    requires p + x + q == p + y + q
    ensures x == y
  {
    assert x == (p + x + q)[|p|..|p| + |x|];
    assert y == (p + y + q)[|p|..|p| + |y|];
  }

  /** Different visitors' exact selectors never coincide: visitor `i`'s field cannot be taken for visitor `j`'s. */
  lemma {:induction false} ExactSelectorsDistinct(tag: string, a: int, b: int, key: string)
    requires ExactSelector(tag, a, key) == ExactSelector(tag, b, key)
    ensures a == b
  {
    MiddleEqual(tag + "[name=\"", GridName(a, key), GridName(b, key), "\"]");
    MiddleEqual(GridPrefix, SlotText(a), SlotText(b), "][" + key + "]");
    SlotTextInjective(a, b);
  }

  /** The exact name contains the `[slot][key]` fragment, so whatever the first candidate matches the second matches too. */
  lemma {:induction false} ExactNameHasFragment(slot: int, key: string)
    ensures Contains(GridName(slot, key), Fragment(slot, key))
  {
    var pre := GridPrefix[..|GridPrefix| - 1];
    assert GridName(slot, key) == pre + Fragment(slot, key) + "";
    ContainsInside(pre, Fragment(slot, key), "", Fragment(slot, key), 0);
  }

  /** The resolver prefers the exact selector, then the fragment selector, over anything later in the list. */
  lemma {:induction false} PreferSlotSelectors(doc: Document, r: Record, slot: int, k: nat)
    requires k < 6
    ensures var sels := SlotFields(r, slot)[k].selectors;
      (sels[0] in doc ==> FirstMatch(doc, sels) == Some(0))
      && (sels[0] !in doc && sels[1] in doc ==> FirstMatch(doc, sels) == Some(1))
  {
    FrontSelectorsFirst(doc, SlotFields(r, slot)[k].selectors);
  }

  /** Of two or more candidates, the first wins when present, and the second when only the first is absent. */
  lemma {:induction false} FrontSelectorsFirst(doc: Document, sels: seq<string>)
    requires |sels| >= 2
    ensures sels[0] in doc ==> FirstMatch(doc, sels) == Some(0)
    ensures sels[0] !in doc && sels[1] in doc ==> FirstMatch(doc, sels) == Some(1)
  {
    if sels[0] in doc {
      assert InDocument(doc)(sels[0]);
    } else if sels[1] in doc {
      assert InDocument(doc)(sels[1]);
      assert !InDocument(doc)(sels[0]);
    }
  }

  /** A string lacking some character of `sub` cannot contain `sub`. */
  lemma {:induction false} MissingCharNotContained(s: string, sub: string, c: char)
    requires c in sub && c !in s
    ensures !Contains(s, sub)
  {
    if Contains(s, sub) {
      var i := ContainsWitness(s, sub);
    }
  }

  lemma {:induction false} GridNameMentionsName(tag: string, slot: int, key: string)
    ensures MentionsName(ExactSelector(tag, slot, key))
  {
    var b := "[name=\"";
    assert ExactSelector(tag, slot, key) == tag + b + (GridName(slot, key) + "\"]");
    assert b[1..5] == "name";
    ContainsInside(tag, b, GridName(slot, key) + "\"]", "name", 1);
  }

  /**
   * On the content script's main path every typed field goes through its exact selector,
   * which contains `name=`: the text is upper-cased and trimmed, never ID-cleaned, and
   * verified by the name rule — the identity number and the age included.
   */
  lemma {:induction false} MainPathTypesUpperCase(r: Record, slot: int, k: nat, text: string)
    requires k < |ContentFieldsToFill(r, slot)|
    requires !ContentFieldsToFill(r, slot)[k].isDropdown && !ContentFieldsToFill(r, slot)[k].isMobile
    ensures var sel := ContentFieldsToFill(r, slot)[k].selectors[0];
      ContentTypedText(sel, text) == Trim(Upper(text)) && !ContentIdCleans(sel)
      && ContentCheckRule(sel) == NameRule
  {
    var fs := ContentFieldsToFill(r, slot);
    SlotFieldsShape(r, slot);
    assert k < 6 && fs[k] == SlotFields(r, slot)[k];
    GridNameMentionsName("input", slot, fs[k].name);
    ContentNameOverridesId(fs[k].selectors[0], text);
  }

  /**
   * The booking form's own field names all contain "id" (inside "dataGrid1") and, apart
   * from the name field, no "name": the popup ID-cleans every such field it types.
   */
  lemma {:induction false} PopupIdCleansGridFields(slot: int, key: string)
    requires 'm' !in key
    ensures PopupIdCleans(GridName(slot, key))
  {
    var n := GridName(slot, key);
    var rest := SlotText(slot) + ("][" + key + "]");
    assert n == GridPrefix + rest;
    assert GridPrefix[11..13] == "id";
    assert n == "" + GridPrefix + rest;
    ContainsInside("", GridPrefix, rest, "id", 11);
    assert 'm' !in GridPrefix;
    assert 'm' !in SlotText(slot);
    assert 'm' !in rest;
    MissingCharNotContained(n, "name", 'm');
    MissingCharNotContained(n, "Name", 'm');
  }

  /** Hence the popup strips every separator from the identity number and the age it types into the booking form. */
  lemma {:induction false} PopupGridIdValueCleaned(slot: int, text: string)
    ensures PopupTypedText(GridName(slot, "idValue"), text) == IdValue.PopupCleanIdValue(text)
    ensures PopupTypedText(GridName(slot, "age"), text) == IdValue.PopupCleanIdValue(text)
  {
    PopupIdCleansGridFields(slot, "idValue");
    PopupIdTyped(GridName(slot, "idValue"), text);
    PopupIdCleansGridFields(slot, "age");
    PopupIdTyped(GridName(slot, "age"), text);
  }
}
