/**
 * The console script that looks for the form rows of up to six visitors. Each of a
 * visitor's six fields is looked up through four candidate selectors, first match
 * winning; a visitor "has fields" when any of them resolved. The script also lists
 * buttons that look like "add visitor" controls and elements that mention visitors.
 */
module DebugVisitors {
  import opened Wrappers
  import opened Text
  import opened Dom
  import opened Candidates

  const VisitorSlots: seq<nat> := [0, 1, 2, 3, 4, 5]
  const FieldTypes: seq<string> := ["name", "age", "gender", "touristType", "idType", "idValue"]

  /** Exact name on an input, then on a select, then the `[slot][key]` fragment on an input, then on a select. */
  function DebugCandidates(slot: nat, key: string): seq<string> {
    [ExactSelector("input", slot, key), ExactSelector("select", slot, key),
     FragmentSelector("input", slot, key), FragmentSelector("select", slot, key)]
  }

  /** What the script records of a found field; `options` only for a select, in list order. */
  datatype FieldInfo = FieldInfo(element: Element, tag: Tag, value: string, placeholder: string,
                                 options: Option<seq<OptionItem>>)

  function Capture(e: Element): FieldInfo
    reads e
  {
    FieldInfo(e, e.tag, e.value, e.placeholder, if e.tag == SelectTag then Some(e.options) else None)
  }

  /** The field `key` of visitor `slot`: the first candidate that matches, if any. */
  function FieldScan(doc: Document, slot: nat, key: string): Option<FieldInfo>
    reads doc.Values
  {
    var cands := DebugCandidates(slot, key);
    match FirstMatch(doc, cands)
    case None => None
    case Some(k) => Some(Capture(doc[cands[k]]))
  }

  predicate Resolves(doc: Document, slot: nat, key: string) {
    FirstMatch(doc, DebugCandidates(slot, key)).Some?
  }

  /** `visitorFields` after the given field types were looked up in order. */
  function ScanFields(doc: Document, slot: nat, keys: seq<string>): map<string, FieldInfo>
    reads doc.Values
    decreases |keys|
  {
    if keys == [] then map[]
    else
      var m := ScanFields(doc, slot, keys[..|keys| - 1]);
      var key := keys[|keys| - 1];
      match FieldScan(doc, slot, key)
      case None => m
      case Some(info) => m[key := info]
  }

  predicate SomeFieldResolves(doc: Document, slot: nat, keys: seq<string>) {
    exists j :: 0 <= j < |keys| && Resolves(doc, slot, keys[j])
  }

  /** One field type of one visitor: the first candidate that matches, captured. */
  method ScanField(doc: Document, slot: nat, key: string) returns (info: Option<FieldInfo>)
    ensures info == FieldScan(doc, slot, key)
    ensures info.Some? <==> Resolves(doc, slot, key)
  {
    var selectors := DebugCandidates(slot, key);
    var found := ResolveFirst(doc, selectors);
    if found.Some? {
      info := Some(Capture(doc[selectors[found.value]]));
    } else {
      info := None;
    }
  }

  /** Looking up one more field type extends the report and the "has fields" flag. */
  lemma {:induction false} ScanFieldsStep(doc: Document, slot: nat, keys: seq<string>, i: nat)
    requires i < |keys|
    ensures ScanFields(doc, slot, keys[..i + 1]) ==
      match FieldScan(doc, slot, keys[i])
      case None => ScanFields(doc, slot, keys[..i])
      case Some(info) => ScanFields(doc, slot, keys[..i])[keys[i] := info]
    ensures SomeFieldResolves(doc, slot, keys[..i + 1]) <==>
      SomeFieldResolves(doc, slot, keys[..i]) || Resolves(doc, slot, keys[i])
  {
    assert keys[..i + 1][..i] == keys[..i];
    assert keys[..i + 1][i] == keys[i];
    if SomeFieldResolves(doc, slot, keys[..i + 1]) && !Resolves(doc, slot, keys[i]) {
      var j :| 0 <= j < i + 1 && Resolves(doc, slot, keys[..i + 1][j]);
      assert j < i && keys[..i][j] == keys[..i + 1][j];
    }
    if SomeFieldResolves(doc, slot, keys[..i]) {
      var j :| 0 <= j < i && Resolves(doc, slot, keys[..i][j]);
      assert keys[..i + 1][j] == keys[..i][j];
    }
  }

  /** `fieldTypes.forEach(...)` for one visitor, over the given field types. */
  method ScanFieldTypes(doc: Document, slot: nat, keys: seq<string>) returns (visitorFields: map<string, FieldInfo>, hasFields: bool)
    ensures visitorFields == ScanFields(doc, slot, keys)
    ensures hasFields <==> SomeFieldResolves(doc, slot, keys)
  {
    visitorFields, hasFields := map[], false;
    var i := 0;
    while i < |keys|
      invariant 0 <= i <= |keys|
      invariant visitorFields == ScanFields(doc, slot, keys[..i])
      invariant hasFields <==> SomeFieldResolves(doc, slot, keys[..i])
    {
      var info := ScanField(doc, slot, keys[i]);
      if info.Some? {
        hasFields := true;
        visitorFields := visitorFields[keys[i] := info.value];
      }
      ScanFieldsStep(doc, slot, keys, i);
      i := i + 1;
    }
    assert keys[..|keys|] == keys;
  }

  /** The six field types of one visitor. */
  method ScanVisitor(doc: Document, slot: nat) returns (visitorFields: map<string, FieldInfo>, hasFields: bool)
    ensures visitorFields == ScanFields(doc, slot, FieldTypes)
    ensures hasFields <==> SomeFieldResolves(doc, slot, FieldTypes)
  {
    visitorFields, hasFields := ScanFieldTypes(doc, slot, FieldTypes);
  }

  /** What the script reports for one visitor: the fields found and whether there were any. */
  datatype VisitorReport = VisitorReport(fields: map<string, FieldInfo>, hasFields: bool)

  function VisitorScan(doc: Document, slot: nat, keys: seq<string>): VisitorReport
    reads doc.Values
  {
    VisitorReport(ScanFields(doc, slot, keys), SomeFieldResolves(doc, slot, keys))
  }

  /** `visitorIndices.forEach(...)` over the given slots, each scanned for the given field types. */
  method ScanSlots(doc: Document, slots: seq<nat>, keys: seq<string>) returns (reports: seq<VisitorReport>)
    ensures |reports| == |slots|
    ensures forall s :: 0 <= s < |slots| ==> reports[s] == VisitorScan(doc, slots[s], keys)
  {
    reports := [];
    var i := 0;
    while i < |slots|
      invariant 0 <= i <= |slots| && |reports| == i
      invariant forall s :: 0 <= s < i ==> reports[s] == VisitorScan(doc, slots[s], keys)
    {
      var m, h := ScanFieldTypes(doc, slots[i], keys);
      reports := reports + [VisitorReport(m, h)];
      i := i + 1;
    }
  }

  /** One report per visitor slot 0..5, over the six field types. */
  method ScanAllVisitors(doc: Document) returns (reports: seq<VisitorReport>)
    ensures |reports| == 6
    ensures forall s :: 0 <= s < 6 ==> reports[s] == VisitorScan(doc, s, FieldTypes)
  {
    reports := ScanSlots(doc, VisitorSlots, FieldTypes);
  }

  /** The report for a visitor lists exactly the field types that resolved. */
  lemma {:induction false} ScanFieldsKeys(doc: Document, slot: nat, keys: seq<string>)
    ensures forall key :: key in ScanFields(doc, slot, keys) <==> key in keys && Resolves(doc, slot, key)
    decreases |keys|
  {
    if keys != [] {
      var init := keys[..|keys| - 1];
      ScanFieldsKeys(doc, slot, init);
      assert keys == init + [keys[|keys| - 1]];
    }
  }

  /** Each reported field holds what its first matching candidate showed. */
  lemma {:induction false} ScanFieldsValues(doc: Document, slot: nat, keys: seq<string>)
    ensures forall key :: key in ScanFields(doc, slot, keys) ==> Some(ScanFields(doc, slot, keys)[key]) == FieldScan(doc, slot, key)
    decreases |keys|
  {
    if keys != [] {
      ScanFieldsValues(doc, slot, keys[..|keys| - 1]);
    }
  }

  /** A visitor has fields exactly when its report is not empty. */
  lemma {:induction false} HasFieldsIffReported(doc: Document, slot: nat, keys: seq<string>)
    ensures ScanFields(doc, slot, keys) != map[] <==> SomeFieldResolves(doc, slot, keys)
  {
    var m := ScanFields(doc, slot, keys);
    ScanFieldsKeys(doc, slot, keys);
    if SomeFieldResolves(doc, slot, keys) {
      var j :| 0 <= j < |keys| && Resolves(doc, slot, keys[j]);
      assert keys[j] in m;
    }
    if m != map[] {
      var key :| key in m;
      assert key in keys;
      var j :| 0 <= j < |keys| && keys[j] == key;
    }
  }

  /**
   * When the fill's first candidate for a per-visitor field matches, the script reports
   * the same element for that field, unless the field is a dropdown and an input carries
   * the same exact name (the script tries inputs first).
   */
  lemma {:induction false} DebugAgreesWithFill(doc: Document, r: Record, slot: nat, k: nat)
    requires k < 6
    requires SlotFields(r, slot)[k].selectors[0] in doc
    requires SlotFields(r, slot)[k].isDropdown ==> ExactSelector("input", slot, SlotFields(r, slot)[k].name) !in doc
    ensures var f := SlotFields(r, slot)[k];
      FirstMatch(doc, f.selectors) == Some(0)
      && FieldScan(doc, slot, f.name) == Some(Capture(doc[f.selectors[0]]))
  {
    SlotFieldsShape(r, slot);
    PreferSlotSelectors(doc, r, slot, k);
    var f := SlotFields(r, slot)[k];
    var cands := DebugCandidates(slot, f.name);
    if f.isDropdown {
      assert !InDocument(doc)(cands[0]) && InDocument(doc)(cands[1]);
    } else {
      assert InDocument(doc)(cands[0]);
    }
  }

  // ---------------------------------------------------------------------------
  // Buttons and visitor-count elements

  datatype Button = Button(textContent: string, value: string)

  /** `btn.textContent || btn.value || ''` (a missing value is ""). */
  function ButtonText(b: Button): string {
    if b.textContent != "" then b.textContent else b.value
  }

  /** The add-visitor filter: the lower-cased text mentions add, visitor, guest or person. */
  predicate IsAddVisitorButton(b: Button) {
    var t := Lower(ButtonText(b));
    Contains(t, "add") || Contains(t, "visitor") || Contains(t, "guest") || Contains(t, "person")
  }

  /** The visitor-count filter on `el.textContent || ''`, case-sensitive. */
  predicate IsCountElement(textContent: string) {
    Contains(textContent, "visitor") || Contains(textContent, "guest") || Contains(textContent, "person")
  }

  function AddVisitorButtons(bs: seq<Button>): seq<Button> {
    if bs == [] then []
    else (if IsAddVisitorButton(bs[0]) then [bs[0]] else []) + AddVisitorButtons(bs[1..])
  }

  function CountElements(texts: seq<string>): seq<string> {
    if texts == [] then []
    else (if IsCountElement(texts[0]) then [texts[0]] else []) + CountElements(texts[1..])
  }

  /** The add-visitor list is exactly the page's buttons that pass the filter. */
  lemma {:induction false} AddVisitorButtonsMembers(bs: seq<Button>)
    ensures forall b :: b in AddVisitorButtons(bs) <==> b in bs && IsAddVisitorButton(b)
    ensures |AddVisitorButtons(bs)| <= |bs|
  {
    if bs != [] {
      AddVisitorButtonsMembers(bs[1..]);
      assert bs == [bs[0]] + bs[1..];
    }
  }

  /** The count list is exactly the page's texts that pass the filter. */
  lemma {:induction false} CountElementsMembers(texts: seq<string>)
    ensures forall t :: t in CountElements(texts) <==> t in texts && IsCountElement(t)
    ensures |CountElements(texts)| <= |texts|
  {
    if texts != [] {
      CountElementsMembers(texts[1..]);
      assert texts == [texts[0]] + texts[1..];
    }
  }

  /** A lower-case word found in a text is still found once the text is lower-cased. */
  lemma {:induction false} LowerKeepsLowerWord(s: string, w: string)
    requires Lower(w) == w && Contains(s, w)
    ensures Contains(Lower(s), w)
  {
    var i := ContainsWitness(s, w);
    assert Lower(s)[i..i + |w|] == Lower(s[i..i + |w|]);
    ContainsAt(Lower(s), w, i);
  }

  /** A button whose own text passes the count filter passes the add-visitor filter too. */
  lemma {:induction false} CountTextIsAddText(b: Button)
    requires b.textContent != "" && IsCountElement(b.textContent)
    ensures IsAddVisitorButton(b)
  {
    var t := b.textContent;
    if Contains(t, "visitor") {
      LowerKeepsLowerWord(t, "visitor");
    } else if Contains(t, "guest") {
      LowerKeepsLowerWord(t, "guest");
    } else {
      LowerKeepsLowerWord(t, "person");
    }
  }

  /** Not the other way round: capitalised "Visitors" is an add-visitor button ... */
  lemma {:induction false} CapitalisedIsAddButton()
    ensures IsAddVisitorButton(Button("Visitors", ""))
  {
    assert Lower("Visitors") == "visitors";
    assert StartsWith("visitors", "visitor");
  }

  /** ... but not a visitor-count element. */
  lemma {:induction false} CapitalisedIsNotCounted()
    ensures !IsCountElement("Visitors")
  {
    MissingCharNotContained("Visitors", "visitor", 'v');
    MissingCharNotContained("Visitors", "guest", 'g');
    MissingCharNotContained("Visitors", "person", 'p');
  }
}
