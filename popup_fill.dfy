/**
 * The popup's side: the start and manual buttons validate the chosen user and visitor
 * before sending one spreadsheet row; the start button clears that visitor's completion
 * entries; the injected `analyzePage` guards against refilling a visitor, then fills
 * each field through the first candidate selector that matches.
 */
module PopupFill {
  import opened Wrappers
  import opened Text
  import opened Search
  import opened Dom
  import opened Typing
  import opened Dropdown
  import opened Candidates

  // ---------------------------------------------------------------------------
  // Request validation (start and manual buttons)

  datatype RequestError = NoDataLoaded | InvalidUser | InvalidVisitor

  /** The chosen indices as `parseInt` read them from the two selects; `None` is NaN. */
  datatype Request = Request(userIndex: Option<int>, visitorIndex: Option<int>)

  /**
   * The checks as written: an empty sheet is refused, then a user index outside the
   * sheet, then a negative visitor index. NaN fails every comparison, so an unchosen
   * user or visitor passes.
   */
  function ValidateRequest(rowCount: nat, user: Option<int>, visitor: Option<int>): Result<Request, RequestError> {
    if rowCount == 0 then Err(NoDataLoaded)
    else if user.Some? && (user.value < 0 || user.value >= rowCount) then Err(InvalidUser)
    else if visitor.Some? && visitor.value < 0 then Err(InvalidVisitor)
    else Ok(Request(user, visitor))
  }

  /** `[data[selectedUserIndex]]`: one row, absent when the index does not name one. */
  function Payload(rows: seq<Record>, user: Option<int>): (p: seq<Option<Record>>)
    ensures |p| == 1
  {
    [if user.Some? && 0 <= user.value < |rows| then Some(rows[user.value]) else None]
  }

  /** A numeric index that passes is in range, and then exactly the chosen row is sent. */
  lemma {:induction false} ValidatedNumbersInRange(rows: seq<Record>, user: int, visitor: int)
    requires ValidateRequest(|rows|, Some(user), Some(visitor)).Ok?
    ensures 0 <= user < |rows| && 0 <= visitor
    ensures Payload(rows, Some(user)) == [Some(rows[user])]
  {
  }

  /** With no user chosen (`parseInt("")` is NaN) the request still passes and sends an absent row. */
  lemma {:induction false} UnchosenUserPasses(rows: seq<Record>)
    requires |rows| > 0
    ensures ValidateRequest(|rows|, None, Some(0)) == Ok(Request(None, Some(0)))
    ensures Payload(rows, None) == [None]
  {
  }

  /** The checks as their messages intend: an index that is not a number is invalid too. */
  function ValidateRequestStrict(rowCount: nat, user: Option<int>, visitor: Option<int>): Result<Request, RequestError> {
    if rowCount == 0 then Err(NoDataLoaded)
    else if user.None? || user.value < 0 || user.value >= rowCount then Err(InvalidUser)
    else if visitor.None? || visitor.value < 0 then Err(InvalidVisitor)
    else Ok(Request(user, visitor))
  }

  /** A strictly validated request always names a row that exists, and a visitor slot. */
  lemma {:induction false} StrictRequestNamesRow(rows: seq<Record>, user: Option<int>, visitor: Option<int>)
    ensures ValidateRequestStrict(|rows|, user, visitor).Ok?
      <==> user.Some? && 0 <= user.value < |rows| && visitor.Some? && visitor.value >= 0
    ensures ValidateRequestStrict(|rows|, user, visitor).Ok? ==>
      Payload(rows, user) == [Some(rows[user.value])]
  {
  }

  /** On numbers the two versions agree; they differ only on NaN. */
  lemma {:induction false} StrictAgreesOnNumbers(rowCount: nat, user: int, visitor: int)
    ensures ValidateRequestStrict(rowCount, Some(user), Some(visitor)) == ValidateRequest(rowCount, Some(user), Some(visitor))
  {
  }

  // ---------------------------------------------------------------------------
  // The fill loop of `analyzePage`

  datatype PopupFieldLog =
    | SkippedEmpty
    | NoCandidateMatched
    | TypedInto(selector: string, typed: TypeReport)
    | SelectedIn(selector: string, chosen: Option<nat>)

  /** One field's turn: an empty value is skipped, otherwise the first matching candidate is filled. */
  function FieldOutcome(doc: Document, f: FieldSpec): PopupFieldLog {
    if f.value == "" then SkippedEmpty
    else match FirstMatch(doc, f.selectors)
      case None => NoCandidateMatched
      case Some(k) =>
        var sel := f.selectors[k];
        if f.isDropdown then SelectedIn(sel, ChooseOption(doc[sel].options, f.value))
        else
          var t := PopupTypedText(doc[sel].name, f.value);
          TypedInto(sel, if PopupAgrees(doc[sel].name, t, doc[sel].reaction(t)) then Typed else Mismatch)
  }

  function FillLog(doc: Document, fields: seq<FieldSpec>): seq<PopupFieldLog> {
    Mapped(f => FieldOutcome(doc, f), fields)
  }

  /**
   * What one field's turn writes, to the first candidate present: a dropdown gets the
   * chosen option's value (or keeps its own), any other control whatever the page makes
   * of the text typed for its `name`; an empty value or no candidate means no write.
   */
  function FieldWrite(doc: Document, f: FieldSpec): (w: Write)
    ensures w.touched <= doc.Values
  {
    if f.value == "" then NoWrite
    else match FirstMatch(doc, f.selectors)
      case None => NoWrite
      case Some(k) =>
        var el := doc[f.selectors[k]];
        if f.isDropdown then
          var opts := el.options;
          var c := ChooseOption(opts, f.value);
          Write({el}, if c.Some? then SetTo(SelectedValue(opts, c, "")) else Keep, SelectionEvents(opts, c))
        else
          var t := PopupTypedText(el.name, f.value);
          Write({el}, SetTo(el.reaction(t)), TypingEvents(t))
  }

  function Writes(doc: Document, fields: seq<FieldSpec>): seq<Write> {
    Mapped(f => FieldWrite(doc, f), fields)
  }

  function Touched(doc: Document, fields: seq<FieldSpec>): set<Element> {
    Covered(Writes(doc, fields))
  }

  /**
   * Every element of the page holds the value and has seen the events that the writes of
   * `fields` leave, from what it held and had seen in the old state.
   */
  twostate predicate PageFilled(doc: Document, new fields: seq<FieldSpec>)
    reads doc.Values
  {
    forall e :: e in doc.Values ==>
      e.value == ValueAfter(Writes(doc, fields), e, old(e.value))
      && e.events == EventsAfter(Writes(doc, fields), e, old(e.events))
  }

  /** Field `k` is the only one of `fields` that writes to `e`. */
  predicate OnlyWriter(doc: Document, fields: seq<FieldSpec>, e: Element, k: nat) {
    k < |fields| && e in FieldWrite(doc, fields[k]).touched
    && forall j :: 0 <= j < |fields| && j != k ==> e !in FieldWrite(doc, fields[j]).touched
  }

  /** One turn of the loop: skip an empty value, else fill the first candidate present. */
  method FillField(doc: Document, f: FieldSpec) returns (entry: PopupFieldLog)
    modifies FieldWrite(doc, f).touched`value, FieldWrite(doc, f).touched`events
    ensures entry == FieldOutcome(doc, f)
    ensures forall e :: e in FieldWrite(doc, f).touched ==>
      e.value == Apply(FieldWrite(doc, f).value, old(e.value)) && e.events == old(e.events) + FieldWrite(doc, f).events
  {
    if f.value == "" {
      return SkippedEmpty;
    }
    var found := ResolveFirst(doc, f.selectors);
    if found.None? {
      return NoCandidateMatched;
    }
    if f.isDropdown {
      entry := SelectCandidate(doc, f, found.value);
    } else {
      entry := TypeCandidate(doc, f, found.value);
    }
  }

  /** A dropdown field with a value whose `k`-th candidate is the first one present: `humanSelectDropdown` on it. */
  method SelectCandidate(doc: Document, f: FieldSpec, k: nat) returns (entry: PopupFieldLog)
    requires f.value != "" && f.isDropdown && FirstMatch(doc, f.selectors) == Some(k)
    modifies FieldWrite(doc, f).touched`value, FieldWrite(doc, f).touched`events
    ensures entry == FieldOutcome(doc, f)
    ensures forall e :: e in FieldWrite(doc, f).touched ==>
      e.value == Apply(FieldWrite(doc, f).value, old(e.value)) && e.events == old(e.events) + FieldWrite(doc, f).events
  {
    var sel := f.selectors[k];
    var chosen := SelectOption(doc[sel], f.value);
    entry := SelectedIn(sel, chosen);
  }

  /** Any other field with a value whose `k`-th candidate is the first one present: `humanType` into it. */
  method TypeCandidate(doc: Document, f: FieldSpec, k: nat) returns (entry: PopupFieldLog)
    requires f.value != "" && !f.isDropdown && FirstMatch(doc, f.selectors) == Some(k)
    modifies FieldWrite(doc, f).touched`value, FieldWrite(doc, f).touched`events
    ensures entry == FieldOutcome(doc, f)
    ensures forall e :: e in FieldWrite(doc, f).touched ==>
      e.value == Apply(FieldWrite(doc, f).value, old(e.value)) && e.events == old(e.events) + FieldWrite(doc, f).events
  {
    var sel := f.selectors[k];
    var r := PopupHumanType(doc[sel], f.value);
    entry := TypedInto(sel, r);
  }

  /** One more field extends the log by its outcome and the writes by its write. */
  lemma {:induction false} FillStep(doc: Document, fields: seq<FieldSpec>, i: nat)
    requires i < |fields|
    ensures FillLog(doc, fields[..i + 1]) == FillLog(doc, fields[..i]) + [FieldOutcome(doc, fields[i])]
    ensures forall e, v0 ::
      ValueAfter(Writes(doc, fields[..i + 1]), e, v0)
      == if e in FieldWrite(doc, fields[i]).touched
        then Apply(FieldWrite(doc, fields[i]).value, ValueAfter(Writes(doc, fields[..i]), e, v0))
        else ValueAfter(Writes(doc, fields[..i]), e, v0)
    ensures forall e, ev0 ::
      EventsAfter(Writes(doc, fields[..i + 1]), e, ev0)
      == if e in FieldWrite(doc, fields[i]).touched
        then EventsAfter(Writes(doc, fields[..i]), e, ev0) + FieldWrite(doc, fields[i]).events
        else EventsAfter(Writes(doc, fields[..i]), e, ev0)
  {
    assert fields[..i + 1][..i] == fields[..i];
    MappedStep(f => FieldOutcome(doc, f), fields, i);
    MappedStep(f => FieldWrite(doc, f), fields, i);
    forall e, v0 {
      AfterAppend(Writes(doc, fields[..i]), FieldWrite(doc, fields[i]), e, v0, []);
    }
    forall e, ev0 {
      AfterAppend(Writes(doc, fields[..i]), FieldWrite(doc, fields[i]), e, "", ev0);
    }
  }

  /** `for (let field of fieldsToFill) { ... }` */
  method FillFields(doc: Document, fields: seq<FieldSpec>) returns (log: seq<PopupFieldLog>)
    modifies doc.Values`value, doc.Values`events
    ensures log == FillLog(doc, fields)
    ensures forall e :: e in doc.Values && e !in Touched(doc, fields) ==>
      e.value == old(e.value) && e.events == old(e.events)
    ensures PageFilled(doc, fields)
  {
    log := [];
    var i := 0;
    while i < |fields|
      invariant 0 <= i <= |fields|
      invariant log == FillLog(doc, fields[..i])
      invariant PageFilled(doc, fields[..i])
    {
      FillStep(doc, fields, i);
      var entry := FillField(doc, fields[i]);
      forall e | e in doc.Values
        ensures e.value == ValueAfter(Writes(doc, fields[..i + 1]), e, old(e.value))
        ensures e.events == EventsAfter(Writes(doc, fields[..i + 1]), e, old(e.events))
      {
      }
      log := log + [entry];
      i := i + 1;
    }
    assert fields[..|fields|] == fields;
    forall e | e in doc.Values && e !in Touched(doc, fields)
      ensures e.value == old(e.value) && e.events == old(e.events)
    {
      AfterUncovered(Writes(doc, fields), e, old(e.value), old(e.events));
    }
  }

  /** An element exactly one field writes to ends with that field's value and events, whatever the other fields do. */
  lemma {:induction false} OnlyWriterDecides(doc: Document, fields: seq<FieldSpec>, e: Element, k: nat, v0: string, ev0: seq<Event>)
    requires OnlyWriter(doc, fields, e, k)
    ensures ValueAfter(Writes(doc, fields), e, v0) == Apply(FieldWrite(doc, fields[k]).value, v0)
    ensures EventsAfter(Writes(doc, fields), e, ev0) == ev0 + FieldWrite(doc, fields[k]).events
  {
    MappedEntries(f => FieldWrite(doc, f), fields);
    AfterSingle(Writes(doc, fields), e, k, v0, ev0);
  }

  /** The log has one entry per field, each that field's outcome. */
  lemma {:induction false} FillLogEntries(doc: Document, fields: seq<FieldSpec>)
    ensures |FillLog(doc, fields)| == |fields|
    ensures forall k :: 0 <= k < |fields| ==> FillLog(doc, fields)[k] == FieldOutcome(doc, fields[k])
  {
    MappedEntries(f => FieldOutcome(doc, f), fields);
  }

  /**
   * A mismatch is reported only where the page altered the typed text: under a `name`
   * containing "name" beyond letter case, under any other `name` at all. A page that
   * leaves typed text alone is never reported.
   */
  lemma {:induction false} MismatchMeansPageAltered(doc: Document, fields: seq<FieldSpec>)
    ensures |FillLog(doc, fields)| == |fields|
    ensures forall k :: 0 <= k < |fields| && FillLog(doc, fields)[k].TypedInto? && FillLog(doc, fields)[k].typed == Mismatch ==>
      var sel := FillLog(doc, fields)[k].selector;
      sel in doc
      && var name := doc[sel].name;
      var t := PopupTypedText(name, fields[k].value);
      && FieldWrite(doc, fields[k]).touched == {doc[sel]}
      && doc[sel].reaction(t) != t
      && (name != "" && Contains(name, "name") ==> Lower(doc[sel].reaction(t)) != Lower(t))
  {
    FillLogEntries(doc, fields);
    forall k | 0 <= k < |fields| && FillLog(doc, fields)[k].TypedInto? && FillLog(doc, fields)[k].typed == Mismatch
      ensures var sel := FillLog(doc, fields)[k].selector;
        var t := PopupTypedText(doc[sel].name, fields[k].value);
        sel in doc && doc[sel].reaction(t) != t
    {
      var sel := FillLog(doc, fields)[k].selector;
      PopupReadBack(doc[sel].name, fields[k].value, doc[sel].reaction(PopupTypedText(doc[sel].name, fields[k].value)));
    }
  }

  // ---------------------------------------------------------------------------
  // The per-visitor guard

  /** `visitor_${visitorIndex}` */
  function VisitorKey(slot: nat): string {
    "visitor_" + NatToString(slot)
  }

  const RecentWindow: int := 30000

  datatype AnalyzeOutcome = AlreadyFilled | NoFormFields | RecentlyFilled | NoRecord | Filled

  /** `window.formFillingCompleted` and `window.lastFormCompletion`, keyed by `visitor_i`. */
  datatype PopupState = PopupState(completed: map<string, bool>, lastCompletion: map<string, int>)

  datatype AnalyzeStep = AnalyzeStep(next: PopupState, outcome: AnalyzeOutcome)

  /** The fields to fill for the row and the visitor slot. */
  function RecordFields(record: Option<Record>, slot: nat): seq<FieldSpec>
    requires record.Some?
  {
    PopupFieldsToFill(record.value, slot)
  }

  /** `window.lastFormCompletion[visitorKey] || 0` */
  function LastCompletion(st: PopupState, key: string): int {
    if key in st.lastCompletion then st.lastCompletion[key] else 0
  }

  /**
   * `analyzePage` as a state change: the completed flag, then the presence of form
   * elements, then the 30-second window, then the row; the timestamp is written before
   * the fields are filled and the completed flag after.
   */
  function Analyze(st: PopupState, slot: nat, hasFormElements: bool, record: Option<Record>, now: int): AnalyzeStep {
    var key := VisitorKey(slot);
    if key in st.completed && st.completed[key] then AnalyzeStep(st, AlreadyFilled)
    else if !hasFormElements then AnalyzeStep(st, NoFormFields)
    else if now - LastCompletion(st, key) < RecentWindow then AnalyzeStep(st, RecentlyFilled)
    else if record.None? then AnalyzeStep(st, NoRecord)
    else AnalyzeStep(PopupState(st.completed[key := true], st.lastCompletion[key := now]), Filled)
  }

  /** The start button's reset of one visitor's entries. */
  function Reset(st: PopupState, slot: nat): PopupState {
    PopupState(st.completed - {VisitorKey(slot)}, st.lastCompletion - {VisitorKey(slot)})
  }

  /** The page's `window`, as the popup's injected scripts see and change it. */
  class PageWindow {
    var formFillingCompleted: map<string, bool>
    var lastFormCompletion: map<string, int>

    constructor ()
      ensures State() == PopupState(map[], map[])
    {
      formFillingCompleted := map[];
      lastFormCompletion := map[];
    }

    function State(): PopupState
      reads this
    {
      PopupState(formFillingCompleted, lastFormCompletion)
    }

    /** `delete window.formFillingCompleted[visitorKey]; delete window.lastFormCompletion[visitorKey];` */
    method ResetSlot(slot: nat)
      modifies this
      ensures State() == Reset(old(State()), slot)
    {
      var key := VisitorKey(slot);
      formFillingCompleted := formFillingCompleted - {key};
      lastFormCompletion := lastFormCompletion - {key};
    }

    /** `analyzePage()` for visitor `slot`, filling `doc` when the guard lets it through. */
    method AnalyzePage(doc: Document, hasFormElements: bool, record: Option<Record>, slot: nat, now: int)
      returns (outcome: AnalyzeOutcome, log: seq<PopupFieldLog>)
      modifies this, doc.Values`value, doc.Values`events
      ensures AnalyzeStep(State(), outcome) == Analyze(old(State()), slot, hasFormElements, record, now)
      ensures outcome == Filled ==> record.Some?
      ensures outcome == Filled ==> log == FillLog(doc, RecordFields(record, slot))
      ensures outcome == Filled ==>
        PageFilled(doc, RecordFields(record, slot))
      ensures outcome != Filled ==>
        log == [] && forall e :: e in doc.Values ==> e.value == old(e.value) && e.events == old(e.events)
    {
      log := [];
      var refused := Guard(hasFormElements, record, slot, now);
      if refused.Some? {
        return refused.value, log;
      }
      log := FillVisitor(RecordFields(record, slot), VisitorKey(slot), doc, now);
      outcome := Filled;
    }

    /** The checks of `analyzePage` before any field is touched: the reason to stop, if there is one. */
    method Guard(hasFormElements: bool, record: Option<Record>, slot: nat, now: int) returns (refused: Option<AnalyzeOutcome>)
      ensures refused.Some? <==> Analyze(State(), slot, hasFormElements, record, now).outcome != Filled
      ensures refused.Some? ==> refused.value == Analyze(State(), slot, hasFormElements, record, now).outcome
      ensures refused.None? ==> record.Some?
    {
      var key := VisitorKey(slot);
      if key in formFillingCompleted && formFillingCompleted[key] {
        return Some(AlreadyFilled);
      }
      if !hasFormElements {
        return Some(NoFormFields);
      }
      var last := if key in lastFormCompletion then lastFormCompletion[key] else 0;
      if now - last < RecentWindow {
        return Some(RecentlyFilled);
      }
      if record.None? {
        return Some(NoRecord);
      }
      return None;
    }

    /** Past the guard: stamp the visitor, fill its fields, then mark it completed. */
    method FillVisitor(fields: seq<FieldSpec>, key: string, doc: Document, now: int) returns (log: seq<PopupFieldLog>)
      modifies this, doc.Values`value, doc.Values`events
      ensures lastFormCompletion == old(lastFormCompletion)[key := now]
      ensures formFillingCompleted == old(formFillingCompleted)[key := true]
      ensures log == FillLog(doc, fields)
      ensures forall e :: e in doc.Values && e !in Touched(doc, fields) ==>
        e.value == old(e.value) && e.events == old(e.events)
      ensures PageFilled(doc, fields)
    {
      lastFormCompletion := lastFormCompletion[key := now];
      log := FillFields(doc, fields);
      formFillingCompleted := formFillingCompleted[key := true];
    }
  }

  // ---------------------------------------------------------------------------
  // Properties of the guard

  /** Different visitors have different keys. */
  lemma {:induction false} VisitorKeyInjective(a: nat, b: nat)
    requires VisitorKey(a) == VisitorKey(b)
    ensures a == b
  {
    assert NatToString(a) == VisitorKey(a)[8..];
    assert NatToString(b) == VisitorKey(b)[8..];
    NatToStringInjective(a, b);
  }

  /** Resetting one visitor leaves every other visitor's entries as they were. */
  lemma {:induction false} ResetOnlyThatVisitor(st: PopupState, slot: nat, other: nat)
    requires other != slot
    ensures var key := VisitorKey(other);
      (key in Reset(st, slot).completed <==> key in st.completed)
      && (key in st.completed ==> Reset(st, slot).completed[key] == st.completed[key])
      && LastCompletion(Reset(st, slot), key) == LastCompletion(st, key)
  {
    if VisitorKey(other) == VisitorKey(slot) {
      VisitorKeyInjective(other, slot);
    }
  }

  /** Once filled, a visitor is skipped by every later call until the start button resets it. */
  lemma {:induction false} FilledStaysFilled(st: PopupState, slot: nat, has1: bool, r1: Option<Record>, t1: int,
                          has2: bool, r2: Option<Record>, t2: int)
    requires Analyze(st, slot, has1, r1, t1).outcome == Filled
    ensures Analyze(Analyze(st, slot, has1, r1, t1).next, slot, has2, r2, t2).outcome == AlreadyFilled
  {
  }

  /** After a reset, the visitor is filled again whenever the page has fields, the row exists and the clock reads at least 30 000. */
  lemma {:induction false} ResetAllowsRefill(st: PopupState, slot: nat, record: Record, now: int)
    requires now >= RecentWindow
    ensures Analyze(Reset(st, slot), slot, true, Some(record), now).outcome == Filled
  {
  }

  /** Every visitor with a completion time is marked completed: true of a fresh page, kept by every call and reset. */
  predicate StampedMeansCompleted(st: PopupState) {
    forall key :: key in st.lastCompletion ==> key in st.completed && st.completed[key]
  }

  /**
   * The 30-second window never fires once the clock reads at least 30 000: a visitor
   * with a completion time is already skipped as completed, and one without reads 0.
   * Only a call overlapping a fill in progress, which this model does not interleave,
   * could see the time without the flag.
   */
  lemma {:induction false} PopupWindowNeverFires(st: PopupState, slot: nat, has: bool, record: Option<Record>, now: int)
    requires StampedMeansCompleted(st) && now >= RecentWindow
    ensures Analyze(st, slot, has, record, now).outcome != RecentlyFilled
    ensures StampedMeansCompleted(Analyze(st, slot, has, record, now).next)
  {
  }

  /** The start button's reset removes a visitor's flag and its time together, so the invariant survives it. */
  lemma {:induction false} ResetKeepsStampedCompleted(st: PopupState, slot: nat)
    requires StampedMeansCompleted(st)
    ensures StampedMeansCompleted(Reset(st, slot))
  {
  }

  /** A fill records the visitor's completion time as the time of the call and sets its completed flag; nothing else changes. */
  lemma {:induction false} FillRecordsVisitor(st: PopupState, slot: nat, has: bool, record: Option<Record>, now: int)
    ensures var s := Analyze(st, slot, has, record, now);
      if s.outcome == Filled then
        s.next.completed == st.completed[VisitorKey(slot) := true]
        && s.next.lastCompletion == st.lastCompletion[VisitorKey(slot) := now]
      else s.next == st
  {
  }
}
