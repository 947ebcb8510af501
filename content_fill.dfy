/**
 * The content script's `AUTO_FILL` message handler: a busy flag and a per-visitor
 * completion map guard it, then it either fills the form inside the booking iframe,
 * hands the data to the page's iframes, or fills the main page field by field.
 */
module ContentFill {
  import opened Wrappers
  import opened Text
  import opened Search
  import opened Dom
  import opened Typing
  import opened Dropdown
  import opened Candidates

  // ---------------------------------------------------------------------------
  // The main-page dispatch loop

  datatype FieldLog =
    | TypedField(typed: TypeReport)
    | SelectedField(selected: SelectReport)
    | MobileFilled(selector: string)
    | MobileNotFound

  /** What one field's turn reports: dropdowns and text go through `selectors[0]` alone, the mobile number through the first selector that matches. */
  function FieldOutcome(doc: Document, f: FieldSpec): FieldLog
  {
    var sel := f.selectors[0];
    if f.isDropdown then
      SelectedField(
        if sel !in doc then DropdownNotFound
        else match ChooseOption(doc[sel].options, f.value)
          case Some(k) => Selected(k)
          case None => NoOptionMatched)
    else if f.isMobile then
      match FirstMatch(doc, f.selectors)
      case None => MobileNotFound
      case Some(k) => MobileFilled(f.selectors[k])
    else
      var t := ContentTypedText(sel, f.value);
      TypedField(
        if sel !in doc then ElementNotFound
        else if ContentAgrees(ContentCheckRule(sel), t, doc[sel].reaction(t)) then Typed
        else Mismatch)
  }

  function FillLog(doc: Document, fields: seq<FieldSpec>): seq<FieldLog>
  {
    Mapped(f => FieldOutcome(doc, f), fields)
  }

  /**
   * What one field's turn writes: a dropdown gets the chosen option's value (or keeps its
   * own), a text field whatever the page makes of the typed text, the mobile field the
   * raw number; a selector that matches nothing means no write.
   */
  function FieldWrite(doc: Document, f: FieldSpec): (w: Write)
    ensures w.touched <= doc.Values
  {
    var sel := f.selectors[0];
    if f.isDropdown then
      if sel !in doc then NoWrite
      else
        var opts := doc[sel].options;
        var c := ChooseOption(opts, f.value);
        Write({doc[sel]}, if c.Some? then SetTo(SelectedValue(opts, c, "")) else Keep, SelectionEvents(opts, c))
    else if f.isMobile then
      match FirstMatch(doc, f.selectors)
      case None => NoWrite
      case Some(k) => Write({doc[f.selectors[k]]}, SetTo(f.value), [Input(""), Input(f.value), Change(f.value), Blur])
    else if sel !in doc then NoWrite
    else
      var t := ContentTypedText(sel, f.value);
      Write({doc[sel]}, SetTo(doc[sel].reaction(t)), TypingEvents(t))
  }

  function Writes(doc: Document, fields: seq<FieldSpec>): seq<Write>
  {
    Mapped(f => FieldWrite(doc, f), fields)
  }

  function Touched(doc: Document, fields: seq<FieldSpec>): set<Element>
  {
    Covered(Writes(doc, fields))
  }

  /**
   * Every element of the page holds the value and has seen the events that the writes of
   * `fields` leave, from what it held and had seen in the old state.
   */
  twostate predicate PageFilled(doc: Document, new fields: seq<FieldSpec>)
    reads doc.Values
  {
    forall e :: e in doc.Values ==>
      e.value == ValueAfter(Writes(doc, fields), e, old(e.value))
      && e.events == EventsAfter(Writes(doc, fields), e, old(e.events))
  }

  /** The fill of `fields` has left the page as `PageFilled` says and reported `log`. */
  twostate predicate FilledAs(doc: Document, new fields: seq<FieldSpec>, new log: seq<FieldLog>)
    reads doc.Values
  {
    log == FillLog(doc, fields) && PageFilled(doc, fields)
  }

  /** Field `k` is the only one of `fields` that writes to `e`. */
  predicate OnlyWriter(doc: Document, fields: seq<FieldSpec>, e: Element, k: nat)
  {
    k < |fields| && e in FieldWrite(doc, fields[k]).touched
    && forall j :: 0 <= j < |fields| && j != k ==> e !in FieldWrite(doc, fields[j]).touched
  }

  /** The intl-tel-input field: cleared, then set whole, with `input`, `input`, `change`, `blur`. */
  method MobileFill(el: Element, v: string)
    modifies el`value, el`events
    ensures el.value == v
    ensures el.events == old(el.events) + [Input(""), Input(v), Change(v), Blur]
  {
    el.value := "";
    el.events := el.events + [Input(el.value)];
    el.value := v;
    el.events := el.events + [Input(v), Change(v), Blur];
  }

  /** One field's turn on the main page. */
  method FillField(doc: Document, f: FieldSpec) returns (entry: FieldLog)
    modifies FieldWrite(doc, f).touched`value, FieldWrite(doc, f).touched`events
    ensures entry == FieldOutcome(doc, f)
    ensures forall e :: e in FieldWrite(doc, f).touched ==>
      e.value == Apply(FieldWrite(doc, f).value, old(e.value)) && e.events == old(e.events) + FieldWrite(doc, f).events
  {
    if f.isDropdown {
      var r := ContentHumanSelectDropdown(doc, f.selectors[0], f.value);
      entry := SelectedField(r);
    } else if f.isMobile {
      var found := ResolveFirst(doc, f.selectors);
      if found.None? {
        entry := MobileNotFound;
      } else {
        MobileFill(doc[f.selectors[found.value]], f.value);
        entry := MobileFilled(f.selectors[found.value]);
      }
    } else {
      var r := ContentHumanType(doc, f.selectors[0], f.value);
      entry := TypedField(r);
    }
  }

  /** One more field extends the log by its outcome and the writes by its write. */
  lemma {:induction false} FillStep(doc: Document, fields: seq<FieldSpec>, i: nat)
    requires i < |fields|
    ensures FillLog(doc, fields[..i + 1]) == FillLog(doc, fields[..i]) + [FieldOutcome(doc, fields[i])]
    ensures forall e, v0 ::
      ValueAfter(Writes(doc, fields[..i + 1]), e, v0)
      == if e in FieldWrite(doc, fields[i]).touched
        then Apply(FieldWrite(doc, fields[i]).value, ValueAfter(Writes(doc, fields[..i]), e, v0))
        else ValueAfter(Writes(doc, fields[..i]), e, v0)
    ensures forall e, ev0 ::
      EventsAfter(Writes(doc, fields[..i + 1]), e, ev0)
      == if e in FieldWrite(doc, fields[i]).touched
        then EventsAfter(Writes(doc, fields[..i]), e, ev0) + FieldWrite(doc, fields[i]).events
        else EventsAfter(Writes(doc, fields[..i]), e, ev0)
  {
    assert fields[..i + 1][..i] == fields[..i];
    MappedStep(f => FieldOutcome(doc, f), fields, i);
    MappedStep(f => FieldWrite(doc, f), fields, i);
    forall e, v0 {
      AfterAppend(Writes(doc, fields[..i]), FieldWrite(doc, fields[i]), e, v0, []);
    }
    forall e, ev0 {
      AfterAppend(Writes(doc, fields[..i]), FieldWrite(doc, fields[i]), e, "", ev0);
    }
  }

  /** `for (const field of fieldsToFill) { ... }` on the main page. */
  method FillFields(doc: Document, fields: seq<FieldSpec>) returns (log: seq<FieldLog>)
    modifies doc.Values`value, doc.Values`events
    ensures log == FillLog(doc, fields)
    ensures forall e :: e in doc.Values && e !in Touched(doc, fields) ==>
      e.value == old(e.value) && e.events == old(e.events)
    ensures PageFilled(doc, fields)
  {
    log := [];
    var i := 0;
    while i < |fields|
      invariant 0 <= i <= |fields|
      invariant log == FillLog(doc, fields[..i])
      invariant PageFilled(doc, fields[..i])
    {
      FillStep(doc, fields, i);
      var entry := FillField(doc, fields[i]);
      forall e | e in doc.Values
        ensures e.value == ValueAfter(Writes(doc, fields[..i + 1]), e, old(e.value))
        ensures e.events == EventsAfter(Writes(doc, fields[..i + 1]), e, old(e.events))
      {
      }
      log := log + [entry];
      i := i + 1;
    }
    assert fields[..|fields|] == fields;
    forall e | e in doc.Values && e !in Touched(doc, fields)
      ensures e.value == old(e.value) && e.events == old(e.events)
    {
      AfterUncovered(Writes(doc, fields), e, old(e.value), old(e.events));
    }
  }

  /** An element exactly one field writes to ends with that field's value and events, whatever the other fields do. */
  lemma {:induction false} OnlyWriterDecides(doc: Document, fields: seq<FieldSpec>, e: Element, k: nat, v0: string, ev0: seq<Event>)
    requires OnlyWriter(doc, fields, e, k)
    ensures ValueAfter(Writes(doc, fields), e, v0) == Apply(FieldWrite(doc, fields[k]).value, v0)
    ensures EventsAfter(Writes(doc, fields), e, ev0) == ev0 + FieldWrite(doc, fields[k]).events
  {
    MappedEntries(f => FieldWrite(doc, f), fields);
    AfterSingle(Writes(doc, fields), e, k, v0, ev0);
  }

  /**
   * On the main path a text field goes through an exact `name=` selector: it is typed
   * upper-cased and trimmed, the element keeps what the page makes of that, and the
   * lenient name rule judges it, so a page that only changes letter case or runs of white
   * space is never reported as a mismatch.
   */
  lemma {:induction false} MainPathWrites(doc: Document, r: Record, slot: int, k: nat)
    requires k < |ContentFieldsToFill(r, slot)|
    requires !ContentFieldsToFill(r, slot)[k].isDropdown && !ContentFieldsToFill(r, slot)[k].isMobile
    ensures var f := ContentFieldsToFill(r, slot)[k];
      var sel := f.selectors[0];
      var t := Trim(Upper(f.value));
      sel in doc ==>
        && FieldWrite(doc, f).touched == {doc[sel]}
        && FieldWrite(doc, f).value == SetTo(doc[sel].reaction(t))
        && FieldWrite(doc, f).events == TypingEvents(t)
        && FieldOutcome(doc, f) == TypedField(if NameNormal(doc[sel].reaction(t)) == NameNormal(t) then Typed else Mismatch)
    ensures var f := ContentFieldsToFill(r, slot)[k];
      var sel := f.selectors[0];
      var t := Trim(Upper(f.value));
      sel in doc && Lower(doc[sel].reaction(t)) == Lower(t) ==> FieldOutcome(doc, f) == TypedField(Typed)
    ensures var f := ContentFieldsToFill(r, slot)[k];
      f.selectors[0] !in doc ==> FieldWrite(doc, f).touched == {} && FieldOutcome(doc, f) == TypedField(ElementNotFound)
  {
    MainPathTypesUpperCase(r, slot, k, ContentFieldsToFill(r, slot)[k].value);
  }

  // ---------------------------------------------------------------------------
  // The message gate

  /** The selectors whose presence decides whether the main page has a form at all. */
  const ProbeSelectors: seq<string> := [
    "#e0gwe8-name", "#empokbu-gender", "#e97ct9l-touristType", "#e1vd6ue-idType",
    "#eroekh-idValue", "#ewlk6gc-age",
    "input[name=\"name\"]", "input[name=\"Name\"]", "select[name=\"gender\"]", "select[name=\"Gender\"]",
    "select[name=\"touristType\"]", "select[name=\"TouristType\"]", "select[name=\"idType\"]",
    "select[name=\"IDType\"]", "input[name=\"idValue\"]", "input[name=\"IDValue\"]",
    "input[name=\"age\"]", "input[name=\"Age\"]",
    "input[placeholder*=\"name\" i]", "input[placeholder*=\"Name\" i]", "select[placeholder*=\"gender\" i]",
    "select[placeholder*=\"Gender\" i]", "input[placeholder*=\"age\" i]", "input[placeholder*=\"Age\" i]"
  ]

  /** `existingSelectors.length > 0`: some probe selector matches on the main page. */
  predicate MainFormPresent(doc: Document) {
    exists i :: 0 <= i < |ProbeSelectors| && ProbeSelectors[i] in doc
  }

  /** `selectors.filter(sel => document.querySelector(sel)).length > 0` */
  method ProbeMainPage(doc: Document) returns (present: bool)
    ensures present == MainFormPresent(doc)
  {
    var probes := ProbeSelectors;
    var found := ResolveFirst(doc, probes);
    present := found.Some?;
  }

  /** `event.data`: its `type`, its `payload` (absent is empty; an absent row is `None`), and its `visitorIndex` (absent or NaN is `None`). */
  datatype Message = Message(kind: string, payload: seq<Option<Record>>, visitorIndex: Option<int>)

  /**
   * What the handler observes of the page besides the main document: whether it runs
   * inside a frame, how many form elements the frame holds, how many iframes the main
   * page holds, and whether the basic fields appear before `waitForAllSelectors` gives up.
   */
  datatype Page = Page(inIframe: bool, frameInputCount: nat, iframeCount: nat, basicFieldsAppear: bool)

  datatype Outcome =
    | NotAutoFill
    | AlreadyInProgress
    | NoData
    | RecentlyCompleted
    | FilledInIframe
    | NoInputsInIframe
    | HandedToIframes
    | NoFieldsOnMainPage
    | WaitFailed
    | FilledMainPage

  /** `window.autoFillInProgress` and `completedVisitors` (visitor index to completion time). */
  datatype GateState = GateState(inProgress: bool, completed: map<int, int>)

  datatype Transition = Transition(next: GateState, outcome: Outcome)

  const RecentWindow: int := 300000

  const Initial: GateState := GateState(false, map[])

  predicate HasRecord(msg: Message) {
    |msg.payload| > 0 && msg.payload[0].Some?
  }

  /** The fields to fill for the message's record and visitor slot. */
  function RecordFields(msg: Message): seq<FieldSpec>
    requires HasRecord(msg)
  {
    ContentFieldsToFill(msg.payload[0].value, Slot(msg))
  }

  /** `event.data.visitorIndex || 0` */
  function Slot(msg: Message): int {
    msg.visitorIndex.GetOr(0)
  }

  /** `lastCompletion && (now - lastCompletion) < 300000`: a zero time counts as none. */
  predicate CompletedRecently(completed: map<int, int>, slot: int, now: int) {
    slot in completed && completed[slot] != 0 && now - completed[slot] < RecentWindow
  }

  /** The handler as written; `now` is read before the checks, `doneAt` when a fill completes. */
  function Step(st: GateState, msg: Message, doc: Document, page: Page, now: int, doneAt: int): Transition {
    if msg.kind != "AUTO_FILL" then Transition(st, NotAutoFill)
    else if st.inProgress then Transition(st, AlreadyInProgress)
    else
      var busy := st.(inProgress := true);
      if !HasRecord(msg) then Transition(busy, NoData)
      else if CompletedRecently(st.completed, Slot(msg), now) then Transition(busy, RecentlyCompleted)
      else Route(busy, Slot(msg), doc, page, doneAt)
  }

  /** Where an admitted message goes, from the state with the flag already set. */
  function Route(busy: GateState, slot: int, doc: Document, page: Page, doneAt: int): Transition {
    var done := busy.(completed := busy.completed[slot := doneAt]);
    if page.inIframe then
      if page.frameInputCount > 0 then Transition(done, FilledInIframe)
      else Transition(busy, NoInputsInIframe)
    else if page.iframeCount > 0 then Transition(busy.(inProgress := false), HandedToIframes)
    else if !MainFormPresent(doc) then Transition(busy, NoFieldsOnMainPage)
    else if !page.basicFieldsAppear then Transition(busy, WaitFailed)
    else Transition(done, FilledMainPage)
  }

  class ContentScript {
    var autoFillInProgress: bool
    var completedVisitors: map<int, int>

    constructor ()
      ensures State() == Initial
    {
      autoFillInProgress := false;
      completedVisitors := map[];
    }

    function State(): GateState
      reads this
    {
      GateState(autoFillInProgress, completedVisitors)
    }

    /** The `message` listener, with the main-page fill carried out on `doc`. */
    method OnMessage(msg: Message, doc: Document, page: Page, now: int, doneAt: int)
      returns (outcome: Outcome, log: seq<FieldLog>)
      modifies this, doc.Values`value, doc.Values`events
      ensures Transition(State(), outcome) == Step(old(State()), msg, doc, page, now, doneAt)
      ensures outcome == FilledMainPage ==> HasRecord(msg)
      ensures outcome == FilledMainPage ==> FilledAs(doc, RecordFields(msg), log)
      ensures outcome != FilledMainPage ==>
        log == [] && forall e :: e in doc.Values ==> e.value == old(e.value) && e.events == old(e.events)
    {
      log := [];
      if msg.kind != "AUTO_FILL" {
        outcome := NotAutoFill;
      } else if autoFillInProgress {
        outcome := AlreadyInProgress;
      } else if !HasRecord(msg) {
        autoFillInProgress := true;
        outcome := NoData;
      } else if CompletedRecently(completedVisitors, Slot(msg), now) {
        autoFillInProgress := true;
        outcome := RecentlyCompleted;
      } else {
        outcome, log := Admitted(msg, doc, page, doneAt);
      }
    }

    /** An admitted message: the flag is set, then its record's fields for its visitor slot go on to `Proceed`. */
    method Admitted(msg: Message, doc: Document, page: Page, doneAt: int)
      returns (outcome: Outcome, log: seq<FieldLog>)
      requires HasRecord(msg)
      modifies this, doc.Values`value, doc.Values`events
      ensures Transition(State(), outcome) == Route(old(State()).(inProgress := true), Slot(msg), doc, page, doneAt)
      ensures outcome == FilledMainPage ==> FilledAs(doc, RecordFields(msg), log)
      ensures outcome != FilledMainPage ==>
        log == [] && forall e :: e in doc.Values ==> e.value == old(e.value) && e.events == old(e.events)
    {
      autoFillInProgress := true;
      outcome, log := Proceed(RecordFields(msg), Slot(msg), doc, page, doneAt);
    }

    /** The handler past its checks: fill in the frame, hand off to iframes, or fill the main page. */
    method Proceed(fs: seq<FieldSpec>, slot: int, doc: Document, page: Page, doneAt: int)
      returns (outcome: Outcome, log: seq<FieldLog>)
      modifies this, doc.Values`value, doc.Values`events
      ensures Transition(State(), outcome) == Route(old(State()), slot, doc, page, doneAt)
      ensures outcome == FilledMainPage ==>
        log == FillLog(doc, fs)
        && forall e :: e in doc.Values && e !in Touched(doc, fs) ==>
          e.value == old(e.value) && e.events == old(e.events)
      ensures outcome == FilledMainPage ==>
        PageFilled(doc, fs)
      ensures outcome != FilledMainPage ==>
        log == [] && forall e :: e in doc.Values ==> e.value == old(e.value) && e.events == old(e.events)
    {
      log := [];
      if page.inIframe {
        if page.frameInputCount > 0 {
          completedVisitors := completedVisitors[slot := doneAt];
          return FilledInIframe, log;
        }
        return NoInputsInIframe, log;
      }
      if page.iframeCount > 0 {
        autoFillInProgress := false;
        return HandedToIframes, log;
      }
      var present := ProbeMainPage(doc);
      if !present {
        return NoFieldsOnMainPage, log;
      }
      if !page.basicFieldsAppear {
        return WaitFailed, log;
      }
      log := FillFields(doc, fs);
      completedVisitors := completedVisitors[slot := doneAt];
      outcome := FilledMainPage;
    }
  }

  // ---------------------------------------------------------------------------
  // Properties of the gate as written

  /** A message of another type, or one arriving while busy, changes nothing. */
  lemma {:induction false} IgnoredWhileBusy(st: GateState, msg: Message, doc: Document, page: Page, now: int, doneAt: int)
    requires msg.kind != "AUTO_FILL" || st.inProgress
    ensures Step(st, msg, doc, page, now, doneAt).next == st
    ensures Step(st, msg, doc, page, now, doneAt).outcome in {NotAutoFill, AlreadyInProgress}
  {
  }

  /** An accepted message leaves the flag set on every exit except the hand-off to iframes. */
  lemma {:induction false} FlagLeftSet(st: GateState, msg: Message, doc: Document, page: Page, now: int, doneAt: int)
    requires msg.kind == "AUTO_FILL" && !st.inProgress
    ensures var t := Step(st, msg, doc, page, now, doneAt);
      t.next.inProgress <==> t.outcome != HandedToIframes
  {
  }

  /** The completion map changes only on the two fill exits, and only at the message's slot. */
  lemma {:induction false} CompletionRecorded(st: GateState, msg: Message, doc: Document, page: Page, now: int, doneAt: int)
    ensures var t := Step(st, msg, doc, page, now, doneAt);
      t.next.completed == if t.outcome in {FilledInIframe, FilledMainPage}
        then st.completed[Slot(msg) := doneAt] else st.completed
  {
  }

  /** A recorded completion implies the flag is set. */
  predicate GateInv(st: GateState) {
    st.completed != map[] ==> st.inProgress
  }

  lemma {:induction false} GateInvPreserved(st: GateState, msg: Message, doc: Document, page: Page, now: int, doneAt: int)
    requires GateInv(st)
    ensures GateInv(Step(st, msg, doc, page, now, doneAt).next)
    ensures Step(st, msg, doc, page, now, doneAt).outcome != RecentlyCompleted
  {
  }

  datatype Delivery = Delivery(msg: Message, doc: Document, page: Page, now: int, doneAt: int)

  /** A page's life: the deliveries in order, from a state, through `Step`. */
  function Run(st: GateState, ds: seq<Delivery>): (GateState, seq<Outcome>)
    decreases |ds|
  {
    if ds == [] then (st, [])
    else
      var t := Step(st, ds[0].msg, ds[0].doc, ds[0].page, ds[0].now, ds[0].doneAt);
      var rest := Run(t.next, ds[1..]);
      (rest.0, [t.outcome] + rest.1)
  }

  /** From a fresh page the five-minute window never fires: whatever happens, no message is skipped as recently completed. */
  lemma {:induction false} WindowNeverFires(st: GateState, ds: seq<Delivery>)
    requires GateInv(st)
    ensures GateInv(Run(st, ds).0)
    ensures forall k :: 0 <= k < |Run(st, ds).1| ==> Run(st, ds).1[k] != RecentlyCompleted
    decreases |ds|
  {
    if ds != [] {
      var t := Step(st, ds[0].msg, ds[0].doc, ds[0].page, ds[0].now, ds[0].doneAt);
      GateInvPreserved(st, ds[0].msg, ds[0].doc, ds[0].page, ds[0].now, ds[0].doneAt);
      WindowNeverFires(t.next, ds[1..]);
    }
  }

  /** Once the flag is left set, every later message of the page is refused and nothing changes. */
  lemma {:induction false} StuckForever(st: GateState, ds: seq<Delivery>)
    requires st.inProgress
    ensures Run(st, ds).0 == st
    ensures |Run(st, ds).1| == |ds|
    ensures forall k :: 0 <= k < |ds| ==> Run(st, ds).1[k] in {NotAutoFill, AlreadyInProgress}
    decreases |ds|
  {
    if ds != [] {
      StuckForever(st, ds[1..]);
    }
  }

  /** Two deliveries: an empty payload, then a proper one; the second is refused. */
  lemma {:induction false} StuckAfterEmptyPayload(r: Record, doc: Document, page: Page)
    ensures var first := Delivery(Message("AUTO_FILL", [], Some(0)), doc, page, 1000, 1000);
      var second := Delivery(Message("AUTO_FILL", [Some(r)], Some(0)), doc, page, 2000, 2000);
      Run(Initial, [first, second]).1 == [NoData, AlreadyInProgress]
  {
    var first := Delivery(Message("AUTO_FILL", [], Some(0)), doc, page, 1000, 1000);
    var second := Delivery(Message("AUTO_FILL", [Some(r)], Some(0)), doc, page, 2000, 2000);
    var s1 := Step(Initial, first.msg, doc, page, 1000, 1000);
    assert s1.outcome == NoData && s1.next.inProgress;
    var s2 := Step(s1.next, second.msg, doc, page, 2000, 2000);
    assert s2.outcome == AlreadyInProgress;
    assert [first, second][1..] == [second];
    assert [second][1..] == [];
    assert Run(s2.next, []) == (s2.next, []);
    assert [AlreadyInProgress] + [] == [AlreadyInProgress];
    assert Run(s1.next, [second]).1 == [AlreadyInProgress];
    assert [NoData] + [AlreadyInProgress] == [NoData, AlreadyInProgress];
  }

  // ---------------------------------------------------------------------------
  // The handler with the flag released on every exit, as the reset at the end intends

  function StepReleasing(st: GateState, msg: Message, doc: Document, page: Page, now: int, doneAt: int): Transition {
    var t := Step(st, msg, doc, page, now, doneAt);
    if t.outcome in {NotAutoFill, AlreadyInProgress} then t
    else Transition(t.next.(inProgress := false), t.outcome)
  }

  function RunReleasing(st: GateState, ds: seq<Delivery>): (GateState, seq<Outcome>)
    decreases |ds|
  {
    if ds == [] then (st, [])
    else
      var t := StepReleasing(st, ds[0].msg, ds[0].doc, ds[0].page, ds[0].now, ds[0].doneAt);
      var rest := RunReleasing(t.next, ds[1..]);
      (rest.0, [t.outcome] + rest.1)
  }

  /** Released on every exit, the flag is never found set: no message of a page is refused as a duplicate. */
  lemma {:induction false} ReleasingNeverRefuses(st: GateState, ds: seq<Delivery>)
    requires !st.inProgress
    ensures !RunReleasing(st, ds).0.inProgress
    ensures |RunReleasing(st, ds).1| == |ds|
    ensures forall k :: 0 <= k < |ds| ==> RunReleasing(st, ds).1[k] != AlreadyInProgress
    decreases |ds|
  {
    if ds != [] {
      var t := StepReleasing(st, ds[0].msg, ds[0].doc, ds[0].page, ds[0].now, ds[0].doneAt);
      ReleasingNeverRefuses(t.next, ds[1..]);
    }
  }

  /** And the five-minute window then works: a second request for a visitor filled less than five minutes earlier is skipped. */
  lemma {:induction false} ReleasingWindowFires(st: GateState, msg: Message, doc: Document, page: Page, t1: int, t2: int, now: int, later: int)
    requires !st.inProgress && msg.kind == "AUTO_FILL"
    requires StepReleasing(st, msg, doc, page, t1, t2).outcome == FilledMainPage
    requires t2 != 0 && now - t2 < RecentWindow
    ensures StepReleasing(StepReleasing(st, msg, doc, page, t1, t2).next, msg, doc, page, now, later).outcome
      == RecentlyCompleted
  {
  }
}
