# Booking-form autofill: a Dafny model

The extension fills a multi-visitor booking form from spreadsheet rows. This project
models its filling logic, not the browser plumbing around it:

- the content script `content.js`:
  - its `AUTO_FILL` message handler, with the `autoFillInProgress` busy flag and the
    per-visitor `completedVisitors` map;
  - `waitForAllSelectors`, `cleanIDValue`, `humanType` and `humanSelectDropdown`;
  - the main-page field list and dispatch loop;
  - the retry loop of the script it injects into the booking iframe.
- the fill script the popup (`popup.js`) injects into the page:
  - request validation for the start and manual buttons;
  - its own `cleanIDValue`, `humanType` and `humanSelectDropdown`;
  - `analyzePage`, with the `formFillingCompleted` / `lastFormCompletion` window
    state and the per-visitor reset;
- the console helpers:
  - `test-form.js`, which categorises and test-fills fields;
  - `fix-age-field.js`, which repairs age inputs;
  - `debug-multiple-visitors.js`, which scans visitor slots and visitor buttons.

## How the browser is represented

- A page is a `Document`: a map from selector text to the first element that matches it.
- An `Element` is a class:
  - its attributes (tag, `name`, `id`, placeholder, options) are constants;
  - its `value`, its event log and the properties the age fixer sets are fields the
    methods update in place.
- Strings are sequences of characters, and `toUpperCase`/`toLowerCase` act on ASCII letters.
- `parseInt` gives `None` for NaN, so a comparison with NaN is false and NaN differs
  from NaN.
- The scripts that fill a form may change a control's value and its event log and nothing else; only the age fixer sets the other properties.
- `Date.now()` readings are parameters.
- Delays and random pauses change nothing observable and are not modelled.
- Where one script carries two copies of a helper (the content script's `cleanIDValue`
  and the copy it injects into the iframe), one definition stands for both.

## Module layout

- `wrappers.dfy`: Option and Result.
- `text.dfy`: JavaScript string operations (`\s`, trimming, `replace` with a character
  class, `includes`, `parseInt`, number-to-text).
- `search.dfy`: first index satisfying a test.
- `dom.dfy`: elements and documents.
- `id_value.dfy`: the two `cleanIDValue` variants.
- `typing.dfy`: both `humanType` variants.
- `dropdown.dfy`: `humanSelectDropdown`.
- `candidates.dfy`: field lists, selectors and first-match resolution.
- `content_fill.dfy`: the content script's dispatch loop and message gate.
- `popup_fill.dfy`: popup validation and `analyzePage`.
- `form_waiter.dfy`: `waitForAllSelectors` and the iframe's `waitForForm`.
- `test_form.dfy`, `fix_age.dfy`, `debug_visitors.dfy`: the console helpers.

## Model

| member | source | states |
|---|---|---|
| `Search.FirstIndex` | popup.js:734-738 | the result is the least index whose element passes the test; none exactly when no element passes |
| `Search.FindFirst` | popup.js:735-738 | the scanning loop stops at the first hit, which is the specified first index |
| `Text.ParseIntNatToString` | content.js:165-170 | `parseInt` reads back every whole number written in decimal |
| `Text.TrimIdempotent` | content.js:107 | trimming an already trimmed text changes nothing |
| `IdValue.ContentCleanKeepsCore` | content.js:59-70 | the content script's cleaning removes nothing but separators; with separators stripped, input and output agree, and a dash or underscore is in the output exactly when it is in the input |
| `IdValue.ContentCleanKeepsDashedAadhaar` | content.js:62-66 | a value with a dash and 12 significant characters comes back as typed, only its outer white space trimmed, and still qualifies as a dashed Aadhaar number |
| `IdValue.ContentCleanOtherwise` | content.js:68-69 | any other value loses all of its white space and nothing else |
| `IdValue.ContentCleanIdempotent` | content.js:59-70 | cleaning a cleaned value changes nothing |
| `IdValue.PopupCleanStrips` | popup.js:397-401 | the popup's cleaner leaves no dash, underscore or white space, never lengthens, and empties a value only when it is all separators |
| `IdValue.PopupCleanIdempotent` | popup.js:397-401 | cleaning a cleaned value changes nothing |
| `IdValue.CleanVariantsAgreement` | popup.js:397-401 | the popup's result is the content script's result with separators stripped; the two coincide exactly when the content script's result holds no dash and no underscore |
| `IdValue.NoSeparatorLeft` | content.js:68-69 | a non-empty value whose content-cleaned form holds no dash or underscore is cleaned identically by both variants |
| `IdValue.SampleAadhaarVector` | content.js:63-65 | the sample number `1234-5678-9012` is kept by the content script and becomes `123456789012` in the popup |
| `IdValue.PlainAadhaarVector` | content.js:68-69 | an undashed 12-digit number passes both cleaners unchanged |
| `Typing.InputTraceShape` | content.js:107-128 | typing `t` fires one `input` event per character, the k-th seeing the first k+1 characters |
| `Typing.TypeInto` | content.js:103-136 | after clearing and typing `t`, the element holds what the page makes of `t` (its `reaction`) and has received focus, click, one `input` per character, `change` and `blur`; no other property of the element changes |
| `Typing.ContentHumanType` | content.js:72-186 | a selector matching nothing reports not found and changes nothing; otherwise the element holds what the page makes of the normalised text, its events are the typing trace, and the report is the read-back rule's verdict on the typed text against that value; no other property of the element changes |
| `Typing.PopupHumanType` | popup.js:404-489 | the element holds what the page makes of the text normalised by its `name`, receives the typing trace, and the report is the popup's read-back verdict on that value; no other property of the element changes |
| `Typing.ContentNameOverridesId` | content.js:80-92 | a selector mentioning `name`/`Name` is typed upper-cased and trimmed, never ID-cleaned, and checked by the name rule |
| `Typing.ContentIdTyped` | content.js:82-86 | a selector under the ID rule is typed exactly the content script's cleaned value |
| `Typing.ContentOtherTyped` | content.js:106-107 | a selector under neither rule is typed the raw text, trimmed |
| `Typing.ContentCleanIsTrimmed` | content.js:65-69 | the ID cleaner's output is already trimmed, so the final trim of the typed text adds nothing |
| `Typing.ContentReadBack` | content.js:141-182 | on a page that leaves typed text alone, reading it back fails exactly under the age rule when the typed text holds no number |
| `Typing.NameRuleIgnoresCase` | content.js:145-154 | the name rule accepts a page value that differs from the typed text only by being upper- or lower-cased |
| `Typing.NameRuleIgnoresSpaceRuns` | content.js:147-148 | the name rule accepts a page value that widens a single space after a word into a run of spaces |
| `Typing.IdRuleTolerance` | content.js:155-163 | the ID rule accepts white space the page inserts, but reports a dash the page drops |
| `Typing.AgeRuleTolerance` | content.js:164-173 | the age rule accepts text the page appends after the number, but reports a field the page empties |
| `Typing.PopupNameOverridesId` | popup.js:406-418 | a `name` mentioning `name`/`Name` is typed upper-cased and trimmed and never ID-cleaned |
| `Typing.PopupIdTyped` | popup.js:408-412 | a `name` under the ID rule is typed the popup-cleaned value, so no separator is typed |
| `Typing.PopupReadBack` | popup.js:467-485 | the popup's read-back accepts what was typed; under a `name` containing `name` it also accepts an upper- or lower-cased page value; under any other `name` it accepts exactly the typed text and nothing else |
| `Dropdown.SelectOption` | content.js:197-258 | for both the content script's and the popup's copy (popup.js:492-562): the chosen option is the one both passes settle on; the value becomes that option's value, or stays; the events are focus, click, and on a hit focus, `change`, `input`; no other property of the element changes |
| `Dropdown.ContentHumanSelectDropdown` | content.js:188-264 | a selector matching nothing reports not found and changes nothing; otherwise the report, value and events follow the two-pass choice; no other property of the element changes |
| `Dropdown.ExactWins` | content.js:207-231 | if any option matches exactly, the choice is the first exact match, even when a partial match comes earlier |
| `Dropdown.PartialFallback` | content.js:233-257 | with no exact match, the choice is the first option whose value or text contains the request |
| `Dropdown.NoMatchIff` | content.js:259-260 | nothing is selected exactly when no option's value or text contains the request |
| `Dropdown.BlankRequestPicksFirst` | content.js:205-209 | a blank request selects the first option whose value or text is blank; when no option is blank it selects option 0, and nothing only in an empty list |
| `Dropdown.SelectionRepeatable` | content.js:216 | selecting the same request again chooses the same option and leaves the same value, and every selection replays the same events: focus, click, focus, `change`, `input` on a hit, focus and click otherwise |
| `Candidates.SlotText` | content.js:781 | a visitor index is written with digits and a minus sign only |
| `Candidates.SlotField` | content.js:777-788 | a per-visitor field is tried first by its exact grid name, then by its `[slot][key]` fragment, followed by as many candidates as it has fallbacks; it is a plain, non-mobile field unless it is a dropdown |
| `Candidates.SlotFieldsShape` | content.js:776-848 | all six visitor fields lead with their exact and fragment selectors, each with at least five candidates, none of them the mobile field |
| `Candidates.ResolveFirst` | popup.js:734-738 | the loop finds the first selector that matches, or reports that none of them matches |
| `Candidates.SlotTextInjective` | content.js:781 | different visitor indices give different texts |
| `Candidates.ExactSelectorsDistinct` | content.js:781 | two visitors never share an exact selector for the same field |
| `Candidates.ExactNameHasFragment` | content.js:781-782 | a field's exact grid name contains its `[slot][key]` fragment, so the fragment selector also finds it |
| `Candidates.PreferSlotSelectors` | popup.js:734-738 | when the exact selector matches it is used, and otherwise the fragment selector is used when it matches |
| `Candidates.FrontSelectorsFirst` | popup.js:734-738 | the first candidate is used whenever it matches, and the second whenever the first does not and the second does |
| `Candidates.GridNameMentionsName` | content.js:88-92 | every exact grid selector contains the text `name`, because `[name="data[...` does |
| `Candidates.MainPathTypesUpperCase` | content.js:864-914 | on the main page every typed visitor field (name, ID value, age) is upper-cased, never ID-cleaned, and checked by the name rule, because it is typed through its exact grid selector |
| `Candidates.PopupIdCleansGridFields` | popup.js:408-412 | a grid `name` whose key has no `m` (idValue, age, idType, gender) falls under the popup's ID rule, because `data[dataGrid1]` contains `id` |
| `Candidates.PopupGridIdValueCleaned` | popup.js:408-412 | the popup types the ID value and the age of a grid field with every separator removed |
| `ContentFill.MobileFill` | content.js:884-891 | the mobile input ends up holding the value after `input` (cleared), `input`, `change`, `blur`; no other property of the element changes |
| `ContentFill.FillField` | content.js:864-914 | one field's turn reports what the dispatch rule predicts and gives the element it names the field's write: the chosen option's value, what the page makes of the typed text, or the mobile number, with the matching events; no other element and no other property changes |
| `ContentFill.FillFields` | content.js:864-918 | the loop's report is the per-field outcome list, in field order; every element ends with the value and events the fields' writes, applied in order, leave, so elements no field names are unchanged; no element property other than value and events changes |
| `ContentFill.MainPathWrites` | content.js:141-182 | on the main page (dispatched at content.js:864-914) a typed field writes what the page makes of its upper-cased, trimmed value to the element of its exact selector, with the typing events; it is reported typed exactly when the name rule accepts that value, so a page that only changes letter case is never a mismatch; an absent selector means no write and not found |
| `ContentFill.OnlyWriterDecides` | content.js:864-918 | an element exactly one field writes to ends with that field's value and events, whatever the other fields do |
| `ContentFill.ProbeMainPage` | content.js:751-758 | the probe answers whether any of the main page's known selectors matches |
| `ContentFill.ContentScript.constructor` | content.js:521 | a fresh script is idle, with no completed visitors |
| `ContentFill.ContentScript.OnMessage` | content.js:524-973 | the new gate state and the outcome are those of the handler's decision function; only a main-page fill writes to the page, and then the log is the dispatch loop's and every element holds the value and events the record's field writes leave; no element property other than value and events changes |
| `ContentFill.ContentScript.Admitted` | content.js:559-972 | an admitted message is routed to the iframe fill, the iframe hand-off, or the main-page probe, wait and fill, as the routing function says; a main-page fill leaves the log and the page as the record's field writes say, any other route leaves the page alone; no element property other than value and events changes |
| `ContentFill.ContentScript.Proceed` | content.js:559-945 | with the flag set, the state and outcome follow the routing function; only a main-page fill writes to the page, logging each field of the list in order and leaving every element with the value and events the fields' writes leave; no element property other than value and events changes |
| `ContentFill.IgnoredWhileBusy` | content.js:525-531 | a non-`AUTO_FILL` message, or any message while busy, changes nothing |
| `ContentFill.FlagLeftSet` | content.js:533-972 | once a message is admitted, the flag stays set on every path except the hand-off to iframes |
| `ContentFill.CompletionRecorded` | content.js:939-940 | the completion time is recorded exactly on a successful iframe or main-page fill |
| `ContentFill.GateInvPreserved` | content.js:546-552 | "some visitor completed implies busy" is preserved, and under it the 5-minute check never fires |
| `ContentFill.WindowNeverFires` | content.js:546-552 | from an idle start, no sequence of messages ever reaches the 5-minute recent-completion check |
| `ContentFill.StuckForever` | content.js:528-531 | once the flag is left set, every later message is ignored and the state never changes |
| `ContentFill.StuckAfterEmptyPayload` | content.js:541-544 | a message with no row leaves the handler busy, so the next valid message is refused |
| `ContentFill.ReleasingNeverRefuses` | content.js:972 | with the flag released on every exit, no message is ever refused as already in progress |
| `ContentFill.ReleasingWindowFires` | content.js:546-552 | with the flag released, a repeat request within 5 minutes of a fill is refused as recently completed |
| `PopupFill.ValidatedNumbersInRange` | popup.js:221-232 | when both selections are numbers and pass validation, the user names an existing row and the visitor is non-negative |
| `PopupFill.UnchosenUserPasses` | popup.js:221-232 | an unselected user (NaN) passes validation and yields a payload without a row |
| `PopupFill.StrictRequestNamesRow` | popup.js:224-232 | strict validation passes exactly when the user names an existing row and the visitor is a non-negative number, and the payload then holds that row |
| `PopupFill.StrictAgreesOnNumbers` | popup.js:224-232 | on numeric selections the strict and the written validation agree |
| `PopupFill.FillField` | popup.js:731-747 | one field's turn skips an empty value, reports no candidate when none matches, and otherwise gives the first matching element the chosen option's value or what the page makes of the typed text, with the matching events; no other property of the element changes |
| `PopupFill.SelectCandidate` | popup.js:743-744 | a dropdown field selects in its first matching element and reports the choice; no other property of the element changes |
| `PopupFill.TypeCandidate` | popup.js:745-746 | a text field types into its first matching element and reports the read-back verdict; no other property of the element changes |
| `PopupFill.FillFields` | popup.js:731-764 | the loop's report is the per-field outcome list; every element ends with the value and events the fields' writes, applied in order, leave, so elements no field reaches are unchanged; no element property other than value and events changes |
| `PopupFill.MismatchMeansPageAltered` | popup.js:467-485 | the fill loop reports once per field, and a mismatch only where the page altered the typed text: beyond letter case under a `name` containing `name`, at all under any other `name` |
| `PopupFill.FillLogEntries` | popup.js:731-747 | the log has one entry per field, each that field's outcome |
| `PopupFill.OnlyWriterDecides` | popup.js:731-764 | an element exactly one field writes to ends with that field's value and events, whatever the other fields do |
| `PopupFill.PageWindow.constructor` | popup.js:264-265 | a fresh window has no completed visitors and no completion times |
| `PopupFill.PageWindow.ResetSlot` | popup.js:264-270 | the reset deletes exactly that visitor's two entries |
| `PopupFill.PageWindow.AnalyzePage` | popup.js:565-770 | the window's new state and the outcome are those of the analysis function; only a fill writes to the page, with the loop's log and every element left as the row's field writes say; any other outcome leaves the page and the log empty; no element property other than value and events changes |
| `PopupFill.PageWindow.Guard` | popup.js:572-612 | the checks before filling refuse exactly when the analysis function does not fill, and with its reason |
| `PopupFill.PageWindow.FillVisitor` | popup.js:616-770 | a fill stamps the visitor's completion time, fills the fields, leaving every element as their writes say, and marks the visitor completed; no element property other than value and events changes |
| `PopupFill.VisitorKeyInjective` | popup.js:573 | different visitors have different window keys |
| `PopupFill.ResetOnlyThatVisitor` | popup.js:267-270 | resetting one visitor leaves every other visitor's entries as they were |
| `PopupFill.FilledStaysFilled` | popup.js:572-577 | after a fill, any later analysis of that visitor skips as already filled |
| `PopupFill.ResetAllowsRefill` | popup.js:263-270 | after a reset, a visitor with form fields and a row is filled again |
| `PopupFill.FillRecordsVisitor` | popup.js:616-618 | a fill updates exactly that visitor's completed flag and completion time; any other outcome changes nothing |
| `PopupFill.PopupWindowNeverFires` | popup.js:588-592 | while every stamped visitor is marked completed, which every analysis keeps, the 30-second check never fires once the clock reads at least 30 000 |
| `PopupFill.ResetKeepsStampedCompleted` | popup.js:264-270 | a reset keeps every stamped visitor marked completed |
| `FormWaiter.MissingMembers` | content.js:43 | a selector is reported missing exactly when it is one of the selectors and matches nothing |
| `FormWaiter.MissingAppend` | content.js:43 | the missing list keeps the selectors' order |
| `FormWaiter.MissingEmptyIff` | content.js:19-43 | nothing is missing exactly when every selector matches |
| `FormWaiter.SelectorWaiter.constructor` | content.js:14-24 | the wait resolves at once when every selector already matches, and is pending otherwise |
| `FormWaiter.SelectorWaiter.OnMutation` | content.js:28-47 | a mutation resolves, rejects after the timeout, or keeps waiting; the observer stays connected exactly while pending |
| `FormWaiter.SettledIsFinal` | content.js:37-46 | once resolved or rejected, later mutations change nothing |
| `FormWaiter.RejectOnlyAfterTimeout` | content.js:41-46 | a rejection comes only from a mutation strictly after the timeout and lists exactly the selectors missing then, never an empty list |
| `FormWaiter.NoRejectWithinTimeout` | content.js:41 | mutations within the timeout never reject |
| `FormWaiter.TimeoutIsStrict` | content.js:14-41 | at exactly 8000 ms it keeps waiting; at 8001 ms it rejects with the missing selector |
| `FormWaiter.WaitForForm` | content.js:330-503 | polling stops at the first check that sees controls, after at most ten checks |
| `FormWaiter.GivesUpOnlyOnEmptyForm` | content.js:496-502 | the poll gives up exactly when all ten checks saw no control |
| `TestForm.SearchTextPieces` | test-form.js:43 | the search text is the three attributes, lower-cased and joined by blanks |
| `TestForm.KeywordInAttributes` | test-form.js:43-57 | a keyword without blanks is in the search text exactly when it is in one lower-cased attribute |
| `TestForm.NameWins` | test-form.js:45-47 | an element whose attributes mention `name` is a name field, whatever else they mention |
| `TestForm.AgeFieldIff` | test-form.js:45-50 | an element is an age field exactly when its attributes mention `age` and none mentions `name` |
| `TestForm.CategoriseAll` | test-form.js:33-58 | each bucket holds exactly that category's elements, in document order |
| `TestForm.KeepMembers` | test-form.js:45-57 | a bucket contains an element exactly when the element is in the input and of that category |
| `TestForm.KeepAppend` | test-form.js:33-58 | bucketing respects concatenation, so document order is kept |
| `TestForm.KeepPartition` | test-form.js:45-57 | the four buckets together are the input, counted with repetition |
| `TestForm.BucketSizes` | test-form.js:60-63 | the four counts add up to the number of elements |
| `TestForm.BucketsAreCategorised` | test-form.js:45-57 | every element in a bucket has that bucket's category |
| `TestForm.TestFill` | test-form.js:100-138 | the first name field gets `Test User` and the first age field `25`, each with `input` and `change`; the first gender field gets its first option (a select) or `Male`; no other property of those fields changes |
| `FixAge.FixField` | fix-age-field.js:14-31 | a matched field becomes an enabled, editable number input limited to 1..120, step 1, with the age listener, and keeps its value |
| `FixAge.FixAgeFields` | fix-age-field.js:8-36 | every control matching the age selector is fixed; every other control is untouched |
| `FixAge.OnAgeInput` | fix-age-field.js:20-27 | the listener sets the validity message from the field's current value and may change nothing else: its frame is the message alone, so a fixed field stays fixed and keeps its value and events |
| `FixAge.MessageAfterInput` | fix-age-field.js:20-27 | every `input` event overwrites the message with the rule's verdict on the value it carried, so after any events ending in an `input` the message is that verdict, whatever came before |
| `FixAge.MessageAfterTyping` | fix-age-field.js:20-27 | after the `input` events of typing a text the message is the verdict on the whole text; typing the empty text fires no `input` and leaves the message as it was |
| `FixAge.Keystroke` | content.js:111-116 | one keystroke on a field with the listener adds the next character, logs one `input` carrying the text typed so far, and leaves the message the listener computes from the events so far |
| `FixAge.TypeListened` | content.js:108-127 | the typing loop with the listener run after each keystroke: the field ends with what the page makes of the text, the event log grows by exactly the typing events, and the message is what those `input` events leave |
| `FixAge.TypeIntoFixed` | fix-age-field.js:20-27 | a fill typing into a repaired age field leaves it repaired and holding what the page makes of the text, logs exactly the typing events, and leaves the message as the rule's verdict on the typed text itself (the value the last `input` saw); an empty text fires no `input`, so the message is unchanged |
| `FixAge.AgeValidityForNat` | fix-age-field.js:21-26 | for a typed whole number the message is clear exactly when it lies in 1..120 |
| `FixAge.AgeValidityForNegative` | fix-age-field.js:21-23 | a typed negative number is always flagged |
| `FixAge.NonNumericAccepted` | fix-age-field.js:21-26 | every value in which `parseInt` finds no number, the empty one included, clears the message, as NaN fails both range tests |
| `FixAge.TrailingTextIgnored` | fix-age-field.js:21-26 | a number followed by text is judged by the number alone |
| `DebugVisitors.ScanField` | debug-multiple-visitors.js:21-50 | a field type is captured from the first of its four candidates that matches; one is captured exactly when some candidate matches |
| `DebugVisitors.ScanFieldTypes` | debug-multiple-visitors.js:16-56 | the visitor's record holds the scan of each field type, and `hasFields` holds exactly when some field type resolved |
| `DebugVisitors.ScanVisitor` | debug-multiple-visitors.js:9-58 | the same for the script's six field types |
| `DebugVisitors.ScanSlots` | debug-multiple-visitors.js:13-69 | one report per visitor slot, each that slot's scan |
| `DebugVisitors.ScanAllVisitors` | debug-multiple-visitors.js:8-69 | six reports, visitors 0 to 5, each that visitor's scan over the six field types |
| `DebugVisitors.ScanFieldsKeys` | debug-multiple-visitors.js:34-36 | a field type is in a visitor's record exactly when it is scanned and resolves |
| `DebugVisitors.ScanFieldsValues` | debug-multiple-visitors.js:34-50 | each recorded field is the capture of its first matching candidate |
| `DebugVisitors.HasFieldsIffReported` | debug-multiple-visitors.js:17-58 | a visitor has fields exactly when its record is non-empty |
| `DebugVisitors.DebugAgreesWithFill` | debug-multiple-visitors.js:21-32 | when a field's exact selector matches, the debug scan captures the same element the fill scripts resolve |
| `DebugVisitors.AddVisitorButtonsMembers` | debug-multiple-visitors.js:72-79 | the add-visitor list is exactly the buttons whose text passes the filter, in order |
| `DebugVisitors.CountElementsMembers` | debug-multiple-visitors.js:91-95 | the count list is exactly the texts that pass the case-sensitive filter |
| `DebugVisitors.CountTextIsAddText` | debug-multiple-visitors.js:73-95 | a button whose own text passes the count filter also passes the add-visitor filter |
| `DebugVisitors.CapitalisedIsAddButton` | debug-multiple-visitors.js:73-79 | a `Visitors` button is found, as the add-visitor filter lower-cases |
| `DebugVisitors.CapitalisedIsNotCounted` | debug-multiple-visitors.js:92-95 | a `Visitors` text is not counted, as the count filter is case-sensitive |

## Left out

- Photo upload (popup.js:697-728): file inputs cannot be filled from a path, and the script only logs.
- The in-iframe field writes of the content script (content.js:563-650): only the routing, and the completion recorded at content.js:654, are modelled. The counts of controls the iframe sees are an input.
- Injecting into iframes and the `postMessage` fallback (content.js:678-707): modelled as the hand-off outcome. `injectIntoIframe`'s own fill script is modelled only in its retry loop.
- The start button's injected function posts a `data` it never declares (popup.js:286): the call throws a `ReferenceError`, so that button posts nothing. The model's `Payload` is what the manual button sends, the one selected row `[data[selectedUserIndex]]` (popup.js:322, popup.js:329).
- A missing spreadsheet cell is modelled as the empty string. The content script would instead type `String(undefined)` upper-cased, `UNDEFINED`, for a missing name (content.js:779), and ask a dropdown for `undefined` (content.js:205); the popup types `UNDEFINED` for a missing name too, since it builds `String(record.Name).toUpperCase().trim()` (popup.js:624), which is not empty and so not skipped (popup.js:732); it skips only a missing gender, tourist type, ID type, ID value or age, whose raw cell is undefined and so falsy.
- Spreadsheet parsing (XLSX), `chrome.*` storage, tabs and scripting calls, and popup status text.
- DOM surgery, console patching, banners, highlights, styles and panels.
- The other console scripts (`debug.js`, `debug-fields.js`, `diagnostic.js`, `simple-test.js`, `stop-spam.js`, `inject.js`, `test-extension-simple.js`) and the data files.
- Unicode case mapping, the hexadecimal prefix of `parseInt`, and `String()` of non-string cells: cells are text, and case mapping acts on ASCII letters.
- PopupFill.FillFields: does not model the popup's post-fill comparison log (popup.js:750-761), which only writes to the console.
- Delays, random pauses and `async` interleaving: every handler runs to completion before the next message.
- The `intl-tel-input` calls and the validate button click after the mobile number (content.js:893-907): they call code outside the extension.
- The page's rewrite of typed text (`reaction`) is applied once, to the whole typed text after the last keystroke: the `input` events carry the text as typed, and a page that rewrites each keystroke is not modelled. Selected options, the mobile number and the test fill are not rewritten by the page.
- The popup's 30-second window (popup.js:588-592) matters only to a call that overlaps a fill in progress; calls run to completion one after another, so the window never fires once the clock reads 30 000 or more.
- PopupFill.PageWindow.AnalyzePage: the visitor index is a natural number. The undefined/null default to 0 (popup.js:567-570) is the caller's choice of `slot`.
- The `waitForAllSelectors` call on the main page (content.js:767-771) is an observation of the page (`basicFieldsAppear`). Its own behaviour is modelled by `FormWaiter`.
- A field's candidate selectors are a list of at least two, as every field list of both scripts has; an empty candidate list is not modelled.
- A `type="number"` input's own value sanitising: the age fixer's field keeps its value.
- FixAge.FixAgeFields: running the script twice adds a second `input` listener in the page; the model keeps one listener flag per field.
- DebugVisitors.ScanField: does not capture the `type || 'select'` property, which is not part of the element model.
- DebugVisitors.ScanAllVisitors: returns the reports instead of printing them and highlighting fields.

## Findings

The handler's documented intent is that every exit after the busy flag is set releases it. The code releases it only on the hand-off to iframes (content.js:972). The model follows the code, and the first finding records the gap.

| source | as written | input that shows it | evidently intended | confidence | as-written member | corrected member |
|---|---|---|---|---|---|---|
| content.js:533-972 | `autoFillInProgress` is reset only after the iframe hand-off; the `return`s for no row, a recent completion, the iframe fill, no fields, a failed wait and a completed main-page fill all leave it set | an `AUTO_FILL` message with an empty payload, then one with a row: the second is refused as already in progress, and so is every later one; the 5-minute recent-completion check can never fire | release the flag on every exit, so later messages are served and the 5-minute window is what prevents a re-fill | high (not executed) | `ContentFill.StuckAfterEmptyPayload` | `ContentFill.ReleasingNeverRefuses` |
| popup.js:221-232 | `parseInt` of an unselected user gives NaN, and NaN passes both `< 0` and `>= data.length` checks; likewise for the visitor | `userSelect.value == ""` with data loaded: validation passes and the payload's row is missing | refuse a selection that is not a number | high (not executed) | `PopupFill.UnchosenUserPasses` | `PopupFill.StrictRequestNamesRow` |
