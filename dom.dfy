/**
 * The slice of the browser's document model the extension touches. A document is
 * abstracted as "selector -> first matching element" (what `querySelector` answers);
 * an element keeps its attributes, its current value and the log of events
 * dispatched to it, each event carrying the value it saw.
 */
module Dom {

  datatype Event =
    | Focus                    // el.focus()
    | Click                    // el.click()
    | Input(value: string)     // new Event("input")
    | Change(value: string)    // new Event("change")
    | Blur                     // new Event("blur")

  /** One `<option>`: its `value` and its `text`. */
  datatype OptionItem = OptionItem(value: string, text: string)

  datatype Tag = InputTag | SelectTag | TextAreaTag | OtherTag

  class Element {
    const tag: Tag
    const name: string
    const id: string
    const placeholder: string
    const options: seq<OptionItem>
    /**
     * What the page itself leaves in the control once a script has typed `v` and fired
     * its events: the page's own listeners and the control's sanitising may rewrite the
     * value. The identity on a page that leaves typed text alone.
     */
    const reaction: string -> string
    var value: string
    var events: seq<Event>
    // properties the age-field fixer assigns
    var inputType: string
    var min: string
    var max: string
    var step: string
    var disabled: bool
    var readOnly: bool
    var ageListener: bool
    var validationMessage: string

    constructor (tag: Tag, name: string, id: string, placeholder: string,
                 options: seq<OptionItem>, reaction: string -> string, value: string, inputType: string)
      ensures this.tag == tag && this.name == name && this.id == id
      ensures this.placeholder == placeholder && this.options == options && this.reaction == reaction
      ensures this.value == value && this.inputType == inputType && events == []
      ensures !ageListener && validationMessage == ""
    {
      this.tag := tag;
      this.name := name;
      this.id := id;
      this.placeholder := placeholder;
      this.options := options;
      this.reaction := reaction;
      this.value := value;
      this.inputType := inputType;
      events := [];
      min, max, step := "", "", "";
      disabled, readOnly := false, false;
      ageListener := false;
      validationMessage := "";
    }
  }

  /** `document.querySelector`: a selector absent from the map matches nothing. */
  type Document = map<string, Element>

  /** What a step leaves as an element's value: what it held, or a new value. */
  datatype NewValue = Keep | SetTo(value: string)

  function Apply(nv: NewValue, before: string): string {
    match nv
    case Keep => before
    case SetTo(v) => v
  }

  /** What one step of a fill does to the page: the elements it writes to, the value it leaves there and the events it dispatches. */
  datatype Write = Write(touched: set<Element>, value: NewValue, events: seq<Event>)

  /** A step that writes nothing. */
  const NoWrite: Write := Write({}, Keep, [])

  /** `f` applied to each step of a run, in order: what each step reports, or writes. */
  function Mapped<T, U>(f: T -> U, steps: seq<T>): seq<U>
  {
    if steps == [] then [] else Mapped(f, steps[..|steps| - 1]) + [f(steps[|steps| - 1])]
  }

  /** One more step adds its image at the end. */
  lemma {:induction false} MappedStep<T, U>(f: T -> U, steps: seq<T>, i: nat)
    requires i < |steps|
    ensures Mapped(f, steps[..i + 1]) == Mapped(f, steps[..i]) + [f(steps[i])]
  {
    assert steps[..i + 1][..i] == steps[..i];
  }

  /** The `k`-th image is the `k`-th step's. */
  lemma {:induction false} MappedEntries<T, U>(f: T -> U, steps: seq<T>)
    ensures |Mapped(f, steps)| == |steps|
    ensures forall k :: 0 <= k < |steps| ==> Mapped(f, steps)[k] == f(steps[k])
  {
    if steps != [] {
      var n := |steps| - 1;
      MappedEntries(f, steps[..n]);
      assert forall k :: 0 <= k < n ==> steps[..n][k] == steps[k];
    }
  }

  /** The elements some write touches. */
  function Covered(ws: seq<Write>): set<Element>
  {
    if ws == [] then {} else Covered(ws[..|ws| - 1]) + ws[|ws| - 1].touched
  }

  /** The value `e` holds after the writes, in order, when it held `v0` before them. */
  function ValueAfter(ws: seq<Write>, e: Element, v0: string): string
  {
    if |ws| == 0 then v0
    else
      var v := ValueAfter(ws[..|ws| - 1], e, v0);
      if e in ws[|ws| - 1].touched then Apply(ws[|ws| - 1].value, v) else v
  }

  /** The events `e` has seen after the writes, in order, when it had seen `ev0` before them. */
  function EventsAfter(ws: seq<Write>, e: Element, ev0: seq<Event>): seq<Event>
  {
    if |ws| == 0 then ev0
    else
      var ev := EventsAfter(ws[..|ws| - 1], e, ev0);
      if e in ws[|ws| - 1].touched then ev + ws[|ws| - 1].events else ev
  }

  /** One more write changes an element only if it touches it. */
  lemma {:induction false} AfterAppend(ws: seq<Write>, w: Write, e: Element, v0: string, ev0: seq<Event>)
    ensures Covered(ws + [w]) == Covered(ws) + w.touched
    ensures ValueAfter(ws + [w], e, v0)
      == if e in w.touched then Apply(w.value, ValueAfter(ws, e, v0)) else ValueAfter(ws, e, v0)
    ensures EventsAfter(ws + [w], e, ev0)
      == if e in w.touched then EventsAfter(ws, e, ev0) + w.events else EventsAfter(ws, e, ev0)
  {
    assert (ws + [w])[..|ws|] == ws;
  }

  /** An element no write touches keeps its value and its events. */
  lemma {:induction false} AfterUntouched(ws: seq<Write>, e: Element, v0: string, ev0: seq<Event>)
    requires forall j :: 0 <= j < |ws| ==> e !in ws[j].touched
    ensures ValueAfter(ws, e, v0) == v0 && EventsAfter(ws, e, ev0) == ev0
  {
    if |ws| > 0 {
      AfterUntouched(ws[..|ws| - 1], e, v0, ev0);
    }
  }

  /** An element outside what the writes cover keeps its value and its events. */
  lemma {:induction false} AfterUncovered(ws: seq<Write>, e: Element, v0: string, ev0: seq<Event>)
    requires e !in Covered(ws)
    ensures ValueAfter(ws, e, v0) == v0 && EventsAfter(ws, e, ev0) == ev0
  {
    if |ws| > 0 {
      AfterUncovered(ws[..|ws| - 1], e, v0, ev0);
    }
  }

  /** An element exactly one write touches ends with that write's value and events. */
  lemma {:induction false} AfterSingle(ws: seq<Write>, e: Element, k: nat, v0: string, ev0: seq<Event>)
    requires k < |ws| && e in ws[k].touched
    requires forall j :: 0 <= j < |ws| && j != k ==> e !in ws[j].touched
    ensures ValueAfter(ws, e, v0) == Apply(ws[k].value, v0)
    ensures EventsAfter(ws, e, ev0) == ev0 + ws[k].events
  {
    var n := |ws| - 1;
    if k == n {
      AfterUntouched(ws[..n], e, v0, ev0);
    } else {
      AfterSingle(ws[..n], e, k, v0, ev0);
    }
  }
}
