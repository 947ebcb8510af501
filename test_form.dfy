/**
 * The console script that sorts every form control into name, age, gender and other
 * buckets by the words in its attributes, and the `testFill` button that writes sample
 * values into the first control of each bucket.
 */
module TestForm {
  import opened Text
  import opened Dom

  datatype Category = NameField | AgeField | GenderField | OtherField

  /** `${name} ${id} ${placeholder}`.toLowerCase(), a missing attribute being "". */
  function SearchText(name: string, id: string, placeholder: string): string {
    Lower(name + " " + id + " " + placeholder)
  }

  /** The if-chain: "name" first, then "age", then "gender" or "sex", else other. */
  function Categorise(text: string): Category {
    if Contains(text, "name") then NameField
    else if Contains(text, "age") then AgeField
    else if Contains(text, "gender") || Contains(text, "sex") then GenderField
    else OtherField
  }

  function ElementCategory(e: Element): Category {
    Categorise(SearchText(e.name, e.id, e.placeholder))
  }

  // ---------------------------------------------------------------------------
  // What the search text finds

  /** The search text is the three lower-cased attributes joined by single spaces. */
  lemma {:induction false} SearchTextPieces(name: string, id: string, placeholder: string)
    ensures SearchText(name, id, placeholder) == Lower(name) + " " + Lower(id) + " " + Lower(placeholder)
  {
    LowerAppend(name + " " + id + " ", placeholder);
    LowerAppend(name + " " + id, " ");
    LowerAppend(name + " ", id);
    LowerAppend(name, " ");
  }

  /** A window inside the first part of a join is a window of that part. */
  lemma {:induction false} SliceOfPrefix(p: string, q: string, i: nat, n: nat)
    requires i + n <= |p|
    ensures (p + q)[i..i + n] == p[i..i + n]
  {
  }

  /** A window inside the second part of a join is a window of that part. */
  lemma {:induction false} SliceOfSuffix(p: string, q: string, i: nat, n: nat)
    requires |p| <= i && i + n <= |p| + |q|
    ensures (p + q)[i..i + n] == q[i - |p|..i - |p| + n]
  {
  }

  /** A word without spaces occurs in `a + " " + b` exactly when it occurs in `a` or in `b`. */
  lemma {:induction false} WordInJoin(a: string, b: string, w: string)
    requires ' ' !in w
    ensures Contains(a + " " + b, w) <==> Contains(a, w) || Contains(b, w)
  {
    var s := a + " " + b;
    if Contains(s, w) {
      var i := ContainsWitness(s, w);
      if i + |w| <= |a| {
        SliceOfPrefix(a, " " + b, i, |w|);
        ContainsAt(a, w, i);
      } else if i > |a| {
        SliceOfSuffix(a + " ", b, i, |w|);
        ContainsAt(b, w, i - |a| - 1);
      } else {
        CharOfWindow(s, w, i, |a|);
        assert false;
      }
    }
    if Contains(a, w) {
      var i := ContainsWitness(a, w);
      ContainsInside([], a, " " + b, w, i);
      assert [] + a + (" " + b) == s;
    }
    if Contains(b, w) {
      var i := ContainsWitness(b, w);
      ContainsInside(a + " ", b, [], w, i);
      assert a + " " + b + [] == s;
    }
  }

  /** A character under a window that spells `w` is a character of `w`. */
  lemma {:induction false} CharOfWindow(s: string, w: string, i: nat, p: nat)
    requires i + |w| <= |s| && s[i..i + |w|] == w && i <= p < i + |w|
    ensures s[p] in w
  {
    assert s[p] == w[p - i];
  }

  /**
   * A keyword is found in the search text exactly when one of the three attributes,
   * lower-cased, contains it: the joining spaces never make a keyword appear.
   */
  lemma {:induction false} KeywordInAttributes(name: string, id: string, placeholder: string, w: string)
    requires ' ' !in w
    ensures Contains(SearchText(name, id, placeholder), w)
      <==> Contains(Lower(name), w) || Contains(Lower(id), w) || Contains(Lower(placeholder), w)
  {
    SearchTextPieces(name, id, placeholder);
    WordInJoin(Lower(name) + " " + Lower(id), Lower(placeholder), w);
    WordInJoin(Lower(name), Lower(id), w);
  }

  /** A control with "name" in any attribute, in any case, is a name field, whatever else it says. */
  lemma {:induction false} NameWins(e: Element)
    requires Contains(Lower(e.name), "name") || Contains(Lower(e.id), "name") || Contains(Lower(e.placeholder), "name")
    ensures ElementCategory(e) == NameField
  {
    KeywordInAttributes(e.name, e.id, e.placeholder, "name");
  }

  /** An age field is one whose attributes mention "age" but none mentions "name". */
  lemma {:induction false} AgeFieldIff(e: Element)
    ensures ElementCategory(e) == AgeField <==>
      (Contains(Lower(e.name), "age") || Contains(Lower(e.id), "age") || Contains(Lower(e.placeholder), "age"))
      && !(Contains(Lower(e.name), "name") || Contains(Lower(e.id), "name") || Contains(Lower(e.placeholder), "name"))
  {
    KeywordInAttributes(e.name, e.id, e.placeholder, "name");
    KeywordInAttributes(e.name, e.id, e.placeholder, "age");
  }

  // ---------------------------------------------------------------------------
  // The four buckets

  /** The elements whose category under `cat` is `c`, in their original order. */
  function Keep(els: seq<Element>, cat: Element -> Category, c: Category): seq<Element> {
    if els == [] then []
    else Keep(els[..|els| - 1], cat, c) + (if cat(els[|els| - 1]) == c then [els[|els| - 1]] else [])
  }

  /** The controls of one category, in document order. */
  function Bucket(els: seq<Element>, c: Category): seq<Element> {
    Keep(els, ElementCategory, c)
  }

  /** `allInputs.forEach(...)` pushing each control into the bucket its text selects. */
  method CategoriseAll(allInputs: seq<Element>) returns (nameFields: seq<Element>, ageFields: seq<Element>,
                                                          genderFields: seq<Element>, otherFields: seq<Element>)
    ensures nameFields == Bucket(allInputs, NameField)
    ensures ageFields == Bucket(allInputs, AgeField)
    ensures genderFields == Bucket(allInputs, GenderField)
    ensures otherFields == Bucket(allInputs, OtherField)
  {
    nameFields, ageFields, genderFields, otherFields := [], [], [], [];
    var i := 0;
    while i < |allInputs|
      invariant 0 <= i <= |allInputs|
      invariant nameFields == Bucket(allInputs[..i], NameField)
      invariant ageFields == Bucket(allInputs[..i], AgeField)
      invariant genderFields == Bucket(allInputs[..i], GenderField)
      invariant otherFields == Bucket(allInputs[..i], OtherField)
    {
      var input := allInputs[i];
      var searchText := SearchText(input.name, input.id, input.placeholder);
      if Contains(searchText, "name") {
        nameFields := nameFields + [input];
      } else if Contains(searchText, "age") {
        ageFields := ageFields + [input];
      } else if Contains(searchText, "gender") || Contains(searchText, "sex") {
        genderFields := genderFields + [input];
      } else {
        otherFields := otherFields + [input];
      }
      assert allInputs[..i + 1][..i] == allInputs[..i];
      i := i + 1;
    }
    assert allInputs[..|allInputs|] == allInputs;
  }

  /** A control is in a bucket exactly when it is on the page and has that category. */
  lemma {:induction false} KeepMembers(els: seq<Element>, cat: Element -> Category, c: Category)
    ensures forall e :: e in Keep(els, cat, c) <==> e in els && cat(e) == c
  {
    if els != [] {
      var init := els[..|els| - 1];
      KeepMembers(init, cat, c);
      assert els == init + [els[|els| - 1]];
    }
  }

  /** Bucketing a page in two parts and joining the results gives the page's buckets: document order is kept. */
  lemma {:induction false} KeepAppend(a: seq<Element>, b: seq<Element>, cat: Element -> Category, c: Category)
    ensures Keep(a + b, cat, c) == Keep(a, cat, c) + Keep(b, cat, c)
    decreases |b|
  {
    if b == [] {
      assert a + b == a;
    } else {
      var init := b[..|b| - 1];
      assert (a + b)[..|a + b| - 1] == a + init;
      KeepAppend(a, init, cat, c);
    }
  }

  /** The four parts of `els` under `cat`, together, counted with repetition. */
  function Parts(els: seq<Element>, cat: Element -> Category): multiset<Element> {
    multiset(Keep(els, cat, NameField)) + multiset(Keep(els, cat, AgeField))
    + multiset(Keep(els, cat, GenderField)) + multiset(Keep(els, cat, OtherField))
  }

  /** Every element lands in exactly one of the four: together they are the input, counted with repetition. */
  lemma {:induction false} KeepPartition(els: seq<Element>, cat: Element -> Category)
    ensures Parts(els, cat) == multiset(els)
  {
    if els != [] {
      var init, last := els[..|els| - 1], els[|els| - 1];
      assert init + [last] == els;
      KeepPartition(init, cat);
      PartsStep(init, last, cat);
    }
  }

  /** Appending one element adds it to the bucket of its own category and to no other. */
  lemma {:induction false} KeepStep(init: seq<Element>, last: Element, cat: Element -> Category, c: Category)
    ensures multiset(Keep(init + [last], cat, c)) ==
      multiset(Keep(init, cat, c)) + (if cat(last) == c then multiset{last} else multiset{})
  {
    var els := init + [last];
    assert els[..|els| - 1] == init;
  }

  /** Appending one element adds it to exactly one part. */
  lemma {:induction false} PartsStep(init: seq<Element>, last: Element, cat: Element -> Category)
    ensures Parts(init + [last], cat) == Parts(init, cat) + multiset{last}
  {
    var els := init + [last];
    KeepStep(init, last, cat, NameField);
    KeepStep(init, last, cat, AgeField);
    KeepStep(init, last, cat, GenderField);
    KeepStep(init, last, cat, OtherField);
    forall x ensures Parts(els, cat)[x] == (Parts(init, cat) + multiset{last})[x] {
    }
  }

  /** Hence the four bucket sizes add up to the number of controls. */
  lemma {:induction false} BucketSizes(els: seq<Element>)
    ensures |Bucket(els, NameField)| + |Bucket(els, AgeField)|
          + |Bucket(els, GenderField)| + |Bucket(els, OtherField)| == |els|
  {
    KeepPartition(els, ElementCategory);
    assert |Parts(els, ElementCategory)| == |multiset(els)| == |els|;
  }

  // ---------------------------------------------------------------------------
  // `testFill`

  function Firsts(nameFields: seq<Element>, ageFields: seq<Element>, genderFields: seq<Element>): set<Element> {
    (if |nameFields| > 0 then {nameFields[0]} else {})
    + (if |ageFields| > 0 then {ageFields[0]} else {})
    + (if |genderFields| > 0 then {genderFields[0]} else {})
  }

  /**
   * Writes "Test User" into the first name field and "25" into the first age field, with
   * `input` and `change`; the first gender field gets its first option's value (a select
   * with options, `change` only), nothing (a select without options) or "Male".
   */
  method TestFill(nameFields: seq<Element>, ageFields: seq<Element>, genderFields: seq<Element>)
    requires forall k :: 0 <= k < |nameFields| ==> ElementCategory(nameFields[k]) == NameField
    requires forall k :: 0 <= k < |ageFields| ==> ElementCategory(ageFields[k]) == AgeField
    requires forall k :: 0 <= k < |genderFields| ==> ElementCategory(genderFields[k]) == GenderField
    modifies Firsts(nameFields, ageFields, genderFields)`value, Firsts(nameFields, ageFields, genderFields)`events
    ensures |nameFields| > 0 ==> (nameFields[0].value == "Test User"
      && nameFields[0].events == old(nameFields[0].events) + [Input("Test User"), Change("Test User")])
    ensures |ageFields| > 0 ==> (ageFields[0].value == "25"
      && ageFields[0].events == old(ageFields[0].events) + [Input("25"), Change("25")])
    ensures |genderFields| > 0 ==> var g := genderFields[0];
      if g.tag != SelectTag then g.value == "Male" && g.events == old(g.events) + [Input("Male"), Change("Male")]
      else if |g.options| > 0 then g.value == g.options[0].value && g.events == old(g.events) + [Change(g.options[0].value)]
      else g.value == old(g.value) && g.events == old(g.events)
  {
    if |nameFields| > 0 {
      var f := nameFields[0];
      f.value := "Test User";
      f.events := f.events + [Input(f.value), Change(f.value)];
    }
    if |ageFields| > 0 {
      var f := ageFields[0];
      f.value := "25";
      f.events := f.events + [Input(f.value), Change(f.value)];
    }
    if |genderFields| > 0 {
      var g := genderFields[0];
      if g.tag == SelectTag {
        if |g.options| > 0 {
          g.value := g.options[0].value;
          g.events := g.events + [Change(g.value)];
        }
      } else {
        g.value := "Male";
        g.events := g.events + [Input(g.value), Change(g.value)];
      }
    }
  }

  /** The buckets the categoriser builds meet what `testFill` expects of them. */
  lemma {:induction false} BucketsAreCategorised(els: seq<Element>, c: Category)
    ensures forall k :: 0 <= k < |Bucket(els, c)| ==> ElementCategory(Bucket(els, c)[k]) == c
  {
    var cat: Element -> Category := ElementCategory;
    var b := Keep(els, cat, c);
    KeepMembers(els, cat, c);
    forall k | 0 <= k < |b| ensures ElementCategory(b[k]) == c {
      assert b[k] in b;
      assert cat(b[k]) == ElementCategory(b[k]);
    }
  }
}
