/**
 * The two `cleanIDValue` functions of the extension. They disagree and are kept apart:
 * the content script (and the copy it injects into the booking iframe) keeps a dashed
 * 12-character identity number as typed, the popup strips every separator.
 */
module IdValue {
  import opened Text

  /** The Aadhaar heuristic: a dash somewhere, and exactly 12 characters once `[-_\s]` are gone. */
  predicate LooksLikeDashedAadhaar(value: string) {
    '-' in value && |StripSeparators(value)| == 12
  }

  /** `cleanIDValue` of the content script; an empty (falsy) value is returned unchanged. */
  function ContentCleanIdValue(value: string): string {
    if value == [] then value
    else if LooksLikeDashedAadhaar(value) then Trim(value)
    else Trim(RemoveSpaces(value))
  }

  /** `cleanIDValue` of the popup's injected fill script; an empty (falsy) value is returned unchanged. */
  function PopupCleanIdValue(value: string): string {
    if value == [] then value
    else StripSeparators(value)
  }

  lemma {:induction false} SpacesAreSeparators()
    ensures forall c :: IsSpace(c) ==> IsSeparator(c)
  {
  }

  lemma {:induction false} RemoveSpacesHasNoSpace(value: string)
    ensures forall i :: 0 <= i < |RemoveSpaces(value)| ==> !IsSpace(RemoveSpaces(value)[i])
  {
    var r := RemoveSpaces(value);
    WithoutMembers(value, IsSpace);
    forall i | 0 <= i < |r| ensures !IsSpace(r[i]) {
      assert r[i] in r;
    }
  }

  /**
   * Cleaning never touches the significant characters: with all separators removed,
   * result and input agree, and the result has a dash exactly when the input has one.
   */
  lemma {:induction false} ContentCleanKeepsCore(value: string)
    ensures StripSeparators(ContentCleanIdValue(value)) == StripSeparators(value)
    ensures '-' in ContentCleanIdValue(value) <==> '-' in value
    ensures '_' in ContentCleanIdValue(value) <==> '_' in value
  {
    var r := ContentCleanIdValue(value);
    if value == [] {
    } else if LooksLikeDashedAadhaar(value) {
      WithoutTrim(value, IsSeparator);
      TrimKeeps(value, '-');
      TrimKeeps(value, '_');
    } else {
      var t := RemoveSpaces(value);
      RemoveSpacesHasNoSpace(value);
      TrimNoSpace(t);
      WithoutSubsumed(value, IsSpace, IsSeparator);
      WithoutCharKept(value, IsSpace, '-');
      WithoutCharKept(value, IsSpace, '_');
    }
  }

  /** A character the removed class does not cover survives the removal. */
  lemma {:induction false} WithoutCharKept(s: string, drop: char -> bool, c: char)
    requires !drop(c)
    ensures c in Without(s, drop) <==> c in s
  {
    if s != [] {
      WithoutCharKept(s[1..], drop, c);
      assert s == [s[0]] + s[1..];
    }
  }

  /** A dashed 12-character number comes back as typed, only its outer white space trimmed. */
  lemma {:induction false} ContentCleanKeepsDashedAadhaar(value: string)
    requires LooksLikeDashedAadhaar(value)
    ensures ContentCleanIdValue(value) == Trim(value)
    ensures '-' in ContentCleanIdValue(value)
    ensures LooksLikeDashedAadhaar(ContentCleanIdValue(value))
  {
    ContentCleanKeepsCore(value);
  }

  /** Any other value loses its white space, and only its white space: dashes and underscores stay. */
  lemma {:induction false} ContentCleanOtherwise(value: string)
    requires !LooksLikeDashedAadhaar(value)
    ensures ContentCleanIdValue(value) == RemoveSpaces(value)
    ensures forall i :: 0 <= i < |ContentCleanIdValue(value)| ==> !IsSpace(ContentCleanIdValue(value)[i])
  {
    RemoveSpacesHasNoSpace(value);
    TrimNoSpace(RemoveSpaces(value));
  }

  /** Applying the content script's cleaner twice is applying it once. */
  lemma {:induction false} ContentCleanIdempotent(value: string)
    ensures ContentCleanIdValue(ContentCleanIdValue(value)) == ContentCleanIdValue(value)
  {
    if value == [] {
    } else if LooksLikeDashedAadhaar(value) {
      DashedCleanIdempotent(value);
    } else {
      OtherCleanIdempotent(value);
    }
  }

  lemma {:induction false} DashedCleanIdempotent(value: string)
    requires LooksLikeDashedAadhaar(value)
    ensures ContentCleanIdValue(ContentCleanIdValue(value)) == ContentCleanIdValue(value)
  {
    ContentCleanKeepsDashedAadhaar(value);
    TrimIdempotent(value);
  }

  lemma {:induction false} OtherCleanIdempotent(value: string)
    requires value != [] && !LooksLikeDashedAadhaar(value)
    ensures ContentCleanIdValue(ContentCleanIdValue(value)) == ContentCleanIdValue(value)
  {
    var r := ContentCleanIdValue(value);
    ContentCleanKeepsCore(value);
    ContentCleanOtherwise(value);
    assert !LooksLikeDashedAadhaar(r);
    if r != [] {
      ContentCleanOtherwise(r);
      WithoutNoneDropped(r, IsSpace);
    }
  }

  /** The popup's cleaner leaves no dash, underscore or white space, never lengthens, and only empties a value made of separators. */
  lemma {:induction false} PopupCleanStrips(value: string)
    ensures forall i :: 0 <= i < |PopupCleanIdValue(value)| ==> !IsSeparator(PopupCleanIdValue(value)[i])
    ensures |PopupCleanIdValue(value)| <= |value|
    ensures PopupCleanIdValue(value) == [] <==> forall i :: 0 <= i < |value| ==> IsSeparator(value[i])
  {
    var r := PopupCleanIdValue(value);
    WithoutMembers(value, IsSeparator);
    forall i | 0 <= i < |r| ensures !IsSeparator(r[i]) {
      assert r[i] in r;
    }
    if forall i :: 0 <= i < |value| ==> IsSeparator(value[i]) {
      WithoutAllDropped(value, IsSeparator);
    }
    if r == [] && value != [] {
      PopupCleanEmpty(value);
    }
  }

  lemma {:induction false} PopupCleanEmpty(value: string)
    requires StripSeparators(value) == []
    ensures forall i :: 0 <= i < |value| ==> IsSeparator(value[i])
  {
    if value != [] {
      PopupCleanEmpty(value[1..]);
      forall i | 0 <= i < |value| ensures IsSeparator(value[i]) {
        if i > 0 {
          assert value[i] == value[1..][i - 1];
        }
      }
    }
  }

  /** Applying the popup's cleaner twice is applying it once. */
  lemma {:induction false} PopupCleanIdempotent(value: string)
    ensures PopupCleanIdValue(PopupCleanIdValue(value)) == PopupCleanIdValue(value)
  {
    WithoutIdempotent(value, IsSeparator);
  }

  /**
   * The two variants always agree on the significant characters, and give the same text
   * exactly when the content script's result holds no dash and no underscore.
   */
  lemma {:induction false} CleanVariantsAgreement(value: string)
    ensures PopupCleanIdValue(value) == StripSeparators(ContentCleanIdValue(value))
    ensures ContentCleanIdValue(value) == PopupCleanIdValue(value)
        <==> '-' !in ContentCleanIdValue(value) && '_' !in ContentCleanIdValue(value)
  {
    var c := ContentCleanIdValue(value);
    ContentCleanKeepsCore(value);
    if value != [] {
      if '-' !in c && '_' !in c {
        NoSeparatorLeft(value);
      }
      if c == PopupCleanIdValue(value) {
        PopupCleanStrips(value);
        assert '-' !in c && '_' !in c;
      }
    }
  }

  lemma {:induction false} NoSeparatorLeft(value: string)
    requires value != []
    requires '-' !in ContentCleanIdValue(value) && '_' !in ContentCleanIdValue(value)
    ensures ContentCleanIdValue(value) == PopupCleanIdValue(value)
  {
    var c := ContentCleanIdValue(value);
    ContentCleanKeepsCore(value);
    assert !LooksLikeDashedAadhaar(value);
    ContentCleanOtherwise(value);
    forall i | 0 <= i < |c| ensures !IsSeparator(c[i]) {
      assert c[i] in c;
    }
    WithoutNoneDropped(c, IsSeparator);
  }

  /** The sample record's dashed Aadhaar number: kept by the content script, stripped by the popup. */
  lemma {:induction false} SampleAadhaarVector(v: string)
    requires v == "1234-5678-9012"
    ensures ContentCleanIdValue(v) == v
    ensures PopupCleanIdValue(v) == "123456789012"
  {
    var a, b, c := "1234", "5678", "9012";
    assert v == a + ['-'] + b + ['-'] + c;
    DashedCore(a, b, c);
    assert a + b + c == "123456789012";
    assert LooksLikeDashedAadhaar(v) by { assert v[4] == '-'; }
    EdgesNotSpace(v);
  }

  /** Digit groups joined by dashes lose exactly the dashes. */
  lemma {:induction false} DashedCore(a: string, b: string, c: string)
    requires forall i :: 0 <= i < |a| ==> IsDigit(a[i])
    requires forall i :: 0 <= i < |b| ==> IsDigit(b[i])
    requires forall i :: 0 <= i < |c| ==> IsDigit(c[i])
    ensures StripSeparators(a + ['-'] + b + ['-'] + c) == a + b + c
  {
    DigitsKept(a);
    DigitsKept(b);
    DigitsKept(c);
    DashJoin(a, b);
    DashJoin(a + ['-'] + b, c);
  }

  /** A dash between two pieces vanishes and the pieces are stripped separately. */
  lemma {:induction false} DashJoin(x: string, y: string)
    ensures StripSeparators(x + ['-'] + y) == StripSeparators(x) + StripSeparators(y)
  {
    var dash: string := ['-'];
    assert StripSeparators(dash) == [];
    WithoutAppend(x, dash, IsSeparator);
    WithoutAppend(x + dash, y, IsSeparator);
  }

  lemma {:induction false} DigitsKept(s: string)
    requires forall i :: 0 <= i < |s| ==> IsDigit(s[i])
    ensures StripSeparators(s) == s && RemoveSpaces(s) == s
  {
    WithoutNoneDropped(s, IsSeparator);
    WithoutNoneDropped(s, IsSpace);
  }

  lemma {:induction false} EdgesNotSpace(s: string)
    requires |s| > 0 && IsDigit(s[0]) && IsDigit(s[|s| - 1])
    ensures Trim(s) == s
  {
    NoLeadingSpace(s);
    NoTrailingSpace(s);
  }

  lemma {:induction false} NoLeadingSpace(s: string)
    requires |s| > 0 && IsDigit(s[0])
    ensures TrimStart(s) == s
  {
  }

  lemma {:induction false} NoTrailingSpace(s: string)
    requires |s| > 0 && IsDigit(s[|s| - 1])
    ensures TrimEnd(s) == s
  {
  }

  /** An undashed 12-digit number, as in the second data file, passes through both cleaners unchanged. */
  lemma {:induction false} PlainAadhaarVector(v: string)
    requires v == "123456789012"
    ensures ContentCleanIdValue(v) == v
    ensures PopupCleanIdValue(v) == v
  {
    DigitsKept(v);
    assert '-' !in v;
    EdgesNotSpace(v);
  }
}
