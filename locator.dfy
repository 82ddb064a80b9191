/**
 * `findAgreeButton` / `_findAgree` over an abstract document snapshot.
 * Elements appear in tree order. A button carries its `mode` and `size`
 * attributes, its own text and the text of its first descendant span; a
 * span carries its text and its nearest button ancestor. An element whose
 * inspection throws is skipped.
 */
module Locator {
  import opened Common
  import opened Text

  datatype Button = Button(
    id: nat,
    mode: Option<string>,
    size: Option<string>,
    text: string,
    firstSpan: Option<string>,  // b.querySelector('span')?.textContent
    faulty: bool                // inspecting this button throws
  )

  datatype Span = Span(
    text: string,
    closestButton: Option<nat>, // s.closest('button'), by id
    faulty: bool
  )

  datatype Document = Document(buttons: seq<Button>, spans: seq<Span>)

  /** `button`, optionally with `[mode="…"]` and `[size="…"]`. */
  datatype Selector = ButtonSelector(mode: Option<string>, size: Option<string>)

  /** The comma-separated list given to `querySelectorAll` in tier 1. */
  const CANDIDATE_SELECTORS: seq<Selector> := [
    ButtonSelector(Some("primary"), Some("large")),
    ButtonSelector(Some("primary"), None),
    ButtonSelector(None, Some("large")),
    ButtonSelector(None, None)
  ]

  predicate SelectorMatches(sel: Selector, b: Button) {
    (sel.mode.None? || b.mode == sel.mode) && (sel.size.None? || b.size == sel.size)
  }

  predicate AnySelectorMatches(sels: seq<Selector>, b: Button) {
    exists k :: 0 <= k < |sels| && SelectorMatches(sels[k], b)
  }

  /** `querySelectorAll(list)`: each element that matches some selector, once, in tree order. */
  function QueryAll(sels: seq<Selector>, bs: seq<Button>): (r: seq<Button>)
    ensures |r| <= |bs|
  {
    if bs == [] then []
    else (if AnySelectorMatches(sels, bs[0]) then [bs[0]] else []) + QueryAll(sels, bs[1..])
  }

  /** The list ends in plain `button`, so tier 1 visits every button in tree order. */
  lemma {:induction false} CandidatesAreAllButtons(bs: seq<Button>)
    ensures QueryAll(CANDIDATE_SELECTORS, bs) == bs
  {
    if bs != [] {
      assert SelectorMatches(CANDIDATE_SELECTORS[3], bs[0]);
      CandidatesAreAllButtons(bs[1..]);
    }
  }

  /** Tier 1 test for one button: its first span's text, else its own text, trims to "AGREE". */
  predicate ButtonMatches(b: Button) {
    !b.faulty && ((b.firstSpan.Some? && IsConsentLabel(b.firstSpan.value)) || IsConsentLabel(b.text))
  }

  /** Tier 2 test for one span: its text trims to "AGREE" and it sits inside a button. */
  predicate SpanMatches(s: Span) {
    !s.faulty && IsConsentLabel(s.text) && s.closestButton.Some?
  }

  /** Index of the first element satisfying `p`, or `|s|` when there is none (a loop with early return). */
  function FirstWhere<T>(s: seq<T>, p: T -> bool): (i: nat)
    ensures i <= |s|
    ensures forall k :: 0 <= k < i ==> !p(s[k])
    ensures i < |s| ==> p(s[i])
  {
    if s == [] then 0
    else if p(s[0]) then 0
    else 1 + FirstWhere(s[1..], p)
  }

  /**
   * The first button, in tree order, that passes the tier 1 test; otherwise
   * the enclosing button of the first span that passes the tier 2 test;
   * otherwise nothing.
   */
  function FindAgree(doc: Document): Option<nat> {
    CandidatesAreAllButtons(doc.buttons);
    var candidates := QueryAll(CANDIDATE_SELECTORS, doc.buttons);
    var i := FirstWhere(candidates, ButtonMatches);
    if i < |candidates| then Some(candidates[i].id)
    else
      var j := FirstWhere(doc.spans, SpanMatches);
      if j < |doc.spans| then doc.spans[j].closestButton else None
  }

  /**
   * A button is found exactly when some button or some span passes its
   * test; the first passing button wins; failing that, the first passing
   * span decides.
   */
  lemma FindAgreeSpec(doc: Document)
    ensures FindAgree(doc).Some? <==>
      (exists i :: 0 <= i < |doc.buttons| && ButtonMatches(doc.buttons[i])) ||
      (exists j :: 0 <= j < |doc.spans| && SpanMatches(doc.spans[j]))
    ensures forall i ::
      (0 <= i < |doc.buttons| && ButtonMatches(doc.buttons[i])
       && forall k :: 0 <= k < i ==> !ButtonMatches(doc.buttons[k]))
      ==> FindAgree(doc) == Some(doc.buttons[i].id)
    ensures (forall i :: 0 <= i < |doc.buttons| ==> !ButtonMatches(doc.buttons[i])) ==>
      forall j ::
        (0 <= j < |doc.spans| && SpanMatches(doc.spans[j])
         && forall k :: 0 <= k < j ==> !SpanMatches(doc.spans[k]))
        ==> FindAgree(doc) == doc.spans[j].closestButton
  {
    forall i | 0 <= i < |doc.buttons| && ButtonMatches(doc.buttons[i])
                 && forall k :: 0 <= k < i ==> !ButtonMatches(doc.buttons[k])
      ensures FindAgree(doc) == Some(doc.buttons[i].id)
    {
      FoundByButton(doc, i);
    }
    if forall i :: 0 <= i < |doc.buttons| ==> !ButtonMatches(doc.buttons[i]) {
      forall j | 0 <= j < |doc.spans| && SpanMatches(doc.spans[j])
                   && forall k :: 0 <= k < j ==> !SpanMatches(doc.spans[k])
        ensures FindAgree(doc) == doc.spans[j].closestButton
      {
        FoundBySpan(doc, j);
      }
    }
    FoundIff(doc);
  }

  lemma FoundByButton(doc: Document, i: nat)
    requires i < |doc.buttons| && ButtonMatches(doc.buttons[i])
    requires forall k :: 0 <= k < i ==> !ButtonMatches(doc.buttons[k])
    ensures FindAgree(doc) == Some(doc.buttons[i].id)
  {
    CandidatesAreAllButtons(doc.buttons);
    var f := FirstWhere(doc.buttons, ButtonMatches);
    assert f == i;
  }

  lemma FoundBySpan(doc: Document, j: nat)
    requires forall i :: 0 <= i < |doc.buttons| ==> !ButtonMatches(doc.buttons[i])
    requires j < |doc.spans| && SpanMatches(doc.spans[j])
    requires forall k :: 0 <= k < j ==> !SpanMatches(doc.spans[k])
    ensures FindAgree(doc) == doc.spans[j].closestButton
  {
    CandidatesAreAllButtons(doc.buttons);
    var f := FirstWhere(doc.buttons, ButtonMatches);
    assert f == |doc.buttons|;
    var g := FirstWhere(doc.spans, SpanMatches);
    assert g == j;
  }

  lemma FoundIff(doc: Document)
    ensures FindAgree(doc).Some? <==>
      (exists i :: 0 <= i < |doc.buttons| && ButtonMatches(doc.buttons[i])) ||
      (exists j :: 0 <= j < |doc.spans| && SpanMatches(doc.spans[j]))
  {
    CandidatesAreAllButtons(doc.buttons);
    var f := FirstWhere(doc.buttons, ButtonMatches);
    var g := FirstWhere(doc.spans, SpanMatches);
    if f < |doc.buttons| {
      assert ButtonMatches(doc.buttons[f]);
    } else if g < |doc.spans| {
      assert SpanMatches(doc.spans[g]);
    } else {
      assert FindAgree(doc) == None;
    }
  }

  /** A bare button whose span reads "agree" in mixed case with surrounding whitespace is found. */
  lemma FindsPlainButtonWithPaddedLabel(id: nat)
    ensures FindAgree(Document(
      [Button(id, None, None, " \n aGrEe\t", Some(" \n aGrEe\t"), false)],
      [Span(" \n aGrEe\t", Some(id), false)])) == Some(id)
  {
    var padded := " \n aGrEe\t";
    assert padded == " \n " + "aGrEe" + "\t";
    assert EqIgnoreCase("aGrEe", CONSENT_LABEL) by {
      var u := ToUpperAscii("aGrEe");
      assert u[0] == 'A' && u[1] == 'G' && u[2] == 'R' && u[3] == 'E' && u[4] == 'E';
      UpperLabel();
    }
    PaddedConsentLabel(padded, " \n ", "aGrEe", "\t");
  }

  /** A span label found only through tier 2 yields the span's enclosing button. */
  lemma FindsButtonThroughSpan(outer: nat, decoy: nat)
    requires outer != decoy
    ensures FindAgree(Document(
      [Button(decoy, Some("primary"), Some("large"), "Cancel", None, false),
       Button(outer, None, None, "", None, true)],
      [Span("AGREE", Some(outer), false)])) == Some(outer)
  {
    var u := ToUpperAscii("Cancel");
    assert u[0] == 'C';
    var t := Trim("Cancel");
    assert t == "Cancel";
    assert !IsConsentLabel("Cancel");
    UpperLabel();
    assert Trim("AGREE") == "AGREE";
    FindAgreeSpec(Document(
      [Button(decoy, Some("primary"), Some("large"), "Cancel", None, false),
       Button(outer, None, None, "", None, true)],
      [Span("AGREE", Some(outer), false)]));
  }
}
