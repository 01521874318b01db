/**
 * The FAQ accordion: at most one of the six answers is open, recorded as an
 * index or null. Clicking the open question closes it; clicking any other
 * opens that one instead.
 */
module Faq {
  import opened Wrappers

  /** The number of questions. */
  const QuestionCount: nat := 6

  /** The button's update of `openIndex`. */
  function Toggle(openIndex: Option<nat>, i: nat): (r: Option<nat>)
    ensures r.None? <==> openIndex == Some(i)
    ensures r.Some? ==> r.value == i
  {
    if openIndex == Some(i) then None else Some(i)
  }

  /** Whether answer `k` is expanded (and its chevron turned). */
  predicate IsOpen(openIndex: Option<nat>, k: nat)
  {
    openIndex == Some(k)
  }

  /** `openIndex` is null or the index of a question. */
  predicate InRange(openIndex: Option<nat>)
  {
    openIndex.Some? ==> openIndex.value < QuestionCount
  }

  /** A run of clicks, the `k`-th on question `clicks[k]`. */
  function Clicks(openIndex: Option<nat>, clicks: seq<nat>): Option<nat>
    decreases |clicks|
  {
    if |clicks| == 0 then openIndex else Clicks(Toggle(openIndex, clicks[0]), clicks[1..])
  }

  /** Opening a closed question closes every other one. */
  lemma OpeningClosesOthers(openIndex: Option<nat>, i: nat, k: nat)
    requires !IsOpen(openIndex, i) && k != i
    ensures IsOpen(Toggle(openIndex, i), i) && !IsOpen(Toggle(openIndex, i), k)
  {
  }

  /** Clicking a question twice, from all closed or from that question open, comes back. */
  lemma ToggleTwice(openIndex: Option<nat>, i: nat)
    requires openIndex.None? || openIndex == Some(i)
    ensures Toggle(Toggle(openIndex, i), i) == openIndex
  {
  }

  /** Whatever questions are clicked, `openIndex` stays null or a question's index.
      That at most one answer is open follows from `openIndex` being a single
      optional index; it is stated here because the screen relies on it. */
  lemma {:induction false} ClicksStayInRange(openIndex: Option<nat>, clicks: seq<nat>)
    requires InRange(openIndex)
    requires forall k :: 0 <= k < |clicks| ==> clicks[k] < QuestionCount
    ensures InRange(Clicks(openIndex, clicks))
    ensures forall j, k :: IsOpen(Clicks(openIndex, clicks), j) && IsOpen(Clicks(openIndex, clicks), k) ==> j == k
    decreases |clicks|
  {
    if |clicks| > 0 {
      ClicksStayInRange(Toggle(openIndex, clicks[0]), clicks[1..]);
    }
  }

  /** The FAQ section component. */
  class FaqSection {
    var openIndex: Option<nat>

    ghost predicate Valid()
      reads this
    {
      InRange(openIndex)
    }

    constructor ()
      ensures Valid() && openIndex.None?
      ensures forall k :: !IsOpen(openIndex, k)
    {
      openIndex := None;
    }

    /** The click on question `i` (one button per question). */
    method Click(i: nat)
      requires Valid() && i < QuestionCount
      modifies this
      ensures Valid() && openIndex == Toggle(old(openIndex), i)
      ensures openIndex.None? <==> old(openIndex) == Some(i)
    {
      openIndex := if openIndex == Some(i) then None else Some(i);
    }
  }
}
