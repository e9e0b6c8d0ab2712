/**
 * The FAQ accordion: a list of questions of which at most one is expanded at a time.
 * The answers' prose is not modelled; an item is known by its question.
 */
module Faq {
  import opened JsValues

  datatype FaqItem = FaqItem(question: string)

  /** The nine questions shown when no list is passed in. */
  const DefaultFaqs: seq<FaqItem> := [
    FaqItem("How does this help me save on the 30% Bitcoin tax?"),
    FaqItem("What happens if Bitcoin price drops? (Margin Call / Liquidation Policy)"),
    FaqItem("How is my Bitcoin stored? Who holds the keys?"),
    FaqItem("Can I top-up or add more collateral?"),
    FaqItem("What happens if I miss an EMI or repayment date?"),
    FaqItem("Can I get my Bitcoin back instantly after repayment?"),
    FaqItem("Do I receive funds in INR or USDT?"),
    FaqItem("What documents are required for KYC?"),
    FaqItem("What is the interest rate and tenure?")
  ]

  /** `propFaqs || defaultFaqs`: a passed list, even an empty one, is shown as it is. */
  function DisplayFaqs(propFaqs: Option<seq<FaqItem>>): (shown: seq<FaqItem>)
    ensures propFaqs.Some? ==> shown == propFaqs.value
    ensures propFaqs.None? ==> shown == DefaultFaqs && |shown| == 9
  {
    match propFaqs
    case Some(faqs) => faqs
    case None => DefaultFaqs
  }

  /** The item toggled on `index`: closed if it was the open one, otherwise the only open one. */
  function Toggled(openIndex: Option<int>, index: int): (r: Option<int>)
    ensures r == None <==> openIndex == Some(index)
    ensures r != None ==> r == Some(index)
  {
    if openIndex == Some(index) then None else Some(index)
  }

  /** Toggling an item that is not open twice leaves everything closed; toggling the open one twice reopens it. */
  lemma ToggleTwice(openIndex: Option<int>, index: int)
    ensures openIndex != Some(index) ==> Toggled(Toggled(openIndex, index), index) == None
    ensures openIndex == Some(index) ==> Toggled(Toggled(openIndex, index), index) == openIndex
  {
  }

  /** The accordion's state. */
  class Accordion {
    var openIndex: Option<int>

    constructor ()
      ensures openIndex == None
    {
      openIndex := None;
    }

    /** Item `index` renders expanded: its answer shows and its icon is a minus. */
    predicate IsExpanded(index: int)
      reads this
      ensures IsExpanded(index) <==> openIndex.Some? && openIndex.value == index
    {
      openIndex == Some(index)
    }

    /** `toggleFAQ`. */
    method Toggle(index: int)
      modifies this
      ensures openIndex == Toggled(old(openIndex), index)
      ensures old(openIndex) == Some(index) ==> forall i :: !IsExpanded(i)
      ensures old(openIndex) != Some(index) ==> forall i :: IsExpanded(i) <==> i == index
    {
      if openIndex == Some(index) {
        openIndex := None;
      } else {
        openIndex := Some(index);
      }
    }
  }

  /** At most one item of an accordion is expanded, whatever its state. */
  lemma AtMostOneExpanded(a: Accordion, i: int, j: int)
    requires a.IsExpanded(i) && a.IsExpanded(j)
    ensures i == j
  {
  }
}
