/**
 * The rule-based answer builder: a fixed decision table over the question's
 * keywords, plus an excerpt of the matched context.
 */
module Answer {
  import opened Wrappers
  import opened Text

  /** The structured answer returned for one question. */
  datatype Answer = Answer(decision: string, justification: string, amount: string, source: string)

  const Rejected: string := "Rejected"
  const Approved: string := "Approved"
  const WaitingPeriodClause: string := "Clause: Surgery is covered only after 90 days waiting period."
  const EligibleClause: string := "Clause: This treatment is eligible under the policy terms."
  const NotApplicable: string := "Not Applicable"
  const DefaultAmount: string := "₹50,000"

  /** Number of context characters quoted in the source excerpt. */
  const ExcerptLength: nat := 150

  /** The keywords that make a question's claim be rejected. */
  ghost predicate RejectingQuestion(question: string)
  {
    Occurs("1-month", Lower(question)) || Occurs("cosmetic", Lower(question))
  }

  /** The keyword that marks the amount as not applicable. */
  ghost predicate NoAmountQuestion(question: string)
  {
    Occurs("rejected", Lower(question))
  }

  /** Builds the answer for `question` from the matched `context` chunk. */
  function CallLlm(question: string, context: string): (r: Answer)
    ensures r.decision == Rejected <==> RejectingQuestion(question)
    ensures r.decision == Approved <==> !RejectingQuestion(question)
    ensures r.justification == WaitingPeriodClause <==> RejectingQuestion(question)
    ensures r.justification == EligibleClause <==> !RejectingQuestion(question)
    ensures r.amount == NotApplicable <==> NoAmountQuestion(question)
    ensures r.amount == DefaultAmount <==> !NoAmountQuestion(question)
    ensures |r.source| == Min(ExcerptLength, |context|) + 3
    ensures r.source[..|r.source| - 3] <= context
    ensures r.source[|r.source| - 3..] == "..."
  {
    var q := Lower(question);
    ContainsIffOccurs(q, "1-month");
    ContainsIffOccurs(q, "cosmetic");
    ContainsIffOccurs(q, "rejected");
    var rejecting := Contains(q, "1-month") || Contains(q, "cosmetic");
    Answer(
      if rejecting then Rejected else Approved,
      if rejecting then WaitingPeriodClause else EligibleClause,
      if Contains(q, "rejected") then NotApplicable else DefaultAmount,
      context[..Min(ExcerptLength, |context|)] + "...")
  }

  /**
   * The keywords are matched in any ASCII case: "COSMETIC" rejects as
   * "cosmetic" does.
   */
  lemma KeywordsIgnoreCase(question: string)
    ensures RejectingQuestion(question) <==>
      OccursIgnoringCase("1-month", question) || OccursIgnoringCase("cosmetic", question)
    ensures NoAmountQuestion(question) <==> OccursIgnoringCase("rejected", question)
  {
    KeywordInLower("1-month", question);
    KeywordInLower("cosmetic", question);
    KeywordInLower("rejected", question);
  }

  /** The answer depends on the question only through its lower-cased form. */
  lemma CaseInsensitive(question: string, context: string)
    ensures CallLlm(question, context) == CallLlm(Lower(question), context)
  {
    LowerIdempotent(question);
  }

  /**
   * The amount is not tied to the decision: a rejected claim can still carry
   * the default amount, and an approved one can be marked not applicable.
   */
  lemma AmountIndependentOfDecision(context: string)
    ensures CallLlm("cosmetic", context).decision == Rejected
    ensures CallLlm("cosmetic", context).amount == DefaultAmount
    ensures CallLlm("rejected", context).decision == Approved
    ensures CallLlm("rejected", context).amount == NotApplicable
  {
    assert Lower("cosmetic") == "cosmetic";
    assert Lower("rejected") == "rejected";
    AbsentInitial("cosmetic", "rejected");
    AbsentInitial("rejected", "1-month");
    OccursSameLength("rejected", "cosmetic");
  }
}
