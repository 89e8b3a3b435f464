/** What the page shows once the classifier has been asked: the predicted
    class with the probability quoted for it, or an error message. */
module Outcome {
  import opened Wrappers

  /** The result of asking the classifier for a label and class probabilities:
      either call raising (including a model that never loaded) gives `Raised`;
      otherwise the predicted class code and how many class probabilities came back. */
  datatype Prediction = Raised | Predicted(classCode: int, probCount: nat)

  /** The two classes the classifier tells apart. */
  datatype Class = Edible | Poisonous

  /** The headline: the class announced and the index of the class
      probability quoted beside it. */
  datatype Verdict = Verdict(kind: Class, probIndex: nat)

  /** The error message of a failed prediction; the page stopping on an
      uncaught index error, when fewer than two class probabilities came back;
      or a result: an optional headline followed by the listing of both class
      probabilities. */
  datatype Display = ErrorMessage | Uncaught | Result(verdict: Option<Verdict>, breakdown: seq<(Class, nat)>)

  /** The probability listing: Edible from index 0, then Poisonous from index 1. */
  const Breakdown: seq<(Class, nat)> := [(Edible, 0), (Poisonous, 1)]

  /** Chooses what to show for a prediction. */
  function Decide(p: Prediction): (d: Display)
    ensures d.ErrorMessage? <==> p.Raised?
    ensures d.Uncaught? <==> p.Predicted? && p.probCount < |Breakdown|
    ensures p.Predicted? && p.probCount >= |Breakdown| && p.classCode == 1 ==>
      d == Result(Some(Verdict(Poisonous, 1)), Breakdown)
    ensures p.Predicted? && p.probCount >= |Breakdown| && p.classCode == 0 ==>
      d == Result(Some(Verdict(Edible, 0)), Breakdown)
    ensures p.Predicted? && p.probCount >= |Breakdown| && p.classCode != 0 && p.classCode != 1 ==>
      d == Result(None, Breakdown)
  {
    match p
    case Raised => ErrorMessage
    case Predicted(classCode, probCount) =>
      if probCount < 2 then Uncaught
      else
        var verdict :=
          if classCode == 1 then Some(Verdict(Poisonous, 1))
          else if classCode == 0 then Some(Verdict(Edible, 0))
          else None;
        Result(verdict, Breakdown)
  }

  /** Every probability the page quotes is one the classifier returned: a
      result is shown only when the listing's indices are all in range. */
  lemma QuotedIndicesExist(p: Prediction)
    requires Decide(p).Result?
    ensures p.Predicted?
    ensures forall k :: 0 <= k < |Decide(p).breakdown| ==> Decide(p).breakdown[k].1 < p.probCount
  {
  }

  /** A headline never comes without its own probability: it is shown only for
      a successful prediction, its probability index is the predicted class code, and
      the listing puts its class at that index. */
  lemma VerdictMatchesProbability(p: Prediction)
    requires Decide(p).Result? && Decide(p).verdict.Some?
    ensures p.Predicted?
    ensures p.classCode == Decide(p).verdict.value.probIndex
    ensures Breakdown[p.classCode].0 == Decide(p).verdict.value.kind
  {
  }

  /** The headline class names the predicted code: Poisonous exactly for 1, Edible exactly for 0. */
  lemma VerdictNamesLabel(p: Prediction)
    ensures Decide(p).Result? && Decide(p).verdict == Some(Verdict(Poisonous, 1)) <==>
      p.Predicted? && p.classCode == 1 && p.probCount >= 2
    ensures Decide(p).Result? && Decide(p).verdict == Some(Verdict(Edible, 0)) <==>
      p.Predicted? && p.classCode == 0 && p.probCount >= 2
  {
  }
}
