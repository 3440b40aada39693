/**
 * The traversal of a survey obtained by calling `get_first_question`, then
 * `get_next_question` with the current question's order, until it returns
 * none. The conversation code that would drive it is not part of this model. The
 * walk is a function of the question table; its lemmas say that orders
 * strictly increase (so the walk ends within as many steps as the survey has
 * questions) and that every order the survey uses is reached.
 */
module Sequencing {
  import opened Wrappers
  import opened Models
  import opened Handlers

  /** How many questions of the survey are ordered above `from`. */
  function CountAbove(questions: seq<Question>, survey: nat, from: int): nat
    decreases |questions|
  {
    if |questions| == 0 then 0
    else (if questions[0].survey == survey && questions[0].order > from then 1 else 0)
         + CountAbove(questions[1..], survey, from)
  }

  /** The number of questions in the survey (orders are never negative). */
  function SurveySize(questions: seq<Question>, survey: nat): nat {
    CountAbove(questions, survey, -1)
  }

  lemma {:induction false} CountAboveMonotone(questions: seq<Question>, survey: nat, a: int, b: int)
    requires a <= b
    ensures CountAbove(questions, survey, b) <= CountAbove(questions, survey, a)
    decreases |questions|
  {
    if |questions| > 0 {
      CountAboveMonotone(questions[1..], survey, a, b);
    }
  }

  /** Moving past a question of the survey strictly lowers the count of what is left above. */
  lemma {:induction false} CountAboveDrops(questions: seq<Question>, survey: nat, from: int, q: Question)
    requires q in questions && q.survey == survey && q.order > from
    ensures CountAbove(questions, survey, q.order) < CountAbove(questions, survey, from)
    decreases |questions|
  {
    if questions[0] == q {
      CountAboveMonotone(questions[1..], survey, from, q.order);
    } else {
      assert q in questions[1..];
      CountAboveDrops(questions[1..], survey, from, q);
    }
  }

  /**
   * The questions visited after one of order `from`, in order:
   * each is `get_next_question` of the previous one's order.
   */
  function Walk(questions: seq<Question>, survey: nat, from: int): (w: seq<Question>)
    ensures |w| <= CountAbove(questions, survey, from)
    ensures forall k :: 0 <= k < |w| ==> w[k] in questions && w[k].survey == survey && w[k].order > from
    ensures forall k, l :: 0 <= k < l < |w| ==> w[k].order < w[l].order
    decreases CountAbove(questions, survey, from)
  {
    match GetNextQuestion(questions, survey, from)
    case None => []
    case Some(q) =>
      CountAboveDrops(questions, survey, from, q);
      var rest := Walk(questions, survey, q.order);
      AskBefore(questions, survey, from, q, rest);
      [q] + rest
  }

  /** Asking `q` before a walk of higher orders keeps the walk's properties. */
  lemma AskBefore(questions: seq<Question>, survey: nat, from: int, q: Question, rest: seq<Question>)
    requires q in questions && q.survey == survey && q.order > from
    requires forall k :: 0 <= k < |rest| ==> rest[k] in questions && rest[k].survey == survey && rest[k].order > q.order
    requires forall k, l :: 0 <= k < l < |rest| ==> rest[k].order < rest[l].order
    ensures forall k :: 0 <= k < |[q] + rest| ==>
      ([q] + rest)[k] in questions && ([q] + rest)[k].survey == survey && ([q] + rest)[k].order > from
    ensures forall k, l :: 0 <= k < l < |[q] + rest| ==> ([q] + rest)[k].order < ([q] + rest)[l].order
  {
    var w := [q] + rest;
    forall k, l | 0 <= k < l < |w| ensures w[k].order < w[l].order {
      assert w[l] == rest[l - 1];
      if k > 0 { assert w[k] == rest[k - 1]; }
    }
    forall k | 0 <= k < |w| ensures w[k] in questions && w[k].survey == survey && w[k].order > from {
      if k > 0 { assert w[k] == rest[k - 1]; }
    }
  }

  /** Every question visited, from `get_first_question` on. */
  function Traversal(questions: seq<Question>, survey: nat): (t: seq<Question>)
    ensures t == [] <==> GetFirstQuestion(questions, survey).None?
    ensures forall k :: 0 <= k < |t| ==> t[k] in questions && t[k].survey == survey
  {
    match GetFirstQuestion(questions, survey)
    case None => []
    case Some(q) => [q] + Walk(questions, survey, q.order)
  }

  /**
   * The walk reaches every order used above `from`: for each such question
   * some asked question has its order.
   */
  lemma {:induction false} WalkComplete(questions: seq<Question>, survey: nat, from: int, q: Question)
    requires q in questions && q.survey == survey && q.order > from
    ensures exists k :: 0 <= k < |Walk(questions, survey, from)| && Walk(questions, survey, from)[k].order == q.order
    decreases CountAbove(questions, survey, from)
  {
    var w := Walk(questions, survey, from);
    var next := GetNextQuestion(questions, survey, from);
    assert next.Some?;
    var n := next.value;
    assert w == [n] + Walk(questions, survey, n.order);
    if q.order == n.order {
      assert w[0].order == q.order;
    } else {
      var rest := Walk(questions, survey, n.order);
      CountAboveDrops(questions, survey, from, n);
      WalkComplete(questions, survey, n.order, q);
      var k :| 0 <= k < |rest| && rest[k].order == q.order;
      assert w[k + 1] == rest[k];
    }
  }

  /**
   * A full traversal asks only questions of the survey, in strictly increasing
   * order, at most one per question of the survey; it is empty exactly when
   * the survey has no question.
   */
  lemma TraversalSound(questions: seq<Question>, survey: nat)
    ensures var t := Traversal(questions, survey);
      && |t| <= SurveySize(questions, survey)
      && (forall k :: 0 <= k < |t| ==> t[k] in questions && t[k].survey == survey)
      && (forall k, l :: 0 <= k < l < |t| ==> t[k].order < t[l].order)
      && (t == [] <==> forall q :: q in questions ==> q.survey != survey)
  {
    var first := GetFirstQuestion(questions, survey);
    if first.Some? {
      TraversalOfFirst(questions, survey, first.value);
    }
  }

  lemma TraversalOfFirst(questions: seq<Question>, survey: nat, f: Question)
    requires GetFirstQuestion(questions, survey) == Some(f)
    ensures var t := Traversal(questions, survey);
      && |t| <= SurveySize(questions, survey)
      && (forall k :: 0 <= k < |t| ==> t[k] in questions && t[k].survey == survey)
      && (forall k, l :: 0 <= k < l < |t| ==> t[k].order < t[l].order)
      && t != []
  {
    var t := Traversal(questions, survey);
    var w := Walk(questions, survey, f.order);
    assert t == [f] + w;
    CountAboveDrops(questions, survey, -1, f);
    AskBefore(questions, survey, -1, f, w);
  }

  /** Every order used by the survey is asked: the traversal is complete. */
  lemma TraversalComplete(questions: seq<Question>, survey: nat, q: Question)
    requires q in questions && q.survey == survey
    ensures exists k :: 0 <= k < |Traversal(questions, survey)| && Traversal(questions, survey)[k].order == q.order
  {
    var t := Traversal(questions, survey);
    var f := GetFirstQuestion(questions, survey).value;
    var w := Walk(questions, survey, f.order);
    assert t == [f] + w;
    if q.order == f.order {
      assert t[0].order == q.order;
    } else {
      WalkComplete(questions, survey, f.order, q);
      var k :| 0 <= k < |w| && w[k].order == q.order;
      assert t[k + 1].order == q.order;
    }
  }

  /**
   * Orders are not unique: of two distinct questions of a survey that share an
   * order, at most one is ever asked.
   */
  lemma SharedOrderAskedOnce(questions: seq<Question>, survey: nat, a: Question, b: Question)
    requires a != b && a.order == b.order
    ensures !(a in Traversal(questions, survey) && b in Traversal(questions, survey))
  {
    TraversalSound(questions, survey);
  }

  /** The last question asked has the largest order in the survey. */
  lemma TraversalEndsAtMaxOrder(questions: seq<Question>, survey: nat, q: Question)
    requires q in questions && q.survey == survey
    ensures |Traversal(questions, survey)| > 0
    ensures q.order <= Traversal(questions, survey)[|Traversal(questions, survey)| - 1].order
  {
    TraversalSound(questions, survey);
    TraversalComplete(questions, survey, q);
    var t := Traversal(questions, survey);
    var k :| 0 <= k < |t| && t[k].order == q.order;
    if k < |t| - 1 {
      assert t[k].order < t[|t| - 1].order;
    }
  }
}
