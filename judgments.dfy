/**
 * Queries over the judgment log: a session's evaluations, and the id pairs
 * it has judged. A session exists only through the evaluations that carry
 * its id.
 */
module Judgments {
  import opened Models

  /** The evaluations of one session, in log order
      (Evaluations.Where(e => e.SessionId == sessionId)). */
  function SessionEvaluations(evaluations: seq<Evaluation>, sessionId: Guid): (r: seq<Evaluation>)
    ensures |r| <= |evaluations|
  {
    if evaluations == [] then []
    else if evaluations[0].sessionId == sessionId
    then [evaluations[0]] + SessionEvaluations(evaluations[1..], sessionId)
    else SessionEvaluations(evaluations[1..], sessionId)
  }

  /** The filter keeps exactly the session's evaluations. */
  lemma {:induction false} SessionEvaluationsMembers(evaluations: seq<Evaluation>, sessionId: Guid)
    ensures forall e :: e in SessionEvaluations(evaluations, sessionId) <==> e in evaluations && e.sessionId == sessionId
  {
    if evaluations != [] {
      SessionEvaluationsMembers(evaluations[1..], sessionId);
      assert evaluations == [evaluations[0]] + evaluations[1..];
    }
  }

  /** A session has no evaluations in the filter exactly when no evaluation
      carries its id. */
  lemma NoEvaluationsIff(evaluations: seq<Evaluation>, sessionId: Guid)
    ensures |SessionEvaluations(evaluations, sessionId)| == 0 <==>
            forall e :: e in evaluations ==> e.sessionId != sessionId
  {
    var own := SessionEvaluations(evaluations, sessionId);
    SessionEvaluationsMembers(evaluations, sessionId);
    assert own != [] ==> own[0] in own;
  }

  /** Appending one evaluation adds it to its own session's list and to no other. */
  lemma {:induction false} SessionEvaluationsAppend(evaluations: seq<Evaluation>, e: Evaluation, sessionId: Guid)
    ensures SessionEvaluations(evaluations + [e], sessionId) ==
            SessionEvaluations(evaluations, sessionId) + (if e.sessionId == sessionId then [e] else [])
  {
    if evaluations == [] {
      assert evaluations + [e] == [e];
      assert [e][1..] == [];
    } else {
      var all := evaluations + [e];
      assert all[0] == evaluations[0] && all[1..] == evaluations[1..] + [e];
      SessionEvaluationsAppend(evaluations[1..], e, sessionId);
    }
  }

  /** The positions among the first `n` of the log whose evaluation carries
      the session's id. */
  ghost function SessionPositions(evaluations: seq<Evaluation>, sessionId: Guid, n: nat): set<nat>
    requires n <= |evaluations|
  {
    set i: nat | i < n && evaluations[i].sessionId == sessionId
  }

  /** One more position adds one to the count exactly when it matches. */
  lemma SessionPositionsStep(evaluations: seq<Evaluation>, sessionId: Guid, n: nat)
    requires 0 < n <= |evaluations|
    ensures |SessionPositions(evaluations, sessionId, n)| ==
            |SessionPositions(evaluations, sessionId, n - 1)| + (if evaluations[n - 1].sessionId == sessionId then 1 else 0)
  {
    var cur, prev := SessionPositions(evaluations, sessionId, n), SessionPositions(evaluations, sessionId, n - 1);
    if evaluations[n - 1].sessionId == sessionId {
      assert cur == prev + {n - 1};
    } else {
      assert cur == prev;
    }
  }

  /** The count of the filter over the first `n` evaluations is the number
      of positions there that carry the session's id. */
  lemma {:induction false} SessionCountByIndex(evaluations: seq<Evaluation>, sessionId: Guid, n: nat)
    requires n <= |evaluations|
    ensures |SessionEvaluations(evaluations[..n], sessionId)| == |SessionPositions(evaluations, sessionId, n)|
  {
    if n == 0 {
      assert SessionPositions(evaluations, sessionId, 0) == {};
    } else {
      SessionCountByIndex(evaluations, sessionId, n - 1);
      SessionPositionsStep(evaluations, sessionId, n);
      assert evaluations[..n] == evaluations[..n - 1] + [evaluations[n - 1]];
      SessionEvaluationsAppend(evaluations[..n - 1], evaluations[n - 1], sessionId);
    }
  }

  /** GetSessionProgressAsync's count: the number of positions in the log
      whose evaluation carries the session's id. */
  lemma SessionCountIsIndexCount(evaluations: seq<Evaluation>, sessionId: Guid)
    ensures |SessionEvaluations(evaluations, sessionId)| ==
            |set i: nat | i < |evaluations| && evaluations[i].sessionId == sessionId|
  {
    SessionCountByIndex(evaluations, sessionId, |evaluations|);
    assert evaluations[..|evaluations|] == evaluations;
  }

  /** The (Description1Id, Description2Id) pair of each evaluation, in order. */
  function EvaluatedPairs(evaluations: seq<Evaluation>): (r: seq<(int, int)>)
    ensures |r| == |evaluations|
    ensures forall i :: 0 <= i < |r| ==> r[i] == (evaluations[i].description1Id, evaluations[i].description2Id)
  {
    if evaluations == [] then []
    else [(evaluations[0].description1Id, evaluations[0].description2Id)] + EvaluatedPairs(evaluations[1..])
  }

  /** The unordered-pair test of the pair selector: some recorded pair has
      ids `a` and `b`, in either order. */
  predicate IsEvaluatedPair(pairs: seq<(int, int)>, a: int, b: int): (r: bool)
    ensures r <==> (a, b) in pairs || (b, a) in pairs
  {
    exists i :: 0 <= i < |pairs| && ((pairs[i].0 == a && pairs[i].1 == b) || (pairs[i].0 == b && pairs[i].1 == a))
  }

  /** Judges `a` and `b` as a pair, in either order. */
  predicate Judges(e: Evaluation, a: int, b: int)
  {
    (e.description1Id == a && e.description2Id == b) || (e.description1Id == b && e.description2Id == a)
  }

  /** The pair test on a session's projected pairs means: the session has an
      evaluation of `a` against `b`. */
  lemma JudgedBySessionIff(evaluations: seq<Evaluation>, sessionId: Guid, a: int, b: int)
    ensures IsEvaluatedPair(EvaluatedPairs(SessionEvaluations(evaluations, sessionId)), a, b) <==>
            exists e :: e in evaluations && e.sessionId == sessionId && Judges(e, a, b)
  {
    var own := SessionEvaluations(evaluations, sessionId);
    var pairs := EvaluatedPairs(own);
    SessionEvaluationsMembers(evaluations, sessionId);
    if IsEvaluatedPair(pairs, a, b) {
      var i :| 0 <= i < |pairs| && ((pairs[i].0 == a && pairs[i].1 == b) || (pairs[i].0 == b && pairs[i].1 == a));
      assert own[i] in own && Judges(own[i], a, b);
    }
    if exists e :: e in evaluations && e.sessionId == sessionId && Judges(e, a, b) {
      var e :| e in evaluations && e.sessionId == sessionId && Judges(e, a, b);
      assert e in own;
      var i :| 0 <= i < |own| && own[i] == e;
      assert pairs[i] == (e.description1Id, e.description2Id);
    }
  }
}
