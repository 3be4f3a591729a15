/**
 * The pair selector of GetNextPairAsync as a function of its inputs: the
 * session's completed count, the records, the session's judged pairs and the
 * random draws, two per attempt.
 */
module Selection {
  import opened Wrappers
  import opened Models
  import opened Judgments

  /** A session ends after this many judgments. */
  const TotalPairsPerSession: nat := 50

  /** The sampling loop gives up after this many attempts. */
  const MaxAttempts: nat := 100

  /** The two values random.Next(descriptions.Count) returns in one attempt. */
  datatype Draw = Draw(first: nat, second: nat)

  /** random.Next(n) returns a value in 0..n-1. */
  predicate DrawsWithin(draws: seq<Draw>, count: nat)
  {
    forall k :: 0 <= k < |draws| ==> draws[k].first < count && draws[k].second < count
  }

  /** The loop's exit test: two different records whose pair the session has
      not judged in either order. */
  predicate Acceptable(descriptions: seq<Description>, pairs: seq<(int, int)>, d: Draw): (r: bool)
    requires d.first < |descriptions| && d.second < |descriptions|
    ensures r ==> d.first != d.second
  {
    var id1, id2 := descriptions[d.first].id, descriptions[d.second].id;
    id1 != id2 && !IsEvaluatedPair(pairs, id1, id2)
  }

  /** The attempt at which the loop breaks, searching from attempt `from`, or
      MaxAttempts if every remaining attempt fails. */
  function FirstAcceptable(descriptions: seq<Description>, pairs: seq<(int, int)>, draws: seq<Draw>, from: nat): (k: nat)
    requires from <= MaxAttempts <= |draws| && DrawsWithin(draws, |descriptions|)
    ensures from <= k <= MaxAttempts
    ensures k < MaxAttempts ==> Acceptable(descriptions, pairs, draws[k])
    ensures forall j {:trigger Acceptable(descriptions, pairs, draws[j])} :: from <= j < k ==> !Acceptable(descriptions, pairs, draws[j])
    decreases MaxAttempts - from
  {
    if from == MaxAttempts then MaxAttempts
    else if Acceptable(descriptions, pairs, draws[from]) then from
    else FirstAcceptable(descriptions, pairs, draws, from + 1)
  }

  /** The search stops at `k` exactly when every attempt from `from` up to
      `k` fails and attempt `k`, if there is one, succeeds. */
  lemma {:induction false} FirstAcceptableAt(descriptions: seq<Description>, pairs: seq<(int, int)>, draws: seq<Draw>,
                                             from: nat, k: nat)
    requires from <= k <= MaxAttempts <= |draws| && DrawsWithin(draws, |descriptions|)
    requires forall j :: from <= j < k ==> !Acceptable(descriptions, pairs, draws[j])
    requires k < MaxAttempts ==> Acceptable(descriptions, pairs, draws[k])
    ensures FirstAcceptable(descriptions, pairs, draws, from) == k
    decreases k - from
  {
    if from < k {
      FirstAcceptableAt(descriptions, pairs, draws, from + 1, k);
    }
  }

  /** The draw the sampling loop ends on: the one that breaks it, or the
      100th when none does. */
  function LastDraw(descriptions: seq<Description>, pairs: seq<(int, int)>, draws: seq<Draw>): (d: Draw)
    requires MaxAttempts <= |draws| && DrawsWithin(draws, |descriptions|)
    ensures d.first < |descriptions| && d.second < |descriptions|
    ensures d in draws[..MaxAttempts]
  {
    var k := FirstAcceptable(descriptions, pairs, draws, 0);
    draws[if k < MaxAttempts then k else MaxAttempts - 1]
  }

  /** The pair built from one draw. */
  function PairOf(descriptions: seq<Description>, d: Draw, completedCount: nat, sessionId: Guid): MatchingPair
    requires d.first < |descriptions| && d.second < |descriptions|
  {
    MatchingPair(descriptions[d.first], descriptions[d.second], completedCount + 1, TotalPairsPerSession, sessionId)
  }

  /** What GetNextPairAsync returns, as written: nothing once the session has
      50 judgments or there are fewer than two records; otherwise the draw of
      the attempt that broke the loop, or, after 100 failed attempts, the last
      draw, provided its two records differ. */
  function NextPair(sessionId: Guid, completedCount: nat, descriptions: seq<Description>,
                    pairs: seq<(int, int)>, draws: seq<Draw>): (r: Option<MatchingPair>)
    requires |draws| >= MaxAttempts
    requires |descriptions| >= 2 ==> DrawsWithin(draws, |descriptions|)
    ensures completedCount >= TotalPairsPerSession || |descriptions| < 2 ==> r.None?
    ensures r.Some? ==>
              && r.value.description1.id != r.value.description2.id
              && r.value.description1 in descriptions && r.value.description2 in descriptions
              && r.value.currentPairIndex == completedCount + 1
              && 1 <= r.value.currentPairIndex <= TotalPairsPerSession
              && r.value.totalPairs == TotalPairsPerSession
              && r.value.sessionId == sessionId
  {
    if completedCount >= TotalPairsPerSession then None
    else if |descriptions| < 2 then None
    else
      var last := LastDraw(descriptions, pairs, draws);
      if descriptions[last.first].id == descriptions[last.second].id then None
      else Some(PairOf(descriptions, last, completedCount, sessionId))
  }

  /** The search reads no draw past the 100th. */
  lemma {:induction false} FirstAcceptableReadsFirstDraws(descriptions: seq<Description>, pairs: seq<(int, int)>,
                                                          draws: seq<Draw>, others: seq<Draw>, from: nat)
    requires from <= MaxAttempts <= |draws| && MaxAttempts <= |others|
    requires DrawsWithin(draws, |descriptions|) && DrawsWithin(others, |descriptions|)
    requires draws[..MaxAttempts] == others[..MaxAttempts]
    ensures FirstAcceptable(descriptions, pairs, draws, from) == FirstAcceptable(descriptions, pairs, others, from)
    decreases MaxAttempts - from
  {
    if from < MaxAttempts {
      assert draws[from] == draws[..MaxAttempts][from] == others[from];
      FirstAcceptableReadsFirstDraws(descriptions, pairs, draws, others, from + 1);
    }
  }

  /** The selector makes at most 100 draws: two draw sequences that agree on
      their first 100 entries give the same result. */
  lemma OnlyFirstDrawsMatter(sessionId: Guid, completedCount: nat, descriptions: seq<Description>,
                             pairs: seq<(int, int)>, draws: seq<Draw>, others: seq<Draw>)
    requires |draws| >= MaxAttempts && |others| >= MaxAttempts
    requires |descriptions| >= 2 ==> DrawsWithin(draws, |descriptions|) && DrawsWithin(others, |descriptions|)
    requires draws[..MaxAttempts] == others[..MaxAttempts]
    ensures NextPair(sessionId, completedCount, descriptions, pairs, draws) ==
            NextPair(sessionId, completedCount, descriptions, pairs, others)
  {
    if completedCount < TotalPairsPerSession && |descriptions| >= 2 {
      FirstAcceptableReadsFirstDraws(descriptions, pairs, draws, others, 0);
      var k := FirstAcceptable(descriptions, pairs, draws, 0);
      var j := if k < MaxAttempts then k else MaxAttempts - 1;
      assert draws[j] == draws[..MaxAttempts][j] == others[j];
    }
  }

  /** With the records' ids unique (the store's identity column), the id
      test at the end fails only for a draw of one position twice: a pair is
      served exactly when the last draw picks two different positions. */
  lemma DistinctDrawServed(sessionId: Guid, completedCount: nat, descriptions: seq<Description>,
                           pairs: seq<(int, int)>, draws: seq<Draw>)
    requires completedCount < TotalPairsPerSession && |descriptions| >= 2
    requires |draws| >= MaxAttempts && DrawsWithin(draws, |descriptions|)
    requires forall i, j :: 0 <= i < j < |descriptions| ==> descriptions[i].id != descriptions[j].id
    ensures var last := LastDraw(descriptions, pairs, draws);
            NextPair(sessionId, completedCount, descriptions, pairs, draws).Some? <==> last.first != last.second
  {
    var last := LastDraw(descriptions, pairs, draws);
    if last.second < last.first {
      assert descriptions[last.second].id != descriptions[last.first].id;
    }
  }

  /** The returned pair is one the session has not judged exactly when the
      loop ended by `break`; when all attempts fail, what comes back (if
      anything) is a pair already judged. */
  lemma UnjudgedOnlyAfterBreak(sessionId: Guid, completedCount: nat, descriptions: seq<Description>,
                               pairs: seq<(int, int)>, draws: seq<Draw>)
    requires completedCount < TotalPairsPerSession && |descriptions| >= 2
    requires |draws| >= MaxAttempts && DrawsWithin(draws, |descriptions|)
    ensures var r := NextPair(sessionId, completedCount, descriptions, pairs, draws);
            (r.Some? && !IsEvaluatedPair(pairs, r.value.description1.id, r.value.description2.id)) <==>
            FirstAcceptable(descriptions, pairs, draws, 0) < MaxAttempts
  {
    var k := FirstAcceptable(descriptions, pairs, draws, 0);
    var last := LastDraw(descriptions, pairs, draws);
    var r := NextPair(sessionId, completedCount, descriptions, pairs, draws);
    var id1, id2 := descriptions[last.first].id, descriptions[last.second].id;
    assert r == if id1 == id2 then None else Some(PairOf(descriptions, last, completedCount, sessionId));
    if k < MaxAttempts {
      assert last == draws[k] && Acceptable(descriptions, pairs, last);
    } else {
      assert last == draws[MaxAttempts - 1] && !Acceptable(descriptions, pairs, last);
    }
  }

  /** When some attempt succeeds, the pair is the one of the first attempt
      that succeeds. */
  lemma BreakServesFirstAcceptableDraw(sessionId: Guid, completedCount: nat, descriptions: seq<Description>,
                                       pairs: seq<(int, int)>, draws: seq<Draw>, j: nat)
    requires completedCount < TotalPairsPerSession && |descriptions| >= 2
    requires |draws| >= MaxAttempts && DrawsWithin(draws, |descriptions|)
    requires j < MaxAttempts && Acceptable(descriptions, pairs, draws[j])
    requires forall i :: 0 <= i < j ==> !Acceptable(descriptions, pairs, draws[i])
    ensures NextPair(sessionId, completedCount, descriptions, pairs, draws) ==
            Some(PairOf(descriptions, draws[j], completedCount, sessionId))
  {
    var k := FirstAcceptable(descriptions, pairs, draws, 0);
    assert k == j;
  }

  /** After 100 failed attempts the last draw is served whenever its records
      differ, and then it is a pair the session has already judged. */
  lemma ExhaustedServesLastDraw(sessionId: Guid, completedCount: nat, descriptions: seq<Description>,
                                pairs: seq<(int, int)>, draws: seq<Draw>)
    requires completedCount < TotalPairsPerSession && |descriptions| >= 2
    requires |draws| >= MaxAttempts && DrawsWithin(draws, |descriptions|)
    requires forall i :: 0 <= i < MaxAttempts ==> !Acceptable(descriptions, pairs, draws[i])
    ensures var last := draws[MaxAttempts - 1];
            var r := NextPair(sessionId, completedCount, descriptions, pairs, draws);
            && (descriptions[last.first].id != descriptions[last.second].id ==>
                  r == Some(PairOf(descriptions, last, completedCount, sessionId)))
            && (r.Some? ==> IsEvaluatedPair(pairs, r.value.description1.id, r.value.description2.id))
  {
    FirstAcceptableAt(descriptions, pairs, draws, 0, MaxAttempts);
    var last := draws[MaxAttempts - 1];
    assert LastDraw(descriptions, pairs, draws) == last;
    assert !Acceptable(descriptions, pairs, last);
  }

  /** Two records whose one pair the session has judged: every attempt fails,
      and if the 100th draw picks both records the judged pair is served again. */
  lemma RepeatsJudgedPair(sessionId: Guid, completedCount: nat, d1: Description, d2: Description,
                          pairs: seq<(int, int)>, draws: seq<Draw>)
    requires completedCount < TotalPairsPerSession && d1.id != d2.id
    requires (d1.id, d2.id) in pairs
    requires |draws| >= MaxAttempts && DrawsWithin(draws, 2)
    requires draws[MaxAttempts - 1] == Draw(0, 1)
    ensures NextPair(sessionId, completedCount, [d1, d2], pairs, draws) ==
            Some(MatchingPair(d1, d2, completedCount + 1, TotalPairsPerSession, sessionId))
    ensures IsEvaluatedPair(pairs, d1.id, d2.id)
  {
    var descriptions := [d1, d2];
    var i :| 0 <= i < |pairs| && pairs[i] == (d1.id, d2.id);
    assert IsEvaluatedPair(pairs, d1.id, d2.id);
    assert IsEvaluatedPair(pairs, d2.id, d1.id);
    forall k | 0 <= k < MaxAttempts ensures !Acceptable(descriptions, pairs, draws[k]) {
      var d := draws[k];
      if d.first != d.second {
        assert {descriptions[d.first].id, descriptions[d.second].id} == {d1.id, d2.id};
      }
    }
    ExhaustedServesLastDraw(sessionId, completedCount, descriptions, pairs, draws);
  }

  /** The selector as its "Couldn't find a unique pair" exit evidently
      intends: nothing is served when all 100 attempts fail. */
  function NextFreshPair(sessionId: Guid, completedCount: nat, descriptions: seq<Description>,
                         pairs: seq<(int, int)>, draws: seq<Draw>): (r: Option<MatchingPair>)
    requires |draws| >= MaxAttempts
    requires |descriptions| >= 2 ==> DrawsWithin(draws, |descriptions|)
    ensures completedCount >= TotalPairsPerSession || |descriptions| < 2 ==> r.None?
    ensures r.Some? ==>
              && r.value.description1.id != r.value.description2.id
              && !IsEvaluatedPair(pairs, r.value.description1.id, r.value.description2.id)
              && r.value.description1 in descriptions && r.value.description2 in descriptions
              && r.value.currentPairIndex == completedCount + 1
              && 1 <= r.value.currentPairIndex <= TotalPairsPerSession
              && r.value.totalPairs == TotalPairsPerSession
              && r.value.sessionId == sessionId
  {
    if completedCount >= TotalPairsPerSession || |descriptions| < 2 then None
    else
      var k := FirstAcceptable(descriptions, pairs, draws, 0);
      if k == MaxAttempts then None
      else Some(PairOf(descriptions, draws[k], completedCount, sessionId))
  }

  /** The corrected selector serves a pair exactly when one of the 100
      attempts finds an unjudged pair of different records, and then agrees
      with the selector as written. */
  lemma FreshPairFoundIff(sessionId: Guid, completedCount: nat, descriptions: seq<Description>,
                          pairs: seq<(int, int)>, draws: seq<Draw>)
    requires completedCount < TotalPairsPerSession && |descriptions| >= 2
    requires |draws| >= MaxAttempts && DrawsWithin(draws, |descriptions|)
    ensures var r := NextFreshPair(sessionId, completedCount, descriptions, pairs, draws);
            && (r.Some? <==> exists j :: 0 <= j < MaxAttempts && Acceptable(descriptions, pairs, draws[j]))
            && (r.Some? ==> r == NextPair(sessionId, completedCount, descriptions, pairs, draws))
  {
    var k := FirstAcceptable(descriptions, pairs, draws, 0);
    if k < MaxAttempts {
      assert Acceptable(descriptions, pairs, draws[k]);
      assert LastDraw(descriptions, pairs, draws) == draws[k];
    } else {
      assert forall j :: 0 <= j < MaxAttempts ==> !Acceptable(descriptions, pairs, draws[j]);
    }
  }
}
