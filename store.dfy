/**
 * The relational store behind the service (the EF Core context): the
 * Descriptions and Evaluations tables with store-assigned ascending ids.
 * Each mutator stands for one change followed by SaveChangesAsync.
 */
module Store {
  import opened Models
  import opened Text

  /** The batch size of the streaming importer. */
  const BatchSize: nat := 1000

  /** A change to the Descriptions table, as recorded in the store's history. */
  datatype StoreOp = Cleared | Appended(contents: seq<string>)

  /** The rows the store creates for `contents`, numbered from `firstId` on in
      insertion order. */
  function Numbered(firstId: int, contents: seq<string>): (r: seq<Description>)
    ensures |r| == |contents|
    decreases |contents|
  {
    if contents == [] then []
    else [Description(firstId, contents[0])] + Numbered(firstId + 1, contents[1..])
  }

  /** Row `i` holds value `i` under id `firstId + i`. */
  lemma {:induction false} NumberedAt(firstId: int, contents: seq<string>, i: nat)
    requires i < |contents|
    ensures Numbered(firstId, contents)[i] == Description(firstId + i, contents[i])
    decreases |contents|
  {
    if i > 0 {
      NumberedAt(firstId + 1, contents[1..], i - 1);
    }
  }

  /** Every row, as NumberedAt states it for one. */
  lemma NumberedRows(firstId: int, contents: seq<string>)
    ensures forall i :: 0 <= i < |contents| ==> Numbered(firstId, contents)[i] == Description(firstId + i, contents[i])
  {
    forall i | 0 <= i < |contents| {
      NumberedAt(firstId, contents, i);
    }
  }

  lemma NumberedAppend(firstId: int, a: seq<string>, b: seq<string>)
    ensures Numbered(firstId, a + b) == Numbered(firstId, a) + Numbered(firstId + |a|, b)
  {
    var l, r := Numbered(firstId, a + b), Numbered(firstId, a) + Numbered(firstId + |a|, b);
    NumberedRows(firstId, a + b);
    NumberedRows(firstId, a);
    NumberedRows(firstId + |a|, b);
    assert forall i :: 0 <= i < |l| ==> l[i] == r[i] by {
      forall i | 0 <= i < |l| ensures l[i] == r[i] {
        if i >= |a| {
          assert (a + b)[i] == b[i - |a|];
        }
      }
    }
  }

  /** The batches in which `values` is written: full batches of BatchSize in
      order, then what is left, if anything. */
  function Batches(values: seq<string>): (r: seq<seq<string>>)
    ensures forall k :: 0 <= k < |r| ==> 0 < |r[k]| <= BatchSize
    decreases |values|
  {
    if values == [] then []
    else if |values| <= BatchSize then [values]
    else [values[..BatchSize]] + Batches(values[BatchSize..])
  }

  /** Concatenating the batches gives back the values. */
  lemma {:induction false} BatchesConcat(values: seq<string>)
    ensures Concat(Batches(values)) == values
    decreases |values|
  {
    if |values| > BatchSize {
      BatchesConcat(values[BatchSize..]);
      var r := Batches(values);
      assert r[1..] == Batches(values[BatchSize..]);
      assert values == values[..BatchSize] + values[BatchSize..];
    }
  }

  /** `values` splits into full batches of BatchSize, with nothing left. */
  ghost predicate WholeBatches(values: seq<string>)
    decreases |values|
  {
    values == [] || (|values| >= BatchSize && WholeBatches(values[BatchSize..]))
  }

  /** Whole batches are nothing or at least one full batch. */
  lemma WholeBatchesSize(values: seq<string>)
    requires WholeBatches(values)
    ensures values == [] || |values| >= BatchSize
  {
  }

  /** One more full batch keeps the values whole batches. */
  lemma {:induction false} WholeBatchesExtend(full: seq<string>, last: seq<string>)
    requires WholeBatches(full) && |last| == BatchSize
    ensures WholeBatches(full + last)
    decreases |full|
  {
    var all := full + last;
    if full == [] {
      assert all == last && all[BatchSize..] == [];
    } else {
      assert all[BatchSize..] == full[BatchSize..] + last;
      WholeBatchesExtend(full[BatchSize..], last);
    }
  }

  /** Writing whole batches first and then a last batch of at most BatchSize
      gives the batches of the whole. */
  lemma {:induction false} BatchesExtend(full: seq<string>, last: seq<string>)
    requires WholeBatches(full)
    requires 0 < |last| <= BatchSize
    ensures Batches(full + last) == Batches(full) + [last]
    decreases |full|
  {
    var all := full + last;
    if full == [] {
      assert all == last;
    } else {
      assert |all| > BatchSize;
      assert all[..BatchSize] == full[..BatchSize];
      assert all[BatchSize..] == full[BatchSize..] + last;
      BatchesExtend(full[BatchSize..], last);
      assert Batches(all) == [full[..BatchSize]] + (Batches(full[BatchSize..]) + [last]);
      if |full| == BatchSize {
        assert full[BatchSize..] == [];
        assert full[..BatchSize] == full;
        assert Batches(full) == [full];
      } else {
        assert Batches(full) == [full[..BatchSize]] + Batches(full[BatchSize..]);
      }
    }
  }

  /** The history entries of writing the given batches, in order. */
  function Writes(batches: seq<seq<string>>): (r: seq<StoreOp>)
    ensures |r| == |batches|
    ensures forall k :: 0 <= k < |r| ==> r[k] == Appended(batches[k])
  {
    if batches == [] then [] else [Appended(batches[0])] + Writes(batches[1..])
  }

  lemma WritesExtend(batches: seq<seq<string>>, last: seq<string>)
    ensures Writes(batches + [last]) == Writes(batches) + [Appended(last)]
  {
    var l, r := Writes(batches + [last]), Writes(batches) + [Appended(last)];
    assert forall k :: 0 <= k < |l| ==> l[k] == r[k];
  }

  /** Ids strictly ascend in table order and lie below the next id to assign. */
  ghost predicate DescriptionIdsBelow(rows: seq<Description>, nextId: int)
  {
    && (forall i :: 0 <= i < |rows| ==> rows[i].id < nextId)
    && (forall i, j :: 0 <= i < j < |rows| ==> rows[i].id < rows[j].id)
  }

  ghost predicate EvaluationIdsBelow(rows: seq<Evaluation>, nextId: int)
  {
    && (forall i :: 0 <= i < |rows| ==> rows[i].id < nextId)
    && (forall i, j :: 0 <= i < j < |rows| ==> rows[i].id < rows[j].id)
  }

  class Database {
    var descriptions: seq<Description>
    var evaluations: seq<Evaluation>
    var nextDescriptionId: int
    var nextEvaluationId: int
    /** Every change made to the Descriptions table, oldest first. */
    ghost var history: seq<StoreOp>

    /** The store's identity columns: ids are unique and ascending. Every
        mutator keeps it. Unique ids are what Selection.DistinctDrawServed
        needs to show that two different positions hold two different
        records; the ascending order is the store's own and is not relied on. */
    ghost predicate Valid()
      reads this
    {
      && DescriptionIdsBelow(descriptions, nextDescriptionId)
      && EvaluationIdsBelow(evaluations, nextEvaluationId)
    }

    /** An empty database whose identity columns start at 1. */
    constructor ()
      ensures Valid()
      ensures descriptions == [] && evaluations == [] && history == []
      ensures nextDescriptionId == 1 && nextEvaluationId == 1
    {
      descriptions, evaluations := [], [];
      nextDescriptionId, nextEvaluationId := 1, 1;
      history := [];
    }

    /** Descriptions.RemoveRange(Descriptions): deletes every record. The
        identity column is not reset. */
    method RemoveAllDescriptions()
      requires Valid()
      modifies this
      ensures Valid()
      ensures descriptions == [] && history == old(history) + [Cleared]
      ensures evaluations == old(evaluations)
      ensures nextDescriptionId == old(nextDescriptionId) && nextEvaluationId == old(nextEvaluationId)
    {
      descriptions := [];
      history := history + [Cleared];
    }

    /** Descriptions.AddRange: inserts one record per value, in order, with
        fresh ascending ids. */
    method AddDescriptions(contents: seq<string>)
      requires Valid()
      modifies this
      ensures Valid()
      ensures descriptions == old(descriptions) + Numbered(old(nextDescriptionId), contents)
      ensures nextDescriptionId == old(nextDescriptionId) + |contents|
      ensures history == old(history) + [Appended(contents)]
      ensures evaluations == old(evaluations) && nextEvaluationId == old(nextEvaluationId)
    {
      NumberedRows(nextDescriptionId, contents);
      descriptions := descriptions + Numbered(nextDescriptionId, contents);
      nextDescriptionId := nextDescriptionId + |contents|;
      history := history + [Appended(contents)];
    }

    /** Evaluations.Add: inserts one judgment with a fresh id. */
    method AddEvaluation(sessionId: Guid, description1Id: int, description2Id: int, isMatch: bool)
      requires Valid()
      modifies this
      ensures Valid()
      ensures evaluations == old(evaluations) +
                [Evaluation(old(nextEvaluationId), sessionId, description1Id, description2Id, isMatch)]
      ensures nextEvaluationId == old(nextEvaluationId) + 1
      ensures descriptions == old(descriptions) && nextDescriptionId == old(nextDescriptionId)
      ensures history == old(history)
    {
      evaluations := evaluations + [Evaluation(nextEvaluationId, sessionId, description1Id, description2Id, isMatch)];
      nextEvaluationId := nextEvaluationId + 1;
    }
  }
}
