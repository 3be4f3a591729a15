/**
 * MatchingService: serves random pairs of descriptions to a session, records
 * the session's judgments, reports its progress and imports descriptions from
 * CSV. The database context is a Database object the service holds and
 * changes; the clock, the random number generator and the reader are inputs.
 */
module Service {
  import opened Wrappers
  import opened Models
  import opened Text
  import opened Csv
  import opened Store
  import opened Judgments
  import opened Selection
  import opened Import

  class MatchingService {
    const context: Database

    constructor (context: Database)
      ensures this.context == context
    {
      this.context := context;
    }

    /** GetSessionProgressAsync: how many judgments the session has made. */
    function GetSessionProgress(sessionId: Guid): (n: nat)
      reads context
      ensures n <= |context.evaluations|
      ensures n == |SessionEvaluations(context.evaluations, sessionId)|
    {
      |SessionEvaluations(context.evaluations, sessionId)|
    }

    /** The id pairs the session has judged, in log order. */
    function SessionPairs(sessionId: Guid): (pairs: seq<(int, int)>)
      reads context
      ensures |pairs| == GetSessionProgress(sessionId)
    {
      EvaluatedPairs(SessionEvaluations(context.evaluations, sessionId))
    }

    /** The sampling loop of GetNextPairAsync: up to 100 attempts, each
        drawing two records, stopping at the first two different records
        whose pair has not been judged. The records of the last attempt made
        are returned. */
    method SamplePair(descriptions: seq<Description>, evaluatedPairs: seq<(int, int)>, draws: seq<Draw>)
      returns (desc1: Option<Description>, desc2: Option<Description>)
      requires |draws| >= MaxAttempts && DrawsWithin(draws, |descriptions|)
      ensures var last := LastDraw(descriptions, evaluatedPairs, draws);
              desc1 == Some(descriptions[last.first]) && desc2 == Some(descriptions[last.second])
    {
      desc1, desc2 := None, None;
      var attempts := 0;
      while attempts < MaxAttempts
        invariant 0 <= attempts <= MaxAttempts
        invariant forall j :: 0 <= j < attempts ==> !Acceptable(descriptions, evaluatedPairs, draws[j])
        invariant attempts > 0 ==> desc1 == Some(descriptions[draws[attempts - 1].first]) &&
                                   desc2 == Some(descriptions[draws[attempts - 1].second])
      {
        var d := draws[attempts];
        desc1 := Some(descriptions[d.first]);
        desc2 := Some(descriptions[d.second]);
        if desc1.value.id != desc2.value.id && !IsEvaluatedPair(evaluatedPairs, desc1.value.id, desc2.value.id) {
          assert Acceptable(descriptions, evaluatedPairs, d);
          FirstAcceptableAt(descriptions, evaluatedPairs, draws, 0, attempts);
          return;
        }
        assert !Acceptable(descriptions, evaluatedPairs, d);
        attempts := attempts + 1;
      }
      FirstAcceptableAt(descriptions, evaluatedPairs, draws, 0, MaxAttempts);
    }

    /** GetNextPairAsync, with the values random.Next returns given as
        `draws`, two per attempt. */
    method GetNextPair(sessionId: Guid, draws: seq<Draw>) returns (pair: Option<MatchingPair>)
      requires |draws| >= MaxAttempts
      requires |context.descriptions| >= 2 ==> DrawsWithin(draws, |context.descriptions|)
      ensures pair == NextPair(sessionId, GetSessionProgress(sessionId), context.descriptions,
                               SessionPairs(sessionId), draws)
    {
      var completedCount := GetSessionProgress(sessionId);
      if completedCount >= TotalPairsPerSession {
        return None;
      }
      var descriptions := context.descriptions;
      if |descriptions| < 2 {
        return None;
      }
      var evaluatedPairs := SessionPairs(sessionId);
      var desc1, desc2 := SamplePair(descriptions, evaluatedPairs, draws);
      if desc1.None? || desc2.None? || desc1.value.id == desc2.value.id {
        return None;
      }
      pair := Some(MatchingPair(desc1.value, desc2.value, completedCount + 1, TotalPairsPerSession, sessionId));
    }

    /** SaveEvaluationAsync: appends one judgment with a fresh id. The
        session's progress goes up by one and no other session's changes;
        the pair is then one the session has judged. */
    method SaveEvaluation(sessionId: Guid, desc1Id: int, desc2Id: int, isMatch: bool)
      requires context.Valid()
      modifies context
      ensures context.Valid()
      ensures context.evaluations == old(context.evaluations) +
                [Evaluation(old(context.nextEvaluationId), sessionId, desc1Id, desc2Id, isMatch)]
      ensures context.nextEvaluationId == old(context.nextEvaluationId) + 1
      ensures context.descriptions == old(context.descriptions)
      ensures context.nextDescriptionId == old(context.nextDescriptionId)
      ensures context.history == old(context.history)
      ensures GetSessionProgress(sessionId) == old(GetSessionProgress(sessionId)) + 1
      ensures forall other :: other != sessionId ==> GetSessionProgress(other) == old(GetSessionProgress(other))
      ensures IsEvaluatedPair(SessionPairs(sessionId), desc1Id, desc2Id)
    {
      ghost var before := context.evaluations;
      var e := Evaluation(context.nextEvaluationId, sessionId, desc1Id, desc2Id, isMatch);
      context.AddEvaluation(sessionId, desc1Id, desc2Id, isMatch);
      forall other {
        SessionEvaluationsAppend(before, e, other);
      }
      assert e in context.evaluations && Judges(e, desc1Id, desc2Id);
      JudgedBySessionIff(context.evaluations, sessionId, desc1Id, desc2Id);
    }

    /** The per-line body of the streaming importer for a non-blank line:
        the chosen column, trimmed, when it is longer than 10 characters. A
        negative index makes columns[columnIndex] throw, and the handler
        around the body skips the line. */
    method StreamLine(line: string, columnIndex: int) returns (value: seq<string>)
      requires !IsNullOrWhiteSpace(line)
      ensures value == StreamLineValue(line, columnIndex)
    {
      value := [];
      var columns := ParseCsvLine(line);
      if |columns| > columnIndex {
        if columnIndex < 0 {
          return;
        }
        var content := TrimChar(Trim(columns[columnIndex]), '"');
        if !IsNullOrWhiteSpace(content) && |content| > MinContentLength {
          value := [content];
        }
      }
    }

    /** What the streaming importer has stored once `written` has gone to
        the store: nothing yet, or one clear followed by the batches of
        `written`, numbered from the identity value the store had. */
    ghost predicate Wrote(written: seq<string>, descriptions0: seq<Description>, next0: int, history0: seq<StoreOp>)
      reads context
    {
      if written == [] then
        && context.descriptions == descriptions0
        && context.nextDescriptionId == next0
        && context.history == history0
      else
        && context.descriptions == Numbered(next0, written)
        && context.nextDescriptionId == next0 + |written|
        && context.history == history0 + [Cleared] + Writes(Batches(written))
    }

    /** One write of the streaming importer: RemoveRange first when `clear`
        holds, then AddRange and SaveChangesAsync. The store is cleared
        exactly before the first batch. */
    method SaveBatch(batch: seq<string>, clear: bool, ghost written: seq<string>,
                     ghost descriptions0: seq<Description>, ghost next0: int, ghost history0: seq<StoreOp>)
      requires context.Valid()
      requires Wrote(written, descriptions0, next0, history0)
      requires WholeBatches(written) && 0 < |batch| <= BatchSize
      requires clear <==> written == []
      modifies context
      ensures context.Valid()
      ensures Wrote(written + batch, descriptions0, next0, history0)
      ensures context.evaluations == old(context.evaluations)
      ensures context.nextEvaluationId == old(context.nextEvaluationId)
    {
      if clear {
        context.RemoveAllDescriptions();
      }
      context.AddDescriptions(batch);
      if written == [] {
        assert written + batch == batch;
        assert [] + Numbered(next0, batch) == Numbered(next0, batch);
        assert Writes(Batches(batch)) == [Appended(batch)];
      } else {
        NumberedAppend(next0, written, batch);
        BatchesExtend(written, batch);
        WritesExtend(Batches(written), batch);
      }
    }

    /** The streaming importer's bookkeeping: `flushed` holds the values of
        the full batches written so far, `buffer` the values not yet
        written, and the store holds exactly what has been written. */
    ghost predicate Batching(buffer: seq<string>, importedCount: nat, flushed: seq<string>,
                             descriptions0: seq<Description>, next0: int, history0: seq<StoreOp>)
      reads context
    {
      && importedCount == |flushed| + |buffer|
      && |buffer| < BatchSize && WholeBatches(flushed)
      && context.Valid() && Wrote(flushed, descriptions0, next0, history0)
    }

    /** The part of the read loop's body that keeps the value of one line:
        the value, if any, goes into the buffer, and a full buffer is written
        to the store and emptied. */
    method StreamAccept(value: seq<string>, buffer0: seq<string>, importedCount0: nat,
                        ghost flushed0: seq<string>,
                        ghost descriptions0: seq<Description>, ghost next0: int, ghost history0: seq<StoreOp>)
      returns (buffer: seq<string>, importedCount: nat, ghost flushed: seq<string>)
      requires |value| <= 1
      requires Batching(buffer0, importedCount0, flushed0, descriptions0, next0, history0)
      modifies context
      ensures flushed + buffer == flushed0 + buffer0 + value
      ensures Batching(buffer, importedCount, flushed, descriptions0, next0, history0)
      ensures context.evaluations == old(context.evaluations)
      ensures context.nextEvaluationId == old(context.nextEvaluationId)
    {
      buffer, importedCount, flushed := buffer0, importedCount0, flushed0;
      if value != [] {
        buffer := buffer + value;
        importedCount := importedCount + 1;
        if |buffer| >= BatchSize {
          assert importedCount <= BatchSize <==> flushed == [];
          SaveBatch(buffer, importedCount <= BatchSize, flushed, descriptions0, next0, history0);
          WholeBatchesExtend(flushed, buffer);
          flushed := flushed + buffer;
          buffer := [];
          assert flushed + buffer == flushed0 + buffer0 + value;
        }
      } else {
        assert buffer + value == buffer;
      }
    }

    /** The read loop of ImportDescriptionsFromCsvStreamAsync over the data
        lines: the values accepted so far are the ones written in full
        batches (`flushed`) followed by the ones still in `buffer`; the loop
        stops at the end of the input or once `maxRecords` values are taken. */
    method StreamRead(data: seq<string>, columnIndex: int, maxRecords: int,
                      ghost descriptions0: seq<Description>, ghost next0: int, ghost history0: seq<StoreOp>)
      returns (buffer: seq<string>, importedCount: nat, ghost flushed: seq<string>)
      requires context.Valid() && Wrote([], descriptions0, next0, history0)
      modifies context
      ensures flushed + buffer == Limit(StreamValues(data, columnIndex), maxRecords)
      ensures Batching(buffer, importedCount, flushed, descriptions0, next0, history0)
      ensures context.evaluations == old(context.evaluations)
      ensures context.nextEvaluationId == old(context.nextEvaluationId)
    {
      ghost var parts := StreamLineValues(data, columnIndex);
      ghost var all := Concat(parts);
      buffer, importedCount := [], 0;
      flushed := [];
      ghost var collected: seq<string> := [];
      ConcatEnds(parts);
      var i := 0;
      while i < |data|
        invariant 0 <= i <= |data|
        invariant all == collected + Concat(parts[i..])
        invariant collected == flushed + buffer
        invariant maxRecords > 0 ==> importedCount <= maxRecords
        invariant Batching(buffer, importedCount, flushed, descriptions0, next0, history0)
        invariant context.evaluations == old(context.evaluations)
        invariant context.nextEvaluationId == old(context.nextEvaluationId)
      {
        var line := data[i];
        ConcatAdvance(parts, collected, i);
        StreamLineValuesAt(data, columnIndex, i);
        if IsNullOrWhiteSpace(line) {
          assert collected + parts[i] == collected;
          i := i + 1;
          continue;
        }
        if maxRecords > 0 && importedCount >= maxRecords {
          LimitReached(all, collected, Concat(parts[i..]), maxRecords);
          return;
        }
        var value := StreamLine(line, columnIndex);
        buffer, importedCount, flushed :=
          StreamAccept(value, buffer, importedCount, flushed, descriptions0, next0, history0);
        collected := collected + parts[i];
        i := i + 1;
      }
    }

    /** The write after the read loop: what is left in the buffer goes to the
        store, after a clear when it is the only batch. */
    method StreamFlush(buffer: seq<string>, importedCount: nat, ghost flushed: seq<string>,
                       ghost descriptions0: seq<Description>, ghost next0: int, ghost history0: seq<StoreOp>)
      requires Batching(buffer, importedCount, flushed, descriptions0, next0, history0)
      modifies context
      ensures context.Valid() && Wrote(flushed + buffer, descriptions0, next0, history0)
      ensures context.evaluations == old(context.evaluations)
      ensures context.nextEvaluationId == old(context.nextEvaluationId)
    {
      if buffer != [] {
        WholeBatchesSize(flushed);
        SaveBatch(buffer, importedCount <= BatchSize, flushed, descriptions0, next0, history0);
      } else {
        assert flushed + buffer == flushed;
      }
    }

    /** ImportDescriptionsFromCsvStreamAsync over the lines the reader yields
        (the first is the header). Values go to the store in batches of 1000
        and the store is cleared once, before the first batch. */
    method ImportDescriptionsFromCsvStream(lines: seq<string>, columnIndex: int, maxRecords: int)
      returns (result: Result<nat, ImportError>)
      requires context.Valid()
      modifies context
      ensures context.Valid()
      ensures context.evaluations == old(context.evaluations)
      ensures context.nextEvaluationId == old(context.nextEvaluationId)
      ensures var accepted := StreamImport(lines, columnIndex, maxRecords);
              && result == (if accepted == [] then Failure(NoLongDescriptions(ReportedColumn(columnIndex))) else Success(|accepted|))
              && Wrote(accepted, old(context.descriptions), old(context.nextDescriptionId), old(context.history))
    {
      var data := DataLines(lines);
      ghost var descriptions0, next0, history0 := context.descriptions, context.nextDescriptionId, context.history;
      var buffer, importedCount, flushed := StreamRead(data, columnIndex, maxRecords, descriptions0, next0, history0);
      StreamFlush(buffer, importedCount, flushed, descriptions0, next0, history0);
      assert flushed + buffer == StreamImport(lines, columnIndex, maxRecords);
      if importedCount == 0 {
        return Failure(NoLongDescriptions(ReportedColumn(columnIndex)));
      }
      return Success(importedCount);
    }

    /** The loop body of the string importer for one line: the line is
        trimmed and skipped when blank; otherwise the chosen column, trimmed,
        when it is not blank. A negative index makes columns[columnIndex]
        throw, which ends the import. */
    method StringLine(line: string, columnIndex: int) returns (value: Result<seq<string>, ImportError>)
      ensures value == StringLineValue(line, columnIndex)
    {
      value := Success([]);
      var trimmed := Trim(line);
      if IsNullOrWhiteSpace(trimmed) {
        return;
      }
      var columns := ParseCsvLine(trimmed);
      if |columns| > columnIndex {
        if columnIndex < 0 {
          return Failure(IndexOutOfRange);
        }
        var content := TrimChar(Trim(columns[columnIndex]), '"');
        if !IsNullOrWhiteSpace(content) {
          value := Success([content]);
        }
      }
    }

    /** The loop of the string importer over the lines after the header:
        the values found, in order, or the error of the first line that
        throws. */
    method ReadDescriptions(data: seq<string>, columnIndex: int) returns (values: Result<seq<string>, ImportError>)
      ensures values == StringValues(data, columnIndex)
    {
      ghost var results := StringLineResults(data, columnIndex);
      var descriptions: seq<string> := [];
      GatherEnds(results, descriptions);
      for i := 0 to |data|
        invariant Gather(results) == Prepend(descriptions, Gather(results[i..]))
      {
        GatherAdvance(results, descriptions, i);
        StringLineResultsAt(data, columnIndex, i);
        var value := StringLine(data[i], columnIndex);
        if value.Failure? {
          return Failure(value.error);
        }
        descriptions := descriptions + value.value;
      }
      GatherEnds(results, descriptions);
      return Success(descriptions);
    }

    /** ImportDescriptionsFromCsvAsync: splits the text on line feeds, drops
        empty lines and the header, and replaces the store's descriptions
        with the values found, in one write. On an error the store is left
        as it was. */
    method ImportDescriptionsFromCsv(csvContent: string, columnIndex: int) returns (result: Outcome<ImportError>)
      requires context.Valid()
      modifies context
      ensures context.Valid()
      ensures context.evaluations == old(context.evaluations)
      ensures context.nextEvaluationId == old(context.nextEvaluationId)
      ensures var outcome := StringImport(csvContent, columnIndex);
              outcome.Failure? ==>
                && result == Fail(outcome.error)
                && context.descriptions == old(context.descriptions)
                && context.nextDescriptionId == old(context.nextDescriptionId)
                && context.history == old(context.history)
      ensures var outcome := StringImport(csvContent, columnIndex);
              outcome.Success? ==>
                && result == Pass
                && context.descriptions == Numbered(old(context.nextDescriptionId), outcome.value)
                && context.nextDescriptionId == old(context.nextDescriptionId) + |outcome.value|
                && context.history == old(context.history) + [Cleared, Appended(outcome.value)]
    {
      var lines := SplitLines(csvContent);
      if |lines| == 0 {
        return Fail(CsvEmpty);
      }
      var values := ReadDescriptions(lines[1..], columnIndex);
      if values.Failure? {
        return Fail(values.error);
      }
      var descriptions := values.value;
      if descriptions == [] {
        return Fail(NoValidDescriptions(ReportedColumn(columnIndex)));
      }
      context.RemoveAllDescriptions();
      context.AddDescriptions(descriptions);
      return Pass;
    }
  }
}
