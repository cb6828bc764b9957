/** The outcomes of the checksum checker, said of the record and the store. */
module CheckerLaws {
  import opened Checker
  import opened Prelude

  /** The algorithm of the record, or MD5. */
  function AlgorithmOf(info: Info): string {
    match info.algorithm case Some(name) => name case None => "MD5"
  }

  /** The store has the bitstream, and a digest of it. */
  predicate Digested(info: Info, fetched: Fetched) {
    info.toBeProcessed && !info.deleted && fetched.Stream? && AlgorithmOf(info) in fetched.digests
  }

  /** The result, and when it is which: a match exactly for equal checksums. */
  lemma ResultIff(s: State, id: int, fetched: Fetched)
    ensures id !in s.records ==> ResultOf(s, id, fetched) == InfoNotFound
    ensures id in s.records ==>
      var info, result := s.records[id], ResultOf(s, id, fetched);
      && (result == ChecksumMatch <==>
            Digested(info, fetched) && info.stored == Some(fetched.digests[AlgorithmOf(info)]))
      && (result == ChecksumNoMatch <==>
            Digested(info, fetched) && info.stored.Some? && info.stored.value != fetched.digests[AlgorithmOf(info)])
      && (result == ChecksumPrevNotFound <==> Digested(info, fetched) && info.stored.None?)
      && (result == NotProcessed <==> !info.toBeProcessed)
      && (result == MarkedDeleted <==> info.toBeProcessed && info.deleted)
      && (result == BitstreamNotFound <==> info.toBeProcessed && !info.deleted && fetched.StoreError?)
      && (result == InfoNotFound <==> info.toBeProcessed && !info.deleted && fetched.SqlError?)
      && (result == AlgorithmInvalid <==>
            info.toBeProcessed && !info.deleted && fetched.Stream? && AlgorithmOf(info) !in fetched.digests)
  {
  }

  /** A comparison needs both checksums. */
  lemma CompareIff(a: Option<string>, b: Option<string>)
    ensures Compare(a, b) == ChecksumMatch <==> a.Some? && b.Some? && a.value == b.value
    ensures Compare(a, b) == ChecksumNoMatch <==> a.Some? && b.Some? && a.value != b.value
    ensures Compare(a, b) == ChecksumPrevNotFound <==> a.None? || b.None?
  {
  }

  /** The record after a check: the result, the digest if there is one, the flag
      cleared unless another check can come to another result, and nothing else
      but the name of the algorithm. */
  lemma RecordAfter(s: State, id: int, fetched: Fetched)
    requires id in s.records && s.records[id].toBeProcessed
    ensures var before, after := s.records[id], Check(s, id, fetched);
      && after.records.Keys == s.records.Keys
      && (forall other | other in s.records && other != id :: after.records[other] == s.records[other])
      && var record := after.records[id];
         && record.stored == before.stored && record.deleted == before.deleted
         && record.result == Some(ResultOf(s, id, fetched))
         && record.algorithm == (if before.deleted then before.algorithm else Some(AlgorithmOf(before)))
         && record.calculated
            == (if Digested(before, fetched) then Some(fetched.digests[AlgorithmOf(before)]) else before.calculated)
         && (record.toBeProcessed <==> !before.deleted && (fetched.SqlError? || Digested(before, fetched)))
         && after.history == s.history + [HistoryRow(id, ResultOf(s, id, fetched), record.calculated)]
  {
  }

  lemma OthersNotChecked(s: State, id: int, fetched: Fetched)
    requires id in s.records ==> !s.records[id].toBeProcessed
    ensures Check(s, id, fetched) == s
  {
  }

  /** What the report holds, in the order of the checks: every result if it is
      verbose, and those that are not a match if it is not. */
  lemma {:induction false} ReportIs(s: State, dispatched: seq<Dispatch>, verbose: bool) returns (at: seq<nat>)
    ensures forall m, n | 0 <= m < n < |at| :: at[m] < at[n]
    ensures forall m | 0 <= m < |at| :: at[m] < |dispatched|
    ensures |Report(s, dispatched, verbose)| == |at|
    ensures forall m | 0 <= m < |at| :: Reported(s, dispatched, at[m]) == Report(s, dispatched, verbose)[m]
    ensures forall i: nat | i < |dispatched| :: i in at <==> verbose || Reported(s, dispatched, i).1 != ChecksumMatch
    decreases |dispatched|
  {
    at := [];
    if dispatched != [] {
      var last := |dispatched| - 1;
      var init := dispatched[..last];
      at := ReportIs(s, init, verbose);
      ReportedEarlier(s, dispatched);
      if verbose || Reported(s, dispatched, last).1 != ChecksumMatch {
        OneMoreAt(at, last);
        at := at + [last];
      }
    }
  }

  /** What the check at this place in the order has to report. */
  function Reported(s: State, dispatched: seq<Dispatch>, i: nat): (int, Result)
    requires i < |dispatched|
  {
    (dispatched[i].id, ResultOf(CheckAll(s, dispatched[..i]), dispatched[i].id, dispatched[i].fetched))
  }

  lemma ReportedEarlier(s: State, dispatched: seq<Dispatch>)
    requires dispatched != []
    ensures var init := dispatched[..|dispatched| - 1];
      forall i: nat | i < |init| :: Reported(s, dispatched, i) == Reported(s, init, i)
  {
    var init := dispatched[..|dispatched| - 1];
    forall i: nat | i < |init| ensures Reported(s, dispatched, i) == Reported(s, init, i) {
      assert init[..i] == dispatched[..i];
    }
  }

  /** Records there are stay, and a bitstream without one gets the first given for it. */
  lemma {:induction false} MissingAdded(s: State, missing: seq<(int, Info)>, id: int)
    ensures var after := AddMissing(s, missing);
      && after.history == s.history
      && (id in s.records ==> id in after.records && after.records[id] == s.records[id])
      && (id !in s.records && id in after.records ==>
            exists i | 0 <= i < |missing| :: missing[i] == (id, after.records[id])
              && forall j | 0 <= j < i :: missing[j].0 != id)
      && (id in after.records || forall i | 0 <= i < |missing| :: missing[i].0 != id)
    decreases |missing|
  {
    if missing != [] {
      var init := missing[..|missing| - 1];
      MissingAdded(s, init, id);
      var before, after := AddMissing(s, init), AddMissing(s, missing);
      if id !in s.records && id in before.records {
        var i :| 0 <= i < |init| && init[i] == (id, before.records[id]) && forall j | 0 <= j < i :: init[j].0 != id;
        assert missing[i] == (id, after.records[id]) && forall j | 0 <= j < i :: missing[j] == init[j];
      } else if id !in before.records && id in after.records {
        assert forall j | 0 <= j < |init| :: missing[j] == init[j];
        assert missing[|init|] == (id, after.records[id]);
      }
    }
  }
}
