/** The checksum checker over any number of runs. */
module Checker {
  import opened Prelude

  const DEFAULT_DIGEST_ALGORITHM := "MD5"

  datatype Result =
    | ChecksumMatch
    | ChecksumNoMatch
    | ChecksumPrevNotFound
    | InfoNotFound
    | NotProcessed
    | MarkedDeleted
    | BitstreamNotFound
    | AlgorithmInvalid

  /** What the database holds about a bitstream. */
  datatype Info = Info(stored: Option<string>, algorithm: Option<string>, deleted: bool, toBeProcessed: bool,
                       calculated: Option<string>, result: Option<Result>)

  /** What the asset store gives when asked for a bitstream: its digests, one
      for each algorithm there is, or an error. */
  datatype Fetched = Stream(digests: map<string, string>) | StoreError | SqlError

  datatype HistoryRow = HistoryRow(id: int, result: Result, calculated: Option<string>)

  datatype State = State(records: map<int, Info>, history: seq<HistoryRow>)

  // ---------- one check

  function Compare(a: Option<string>, b: Option<string>): Result {
    if a.None? || b.None? then ChecksumPrevNotFound else if a == b then ChecksumMatch else ChecksumNoMatch
  }

  function Processed(info: Info, fetched: Fetched): Info {
    var algorithm := if info.algorithm.Some? then info.algorithm.value else DEFAULT_DIGEST_ALGORITHM;
    var named := info.(algorithm := Some(algorithm));
    match fetched
    case StoreError => named.(result := Some(BitstreamNotFound), toBeProcessed := false)
    case SqlError => named.(result := Some(InfoNotFound))
    case Stream(digests) =>
      if algorithm !in digests then named.(result := Some(AlgorithmInvalid), toBeProcessed := false)
      else named.(calculated := Some(digests[algorithm]),
                  result := Some(Compare(info.stored, Some(digests[algorithm]))))
  }

  function Checked(info: Info, fetched: Fetched): Info
    requires info.toBeProcessed
  {
    if info.deleted then info.(result := Some(MarkedDeleted), toBeProcessed := false) else Processed(info, fetched)
  }

  function Check(s: State, id: int, fetched: Fetched): State {
    if id in s.records && s.records[id].toBeProcessed then
      var info := Checked(s.records[id], fetched);
      State(s.records[id := info], s.history + [HistoryRow(id, info.result.value, info.calculated)])
    else s
  }

  function ResultOf(s: State, id: int, fetched: Fetched): Result {
    if id !in s.records then InfoNotFound
    else if !s.records[id].toBeProcessed then NotProcessed
    else Checked(s.records[id], fetched).result.value
  }

  // ---------- the checker

  /** A dispatched id, and what the store gives for it at that moment. */
  datatype Dispatch = Dispatch(id: int, fetched: Fetched)

  function CheckAll(s: State, dispatched: seq<Dispatch>): State {
    if dispatched == [] then s
    else
      var last := dispatched[|dispatched| - 1];
      Check(CheckAll(s, dispatched[..|dispatched| - 1]), last.id, last.fetched)
  }

  /** The bitstreams that have no record yet get their first one. */
  function AddMissing(s: State, missing: seq<(int, Info)>): State {
    if missing == [] then s
    else
      var before, (id, info) := AddMissing(s, missing[..|missing| - 1]), missing[|missing| - 1];
      if id in before.records then before else before.(records := before.records[id := info])
  }

  /** The results reported: those that are not a match, or all of them. */
  function Report(s: State, dispatched: seq<Dispatch>, verbose: bool): seq<(int, Result)> {
    if dispatched == [] then []
    else
      var init, last := dispatched[..|dispatched| - 1], dispatched[|dispatched| - 1];
      var result := ResultOf(CheckAll(s, init), last.id, last.fetched);
      Report(s, init, verbose) + if verbose || result != ChecksumMatch then [(last.id, result)] else []
  }

  class CheckerCommand {
    var records: map<int, Info>
    var history: seq<HistoryRow>
    var collected: seq<(int, Result)>
    const reportVerbose: bool

    ghost function Current(): State
      reads this
    {
      State(records, history)
    }

    constructor (records: map<int, Info>, reportVerbose: bool)
      ensures Current() == State(records, []) && collected == [] && this.reportVerbose == reportVerbose
    {
      this.records, this.reportVerbose := records, reportVerbose;
      history, collected := [], [];
    }

    /** The update and the history row that end every check of a live bitstream. */
    method Record(id: int, info: Info)
      requires info.result.Some?
      modifies `records, `history
      ensures records == old(records)[id := info]
      ensures history == old(history) + [HistoryRow(id, info.result.value, info.calculated)]
    {
      records := records[id := info];
      history := history + [HistoryRow(id, info.result.value, info.calculated)];
    }

    method ProcessDeletedBitstream(id: int, info: Info)
      modifies `records, `history
      ensures records == old(records)[id := info.(result := Some(MarkedDeleted), toBeProcessed := false)]
      ensures history == old(history) + [HistoryRow(id, MarkedDeleted, info.calculated)]
    {
      Record(id, info.(result := Some(MarkedDeleted), toBeProcessed := false));
    }

    method ProcessBitstream(id: int, given: Info, fetched: Fetched) returns (result: Result)
      modifies `records, `history
      ensures var info := Processed(given, fetched);
        && Some(result) == info.result && records == old(records)[id := info]
        && history == old(history) + [HistoryRow(id, result, info.calculated)]
    {
      var info := given;
      if info.algorithm.None? { info := info.(algorithm := Some(DEFAULT_DIGEST_ALGORITHM)); }
      match fetched {
        case StoreError =>
          info := info.(result := Some(BitstreamNotFound), toBeProcessed := false);
        case SqlError =>
          info := info.(result := Some(InfoNotFound));
        case Stream(digests) =>
          if info.algorithm.value in digests {
            info := info.(calculated := Some(digests[info.algorithm.value]));
            info := info.(result := Some(Compare(info.stored, info.calculated)));
          } else {
            info := info.(result := Some(AlgorithmInvalid), toBeProcessed := false);
          }
      }
      result := info.result.value;
      Record(id, info);
    }

    method CheckBitstream(id: int, fetched: Fetched) returns (result: Result)
      modifies `records, `history
      ensures Current() == Check(old(Current()), id, fetched)
      ensures result == ResultOf(old(Current()), id, fetched)
    {
      if id !in records {
        result := InfoNotFound;
      } else if !records[id].toBeProcessed {
        result := NotProcessed;
      } else if records[id].deleted {
        ProcessDeletedBitstream(id, records[id]);
        result := MarkedDeleted;
      } else {
        result := ProcessBitstream(id, records[id], fetched);
      }
    }

    method UpdateMissingBitstreams(missing: seq<(int, Info)>)
      modifies `records
      ensures Current() == AddMissing(old(Current()), missing)
    {
      var i := 0;
      while i < |missing|
        invariant 0 <= i <= |missing|
        invariant Current() == AddMissing(old(Current()), missing[..i])
      {
        assert missing[..i + 1][..i] == missing[..i];
        var (id, info) := missing[i];
        if id !in records { records := records[id := info]; }
        i := i + 1;
      }
      assert missing[..i] == missing;
    }

    /** `process`: first records for the bitstreams that have none, and then the
        ids the dispatcher gives, until its sentinel. */
    method Process(missing: seq<(int, Info)>, dispatched: seq<Dispatch>)
      modifies this
      ensures Current() == CheckAll(AddMissing(old(Current()), missing), dispatched)
      ensures collected == old(collected) + Report(AddMissing(old(Current()), missing), dispatched, reportVerbose)
    {
      UpdateMissingBitstreams(missing);
      ghost var start := Current();
      var i := 0;
      while i < |dispatched|
        invariant 0 <= i <= |dispatched|
        invariant Current() == CheckAll(start, dispatched[..i])
        invariant collected == old(collected) + Report(start, dispatched[..i], reportVerbose)
      {
        assert dispatched[..i + 1][..i] == dispatched[..i];
        var result := CheckBitstream(dispatched[i].id, dispatched[i].fetched);
        if reportVerbose || result != ChecksumMatch { collected := collected + [(dispatched[i].id, result)]; }
        i := i + 1;
      }
      assert dispatched[..i] == dispatched;
    }
  }

  // ---------- all runs

  /** What happens to a bitstream besides being checked: its first record, at
      the start of a run, and changes that leave the processing flag alone. */
  datatype Event =
    | Checking(dispatch: Dispatch)
    | Missing(id: int, info: Info)
    | Changing(id: int, stored: Option<string>, algorithm: Option<string>, deleted: bool)

  function Step(s: State, e: Event): State {
    match e
    case Checking(d) => Check(s, d.id, d.fetched)
    case Missing(id, info) => if id in s.records then s else s.(records := s.records[id := info])
    case Changing(id, stored, algorithm, deleted) =>
      if id !in s.records then s
      else s.(records := s.records[id := s.records[id].(stored := stored, algorithm := algorithm, deleted := deleted)])
  }

  function Run(s: State, events: seq<Event>): State {
    if events == [] then s else Step(Run(s, events[..|events| - 1]), events[|events| - 1])
  }

  function MissingEvents(missing: seq<(int, Info)>): seq<Event> {
    if missing == [] then []
    else MissingEvents(missing[..|missing| - 1]) + [Missing(missing[|missing| - 1].0, missing[|missing| - 1].1)]
  }

  function CheckingEvents(dispatched: seq<Dispatch>): seq<Event> {
    if dispatched == [] then []
    else CheckingEvents(dispatched[..|dispatched| - 1]) + [Checking(dispatched[|dispatched| - 1])]
  }

  lemma RunNext(s: State, events: seq<Event>, e: Event)
    ensures Run(s, events + [e]) == Step(Run(s, events), e)
  {
    assert (events + [e])[..|events|] == events;
  }

  lemma {:induction false} RunBoth(s: State, first: seq<Event>, second: seq<Event>)
    ensures Run(s, first + second) == Run(Run(s, first), second)
    decreases |second|
  {
    if second == [] {
      assert first + second == first;
    } else {
      var init, last := second[..|second| - 1], second[|second| - 1];
      RunBoth(s, first, init);
      RunNext(s, first + init, last);
      assert first + init + [last] == first + second;
    }
  }

  lemma {:induction false} MissingRun(s: State, missing: seq<(int, Info)>)
    ensures AddMissing(s, missing) == Run(s, MissingEvents(missing))
    decreases |missing|
  {
    if missing != [] {
      var init, last := missing[..|missing| - 1], missing[|missing| - 1];
      MissingRun(s, init);
      RunNext(s, MissingEvents(init), Missing(last.0, last.1));
    }
  }

  lemma {:induction false} CheckingRun(s: State, dispatched: seq<Dispatch>)
    ensures CheckAll(s, dispatched) == Run(s, CheckingEvents(dispatched))
    decreases |dispatched|
  {
    if dispatched != [] {
      var init := dispatched[..|dispatched| - 1];
      CheckingRun(s, init);
      RunNext(s, CheckingEvents(init), Checking(dispatched[|dispatched| - 1]));
    }
  }

  /** One call of the checker is a run of events: what holds of all runs holds
      of any number of calls, with changes by others between them. */
  lemma ProcessIsRun(s: State, missing: seq<(int, Info)>, dispatched: seq<Dispatch>)
    ensures CheckAll(AddMissing(s, missing), dispatched) == Run(s, MissingEvents(missing) + CheckingEvents(dispatched))
  {
    MissingRun(s, missing);
    CheckingRun(AddMissing(s, missing), dispatched);
    RunBoth(s, MissingEvents(missing), CheckingEvents(dispatched));
  }

  function Lookup(s: State, id: int): Option<Info> {
    if id in s.records then Some(s.records[id]) else None
  }

  /** One bitstream on its own: what an event makes of its record, and the
      history rows it adds. */
  function StepOne(id: int, info: Option<Info>, e: Event): (Option<Info>, seq<HistoryRow>) {
    match e
    case Checking(d) =>
      if d.id == id && info.Some? && info.value.toBeProcessed then
        var after := Checked(info.value, d.fetched);
        (Some(after), [HistoryRow(id, after.result.value, after.calculated)])
      else (info, [])
    case Missing(other, first) => (if other == id && info.None? then Some(first) else info, [])
    case Changing(other, stored, algorithm, deleted) =>
      if other == id && info.Some? then
        (Some(info.value.(stored := stored, algorithm := algorithm, deleted := deleted)), [])
      else (info, [])
  }

  function RunOne(id: int, info: Option<Info>, events: seq<Event>): (Option<Info>, seq<HistoryRow>) {
    if events == [] then (info, [])
    else
      var (before, rows) := RunOne(id, info, events[..|events| - 1]);
      var (after, more) := StepOne(id, before, events[|events| - 1]);
      (after, rows + more)
  }

  function RowsOf(id: int, history: seq<HistoryRow>): seq<HistoryRow> {
    if history == [] then []
    else
      var rows, last := RowsOf(id, history[..|history| - 1]), history[|history| - 1];
      if last.id == id then rows + [last] else rows
  }

  lemma RowsOfNext(id: int, history: seq<HistoryRow>, row: HistoryRow)
    ensures RowsOf(id, history + [row]) == if row.id == id then RowsOf(id, history) + [row] else RowsOf(id, history)
  {
    assert (history + [row])[..|history|] == history;
  }

  /** Bitstreams do not interfere: each one's record and history are what it
      would have on its own, whatever else is dispatched in between. */
  lemma {:induction false} RunProjects(s: State, events: seq<Event>, id: int)
    ensures var one := RunOne(id, Lookup(s, id), events);
      && Lookup(Run(s, events), id) == one.0
      && RowsOf(id, Run(s, events).history) == RowsOf(id, s.history) + one.1
    decreases |events|
  {
    var before := RowsOf(id, s.history);
    if events == [] {
      assert before + [] == before;
    } else {
      var init, last := events[..|events| - 1], events[|events| - 1];
      RunProjects(s, init, id);
      var mid, one := Run(s, init), RunOne(id, Lookup(s, id), init);
      var more := StepOne(id, one.0, last).1;
      assert (before + one.1) + more == before + (one.1 + more);
      if last.Checking? && last.dispatch.id in mid.records && mid.records[last.dispatch.id].toBeProcessed {
        var after := Step(mid, last);
        RowsOfNext(id, mid.history, after.history[|mid.history|]);
      } else {
        assert more == [];
      }
    }
  }

  /** A check that finds the bitstream deleted, or missing from the store, or
      with an algorithm there is not, is its last. */
  predicate Final(info: Info, fetched: Fetched) {
    || info.deleted || fetched.StoreError?
    || (fetched.Stream?
         && (if info.algorithm.Some? then info.algorithm.value else DEFAULT_DIGEST_ALGORITHM) !in fetched.digests)
  }

  lemma FinalStops(info: Info, fetched: Fetched)
    requires info.toBeProcessed
    ensures Checked(info, fetched).toBeProcessed <==> !Final(info, fetched)
  {
  }

  /** The flag is never set back: from then on nothing is recorded. */
  lemma {:induction false} NeverRevived(id: int, info: Info, events: seq<Event>)
    requires !info.toBeProcessed
    ensures var one := RunOne(id, Some(info), events);
      one.0.Some? && !one.0.value.toBeProcessed && one.1 == []
    decreases |events|
  {
    if events != [] { NeverRevived(id, info, events[..|events| - 1]); }
  }

  function ChecksOf(id: int, events: seq<Event>): nat {
    if events == [] then 0
    else
      var last := events[|events| - 1];
      ChecksOf(id, events[..|events| - 1]) + if last.Checking? && last.dispatch.id == id then 1 else 0
  }

  /** Every check of a bitstream adds one row, for as long as it is to be processed. */
  lemma {:induction false} OneRowEach(id: int, info: Info, events: seq<Event>)
    requires RunOne(id, Some(info), events).0.Some? && RunOne(id, Some(info), events).0.value.toBeProcessed
    ensures |RunOne(id, Some(info), events).1| == ChecksOf(id, events)
    decreases |events|
  {
    if events != [] {
      var init := events[..|events| - 1];
      StillThere(id, info, init);
      OneRowEach(id, info, init);
    }
  }

  lemma {:induction false} StillThere(id: int, info: Info, events: seq<Event>)
    ensures RunOne(id, Some(info), events).0.Some?
    decreases |events|
  {
    if events != [] { StillThere(id, info, events[..|events| - 1]); }
  }

  /** After its last check a bitstream adds no more rows, in this run or any later one. */
  lemma NothingAfterFinal(s: State, d: Dispatch, later: seq<Event>)
    requires d.id in s.records && s.records[d.id].toBeProcessed && Final(s.records[d.id], d.fetched)
    ensures var checked := Check(s, d.id, d.fetched);
      && |RowsOf(d.id, checked.history)| == |RowsOf(d.id, s.history)| + 1
      && RowsOf(d.id, Run(checked, later).history) == RowsOf(d.id, checked.history)
  {
    var checked := Check(s, d.id, d.fetched);
    FinalStops(s.records[d.id], d.fetched);
    RowsOfNext(d.id, s.history, checked.history[|s.history|]);
    RunProjects(checked, later, d.id);
    NeverRevived(d.id, checked.records[d.id], later);
    assert RowsOf(d.id, checked.history) + [] == RowsOf(d.id, checked.history);
  }
}
