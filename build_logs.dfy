/** The incremental build-log reader of components/build-logs-container.tsx:
    a cursor over the log endpoint that appends each fetched batch, counts
    consecutive empty fetches and stops on a success marker, after too many
    empty fetches, or on a fetch error. The fetch itself is an input
    (`FetchResult`); the timer that repeats it is not modelled. */
module BuildLogs {
  import opened Wrappers
  import opened Text

  /** The optional `type` of a log record. */
  datatype LogType = Info | Warn | Error | Success

  function TypeName(t: LogType): (r: string)
    ensures r != []
  {
    match t
    case Info => "info"
    case Warn => "warn"
    case Error => "error"
    case Success => "success"
  }

  /** One record of the log endpoint (components/build-logs-container.tsx:12-21). */
  datatype LogItem = LogItem(
    eventId: string,
    projectId: Option<string>,
    deploymentId: string,
    timestamp: string,
    log: string,
    logType: Option<LogType>,
    step: Option<string>,
    meta: Option<string>)

  /** Milliseconds between two polls; the timer itself is not modelled. */
  const PollingInterval: nat := 3000
  /** Consecutive empty fetches after which the reader gives up. */
  const MaxEmptyFetches: nat := 5
  /** The cursor a fresh reader starts from. */
  const InitialCursor: string := "1970-01-01 00:00:00"
  const FetchErrorMessage: string := "Error fetching logs."
  /** The `limit` query parameter of every request. */
  const FetchLimit: nat := 200

  /** What one `fetchLogs` call got: a thrown error (network failure, a non-ok
      status or an unreadable body), or a batch (`[]` when the body has no
      `data.logs`). */
  datatype FetchResult = FetchFailed | Fetched(batch: seq<LogItem>)

  /** The completion signal a reader looks for in a record. */
  predicate MarksSuccess(item: LogItem) {
    item.logType == Some(Success) || Contains(Lower(item.log), "successfully")
  }

  /** The component's state: its React state plus the two refs. */
  datatype ReaderState = ReaderState(
    logs: seq<LogItem>,
    lastTimestamp: string,
    emptyFetchCount: nat,
    isFinished: bool,
    isLoading: bool,
    error: string,
    refreshCounter: nat)

  /** The state on mount. */
  function Initial(): (s: ReaderState)
    ensures ValidState(s) && !s.isFinished && s.logs == []
  {
    ReaderState([], InitialCursor, 0, false, true, "", 0)
  }

  /** The invariant every reachable state keeps: the cursor is the timestamp
      of the last record held (the initial cursor while none is held), and an
      unfinished reader has seen fewer than `MaxEmptyFetches` empty fetches in
      a row. */
  predicate ValidState(s: ReaderState) {
    && (s.logs == [] ==> s.lastTimestamp == InitialCursor)
    && (s.logs != [] ==> s.lastTimestamp == s.logs[|s.logs| - 1].timestamp)
    && s.emptyFetchCount <= MaxEmptyFetches
    && (!s.isFinished ==> s.emptyFetchCount < MaxEmptyFetches)
  }

  /** `fetchLogs` (components/build-logs-container.tsx:39-71) as a function of
      the state before the call and what the fetch returned. */
  function Step(s: ReaderState, r: FetchResult): (t: ReaderState)
    ensures s.isFinished ==> t == s
    ensures s.logs <= t.logs
    ensures t.refreshCounter == s.refreshCounter
    ensures ValidState(s) ==> ValidState(t)
  {
    if s.isFinished then s
    else match r
      case FetchFailed => s.(error := FetchErrorMessage, isFinished := true)
      case Fetched(batch) =>
        if |batch| > 0 then
          var last := batch[|batch| - 1];
          s.(logs := s.logs + batch, lastTimestamp := last.timestamp, emptyFetchCount := 0,
             isFinished := MarksSuccess(last), isLoading := false)
        else
          s.(emptyFetchCount := s.emptyFetchCount + 1,
             isFinished := s.emptyFetchCount + 1 >= MaxEmptyFetches, isLoading := false)
  }

  /** `refreshLogs` (components/build-logs-container.tsx:86-93), as written:
      it does not clear `error`. */
  function Refresh(s: ReaderState): (t: ReaderState)
    ensures ValidState(t) && !t.isFinished && t.logs == []
    ensures t.refreshCounter == s.refreshCounter + 1 && t.error == s.error
  {
    s.(logs := [], lastTimestamp := InitialCursor, emptyFetchCount := 0,
       isFinished := false, isLoading := true, refreshCounter := s.refreshCounter + 1)
  }

  /** `refreshLogs` as evidently intended: it also clears the error of the
      previous run, so that it restores the state on mount. */
  function RefreshClearingError(s: ReaderState): (t: ReaderState)
    ensures t == Initial().(refreshCounter := s.refreshCounter + 1)
  {
    Refresh(s).(error := "")
  }

  /** The refresh button is enabled only while the reader is not loading
      (components/build-logs-container.tsx:105-107). */
  predicate RefreshEnabled(s: ReaderState) {
    !s.isLoading
  }

  /** A failed fetch leaves `isLoading` as it was: when the very first fetch
      fails, the reader is finished, shows the error and keeps its refresh
      button disabled, whatever later fetches would return. */
  lemma FirstFailureLocksRefresh(rs: seq<FetchResult>)
    ensures var t := Run(Step(Initial(), FetchFailed), rs);
      t.error == FetchErrorMessage && t.isFinished && !RefreshEnabled(t)
  {
    RunFinished(Step(Initial(), FetchFailed), rs);
  }

  /** As written, an error survives a refresh: after a batch, a failed fetch,
      a refresh (enabled, since the batch ended the loading state) and a
      fetch that delivers a record, the reader still carries the old error
      message, and the component keeps showing it above the new records. */
  lemma StaleErrorAfterRefresh(first: LogItem, next: LogItem)
    requires !MarksSuccess(first)
    ensures var failed := Step(Step(Initial(), Fetched([first])), FetchFailed);
      && RefreshEnabled(failed)
      && var t := Step(Refresh(failed), Fetched([next]));
      && t.logs == [next] && t.error == FetchErrorMessage
  {
  }

  /** With the corrected refresh, a run shows an error only if one of its own
      fetches failed. */
  lemma CorrectedRefreshForgetsError(s: ReaderState, rs: seq<FetchResult>)
    requires forall i :: 0 <= i < |rs| ==> rs[i] != FetchFailed
    ensures Run(RefreshClearingError(s), rs).error == ""
  {
    RunKeepsNoError(RefreshClearingError(s), rs);
  }

  lemma {:induction false} RunKeepsNoError(s: ReaderState, rs: seq<FetchResult>)
    requires s.error == ""
    requires forall i :: 0 <= i < |rs| ==> rs[i] != FetchFailed
    ensures Run(s, rs).error == ""
    decreases |rs|
  {
    if rs != [] {
      RunKeepsNoError(Step(s, rs[0]), rs[1..]);
    }
  }

  /** The state after a sequence of fetches. */
  function Run(s: ReaderState, rs: seq<FetchResult>): ReaderState
    decreases |rs|
  {
    if rs == [] then s else Run(Step(s, rs[0]), rs[1..])
  }

  /** `n` fetches that each returned no records. */
  function EmptyFetches(n: nat): (rs: seq<FetchResult>)
    ensures |rs| == n
    ensures forall i :: 0 <= i < n ==> rs[i] == Fetched([])
  {
    if n == 0 then [] else [Fetched([])] + EmptyFetches(n - 1)
  }

  /** A finished reader stays as it is, whatever later fetches return. */
  lemma {:induction false} RunFinished(s: ReaderState, rs: seq<FetchResult>)
    requires s.isFinished
    ensures Run(s, rs) == s
    decreases |rs|
  {
    if rs != [] { RunFinished(Step(s, rs[0]), rs[1..]); }
  }

  /** Between two refreshes records are only ever appended: what was shown
      stays, in the same order, at the front. The invariant is kept. */
  lemma {:induction false} RunAppendsOnly(s: ReaderState, rs: seq<FetchResult>)
    ensures s.logs <= Run(s, rs).logs
    ensures ValidState(s) ==> ValidState(Run(s, rs))
    decreases |rs|
  {
    if rs != [] {
      RunAppendsOnly(Step(s, rs[0]), rs[1..]);
    }
  }

  /** The records held after a run are the records before it followed by the
      batches fetched while the reader was still unfinished. */
  function Delivered(s: ReaderState, rs: seq<FetchResult>): seq<LogItem>
    decreases |rs|
  {
    if rs == [] || s.isFinished then []
    else (if rs[0].Fetched? then rs[0].batch else []) + Delivered(Step(s, rs[0]), rs[1..])
  }

  lemma {:induction false} RunLogs(s: ReaderState, rs: seq<FetchResult>)
    ensures Run(s, rs).logs == s.logs + Delivered(s, rs)
    decreases |rs|
  {
    if rs == [] {
      assert s.logs + [] == s.logs;
    } else if s.isFinished {
      RunFinished(s, rs);
      assert s.logs + [] == s.logs;
    } else {
      var t := Step(s, rs[0]);
      RunLogs(t, rs[1..]);
      assert t.logs == s.logs + (if rs[0].Fetched? then rs[0].batch else []);
    }
  }

  /** Empty fetches from an unfinished reader count up one at a time, leave
      the records and the cursor alone, and finish the reader exactly when
      the count reaches `MaxEmptyFetches`. */
  lemma {:induction false} EmptyFetchesCount(s: ReaderState, n: nat)
    requires ValidState(s) && !s.isFinished
    requires s.emptyFetchCount + n <= MaxEmptyFetches
    ensures var t := Run(s, EmptyFetches(n));
      && t.emptyFetchCount == s.emptyFetchCount + n
      && (t.isFinished <==> s.emptyFetchCount + n == MaxEmptyFetches)
      && t.logs == s.logs && t.lastTimestamp == s.lastTimestamp
    decreases n
  {
    if n > 0 {
      var rs := EmptyFetches(n);
      assert rs[1..] == EmptyFetches(n - 1);
      var t := Step(s, Fetched([]));
      assert t.emptyFetchCount == s.emptyFetchCount + 1;
      if n == 1 {
        assert Run(s, rs) == Run(t, []);
      } else {
        EmptyFetchesCount(t, n - 1);
      }
    }
  }

  /** Bounded polling: whatever state an unfinished reader is in, five
      consecutive empty fetches finish it, and from a fresh count four do not. */
  lemma FiveEmptyFetchesFinish(s: ReaderState)
    requires ValidState(s) && !s.isFinished
    ensures Run(s, EmptyFetches(MaxEmptyFetches)).isFinished
    ensures s.emptyFetchCount == 0 ==> !Run(s, EmptyFetches(MaxEmptyFetches - 1)).isFinished
  {
    var k := MaxEmptyFetches - s.emptyFetchCount;
    EmptyFetchesCount(s, k);
    var rs := EmptyFetches(MaxEmptyFetches);
    assert rs == EmptyFetches(k) + EmptyFetches(s.emptyFetchCount) by {
      EmptyFetchesSplit(k, s.emptyFetchCount);
    }
    RunAppend(s, EmptyFetches(k), EmptyFetches(s.emptyFetchCount));
    RunFinished(Run(s, EmptyFetches(k)), EmptyFetches(s.emptyFetchCount));
    if s.emptyFetchCount == 0 {
      EmptyFetchesCount(s, MaxEmptyFetches - 1);
    }
  }

  lemma EmptyFetchesSplit(a: nat, b: nat)
    ensures EmptyFetches(a + b) == EmptyFetches(a) + EmptyFetches(b)
  {
  }

  lemma {:induction false} RunAppend(s: ReaderState, xs: seq<FetchResult>, ys: seq<FetchResult>)
    ensures Run(s, xs + ys) == Run(Run(s, xs), ys)
    decreases |xs|
  {
    if xs == [] {
      assert xs + ys == ys;
    } else {
      assert (xs + ys)[1..] == xs[1..] + ys;
      RunAppend(Step(s, xs[0]), xs[1..], ys);
    }
  }

  /** Only the last record of a batch is inspected for the success marker. */
  lemma OnlyLastRecordFinishes(s: ReaderState, batch: seq<LogItem>)
    requires !s.isFinished && |batch| > 0
    ensures Step(s, Fetched(batch)).isFinished <==> MarksSuccess(batch[|batch| - 1])
  {
  }

  /** The label column of a record (components/build-logs-container.tsx:144):
      its step when it has a non-empty one, else its type in upper case, else
      "INFO". The label is never empty. */
  function RowLabel(item: LogItem): (r: string)
    ensures r != []
    ensures item.step.Some? && item.step.value != [] ==> r == item.step.value
    ensures (item.step.None? || item.step.value == []) && item.logType.Some? ==>
      r == Upper(TypeName(item.logType.value))
    ensures (item.step.None? || item.step.value == []) && item.logType.None? ==> r == "INFO"
  {
    if item.step.Some? && item.step.value != [] then item.step.value
    else if item.logType.Some? then Upper(TypeName(item.logType.value))
    else "INFO"
  }

  /** The component: React state and refs as fields, `fetchLogs` and
      `refreshLogs` as methods. */
  class LogReader {
    var logs: seq<LogItem>
    var lastTimestamp: string
    var emptyFetchCount: nat
    var isFinished: bool
    var isLoading: bool
    var error: string
    var refreshCounter: nat

    function State(): ReaderState
      reads this
    {
      ReaderState(logs, lastTimestamp, emptyFetchCount, isFinished, isLoading, error, refreshCounter)
    }

    predicate Valid()
      reads this
    {
      ValidState(State())
    }

    constructor ()
      ensures Valid() && State() == Initial()
    {
      logs, lastTimestamp, emptyFetchCount := [], InitialCursor, 0;
      isFinished, isLoading, error, refreshCounter := false, true, "", 0;
    }

    /** `fetchLogs`, given what the request returned. */
    method FetchLogs(result: FetchResult)
      requires Valid()
      modifies this
      ensures Valid() && State() == Step(old(State()), result)
      ensures old(isFinished) ==> State() == old(State())
      ensures !old(isFinished) && result.FetchFailed? ==>
        && error == FetchErrorMessage && isFinished
        && logs == old(logs) && lastTimestamp == old(lastTimestamp) && isLoading == old(isLoading)
      ensures !old(isFinished) && result.Fetched? && |result.batch| > 0 ==>
        && logs == old(logs) + result.batch
        && lastTimestamp == result.batch[|result.batch| - 1].timestamp
        && emptyFetchCount == 0 && !isLoading
        && (isFinished <==> MarksSuccess(result.batch[|result.batch| - 1]))
      ensures !old(isFinished) && result == Fetched([]) ==>
        && logs == old(logs) && lastTimestamp == old(lastTimestamp)
        && emptyFetchCount == old(emptyFetchCount) + 1 && !isLoading
        && (isFinished <==> emptyFetchCount >= MaxEmptyFetches)
    {
      if isFinished {
        return;
      }
      match result
      case FetchFailed =>
        error := FetchErrorMessage;
        isFinished := true;
      case Fetched(batch) =>
        if |batch| > 0 {
          logs := logs + batch;
          lastTimestamp := batch[|batch| - 1].timestamp;
          emptyFetchCount := 0;
          var lastLog := batch[|batch| - 1];
          if MarksSuccess(lastLog) {
            isFinished := true;
          }
        } else {
          emptyFetchCount := emptyFetchCount + 1;
          if emptyFetchCount >= MaxEmptyFetches {
            isFinished := true;
          }
        }
        isLoading := false;
    }

    /** `refreshLogs` as written: back to the state on mount except that
        `error` is kept (see "Findings" in README.md); the `refreshCounter`
        bump restarts the polling effect. */
    method RefreshLogs()
      modifies this
      ensures Valid() && State() == Refresh(old(State()))
      ensures logs == [] && lastTimestamp == InitialCursor && emptyFetchCount == 0
      ensures !isFinished && isLoading && error == old(error) && refreshCounter == old(refreshCounter) + 1
    {
      logs := [];
      lastTimestamp := InitialCursor;
      emptyFetchCount := 0;
      isFinished := false;
      isLoading := true;
      refreshCounter := refreshCounter + 1;
    }
  }
}
