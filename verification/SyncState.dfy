/** The connector synchronization state machine: one row per organization,
    configuration and sync key, advanced by start, progress, complete, fail,
    cancel and stale recovery. */
module SyncState {
  import opened Common

  datatype Status = Pending | Running | Succeeded | Partial | Failed | Cancelled

  datatype Counter =
    | Processed | Created | Updated | Skipped | FailedRecords
    | Pages | Bytes | Retries | PartialFailures

  const COUNTERS: seq<Counter> :=
    [Processed, Created, Updated, Skipped, FailedRecords, Pages, Bytes, Retries, PartialFailures]

  /** A keyword given to `progress`: one of the nine counters, or any other name. */
  datatype Field = Column(counter: Counter) | Other(name: string)

  datatype State = State(
    status: Status,
    lastStartedAt: Option<int>,
    lastCompletedAt: Option<int>,
    lastSuccessfulAt: Option<int>,
    lastCursor: Option<string>,
    pendingCursor: Option<string>,
    errorCode: Option<string>,
    errorSummary: Option<string>,
    correlation: Option<string>,
    counters: map<Counter, int>)

  const ZERO: map<Counter, int> := map c: Counter | c in COUNTERS :: 0

  /** A row as the table defaults create it. */
  const FRESH := State(Pending, None, None, None, None, None, None, None, None, ZERO)

  datatype Key = Key(org: Id, configuration: Id, syncKey: string)

  datatype Error = AlreadyRunning | NotRunning | Missing

  // ---- the effect of each accepted operation

  function Started(s: State, correlation: string, now: int): State {
    s.(status := Running, lastStartedAt := Some(now), lastCompletedAt := None, pendingCursor := None,
    errorCode := None, errorSummary := None, correlation := Some(correlation), counters := ZERO)
  }

  function Progressed(s: State, cursor: Option<string>, values: map<Field, int>): State {
    s.(pendingCursor := cursor, counters := Reported(s.counters, values))
  }

  /** Known counters take their reported value, never below zero; other names are ignored. */
  function Reported(counters: map<Counter, int>, values: map<Field, int>): map<Counter, int> {
    map c | c in counters || Column(c) in values ::
      if Column(c) in values then Max(values[Column(c)], 0) else counters[c]
  }

  lemma ReportedGrows(counters: map<Counter, int>, values: map<Field, int>, todo: set<Field>, f: Field)
    requires f in todo && f in values
    ensures var before := Reported(counters, values - todo);
            var after := Reported(counters, values - (todo - {f}));
            after == if f.Column? then before[f.counter := Max(values[f], 0)] else before
  {
  }

  function Completed(s: State, cursor: Option<string>, partial: bool, now: int): State {
    s.(status := if partial then Partial else Succeeded,
    lastCursor := if cursor.Some? then cursor else s.lastCursor,
    pendingCursor := None,
    lastCompletedAt := Some(now),
    lastSuccessfulAt := if partial then s.lastSuccessfulAt else Some(now))
  }

  function Clip(text: string, limit: nat): string {
    if |text| <= limit then text else text[..limit]
  }

  function FailedWith(s: State, code: string, summary: string, now: int): State {
    s.(status := Failed, lastCompletedAt := Some(now), pendingCursor := None,
    errorCode := Some(Clip(code, 100)), errorSummary := Some(Clip(summary, 500)))
  }

  function CancelledAt(s: State, now: int): State {
    s.(status := Cancelled, pendingCursor := None, lastCompletedAt := Some(now))
  }

  // ---- commands over the whole table

  datatype Command =
    | Start(key: Key, correlation: string, now: int)
    | Progress(key: Key, cursor: Option<string>, values: map<Field, int>)
    | Complete(key: Key, cursor: Option<string>, partial: bool, now: int)
    | Fail(key: Key, code: string, summary: string, now: int)
    | Cancel(key: Key, now: int)
    | RecoverStale(org: Id, staleAfter: int, now: int)

  type Table = map<Key, State>

  predicate Stale(t: Table, k: Key, org: Id, cutoff: int)
    requires k in t
  {
    && k.org == org
    && t[k].status == Running
    && t[k].lastStartedAt.Some?
    && t[k].lastStartedAt.value < cutoff
  }

  function StaleKeys(t: Table, org: Id, cutoff: int): set<Key> {
    set k | k in t && Stale(t, k, org, cutoff)
  }

  const STALE_CODE := "stale_running"
  const STALE_SUMMARY := "Stale running sync recovered"

  /** The table after a command; a command that raises leaves it alone. */
  function Step(t: Table, c: Command): Table {
    match c
    case Start(k, correlation, now) =>
      var s := if k in t then t[k] else FRESH;
      if s.status == Running then t else t[k := Started(s, correlation, now)]
    case Progress(k, cursor, values) =>
      if k in t && t[k].status == Running then t[k := Progressed(t[k], cursor, values)] else t
    case Complete(k, cursor, partial, now) =>
      if k in t && t[k].status == Running then t[k := Completed(t[k], cursor, partial, now)] else t
    case Fail(k, code, summary, now) =>
      if k in t then t[k := FailedWith(t[k], code, summary, now)] else t
    case Cancel(k, now) =>
      if k in t && t[k].status == Running then t[k := CancelledAt(t[k], now)] else t
    case RecoverStale(org, staleAfter, now) =>
      map k | k in t ::
        if Stale(t, k, org, now - staleAfter) then FailedWith(t[k], STALE_CODE, STALE_SUMMARY, now) else t[k]
  }

  function Run(t: Table, cs: seq<Command>): Table
    decreases |cs|
  {
    if cs == [] then t else Run(Step(t, cs[0]), cs[1..])
  }

  // ---- the journal: what an observer of one row may say about a run

  /** Completion carries the cursor it was given. */
  datatype Event = Entered | Left(completion: Option<string>) | Silent

  predicate RunningAt(t: Table, k: Key) {
    k in t && t[k].status == Running
  }

  /** Judged only from whether the row was running and what was asked. */
  function EventAt(t: Table, c: Command, k: Key): Event {
    match c
    case Start(k', _, _) => if k' == k && !RunningAt(t, k) then Entered else Silent
    case Progress(_, _, _) => Silent
    case Complete(k', cursor, _, _) => if k' == k && RunningAt(t, k) then Left(cursor) else Silent
    case Fail(k', _, _, _) => if k' == k && RunningAt(t, k) then Left(None) else Silent
    case Cancel(k', _) => if k' == k && RunningAt(t, k) then Left(None) else Silent
    case RecoverStale(org, staleAfter, now) =>
      if k in t && Stale(t, k, org, now - staleAfter) then Left(None) else Silent
  }

  function Journal(t: Table, cs: seq<Command>, k: Key): (j: seq<Event>)
    ensures |j| == |cs|
    decreases |cs|
  {
    if cs == [] then [] else [EventAt(t, cs[0], k)] + Journal(Step(t, cs[0]), cs[1..], k)
  }

  function Entries(j: seq<Event>): nat {
    if j == [] then 0 else (if j[0].Entered? then 1 else 0) + Entries(j[1..])
  }

  function Exits(j: seq<Event>): nat {
    if j == [] then 0 else (if j[0].Left? then 1 else 0) + Exits(j[1..])
  }

  /** The cursor of the latest completion that was given one. */
  function LatestCursor(j: seq<Event>): Option<string> {
    if j == [] then None
    else
      var last := j[|j| - 1];
      if last.Left? && last.completion.Some? then last.completion else LatestCursor(j[..|j| - 1])
  }

  ghost predicate WellKept(s: State) {
    && (s.pendingCursor.Some? ==> s.status == Running)
    && (s.status == Running ==> s.lastStartedAt.Some?)
    && forall c: Counter :: c in s.counters && 0 <= s.counters[c]
  }

  ghost predicate TableWellKept(t: Table) {
    forall k | k in t :: WellKept(t[k])
  }

  lemma EveryCounterListed(c: Counter)
    ensures c in COUNTERS
  {
  }

  lemma StepKeeps(t: Table, c: Command)
    requires TableWellKept(t)
    ensures TableWellKept(Step(t, c))
  {
    forall k | k in Step(t, c) ensures WellKept(Step(t, c)[k]) {
      if k in t { assert WellKept(t[k]); }
      forall x: Counter ensures x in ZERO { EveryCounterListed(x); }
    }
  }

  /** A pending cursor exists only while running, and counters never go negative,
      in every state any command sequence reaches. */
  lemma {:induction false} RunKeeps(t: Table, cs: seq<Command>)
    requires TableWellKept(t)
    ensures TableWellKept(Run(t, cs))
    decreases |cs|
  {
    if cs != [] {
      StepKeeps(t, cs[0]);
      RunKeeps(Step(t, cs[0]), cs[1..]);
    }
  }

  function Bit(b: bool): nat { if b then 1 else 0 }

  /** Accepted starts minus exits from running is one exactly while running. */
  lemma {:induction false} EntriesBalanceExits(t: Table, cs: seq<Command>, k: Key)
    ensures Bit(RunningAt(t, k)) + Entries(Journal(t, cs, k))
         == Bit(RunningAt(Run(t, cs), k)) + Exits(Journal(t, cs, k))
    decreases |cs|
  {
    if cs != [] {
      var j := Journal(t, cs, k);
      assert j[1..] == Journal(Step(t, cs[0]), cs[1..], k);
      EntriesBalanceExits(Step(t, cs[0]), cs[1..], k);
    }
  }

  function CursorAt(t: Table, k: Key): Option<string> {
    if k in t then t[k].lastCursor else None
  }

  lemma {:induction false} LatestCursorSplits(e: Event, j: seq<Event>)
    ensures LatestCursor([e] + j) ==
            if LatestCursor(j).Some? then LatestCursor(j)
            else if e.Left? then e.completion else None
  {
    if j == [] {
      assert [e] + j == [e];
    } else {
      var n := |j| - 1;
      assert ([e] + j)[..|[e] + j| - 1] == [e] + j[..n];
      LatestCursorSplits(e, j[..n]);
    }
  }

  /** The stored cursor is the one given to the latest completion that had one;
      no failure, cancellation or recovery ever moves it. */
  lemma {:induction false} CursorFollowsCompletions(t: Table, cs: seq<Command>, k: Key)
    ensures var latest := LatestCursor(Journal(t, cs, k));
            CursorAt(Run(t, cs), k) == if latest.Some? then latest else CursorAt(t, k)
    decreases |cs|
  {
    hide LatestCursor, Step;
    if cs == [] {
      NoCursorYet();
    } else {
      var rest := Journal(Step(t, cs[0]), cs[1..], k);
      LatestCursorSplits(EventAt(t, cs[0], k), rest);
      CursorFollowsCompletions(Step(t, cs[0]), cs[1..], k);
      StepMovesCursor(t, cs[0], k);
    }
  }

  lemma NoCursorYet()
    ensures LatestCursor([]).None?
  {
  }

  lemma StepMovesCursor(t: Table, c: Command, k: Key)
    ensures var e := EventAt(t, c, k);
            CursorAt(Step(t, c), k) == if e.Left? && e.completion.Some? then e.completion else CursorAt(t, k)
  {
  }

  /** Recovery fails exactly the stale running rows of its organization. */
  lemma RecoveryIsExact(t: Table, org: Id, staleAfter: int, now: int, k: Key)
    requires k in t
    ensures var after := Step(t, RecoverStale(org, staleAfter, now));
            && after.Keys == t.Keys
            && (k in StaleKeys(t, org, now - staleAfter) ==>
                  after[k].status == Failed && after[k].errorCode == Some(STALE_CODE)
                  && after[k].lastCursor == t[k].lastCursor)
            && (k !in StaleKeys(t, org, now - staleAfter) ==> after[k] == t[k])
            && StaleKeys(after, org, now - staleAfter) == {}
  {
  }

  // ---- the whole row after a command

  /** The command is accepted and changes this row. */
  predicate Touches(t: Table, c: Command, k: Key) {
    match c
    case Start(k', _, _) => k' == k && !(k in t && t[k].status == Running)
    case Progress(k', _, _) => k' == k && k in t && t[k].status == Running
    case Complete(k', _, _, _) => k' == k && k in t && t[k].status == Running
    case Fail(k', _, _, _) => k' == k && k in t
    case Cancel(k', _) => k' == k && k in t && t[k].status == Running
    case RecoverStale(org, staleAfter, now) =>
      && k in t && k.org == org && t[k].status == Running
      && t[k].lastStartedAt.Some? && t[k].lastStartedAt.value + staleAfter < now
  }

  /** The status a row has after being touched. */
  function StatusAfter(c: Command): Status {
    match c
    case Start(_, _, _) => Running
    case Progress(_, _, _) => Running
    case Complete(_, _, partial, _) => if partial then Partial else Succeeded
    case Fail(_, _, _, _) => Failed
    case Cancel(_, _) => Cancelled
    case RecoverStale(_, _, _) => Failed
  }

  /** The first characters of a text, as many as fit. */
  predicate IsClipped(short: string, text: string, limit: nat) {
    short <= text && |short| == Min(limit, |text|)
  }

  /** A row changes only when it is touched; what each column then holds. */
  lemma RowFollowsCommand(t: Table, c: Command, k: Key)
    ensures !Touches(t, c, k) ==> (k in Step(t, c) <==> k in t) && (k in t ==> Step(t, c)[k] == t[k])
    ensures Touches(t, c, k) ==>
              && k in Step(t, c)
              && var before, row := if k in t then t[k] else FRESH, Step(t, c)[k];
              && row.status == StatusAfter(c)
              && (if c.Start? then
                    && row.lastStartedAt == Some(c.now) && row.lastCompletedAt == None
                    && row.correlation == Some(c.correlation)
                    && row.errorCode == None && row.errorSummary == None
                    && row.counters.Keys == ZERO.Keys && forall x | x in row.counters :: row.counters[x] == 0
                  else
                    && row.lastStartedAt == before.lastStartedAt && row.correlation == before.correlation
                    && (!c.Progress? ==> row.counters == before.counters && row.lastCompletedAt == Some(c.now)))
              && row.pendingCursor == (if c.Progress? then c.cursor else None)
              && row.lastCursor == (if c.Complete? && c.cursor != None then c.cursor else before.lastCursor)
              && row.lastSuccessfulAt == (if c.Complete? && !c.partial then Some(c.now) else before.lastSuccessfulAt)
              && (c.Fail? ==>
                    && row.errorCode.Some? && IsClipped(row.errorCode.value, c.code, 100)
                    && row.errorSummary.Some? && IsClipped(row.errorSummary.value, c.summary, 500))
              && (c.RecoverStale? ==>
                    row.errorCode == Some("stale_running") && row.errorSummary == Some("Stale running sync recovered"))
              && (c.Progress? ==>
                    && row.lastCompletedAt == before.lastCompletedAt
                    && forall x: Counter ::
                         (x in row.counters <==> x in before.counters || Column(x) in c.values)
                         && (Column(x) in c.values ==>
                               row.counters[x] == if c.values[Column(x)] < 0 then 0 else c.values[Column(x)])
                         && (Column(x) !in c.values && x in before.counters ==> row.counters[x] == before.counters[x]))
              && (c.Progress? || c.Complete? || c.Cancel? ==>
                    row.errorCode == before.errorCode && row.errorSummary == before.errorSummary)
  {
  }

  /** What the last accepted command made of the row's status. */
  function LastWord(t: Table, cs: seq<Command>, k: Key): Option<Status> {
    if cs == [] then None
    else
      var n := |cs| - 1;
      if Touches(Run(t, cs[..n]), cs[n], k) then Some(StatusAfter(cs[n])) else LastWord(t, cs[..n], k)
  }

  lemma {:induction false} RunEnds(t: Table, cs: seq<Command>)
    requires cs != []
    ensures Run(t, cs) == Step(Run(t, cs[..|cs| - 1]), cs[|cs| - 1])
    decreases |cs|
  {
    if |cs| > 1 {
      RunEnds(Step(t, cs[0]), cs[1..]);
      assert cs[..|cs| - 1][1..] == cs[1..][..|cs| - 2];
    }
  }

  /** After any commands a row's status is the last accepted one's word, or the old one. */
  lemma {:induction false} StatusIsLastWord(t: Table, cs: seq<Command>, k: Key)
    ensures LastWord(t, cs, k).Some? ==> k in Run(t, cs) && Run(t, cs)[k].status == LastWord(t, cs, k).value
    ensures LastWord(t, cs, k).None? ==> (k in Run(t, cs) <==> k in t) && (k in t ==> Run(t, cs)[k] == t[k])
  {
    hide Step, Touches, StatusAfter;
    if cs != [] {
      var n := |cs| - 1;
      StatusIsLastWord(t, cs[..n], k);
      RunEnds(t, cs);
      RowFollowsCommand(Run(t, cs[..n]), cs[n], k);
    }
  }

  // ---- the service

  method AssignCounters(counters: map<Counter, int>, values: map<Field, int>) returns (r: map<Counter, int>)
    ensures r == Reported(counters, values)
  {
    r := counters;
    var todo := values.Keys;
    while todo != {}
      invariant todo <= values.Keys
      invariant r == Reported(counters, values - todo)
      decreases |todo|
    {
      var f :| f in todo;
      ReportedGrows(counters, values, todo, f);
      todo := todo - {f};
      if f.Column? {
        r := r[f.counter := Max(values[f], 0)];
      }
    }
    assert values - {} == values;
  }

  class SyncStateService {
    var table: Table

    constructor (rows: Table)
      ensures table == rows
    {
      table := rows;
    }

    method Start(key: Key, correlation: string, now: int) returns (r: Result<State, Error>)
      modifies this
      ensures table == Step(old(table), Command.Start(key, correlation, now))
      ensures r.Err? <==> RunningAt(old(table), key)
      ensures r.Ok? ==> key in table && r.value == table[key]
    {
      var state := if key in table then table[key] else FRESH;
      if state.status == Running {
        return Err(AlreadyRunning);
      }
      state := state.(status := Running, lastStartedAt := Some(now), lastCompletedAt := None,
      pendingCursor := None, errorCode := None, errorSummary := None, correlation := Some(correlation));
      var counters: map<Counter, int> := map[];
      for i := 0 to |COUNTERS|
        invariant counters == map c: Counter | c in COUNTERS[..i] :: 0
      {
        counters := counters[COUNTERS[i] := 0];
      }
      assert COUNTERS[..|COUNTERS|] == COUNTERS;
      state := state.(counters := counters);
      table := table[key := state];
      return Ok(state);
    }

    method Progress(key: Key, cursor: Option<string>, values: map<Field, int>) returns (r: Result<State, Error>)
      modifies this
      ensures table == Step(old(table), Command.Progress(key, cursor, values))
      ensures r.Ok? <==> RunningAt(old(table), key)
      ensures r.Ok? ==> r.value == table[key]
    {
      if key !in table { return Err(Missing); }
      if table[key].status != Running { return Err(NotRunning); }
      var counters := AssignCounters(table[key].counters, values);
      var state := table[key].(pendingCursor := cursor, counters := counters);
      table := table[key := state];
      return Ok(state);
    }

    method Complete(key: Key, cursor: Option<string>, partial: bool, now: int) returns (r: Result<State, Error>)
      modifies this
      ensures table == Step(old(table), Command.Complete(key, cursor, partial, now))
      ensures r.Ok? <==> RunningAt(old(table), key)
      ensures r.Ok? ==> r.value == table[key]
    {
      if key !in table { return Err(Missing); }
      var state := table[key];
      if state.status != Running { return Err(NotRunning); }
      if cursor.Some? {
        state := state.(pendingCursor := cursor);
        state := state.(lastCursor := state.pendingCursor);
      }
      state := state.(pendingCursor := None);
      state := state.(status := if partial then Partial else Succeeded, lastCompletedAt := Some(now));
      if !partial {
        state := state.(lastSuccessfulAt := Some(now));
      }
      table := table[key := state];
      return Ok(state);
    }

    method Fail(key: Key, code: string, summary: string, now: int) returns (r: Result<State, Error>)
      modifies this
      ensures table == Step(old(table), Command.Fail(key, code, summary, now))
      ensures r.Ok? <==> key in old(table)
      ensures r.Ok? ==> r.value == table[key]
    {
      if key !in table { return Err(Missing); }
      var state := table[key].(status := Failed, lastCompletedAt := Some(now), pendingCursor := None);
      state := state.(errorCode := Some(Clip(code, 100)), errorSummary := Some(Clip(summary, 500)));
      table := table[key := state];
      return Ok(state);
    }

    method Cancel(key: Key, now: int) returns (r: Result<State, Error>)
      modifies this
      ensures table == Step(old(table), Command.Cancel(key, now))
      ensures r.Ok? <==> RunningAt(old(table), key)
    {
      if key !in table { return Err(Missing); }
      if table[key].status != Running { return Err(NotRunning); }
      var state := table[key].(status := Cancelled, pendingCursor := None, lastCompletedAt := Some(now));
      table := table[key := state];
      return Ok(state);
    }

    /** Fails every stale running row of one organization and counts them. */
    method RecoverStaleRows(org: Id, staleAfter: int, now: int) returns (recovered: nat)
      modifies this
      ensures table == Step(old(table), RecoverStale(org, staleAfter, now))
      ensures recovered == |StaleKeys(old(table), org, now - staleAfter)|
    {
      var found := StaleKeys(table, org, now - staleAfter);
      var todo := found;
      recovered := 0;
      while todo != {}
        invariant todo <= found && recovered + |todo| == |found|
        invariant table == map k | k in old(table) ::
                             if k in found - todo
                             then FailedWith(old(table)[k], STALE_CODE, STALE_SUMMARY, now) else old(table)[k]
        decreases |todo|
      {
        var k :| k in todo;
        var r := Fail(k, STALE_CODE, STALE_SUMMARY, now);
        todo := todo - {k};
        recovered := recovered + 1;
      }
    }
  }
}
