/** The audit log and its streams (crates/elan-central/src/grpc/audit_svc.rs,
    crates/elan-central/src/db/iam_store.rs:158-231). Timestamps are ordered keys. */
module AuditStore {
  import opened Wrappers
  import opened Sequences

  datatype AuditEvent = AuditEvent(
    id: string, eventType: string, occurredAt: Option<int>, sourceService: string, userId: string,
    sessionId: string, payload: string
  )

  datatype StoredEvent = StoredEvent(
    id: string, eventType: string, occurredAt: int, sourceService: string, userId: string,
    sessionId: Option<string>, payload: string
  )

  const REPLAY_LIMIT: nat := 100
  const CHANNEL_CAPACITY: nat := 64
  const BROADCAST_CAPACITY: nat := 256

  /** The row for an event published at `now`; the event's own time is not stored. */
  function ToRow(e: AuditEvent, now: int): StoredEvent {
    StoredEvent(e.id, e.eventType, now, e.sourceService, e.userId,
                if e.sessionId == "" then None else Some(e.sessionId), e.payload)
  }

  function ToReplay(row: StoredEvent): AuditEvent {
    AuditEvent(row.id, row.eventType, None, row.sourceService, row.userId, row.sessionId.GetOr(""), row.payload)
  }

  /** A replayed event is the published one without its time. */
  lemma ReplayOfRow(e: AuditEvent, now: int)
    ensures ToReplay(ToRow(e, now)) == e.(occurredAt := None)
  {
  }

  predicate HasRow(rows: seq<StoredEvent>, id: string) {
    exists i :: 0 <= i < |rows| && rows[i].id == id
  }

  predicate Wants(types: seq<string>, eventType: string) {
    types == [] || eventType in types
  }

  function Eligible(since: Option<int>): StoredEvent -> bool {
    (row: StoredEvent) => since.None? || row.occurredAt >= since.value
  }

  ghost predicate NewestFirst(rows: seq<StoredEvent>) {
    forall i, j :: 0 <= i < j < |rows| ==> rows[i].occurredAt >= rows[j].occurredAt
  }

  /** A possible answer of the query: the first rows of some newest-first order of the eligible
      rows; the order among equal times is not promised. */
  ghost predicate IsWindow(rows: seq<StoredEvent>, since: Option<int>, window: seq<StoredEvent>) {
    exists ordered :: IsWindowOf(rows, since, window, ordered)
  }

  ghost predicate IsWindowOf(
    rows: seq<StoredEvent>, since: Option<int>, window: seq<StoredEvent>, ordered: seq<StoredEvent>
  ) {
    && multiset(ordered) == multiset(Filter(Eligible(since), rows))
    && NewestFirst(ordered)
    && window == Take(REPLAY_LIMIT, ordered)
  }

  /** The type filter is applied after the limit. */
  function Replay(window: seq<StoredEvent>, types: seq<string>): seq<AuditEvent> {
    Map(ToReplay, Filter((row: StoredEvent) => Wants(types, row.eventType), window))
  }

  /** What is replayed of a window: exactly its rows of an asked-for type, field by field, without the
      time. */
  lemma ReplayHolds(window: seq<StoredEvent>, types: seq<string>, e: AuditEvent)
    ensures e in Replay(window, types) <==>
            exists row :: row in window && (types == [] || row.eventType in types)
              && e.id == row.id && e.eventType == row.eventType && e.occurredAt == None
              && e.sourceService == row.sourceService && e.userId == row.userId && e.payload == row.payload
              && e.sessionId == (if row.sessionId.Some? then row.sessionId.value else "")
  {
    var kept := Filter((row: StoredEvent) => Wants(types, row.eventType), window);
    assert Replay(window, types) == Map(ToReplay, kept);
    assert forall row :: row in kept <==> row in window && Wants(types, row.eventType);
    MapHolds(kept, e);
  }

  lemma MapHolds(kept: seq<StoredEvent>, e: AuditEvent)
    ensures e in Map(ToReplay, kept) <==> exists row :: row in kept && e == ToReplay(row)
  {
    hide ToReplay;
    if e in Map(ToReplay, kept) {
      var i :| 0 <= i < |kept| && Map(ToReplay, kept)[i] == e;
      assert kept[i] in kept;
    }
    if row :| row in kept && e == ToReplay(row) {
      var i :| 0 <= i < |kept| && kept[i] == row;
      assert Map(ToReplay, kept)[i] == e;
    }
  }

  /** ... in the order of the window. */
  lemma ReplayKeepsOrder(window: seq<StoredEvent>, types: seq<string>, i: nat, j: nat) returns (a: nat, b: nat)
    requires i < j < |Replay(window, types)|
    ensures a < b < |window|
    ensures Replay(window, types)[i].id == window[a].id && Replay(window, types)[j].id == window[b].id
  {
    var wanted := (row: StoredEvent) => Wants(types, row.eventType);
    a := FilterPosition(wanted, window, i);
    b := FilterPosition(wanted, window, j);
    if b <= a {
      FilterGrows(wanted, window, b, a);
    }
  }

  lemma NewestPrefix(ordered: seq<StoredEvent>, n: nat, row: StoredEvent, kept: StoredEvent)
    requires NewestFirst(ordered) && n <= |ordered|
    requires row in ordered && row !in ordered[..n] && kept in ordered[..n]
    ensures row.occurredAt <= kept.occurredAt
  {
    var i :| 0 <= i < |ordered| && ordered[i] == row;
    var j :| 0 <= j < n && ordered[j] == kept;
    assert i >= n by {
      assert forall k :: 0 <= k < n ==> ordered[..n][k] == ordered[k];
    }
  }

  /** The window is the newest eligible rows: newest first, as many as the limit allows, and
      nothing left out is newer than anything in it. */
  lemma WindowIsNewest(rows: seq<StoredEvent>, since: Option<int>, window: seq<StoredEvent>)
    requires IsWindow(rows, since, window)
    ensures NewestFirst(window)
    ensures multiset(window) <= multiset(Filter(Eligible(since), rows))
    ensures var eligible := |Filter(Eligible(since), rows)|;
            |window| == if eligible < REPLAY_LIMIT then eligible else REPLAY_LIMIT
    ensures forall i, j :: 0 <= i < j < |window| ==> window[i].occurredAt >= window[j].occurredAt
    ensures |window| <= 100
    ensures forall row :: row in window ==> row in rows && (since.None? || row.occurredAt >= since.value)
    ensures forall row :: row in rows && (since.None? || row.occurredAt >= since.value) && row !in window ==>
              |window| == 100 && forall kept :: kept in window ==> row.occurredAt <= kept.occurredAt
  {
    var eligible := Filter(Eligible(since), rows);
    EligibleAre(rows, since);
    var ordered :| IsWindowOf(rows, since, window, ordered);
    assert NewestFirst(ordered) && multiset(ordered) == multiset(eligible) && window == Take(REPLAY_LIMIT, ordered);
    hide *;
    SameMembers(ordered, eligible);
    FirstOf(ordered, window);
  }

  lemma EligibleAre(rows: seq<StoredEvent>, since: Option<int>)
    ensures forall row :: row in Filter(Eligible(since), rows) <==>
              row in rows && (since.None? || row.occurredAt >= since.value)
  {
  }

  lemma FirstOf(ordered: seq<StoredEvent>, window: seq<StoredEvent>)
    requires NewestFirst(ordered) && window == Take(REPLAY_LIMIT, ordered)
    ensures NewestFirst(window) && multiset(window) <= multiset(ordered)
    ensures forall i, j :: 0 <= i < j < |window| ==> window[i].occurredAt >= window[j].occurredAt
    ensures |window| == if |ordered| < 100 then |ordered| else 100
    ensures |window| == if |ordered| < REPLAY_LIMIT then |ordered| else REPLAY_LIMIT
    ensures forall row :: row in window ==> row in ordered
    ensures forall row :: row in ordered && row !in window ==>
              |window| == 100 && forall kept :: kept in window ==> row.occurredAt <= kept.occurredAt
  {
    var n := |window|;
    assert window == ordered[..n];
    PrefixOf(ordered, n);
    forall row | row in ordered && row !in window
      ensures n == 100 && forall kept :: kept in window ==> row.occurredAt <= kept.occurredAt
    {
      LeftOut(ordered, n, row);
    }
  }

  lemma SameMembers(xs: seq<StoredEvent>, ys: seq<StoredEvent>)
    requires multiset(xs) == multiset(ys)
    ensures |xs| == |ys| && forall x :: x in xs <==> x in ys
  {
    assert |multiset(xs)| == |xs| && |multiset(ys)| == |ys|;
    assert forall x :: (x in xs <==> x in multiset(xs)) && (x in ys <==> x in multiset(ys));
  }

  lemma LeftOut(ordered: seq<StoredEvent>, n: nat, row: StoredEvent)
    requires NewestFirst(ordered) && n <= |ordered| && row in ordered && row !in ordered[..n]
    ensures n < |ordered| && forall kept :: kept in ordered[..n] ==> row.occurredAt <= kept.occurredAt
  {
    assert ordered[..|ordered|] == ordered;
    forall kept | kept in ordered[..n]
      ensures row.occurredAt <= kept.occurredAt
    {
      NewestPrefix(ordered, n, row, kept);
    }
  }

  lemma PrefixOf(ordered: seq<StoredEvent>, n: nat)
    requires n <= |ordered|
    ensures multiset(ordered[..n]) <= multiset(ordered)
    ensures forall row :: row in ordered[..n] ==> row in ordered
  {
    assert ordered == ordered[..n] + ordered[n..];
  }

  // ----- The broadcast receiver -----

  datatype Reception = Caught(event: AuditEvent) | Lagged(skipped: nat) | Waiting

  /** The oldest event the broadcast buffer still holds. */
  function Oldest(log: seq<AuditEvent>): nat {
    if |log| < BROADCAST_CAPACITY then 0 else |log| - BROADCAST_CAPACITY
  }

  function Receive(log: seq<AuditEvent>, cursor: nat): (r: (Reception, nat))
    ensures cursor <= |log| ==> cursor <= r.1 <= |log|
  {
    if cursor < Oldest(log) then (Lagged(Oldest(log) - cursor), Oldest(log))
    else if cursor < |log| then (Caught(log[cursor]), cursor + 1)
    else (Waiting, cursor)
  }

  /** Publishing with no other call in between: persist, then broadcast; a refused row is not
      broadcast. */
  class AuditService {
    var rows: seq<StoredEvent>
    var log: seq<AuditEvent>

    constructor ()
      ensures rows == [] && log == []
    {
      rows, log := [], [];
    }

    method PublishEvent(e: AuditEvent, now: int) returns (accepted: bool)
      modifies this
      ensures accepted <==> !HasRow(old(rows), e.id)
      ensures accepted ==> rows == old(rows) + [ToRow(e, now)] && log == old(log) + [e]
      ensures accepted ==>
                var row := rows[|old(rows)|];
                && row.id == e.id && row.eventType == e.eventType && row.occurredAt == now
                && row.sourceService == e.sourceService && row.userId == e.userId && row.payload == e.payload
                && row.sessionId == (if e.sessionId == "" then None else Some(e.sessionId))
      ensures !accepted ==> rows == old(rows) && log == old(log)
    {
      if HasRow(rows, e.id) {
        return false;
      }
      rows := rows + [ToRow(e, now)];
      log := log + [e];
      return true;
    }
  }

  /** One client's stream, before and after it is handed out. */
  class EventStream {
    var channel: seq<AuditEvent>
    var cursor: nat
    const types: seq<string>

    constructor (types: seq<string>)
      ensures channel == [] && this.types == types
    {
      this.channel, this.cursor, this.types := [], 0, types;
    }

    /** The replay loop fills the channel before anyone can read from it, so it comes to an end
        exactly when everything fits; otherwise it waits forever on a full channel. */
    method ReplayAll(recent: seq<AuditEvent>) returns (finished: bool)
      requires channel == []
      modifies this`channel
      ensures finished <==> |recent| <= 64
      ensures channel == if |recent| <= 64 then recent else recent[..64]
    {
      for i := 0 to |recent|
        invariant i <= CHANNEL_CAPACITY && channel == recent[..i]
      {
        if |channel| == CHANNEL_CAPACITY {
          return false;
        }
        channel := channel + [recent[i]];
      }
      return true;
    }

    /** One turn of the receive loop, up to the point of sending: what to send, if anything. */
    method ReceiveNext(log: seq<AuditEvent>) returns (event: Option<AuditEvent>, lagged: nat)
      modifies this`cursor
      ensures var (reception, next) := Receive(log, old(cursor));
              && cursor == next
              && event == (if reception.Caught? && Wants(types, reception.event.eventType)
                           then Some(reception.event) else None)
              && lagged == (if reception.Lagged? then reception.skipped else 0)
      ensures if |log| > old(cursor) + 256 then cursor == |log| - 256 && lagged == cursor - old(cursor) && event == None
              else if old(cursor) < |log| then
                var next := log[old(cursor)];
                && cursor == old(cursor) + 1 && lagged == 0
                && event == (if types == [] || next.eventType in types then Some(next) else None)
              else cursor == old(cursor) && lagged == 0 && event == None
    {
      event, lagged := None, 0;
      if cursor < Oldest(log) {
        lagged := Oldest(log) - cursor;
        cursor := Oldest(log);
      } else if cursor < |log| {
        if Wants(types, log[cursor].eventType) {
          event := Some(log[cursor]);
        }
        cursor := cursor + 1;
      }
    }
  }
}

/** Publishers and one subscriber, step by step, in every interleaving
    (crates/elan-central/src/grpc/audit_svc.rs:42-129). */
module AuditRuns {
  import opened Wrappers
  import opened Sequences
  import opened AuditStore

  datatype Phase = Idle | Replaying | Live | Stopped

  /** The log, the calls between persist and broadcast, and the subscriber. The last five fields
      only record history: what was replayed, how much was stored at the query and broadcast at the
      subscription, which log positions were received, and how many were reported as skipped. */
  datatype State = State(
    rows: seq<StoredEvent>, log: seq<AuditEvent>, publishing: map<nat, AuditEvent>,
    phase: Phase, toReplay: seq<AuditEvent>, channel: seq<AuditEvent>, held: seq<AuditEvent>,
    delivered: seq<AuditEvent>, cursor: nat,
    replay: seq<AuditEvent>, rowsAtQuery: nat, subscribedAt: nat, received: seq<nat>, skipped: nat
  )

  datatype Step =
    | Persist(call: nat, event: AuditEvent, now: int)
    | Broadcast(call: nat)
    | Query(window: seq<StoredEvent>)
    | SendReplay
    | Subscribe
    | ReceiveEvent
    | SendLive
    | Consume
    | Disconnect

  const INITIAL := State([], [], map[], Idle, [], [], [], [], 0, [], 0, 0, [], 0)

  ghost predicate Enabled(s: State, step: Step, since: Option<int>) {
    match step
    case Persist(call, _, _) => call !in s.publishing
    case Broadcast(call) => call in s.publishing
    case Query(window) => s.phase.Idle? && IsWindow(s.rows, since, window)
    case SendReplay => s.phase.Replaying? && s.toReplay != [] && |s.channel| < CHANNEL_CAPACITY
    case Subscribe => s.phase.Replaying? && s.toReplay == []
    case ReceiveEvent => s.phase.Live? && s.held == [] && s.cursor < |s.log|
    case SendLive => s.phase.Live? && s.held != [] && |s.channel| < CHANNEL_CAPACITY
    case Consume => s.phase.Live? && s.channel != []
    case Disconnect => s.phase.Live?
  }

  function Next(s: State, step: Step, types: seq<string>): State {
    match step
    case Persist(call, event, now) =>
      if HasRow(s.rows, event.id) then s
      else s.(rows := s.rows + [ToRow(event, now)], publishing := s.publishing[call := event])
    case Broadcast(call) =>
      if call in s.publishing then s.(log := s.log + [s.publishing[call]], publishing := s.publishing - {call}) else s
    case Query(window) =>
      var replay := Replay(window, types);
      s.(phase := Replaying, toReplay := replay, replay := replay, rowsAtQuery := |s.rows|)
    case SendReplay =>
      if s.toReplay == [] then s
      else s.(channel := s.channel + [s.toReplay[0]], toReplay := s.toReplay[1..])
    case Subscribe => s.(phase := Live, cursor := |s.log|, subscribedAt := |s.log|)
    case ReceiveEvent =>
      (match Receive(s.log, s.cursor)
       case (Waiting, _) => s
       case (Lagged(n), next) => s.(cursor := next, skipped := s.skipped + n)
       case (Caught(e), next) =>
         s.(cursor := next, received := s.received + [s.cursor],
            held := if Wants(types, e.eventType) then [e] else []))
    case SendLive => s.(channel := s.channel + s.held, held := [])
    case Consume =>
      if s.channel == [] then s
      else s.(delivered := s.delivered + [s.channel[0]], channel := s.channel[1..])
    case Disconnect => s.(phase := Stopped)
  }

  datatype Run = Run(steps: seq<Step>, states: seq<State>)

  ghost predicate StepAt(run: Run, n: nat, since: Option<int>, types: seq<string>)
    requires n < |run.steps| && |run.states| == |run.steps| + 1
  {
    Enabled(run.states[n], run.steps[n], since) && run.states[n + 1] == Next(run.states[n], run.steps[n], types)
  }

  ghost predicate IsRun(run: Run, since: Option<int>, types: seq<string>) {
    && |run.states| == |run.steps| + 1 && run.states[0] == INITIAL
    && forall n :: 0 <= n < |run.steps| ==> StepAt(run, n, since, types)
  }

  // ----- Invariants -----

  /** The wanted events at the received log positions. */
  function Picked(log: seq<AuditEvent>, received: seq<nat>, types: seq<string>): seq<AuditEvent>
    requires forall k :: 0 <= k < |received| ==> received[k] < |log|
  {
    if received == [] then []
    else
      var last := log[received[|received| - 1]];
      Picked(log, received[..|received| - 1], types) + if Wants(types, last.eventType) then [last] else []
  }

  /** Everything the client has been given or will be given without a further receive. */
  function Stream(s: State): seq<AuditEvent> { s.delivered + s.channel + s.held }

  ghost predicate Recorded(rows: seq<StoredEvent>, e: AuditEvent) {
    exists i :: 0 <= i < |rows| && rows[i] == ToRow(e, rows[i].occurredAt)
  }

  function StoredId(row: StoredEvent): string { row.id }

  function EventId(e: AuditEvent): string { e.id }

  /** Publishers: ids are unique, and everything broadcast or about to be was persisted first. */
  ghost predicate LogInvariant(s: State) {
    && DistinctBy(StoredId, s.rows) && DistinctBy(EventId, s.log)
    && (forall e :: e in s.log ==> Recorded(s.rows, e))
    && (forall call :: call in s.publishing ==> Recorded(s.rows, s.publishing[call]))
    && (forall call, i :: call in s.publishing && 0 <= i < |s.log| ==> s.log[i].id != s.publishing[call].id)
    && (forall c, d :: c in s.publishing && d in s.publishing && c != d ==> s.publishing[c].id != s.publishing[d].id)
  }

  ghost predicate Increasing(positions: seq<nat>, low: nat, high: nat) {
    && (forall k :: 0 <= k < |positions| ==> low <= positions[k] < high)
    && (forall k, l :: 0 <= k < l < |positions| ==> positions[k] < positions[l])
  }

  ghost predicate ReplayInvariant(s: State) {
    && DistinctBy(EventId, s.replay) && s.rowsAtQuery <= |s.rows|
    && (forall e :: e in s.replay ==> HasRow(s.rows[..s.rowsAtQuery], e.id))
  }

  /** The subscriber: the stream is the replay, then the wanted events at the received positions;
      every position since the subscription was received in order or reported as skipped. */
  ghost predicate StreamInvariant(s: State, types: seq<string>) {
    match s.phase
    case Idle => s.channel == s.held == s.delivered == s.replay == [] && s.received == [] && s.skipped == 0
    case Replaying =>
      && s.delivered == [] && s.held == [] && s.received == [] && s.skipped == 0
      && s.channel + s.toReplay == s.replay && |s.channel| <= CHANNEL_CAPACITY
    case _ =>
      && s.subscribedAt <= s.cursor <= |s.log| && |s.replay| <= CHANNEL_CAPACITY
      && Increasing(s.received, s.subscribedAt, s.cursor)
      && |s.received| + s.skipped == s.cursor - s.subscribedAt
      && Stream(s) == s.replay + Picked(s.log, s.received, types)
  }

  lemma RecordedLasts(rows: seq<StoredEvent>, row: StoredEvent, e: AuditEvent)
    requires Recorded(rows, e)
    ensures Recorded(rows + [row], e)
  {
    var i :| 0 <= i < |rows| && rows[i] == ToRow(e, rows[i].occurredAt);
    assert (rows + [row])[i] == rows[i];
  }

  lemma {:induction false} PickedLasts(log: seq<AuditEvent>, e: AuditEvent, received: seq<nat>, types: seq<string>)
    requires forall k :: 0 <= k < |received| ==> received[k] < |log|
    ensures Picked(log + [e], received, types) == Picked(log, received, types)
  {
    if received != [] {
      PickedLasts(log, e, received[..|received| - 1], types);
    }
  }

  lemma PersistKeeps(s: State, step: Step, types: seq<string>)
    requires step.Persist? && step.call !in s.publishing && LogInvariant(s)
    ensures LogInvariant(Next(s, step, types))
  {
    if !HasRow(s.rows, step.event.id) {
      var row := ToRow(step.event, step.now);
      var rows := s.rows + [row];
      assert rows[|s.rows|] == row;
      assert Recorded(rows, step.event);
      forall e | Recorded(s.rows, e)
        ensures Recorded(rows, e) && e.id != step.event.id
      {
        RecordedLasts(s.rows, row, e);
      }
      hide Recorded;
    }
  }

  lemma BroadcastKeepsLog(s: State, step: Step, types: seq<string>)
    requires step.Broadcast? && step.call in s.publishing && LogInvariant(s)
    ensures LogInvariant(Next(s, step, types))
  {
    hide Recorded;
    var s' := Next(s, step, types);
    assert DistinctBy(EventId, s'.log);
  }

  lemma BroadcastKeepsStream(s: State, step: Step, types: seq<string>)
    requires step.Broadcast? && step.call in s.publishing && StreamInvariant(s, types)
    ensures StreamInvariant(Next(s, step, types), types)
  {
    if s.phase.Live? || s.phase.Stopped? {
      PickedLasts(s.log, s.publishing[step.call], s.received, types);
      hide Picked;
    }
  }

  lemma ReplayFromRows(window: seq<StoredEvent>, rows: seq<StoredEvent>, types: seq<string>)
    requires DistinctBy(StoredId, window) && forall row :: row in window ==> row in rows
    ensures DistinctBy(EventId, Replay(window, types))
    ensures forall e :: e in Replay(window, types) ==> HasRow(rows, e.id)
  {
    var wanted := (row: StoredEvent) => Wants(types, row.eventType);
    FilterKeepsDistinct(StoredId, wanted, window);
    var kept := Filter(wanted, window);
    assert Replay(window, types) == Map(ToReplay, kept);
    forall e | e in Replay(window, types)
      ensures HasRow(rows, e.id)
    {
      var i :| 0 <= i < |kept| && e == ToReplay(kept[i]);
      assert kept[i] in rows;
    }
  }

  lemma WindowDistinct(rows: seq<StoredEvent>, since: Option<int>, window: seq<StoredEvent>)
    requires DistinctBy(StoredId, rows) && IsWindow(rows, since, window)
    ensures DistinctBy(StoredId, window) && forall row :: row in window ==> row in rows
  {
    var eligible := Filter(Eligible(since), rows);
    WindowIsNewest(rows, since, window);
    FilterKeepsDistinct(StoredId, Eligible(since), rows);
    SelectionKeepsDistinct(StoredId, eligible, window);
    forall row | row in window
      ensures row in eligible
    {
      assert row in multiset(window);
    }
  }

  lemma PickedSnoc(log: seq<AuditEvent>, received: seq<nat>, i: nat, types: seq<string>)
    requires i < |log| && forall k :: 0 <= k < |received| ==> received[k] < |log|
    ensures Picked(log, received + [i], types)
            == Picked(log, received, types) + if Wants(types, log[i].eventType) then [log[i]] else []
  {
    assert (received + [i])[..|received|] == received;
  }

  lemma ReceiveKeeps(s: State, types: seq<string>)
    requires s.phase.Live? && s.held == [] && s.cursor < |s.log| && StreamInvariant(s, types)
    ensures StreamInvariant(Next(s, ReceiveEvent, types), types)
  {
    if Receive(s.log, s.cursor).0.Caught? {
      CaughtKeeps(s, types);
    } else {
      hide Picked, Wants, Stream;
    }
  }

  lemma CaughtKeeps(s: State, types: seq<string>)
    requires s.phase.Live? && s.held == [] && Oldest(s.log) <= s.cursor < |s.log| && StreamInvariant(s, types)
    ensures StreamInvariant(Next(s, ReceiveEvent, types), types)
  {
    var e := s.log[s.cursor];
    var caught := if Wants(types, e.eventType) then [e] else [];
    assert Next(s, ReceiveEvent, types)
        == s.(cursor := s.cursor + 1, received := s.received + [s.cursor], held := caught);
    hide Next, Receive, Picked, Increasing, Wants, Oldest;
    PickedSnoc(s.log, s.received, s.cursor, types);
    IncreasingSnoc(s.received, s.subscribedAt, s.cursor);
    Appended(s.delivered, s.channel, s.replay, Picked(s.log, s.received, types), caught);
    CaughtStream(s, caught);
  }

  lemma CaughtStream(s: State, caught: seq<AuditEvent>)
    requires s.held == []
    ensures Stream(s) == s.delivered + s.channel + []
    ensures Stream(s.(cursor := s.cursor + 1, received := s.received + [s.cursor], held := caught))
            == s.delivered + s.channel + caught
  {
  }

  lemma IncreasingSnoc(positions: seq<nat>, low: nat, high: nat)
    requires Increasing(positions, low, high) && low <= high
    ensures Increasing(positions + [high], low, high + 1)
  {
  }

  lemma Appended<T>(delivered: seq<T>, channel: seq<T>, replay: seq<T>, picked: seq<T>, caught: seq<T>)
    requires delivered + channel + [] == replay + picked
    ensures delivered + channel + caught == replay + (picked + caught)
  {
    assert delivered + channel + [] == delivered + channel;
  }

  lemma SubscribeKeeps(s: State, types: seq<string>)
    requires s.phase.Replaying? && s.toReplay == [] && StreamInvariant(s, types)
    ensures StreamInvariant(Next(s, Subscribe, types), types)
  {
    assert Stream(Next(s, Subscribe, types)) == s.replay + Picked(s.log, [], types);
  }

  /** Moving events towards the client does not change the stream. */
  lemma OutputKeeps(s: State, step: Step, types: seq<string>)
    requires step.SendLive? || step.Consume? || step.Disconnect?
    requires Enabled(s, step, None) && StreamInvariant(s, types)
    ensures StreamInvariant(Next(s, step, types), types)
  {
    hide Picked, Increasing;
    StreamMoves(s.delivered, s.channel, s.held);
  }

  lemma StreamMoves<T>(delivered: seq<T>, channel: seq<T>, held: seq<T>)
    ensures delivered + (channel + held) + [] == delivered + channel + held
    ensures channel != [] ==> (delivered + [channel[0]]) + channel[1..] + held == delivered + channel + held
  {
    if channel != [] {
      assert channel == [channel[0]] + channel[1..];
    }
  }

  lemma SubscriberKeeps(s: State, step: Step, types: seq<string>)
    requires step.SendReplay? || step.Subscribe? || step.SendLive? || step.Consume? || step.Disconnect?
    requires Enabled(s, step, None) && StreamInvariant(s, types)
    ensures StreamInvariant(Next(s, step, types), types)
  {
    if step.SendReplay? {
      hide Picked, Increasing, Stream;
    } else if step.Subscribe? {
      SubscribeKeeps(s, types);
    } else {
      OutputKeeps(s, step, types);
    }
  }

  ghost predicate Invariant(s: State, types: seq<string>) {
    LogInvariant(s) && ReplayInvariant(s) && StreamInvariant(s, types)
  }

  lemma PersistKeepsAll(s: State, step: Step, types: seq<string>)
    requires step.Persist? && step.call !in s.publishing && Invariant(s, types)
    ensures Invariant(Next(s, step, types), types)
  {
    var s' := Next(s, step, types);
    PersistKeeps(s, step, types);
    assert s'.rows[..s.rowsAtQuery] == s.rows[..s.rowsAtQuery];
  }

  lemma QueryKeepsAll(s: State, step: Step, since: Option<int>, types: seq<string>)
    requires step.Query? && Enabled(s, step, since) && Invariant(s, types)
    ensures Invariant(Next(s, step, types), types)
  {
    WindowDistinct(s.rows, since, step.window);
    ReplayFromRows(step.window, s.rows, types);
    assert s.rows[..|s.rows|] == s.rows;
  }

  /** Subscriber steps touch neither the log nor the record of what was replayed. */
  lemma LogUntouched(s: State, s': State)
    requires LogInvariant(s) && ReplayInvariant(s)
    requires s'.rows == s.rows && s'.log == s.log && s'.publishing == s.publishing
    requires s'.replay == s.replay && s'.rowsAtQuery == s.rowsAtQuery
    ensures LogInvariant(s') && ReplayInvariant(s')
  {
  }

  lemma BroadcastKeepsAll(s: State, step: Step, types: seq<string>)
    requires step.Broadcast? && step.call in s.publishing && Invariant(s, types)
    ensures Invariant(Next(s, step, types), types)
  {
    BroadcastKeepsLog(s, step, types);
    BroadcastKeepsStream(s, step, types);
    hide LogInvariant, StreamInvariant;
  }

  lemma SubscriberKeepsAll(s: State, step: Step, since: Option<int>, types: seq<string>)
    requires !step.Persist? && !step.Broadcast? && !step.Query?
    requires Enabled(s, step, since) && Invariant(s, types)
    ensures Invariant(Next(s, step, types), types)
  {
    hide LogInvariant, ReplayInvariant, StreamInvariant;
    if step.ReceiveEvent? {
      ReceiveKeeps(s, types);
    } else {
      SubscriberKeeps(s, step, types);
    }
    LogUntouched(s, Next(s, step, types));
  }

  lemma StepKeepsInvariants(s: State, step: Step, since: Option<int>, types: seq<string>)
    requires Invariant(s, types) && Enabled(s, step, since)
    ensures Invariant(Next(s, step, types), types)
  {
    hide Invariant, Next;
    match step
    case Persist(_, _, _) => PersistKeepsAll(s, step, types);
    case Broadcast(_) => BroadcastKeepsAll(s, step, types);
    case Query(window) => QueryKeepsAll(s, step, since, types);
    case _ => SubscriberKeepsAll(s, step, since, types);
  }

  lemma {:induction false} ReachableInvariants(run: Run, since: Option<int>, types: seq<string>, n: nat)
    requires IsRun(run, since, types) && n <= |run.steps|
    ensures Invariant(run.states[n], types)
  {
    if n > 0 {
      ReachableInvariants(run, since, types, n - 1);
      assert StepAt(run, n - 1, since, types);
      StepKeepsInvariants(run.states[n - 1], run.steps[n - 1], since, types);
    }
  }

  // ----- Delivery -----

  function Count(events: seq<AuditEvent>, id: string): nat {
    if events == [] then 0
    else Count(events[..|events| - 1], id) + if events[|events| - 1].id == id then 1 else 0
  }

  lemma {:induction false} CountConcat(a: seq<AuditEvent>, b: seq<AuditEvent>, id: string)
    ensures Count(a + b, id) == Count(a, id) + Count(b, id)
  {
    if b == [] {
      assert a + b == a;
    } else {
      assert (a + b)[..|a + b| - 1] == a + b[..|b| - 1];
      CountConcat(a, b[..|b| - 1], id);
    }
  }

  ghost predicate Has(events: seq<AuditEvent>, id: string) {
    exists i :: 0 <= i < |events| && events[i].id == id
  }

  lemma {:induction false} CountDistinct(events: seq<AuditEvent>, id: string)
    requires DistinctBy(EventId, events)
    ensures Count(events, id) == if Has(events, id) then 1 else 0
  {
    if events != [] {
      var n := |events| - 1;
      CountDistinct(events[..n], id);
      assert Has(events, id) <==> Has(events[..n], id) || events[n].id == id by {
        if Has(events[..n], id) {
          var i :| 0 <= i < n && events[..n][i].id == id;
          assert events[i].id == id;
        }
        if Has(events, id) && events[n].id != id {
          var i :| 0 <= i < |events| && events[i].id == id;
          assert events[..n][i].id == id;
        }
      }
    }
  }

  /** The event was broadcast at a position that the subscriber received, and is of a wanted type. */
  ghost predicate ReceivedLive(s: State, types: seq<string>, id: string) {
    exists i :: i in s.received && i < |s.log| && s.log[i].id == id && Wants(types, s.log[i].eventType)
  }

  ghost predicate PickedAt(log: seq<AuditEvent>, received: seq<nat>, types: seq<string>, id: string) {
    exists i :: i in received && i < |log| && log[i].id == id && Wants(types, log[i].eventType)
  }

  lemma CountOne(e: AuditEvent, id: string)
    ensures Count([e], id) == if e.id == id then 1 else 0
  {
    assert [e][..0] == [];
  }

  lemma PickedAtSnoc(log: seq<AuditEvent>, received: seq<nat>, types: seq<string>, id: string)
    requires DistinctBy(EventId, log) && Increasing(received, 0, |log|) && received != []
    ensures var n := |received| - 1;
            var last := log[received[n]];
            var hit := last.id == id && Wants(types, last.eventType);
            && (PickedAt(log, received, types, id) <==> PickedAt(log, received[..n], types, id) || hit)
            && !(PickedAt(log, received[..n], types, id) && hit)
  {
    var n := |received| - 1;
    assert received == received[..n] + [received[n]];
    assert forall i :: i in received[..n] ==> i < received[n];
  }

  lemma {:induction false} CountPicked(log: seq<AuditEvent>, received: seq<nat>, types: seq<string>, id: string)
    requires DistinctBy(EventId, log) && Increasing(received, 0, |log|)
    ensures Count(Picked(log, received, types), id) == if PickedAt(log, received, types, id) then 1 else 0
  {
    if received != [] {
      hide PickedAt;
      var shorter := received[..|received| - 1];
      var last := log[received[|received| - 1]];
      CountPicked(log, shorter, types, id);
      PickedAtSnoc(log, received, types, id);
      if Wants(types, last.eventType) {
        CountConcat(Picked(log, shorter, types), [last], id);
        CountOne(last, id);
      } else {
        assert Picked(log, received, types) == Picked(log, shorter, types);
      }
    }
  }

  /** The exact delivery count, in every run: one if the event is in the replay, plus one if it was
      received live. Nothing arrives that was not persisted, and nothing arrives three times. */
  lemma DeliveryCount(run: Run, since: Option<int>, types: seq<string>, n: nat, id: string)
    requires IsRun(run, since, types) && n <= |run.steps|
    requires run.states[n].phase.Live? || run.states[n].phase.Stopped?
    ensures var s := run.states[n];
            Count(Stream(s), id) == (if Has(s.replay, id) then 1 else 0) + (if ReceivedLive(s, types, id) then 1 else 0)
    ensures var s := run.states[n]; Count(Stream(s), id) > 0 ==> HasRow(s.rows, id)
  {
    ReachableInvariants(run, since, types, n);
    var s := run.states[n];
    hide IsRun;
    CountInState(s, types, id);
    if Has(s.replay, id) || ReceivedLive(s, types, id) {
      DeliveredIsStored(s, types, id);
    }
  }

  lemma CountInState(s: State, types: seq<string>, id: string)
    requires LogInvariant(s) && ReplayInvariant(s) && StreamInvariant(s, types) && (s.phase.Live? || s.phase.Stopped?)
    ensures Count(Stream(s), id) == (if Has(s.replay, id) then 1 else 0) + (if ReceivedLive(s, types, id) then 1 else 0)
  {
    CountConcat(s.replay, Picked(s.log, s.received, types), id);
    CountDistinct(s.replay, id);
    CountPicked(s.log, s.received, types, id);
    hide Count, Picked, Stream, Has;
  }

  lemma DeliveredIsStored(s: State, types: seq<string>, id: string)
    requires LogInvariant(s) && ReplayInvariant(s) && (Has(s.replay, id) || ReceivedLive(s, types, id))
    ensures HasRow(s.rows, id)
  {
    if Has(s.replay, id) {
      var i :| 0 <= i < |s.replay| && s.replay[i].id == id;
      assert s.replay[i] in s.replay;
      var j :| 0 <= j < s.rowsAtQuery && s.rows[..s.rowsAtQuery][j].id == id;
      assert s.rows[j].id == id;
    } else {
      var i :| i in s.received && i < |s.log| && s.log[i].id == id;
      assert s.log[i] in s.log;
    }
  }

  /** The stream opens with the whole replay, and the live part follows broadcast order, with every
      gap in it accounted for by a reported lag. */
  lemma StreamOrder(run: Run, since: Option<int>, types: seq<string>, n: nat)
    requires IsRun(run, since, types) && n <= |run.steps|
    requires run.states[n].phase.Live? || run.states[n].phase.Stopped?
    ensures var s := run.states[n];
            && Increasing(s.received, s.subscribedAt, |s.log|)
            && Stream(s) == s.replay + Picked(s.log, s.received, types)
            && |s.received| + s.skipped == s.cursor - s.subscribedAt
  {
    ReachableInvariants(run, since, types, n);
  }

  ghost predicate PersistedAfterQuery(s: State, id: string) {
    s.rowsAtQuery <= |s.rows| && !HasRow(s.rows[..s.rowsAtQuery], id)
  }

  /** The event sits at log position i. */
  ghost predicate BroadcastAt(s: State, i: nat, id: string) {
    i < |s.log| && s.log[i].id == id
  }

  /** What happens to one wanted event depends only on when it was persisted and broadcast. It arrives
      once if it was replayed, plus once if its log position was received. So, persisted after the
      query and broadcast after the subscription, it arrives exactly once when its position is
      received; broadcast in the gap between query and subscription, never; and if it was also in the
      replay, twice. */
  lemma DeliveryCases(run: Run, since: Option<int>, types: seq<string>, n: nat, i: nat, id: string)
    requires IsRun(run, since, types) && n <= |run.steps|
    requires run.states[n].phase.Live? || run.states[n].phase.Stopped?
    requires BroadcastAt(run.states[n], i, id) && (types == [] || run.states[n].log[i].eventType in types)
    ensures var s := run.states[n];
            && Count(Stream(s), id) == (if Has(s.replay, id) then 1 else 0) + (if i in s.received then 1 else 0)
            && (Has(s.replay, id) ==> !PersistedAfterQuery(s, id))
            && (i in s.received ==> s.subscribedAt <= i < s.cursor)
  {
    var s := run.states[n];
    ReachableInvariants(run, since, types, n);
    DeliveryCount(run, since, types, n, id);
    assert ReceivedLive(s, types, id) <==> i in s.received by {
      if ReceivedLive(s, types, id) {
        var j :| j in s.received && j < |s.log| && s.log[j].id == id && Wants(types, s.log[j].eventType);
        assert i == j;
      }
    }
    assert Has(s.replay, id) ==> HasRow(s.rows[..s.rowsAtQuery], id) by {
      if Has(s.replay, id) {
        var k :| 0 <= k < |s.replay| && s.replay[k].id == id;
        assert s.replay[k] in s.replay;
      }
    }
  }

  lemma {:induction false} IncreasingAtLeast(positions: seq<nat>, low: nat, high: nat, k: nat)
    requires Increasing(positions, low, high) && k < |positions|
    ensures positions[k] >= low + k
  {
    if k > 0 {
      IncreasingAtLeast(positions, low, high, k - 1);
    }
  }

  lemma {:induction false} IncreasingAtMost(positions: seq<nat>, low: nat, high: nat, k: nat)
    requires Increasing(positions, low, high) && k < |positions|
    ensures positions[k] + (|positions| - k) <= high
    decreases |positions| - k
  {
    if k + 1 < |positions| {
      IncreasingAtMost(positions, low, high, k + 1);
    }
  }

  /** A subscriber that never lagged has received every position from its subscription up to its
      cursor, so the count of a wanted event that the cursor has passed is a function of the replay and
      the event's position: once for each of the two that has it, and exactly once if it was persisted
      after the query and broadcast after the subscription. */
  lemma UnlaggedCount(run: Run, since: Option<int>, types: seq<string>, n: nat, i: nat, id: string)
    requires IsRun(run, since, types) && n <= |run.steps|
    requires run.states[n].phase.Live? || run.states[n].phase.Stopped?
    requires BroadcastAt(run.states[n], i, id) && (types == [] || run.states[n].log[i].eventType in types)
    requires i < run.states[n].cursor && run.states[n].skipped == 0
    ensures var s := run.states[n];
            && Count(Stream(s), id)
               == (if Has(s.replay, id) then 1 else 0) + (if i >= s.subscribedAt then 1 else 0)
            && (PersistedAfterQuery(s, id) && i >= s.subscribedAt ==> Count(Stream(s), id) == 1)
  {
    var s := run.states[n];
    ReachableInvariants(run, since, types, n);
    DeliveryCases(run, since, types, n, i, id);
    if i >= s.subscribedAt {
      var k := i - s.subscribedAt;
      IncreasingAtLeast(s.received, s.subscribedAt, s.cursor, k);
      IncreasingAtMost(s.received, s.subscribedAt, s.cursor, k);
      assert s.received[k] == i;
    }
  }

  lemma {:induction false} PickedIsWanted(log: seq<AuditEvent>, received: seq<nat>, types: seq<string>)
    requires forall k :: 0 <= k < |received| ==> received[k] < |log|
    ensures forall e :: e in Picked(log, received, types) ==> e in log && (types == [] || e.eventType in types)
  {
    if received != [] {
      PickedIsWanted(log, received[..|received| - 1], types);
    }
  }

  /** Nothing arrives that was not asked for: every event in the stream is of an asked-for type, and
      it was broadcast, or stored before the query with a time not before `since`. */
  lemma StreamIsWanted(run: Run, since: Option<int>, types: seq<string>, n: nat)
    requires IsRun(run, since, types) && n <= |run.steps|
    requires run.states[n].phase.Live? || run.states[n].phase.Stopped?
    ensures var s := run.states[n];
            forall e :: e in Stream(s) ==>
              && (types == [] || e.eventType in types)
              && (|| e in s.log
                  || exists row :: row in s.rows && row.id == e.id && row.eventType == e.eventType
                       && row.sourceService == e.sourceService && row.userId == e.userId && row.payload == e.payload
                       && (since.None? || row.occurredAt >= since.value))
  {
    var s := run.states[n];
    ReachableInvariants(run, since, types, n);
    var window := ReplayIsTheWindow(run, since, types, n);
    PickedIsWanted(s.log, s.received, types);
    hide IsRun, Picked, Replay, IsWindow, Stream;
    forall e | e in s.replay
      ensures types == [] || e.eventType in types
      ensures exists row :: row in s.rows && row.id == e.id && row.eventType == e.eventType
                && row.sourceService == e.sourceService && row.userId == e.userId && row.payload == e.payload
                && (since.None? || row.occurredAt >= since.value)
    {
      ReplayedRow(s, since, types, window, e);
    }
  }

  lemma ReplayedRow(s: State, since: Option<int>, types: seq<string>, window: seq<StoredEvent>, e: AuditEvent)
    requires ReplayedWindow(s, since, types, window) && e in s.replay
    ensures types == [] || e.eventType in types
    ensures exists row :: row in s.rows && row.id == e.id && row.eventType == e.eventType
              && row.sourceService == e.sourceService && row.userId == e.userId && row.payload == e.payload
              && (since.None? || row.occurredAt >= since.value)
  {
    ReplayHolds(window, types, e);
    WindowIsNewest(s.rows[..s.rowsAtQuery], since, window);
    hide Replay, IsWindow;
    var row :| row in window && (types == [] || row.eventType in types)
      && e.id == row.id && e.eventType == row.eventType && e.sourceService == row.sourceService
      && e.userId == row.userId && e.payload == row.payload;
    assert row in s.rows[..s.rowsAtQuery] && row in s.rows;
  }

  ghost predicate ReplayedWindow(s: State, since: Option<int>, types: seq<string>, window: seq<StoredEvent>) {
    s.rowsAtQuery <= |s.rows| && IsWindow(s.rows[..s.rowsAtQuery], since, window) && s.replay == Replay(window, types)
  }

  lemma RecordLasts(s: State, step: Step, since: Option<int>, types: seq<string>)
    requires Enabled(s, step, since) && !step.Query?
    ensures var s' := Next(s, step, types);
            && s'.replay == s.replay && s'.rowsAtQuery == s.rowsAtQuery && s.rows <= s'.rows
            && (s'.phase.Idle? <==> s.phase.Idle?)
  {
  }

  /** The replay is, in every run, the wanted events of a window over the rows stored at the query. */
  lemma {:induction false} ReplayIsTheWindow(run: Run, since: Option<int>, types: seq<string>, n: nat)
    returns (window: seq<StoredEvent>)
    requires IsRun(run, since, types) && n <= |run.steps| && !run.states[n].phase.Idle?
    ensures ReplayedWindow(run.states[n], since, types, window)
  {
    assert StepAt(run, n - 1, since, types);
    var s, s' := run.states[n - 1], run.states[n];
    if run.steps[n - 1].Query? {
      window := run.steps[n - 1].window;
      assert s'.rows[..|s'.rows|] == s'.rows;
    } else {
      RecordLasts(s, run.steps[n - 1], since, types);
      hide Next, Enabled, IsWindow;
      window := ReplayIsTheWindow(run, since, types, n - 1);
      assert s'.rows[..s.rowsAtQuery] == s.rows[..s.rowsAtQuery];
    }
  }

  /** The stream goes live only if the whole replay fits in its channel: with more, the replay loop
      fills the channel and then no subscriber step is ever possible again. */
  lemma LongReplayNeverGoesLive(run: Run, since: Option<int>, types: seq<string>, n: nat)
    requires IsRun(run, since, types) && n <= |run.steps| && |run.states[n].replay| > 64
    ensures var s := run.states[n];
            && s.phase.Replaying?
            && (|s.channel| == 64 ==>
                 forall step: Step :: !step.Persist? && !step.Broadcast? ==> !Enabled(s, step, since))
  {
    ReachableInvariants(run, since, types, n);
  }

  /** With at most a channel's worth, the subscriber can always take its next step towards going
      live, and goes live with exactly the replay waiting for the client. */
  lemma ShortReplayGoesLive(run: Run, since: Option<int>, types: seq<string>, n: nat)
    requires IsRun(run, since, types) && n <= |run.steps|
    requires run.states[n].phase.Replaying? && |run.states[n].replay| <= 64
    ensures var s := run.states[n];
            && (s.toReplay != [] ==>
                 Enabled(s, SendReplay, since) && |Next(s, SendReplay, types).toReplay| < |s.toReplay|)
            && (s.toReplay == [] ==> Enabled(s, Subscribe, since) && Next(s, Subscribe, types).phase.Live?
                                     && Next(s, Subscribe, types).channel == s.replay)
  {
    ReachableInvariants(run, since, types, n);
  }

  /** The subscriber's phase is the last of its phase steps: a query, a subscription, a disconnection. */
  lemma {:induction false} PhaseIff(run: Run, since: Option<int>, types: seq<string>, n: nat)
    requires IsRun(run, since, types) && n <= |run.steps|
    ensures run.states[n].phase.Idle? <==> forall k :: 0 <= k < n ==> !run.steps[k].Query?
    ensures run.states[n].phase.Live? || run.states[n].phase.Stopped? <==>
            exists k :: 0 <= k < n && run.steps[k].Subscribe?
    ensures run.states[n].phase.Stopped? <==> exists k :: 0 <= k < n && run.steps[k].Disconnect?
  {
    if n > 0 {
      assert StepAt(run, n - 1, since, types);
      hide IsRun, Next, Enabled;
      PhaseIff(run, since, types, n - 1);
      StepPhase(run.states[n - 1], run.steps[n - 1], since, types);
    }
  }

  lemma StepPhase(s: State, step: Step, since: Option<int>, types: seq<string>)
    requires Enabled(s, step, since)
    ensures Next(s, step, types).phase
            == match step
               case Query(_) => Replaying
               case Subscribe => Live
               case Disconnect => Stopped
               case _ => s.phase
    ensures step.Query? ==> s.phase.Idle?
    ensures step.Subscribe? ==> s.phase.Replaying?
    ensures step.Disconnect? ==> s.phase.Live?
  {
    hide IsWindow, Replay, Receive, HasRow;
  }

  // ----- Runs in which it goes wrong -----

  function Last(run: Run): State
    requires run.states != []
  {
    run.states[|run.states| - 1]
  }

  lemma InitialRun(since: Option<int>, types: seq<string>) returns (run: Run)
    ensures IsRun(run, since, types) && run.states != [] && Last(run) == INITIAL
  {
    run := Run([], [INITIAL]);
  }

  lemma Extend(run: Run, step: Step, since: Option<int>, types: seq<string>) returns (longer: Run)
    requires IsRun(run, since, types) && Enabled(Last(run), step, since)
    ensures IsRun(longer, since, types) && longer.states != [] && Last(longer) == Next(Last(run), step, types)
  {
    hide Enabled, Next;
    longer := Run(run.steps + [step], run.states + [Next(Last(run), step, types)]);
    forall n | 0 <= n < |longer.steps|
      ensures StepAt(longer, n, since, types)
    {
      if n < |run.steps| {
        assert StepAt(run, n, since, types);
      }
    }
  }

  lemma EmptyWindow(since: Option<int>)
    ensures IsWindow([], since, [])
  {
    assert IsWindowOf([], since, [], []);
  }

  /** Nothing is left to receive, no lag was reported, and the event that was stored and broadcast is
      not in the stream. */
  ghost predicate LostForGood(s: State, e: AuditEvent) {
    && s.phase.Live? && s.log == [e] && HasRow(s.rows, e.id) && s.publishing == map[]
    && s.cursor == |s.log| && s.skipped == 0 && Stream(s) == []
  }

  /** An event persisted after the query and broadcast before the subscription is lost, whatever the
      request asks for. */
  lemma GapLosesEvent(e: AuditEvent, now: int, since: Option<int>, types: seq<string>) returns (run: Run)
    ensures IsRun(run, since, types) && LostForGood(Last(run), e)
  {
    run := InitialRun(since, types);
    EmptyWindow(since);
    hide IsRun, IsWindow;
    run := Extend(run, Query([]), since, types);
    assert Last(run) == INITIAL.(phase := Replaying);
    run := Extend(run, Persist(0, e, now), since, types);
    assert Last(run).rows == [ToRow(e, now)] && Last(run).publishing == map[0 := e];
    run := Extend(run, Broadcast(0), since, types);
    assert Last(run).log == [e] && Last(run).publishing == map[];
    run := Extend(run, Subscribe, since, types);
    assert Last(run).rows[0].id == e.id;
  }

  lemma SingleWindow(row: StoredEvent, since: Option<int>)
    requires Eligible(since)(row)
    ensures IsWindow([row], since, [row])
  {
    assert IsWindowOf([row], since, [row], [row]);
  }

  lemma SingleReplay(row: StoredEvent, types: seq<string>)
    requires Wants(types, row.eventType)
    ensures Replay([row], types) == [ToReplay(row)]
  {
    assert [row][1..] == [];
  }

  /** The stream after its one event was replayed and it went live. */
  ghost predicate ReplayedOne(s: State, e: AuditEvent) {
    && s.publishing == map[0 := e] && s.log == [] && s.cursor == 0 && s.phase.Live?
    && s.channel == [e.(occurredAt := None)] && s.delivered == [] && s.held == []
  }

  lemma StoreOne(e: AuditEvent, now: int, since: Option<int>, types: seq<string>) returns (run: Run)
    ensures IsRun(run, since, types) && run.states != []
    ensures Last(run) == INITIAL.(rows := [ToRow(e, now)], publishing := map[0 := e])
  {
    run := InitialRun(since, types);
    hide IsRun, ToRow;
    run := Extend(run, Persist(0, e, now), since, types);
  }

  lemma ReplayOne(e: AuditEvent, now: int, since: Option<int>, types: seq<string>) returns (run: Run)
    requires Wants(types, e.eventType) && Eligible(since)(ToRow(e, now))
    ensures IsRun(run, since, types) && run.states != [] && ReplayedOne(Last(run), e)
  {
    var row := ToRow(e, now);
    run := StoreOne(e, now, since, types);
    SingleWindow(row, since);
    SingleReplay(row, types);
    ReplayOfRow(e, now);
    hide IsRun, IsWindow, Replay, ToRow, HasRow, Receive, Wants;
    run := Extend(run, Query([row]), since, types);
    assert Last(run).toReplay == [e.(occurredAt := None)] && Last(run).channel == [];
    run := Extend(run, SendReplay, since, types);
    assert Last(run).channel == [e.(occurredAt := None)] && Last(run).toReplay == [];
    run := Extend(run, Subscribe, since, types);
  }

  /** An event persisted before the query and broadcast after the subscription arrives twice. */
  lemma OverlapDuplicatesEvent(e: AuditEvent, now: int, since: Option<int>, types: seq<string>) returns (run: Run)
    requires (types == [] || e.eventType in types) && (since.None? || now >= since.value)
    ensures IsRun(run, since, types) && run.states != [] && Last(run).phase.Live? && Last(run).log == [e]
    ensures Stream(Last(run)) == [e.(occurredAt := None), e] && Count(Stream(Last(run)), e.id) == 2
  {
    assert Wants(types, e.eventType) && Eligible(since)(ToRow(e, now));
    hide *;
    run := ReplayOne(e, now, since, types);
    run := ReceiveAgain(run, e, since, types);
  }

  lemma ReceiveAgain(replayed: Run, e: AuditEvent, since: Option<int>, types: seq<string>) returns (run: Run)
    requires IsRun(replayed, since, types) && replayed.states != [] && ReplayedOne(Last(replayed), e)
    requires Wants(types, e.eventType)
    ensures IsRun(run, since, types) && run.states != [] && Last(run).phase.Live? && Last(run).log == [e]
    ensures Stream(Last(run)) == [e.(occurredAt := None), e] && Count(Stream(Last(run)), e.id) == 2
  {
    hide IsRun, Wants;
    run := Extend(replayed, Broadcast(0), since, types);
    assert Last(run).log == [e] && Last(run).cursor == 0;
    run := Extend(run, ReceiveEvent, since, types);
    assert Last(run).held == [e];
    CountConcat([e.(occurredAt := None)], [e], e.id);
    CountOne(e.(occurredAt := None), e.id);
    CountOne(e, e.id);
    assert Stream(Last(run)) == [e.(occurredAt := None)] + [e];
  }

  function NumberedEvent(n: nat, eventType: string): AuditEvent {
    AuditEvent(seq(n, _ => 'x'), eventType, None, "", "", "", "")
  }

  /** n events of one type stored at one time, and nothing else done. */
  ghost predicate Stored(s: State, n: nat, eventType: string, now: int) {
    && s == INITIAL.(rows := s.rows, publishing := s.publishing) && |s.rows| == n
    && (forall i :: 0 <= i < n ==> s.rows[i] == ToRow(NumberedEvent(i, eventType), now))
    && (forall call :: call in s.publishing ==> call < n)
  }

  lemma {:induction false} StoreMany(n: nat, eventType: string, now: int, since: Option<int>, types: seq<string>)
    returns (run: Run)
    ensures IsRun(run, since, types) && run.states != [] && Stored(Last(run), n, eventType, now)
  {
    if n == 0 {
      run := InitialRun(since, types);
    } else {
      run := StoreMany(n - 1, eventType, now, since, types);
      var s, e := Last(run), NumberedEvent(n - 1, eventType);
      assert forall i :: 0 <= i < n - 1 ==> |s.rows[i].id| == i;
      assert !HasRow(s.rows, e.id);
      run := Extend(run, Persist(n - 1, e, now), since, types);
    }
  }

  lemma WindowOfStored(s: State, n: nat, eventType: string, now: int, since: Option<int>, types: seq<string>)
    requires Stored(s, n, eventType, now) && n <= REPLAY_LIMIT
    requires Wants(types, eventType) && (since.None? || now >= since.value)
    ensures IsWindow(s.rows, since, s.rows) && |Replay(s.rows, types)| == n
  {
    AllOneType(s, n, eventType, now, since, types);
    FilterAll(Eligible(since), s.rows);
    assert IsWindowOf(s.rows, since, s.rows, s.rows);
    FilterAll((row: StoredEvent) => Wants(types, row.eventType), s.rows);
  }

  lemma AllOneType(s: State, n: nat, eventType: string, now: int, since: Option<int>, types: seq<string>)
    requires Stored(s, n, eventType, now)
    requires Wants(types, eventType) && (since.None? || now >= since.value)
    ensures |s.rows| == n && NewestFirst(s.rows)
    ensures forall row :: row in s.rows ==> Eligible(since)(row) && Wants(types, row.eventType)
  {
    hide Wants;
    assert forall i :: 0 <= i < n ==> s.rows[i].occurredAt == now && s.rows[i].eventType == eventType;
  }

  lemma {:induction false} SendMany(run: Run, k: nat, since: Option<int>, types: seq<string>) returns (longer: Run)
    requires IsRun(run, since, types) && Last(run).phase.Replaying? && Last(run).channel == []
    requires k <= CHANNEL_CAPACITY && k <= |Last(run).toReplay|
    ensures IsRun(longer, since, types) && longer.states != []
    ensures Last(longer).phase.Replaying? && Last(longer).replay == Last(run).replay
    ensures |Last(longer).channel| == k && |Last(longer).toReplay| == |Last(run).toReplay| - k
  {
    if k == 0 {
      longer := run;
    } else {
      longer := SendMany(run, k - 1, since, types);
      longer := Extend(longer, SendReplay, since, types);
    }
  }

  /** The channel is full before the stream was handed out, and the subscriber has no step left. */
  ghost predicate Stuck(s: State, since: Option<int>) {
    && s.phase.Replaying? && |s.channel| == CHANNEL_CAPACITY && s.toReplay != []
    && forall step: Step :: !step.Persist? && !step.Broadcast? ==> !Enabled(s, step, since)
  }

  /** From 65 stored events of a wanted type on, a request can get stuck in its replay. */
  lemma LongReplayGetsStuck(n: nat, eventType: string, now: int, since: Option<int>, types: seq<string>)
    returns (run: Run)
    requires 64 < n <= 100
    requires (types == [] || eventType in types) && (since.None? || now >= since.value)
    ensures IsRun(run, since, types) && |Last(run).replay| == n && Stuck(Last(run), since)
  {
    run := StoreMany(n, eventType, now, since, types);
    WindowOfStored(Last(run), n, eventType, now, since, types);
    hide IsRun, IsWindow, Replay, Stored;
    var window := Last(run).rows;
    run := Extend(run, Query(window), since, types);
    assert Last(run).replay == Replay(window, types) && Last(run).toReplay == Replay(window, types);
    assert Last(run).phase.Replaying? && Last(run).channel == [];
    hide *;
    run := SendMany(run, CHANNEL_CAPACITY, since, types);
    FullIsStuck(Last(run), since);
  }

  lemma FullIsStuck(s: State, since: Option<int>)
    requires s.phase.Replaying? && |s.channel| == CHANNEL_CAPACITY && s.toReplay != []
    ensures Stuck(s, since)
  {
    hide IsWindow;
  }
}
