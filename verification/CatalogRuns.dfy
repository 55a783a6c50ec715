/** Every run of the catalog. An upsert is two statements, the endpoint lookup and the write, and
    statements of different calls may interleave (crates/elan-central/src/db/catalog_store.rs:25-123). */
module CatalogRuns {
  import opened Wrappers
  import opened CatalogTypes
  import opened CatalogStore

  datatype Op =
    | Register(id: string, environment: string, hostname: string, endpoint: string)
    | Beat(id: string)
    | Die(id: string)
    | Lookup(call: nat, coordinatorId: string)
    | Write(call: nat, reg: Registration)
    | Unregister(datasetId: string)

  /** The tables, and the endpoint each unfinished upsert has looked up, with its coordinator. */
  datatype State = State(tables: Tables, pending: map<nat, (string, string)>)

  const INITIAL := State(EMPTY, map[])

  /** The write statement of an upsert runs with the endpoint that upsert looked up. */
  predicate Enabled(s: State, call: nat, reg: Registration) {
    call in s.pending && s.pending[call].0 == reg.coordinatorId
  }

  function Step(s: State, op: Op): State {
    match op
    case Register(id, environment, hostname, endpoint) =>
      s.(tables := UpsertCoordinator(s.tables, id, environment, hostname, endpoint))
    case Beat(id) => s.(tables := SetAlive(s.tables, id, true))
    case Die(id) => s.(tables := SetAlive(s.tables, id, false))
    case Lookup(call, coordinatorId) =>
      s.(pending := s.pending[call := (coordinatorId, LookupEndpoint(s.tables, coordinatorId))])
    case Write(call, reg) =>
      if !Enabled(s, call, reg) then s
      else
        (match WriteDataset(s.tables, reg, s.pending[call].1)
         case Err(_) => s.(pending := s.pending - {call})
         case Ok(t) => State(t, s.pending - {call}))
    case Unregister(datasetId) => s.(tables := Deactivate(s.tables, datasetId))
  }

  /** The state after the first n steps. */
  function After(ops: seq<Op>, n: nat): State
    requires n <= |ops|
  {
    if n == 0 then INITIAL else Step(After(ops, n - 1), ops[n - 1])
  }

  lemma KeepsRowsReflexive(t: Tables)
    ensures KeepsRows(t, t)
  {
  }

  lemma KeepsRowsTransitive(a: Tables, b: Tables, c: Tables)
    requires KeepsRows(a, b) && KeepsRows(b, c)
    ensures KeepsRows(a, c)
  {
  }

  lemma StepKeepsInvariants(s: State, op: Op)
    requires Consistent(s.tables)
    ensures Consistent(Step(s, op).tables) && KeepsRows(s.tables, Step(s, op).tables)
  {
    if op.Write? {
      hide WriteDataset, Consistent, KeepsRows;
      if Enabled(s, op.call, op.reg) && WriteDataset(s.tables, op.reg, s.pending[op.call].1).Ok? {
        WriteKeepsConsistent(s.tables, op.reg, s.pending[op.call].1);
      } else {
        KeepsRowsReflexive(s.tables);
      }
    }
  }

  /** Every reachable catalog has unique ids, unique (namespace, name) pairs and valid coordinator
      references. */
  lemma {:induction false} ReachableConsistent(ops: seq<Op>, n: nat)
    requires n <= |ops|
    ensures Consistent(After(ops, n).tables)
  {
    if n > 0 {
      hide Step, Consistent, KeepsRows;
      ReachableConsistent(ops, n - 1);
      StepKeepsInvariants(After(ops, n - 1), ops[n - 1]);
    }
  }

  /** Once a pair is registered, its id never changes in any continuation of the run, and no other
      row ever takes its place. */
  lemma {:induction false} IdentityIsPermanent(ops: seq<Op>, m: nat, n: nat)
    requires m <= n <= |ops|
    ensures KeepsRows(After(ops, m).tables, After(ops, n).tables)
    decreases n
  {
    hide Step, Consistent, KeepsRows;
    if m < n {
      IdentityIsPermanent(ops, m, n - 1);
      ReachableConsistent(ops, n - 1);
      StepKeepsInvariants(After(ops, n - 1), ops[n - 1]);
      KeepsRowsTransitive(After(ops, m).tables, After(ops, n - 1).tables, After(ops, n).tables);
    } else {
      KeepsRowsReflexive(After(ops, n).tables);
    }
  }

  // ----- Where an endpoint comes from -----

  /** Step j is a write of this pair that the tables accepted. */
  ghost predicate Accepted(ops: seq<Op>, j: nat, key: DatasetKey)
    requires j < |ops|
  {
    && ops[j].Write? && ops[j].reg.Key() == key
    && Enabled(After(ops, j), ops[j].call, ops[j].reg)
    && WriteDataset(After(ops, j).tables, ops[j].reg, After(ops, j).pending[ops[j].call].1).Ok?
  }

  /** In step i a call looked up `endpoint` for its coordinator. */
  ghost predicate LookedUp(ops: seq<Op>, i: nat, call: nat, coordinatorId: string, endpoint: string)
    requires i < |ops|
  {
    ops[i] == Lookup(call, coordinatorId) && endpoint == LookupEndpoint(After(ops, i).tables, coordinatorId)
  }

  /** No lookup by this call in the steps strictly between i and j. */
  ghost predicate NoLookupBetween(ops: seq<Op>, i: nat, j: nat, call: nat)
    requires j <= |ops|
  {
    forall k :: i < k < j ==> !(ops[k].Lookup? && ops[k].call == call)
  }

  /** The row holds what its latest accepted write, step j, put there, with the endpoint that the
      same call had last looked up, in step i; nothing but the active flag has changed since. */
  ghost predicate Written(ops: seq<Op>, n: nat, row: DatasetRow, i: nat, j: nat)
    requires n <= |ops|
  {
    && i < j < n
    && Accepted(ops, j, row.Key())
    && LookedUp(ops, i, ops[j].call, row.coordinatorId, row.executorEndpoint)
    && NoLookupBetween(ops, i, j, ops[j].call)
    && Reflects(row.(isActive := true), ops[j].reg, row.executorEndpoint)
    && (forall k :: j < k < n ==> !Accepted(ops, k, row.Key()))
  }

  ghost predicate Sourced(ops: seq<Op>, n: nat, row: DatasetRow)
    requires n <= |ops|
  {
    exists i, j :: Written(ops, n, row, i, j)
  }

  ghost predicate AllSourced(ops: seq<Op>, n: nat)
    requires n <= |ops|
  {
    forall row :: row in After(ops, n).tables.datasets ==> Sourced(ops, n, row)
  }

  lemma {:induction false} PendingIsLookedUp(ops: seq<Op>, n: nat, call: nat) returns (i: nat)
    requires n <= |ops| && call in After(ops, n).pending
    ensures i < n && LookedUp(ops, i, call, After(ops, n).pending[call].0, After(ops, n).pending[call].1)
    ensures NoLookupBetween(ops, i, n, call)
  {
    if ops[n - 1].Lookup? && ops[n - 1].call == call {
      i := n - 1;
    } else {
      i := PendingIsLookedUp(ops, n - 1, call);
    }
  }

  /** The call's last lookup among the first n steps. */
  function LastLookup(ops: seq<Op>, n: nat, call: nat): (r: Option<nat>)
    requires n <= |ops|
    ensures r.Some? ==> r.value < n && ops[r.value].Lookup? && ops[r.value].call == call
    ensures r.Some? ==> NoLookupBetween(ops, r.value, n, call)
    ensures r.None? ==> forall k :: 0 <= k < n ==> !(ops[k].Lookup? && ops[k].call == call)
  {
    if n == 0 then None
    else if ops[n - 1].Lookup? && ops[n - 1].call == call then Some(n - 1)
    else LastLookup(ops, n - 1, call)
  }

  ghost predicate WritesFor(op: Op, call: nat, coordinatorId: string) {
    op.Write? && op.call == call && op.reg.coordinatorId == coordinatorId
  }

  /** A call that has looked up an endpoint has it until it writes, whether the write is accepted or not. */
  lemma {:induction false} PendingIff(ops: seq<Op>, n: nat, call: nat)
    requires n <= |ops|
    ensures var i := LastLookup(ops, n, call);
            && (call in After(ops, n).pending <==>
                 i.Some? && forall l :: i.value < l < n ==> !WritesFor(ops[l], call, ops[i.value].coordinatorId))
            && (call in After(ops, n).pending ==> After(ops, n).pending[call].0 == ops[i.value].coordinatorId)
  {
    if n == 0 {
      hide WritesFor;
    } else {
      NextState(ops, n - 1);
      LastLookupStep(ops, n - 1, call);
      hide *;
      PendingIff(ops, n - 1, call);
      StepPending(After(ops, n - 1), ops[n - 1], call);
    }
  }

  lemma LastLookupStep(ops: seq<Op>, n: nat, call: nat)
    requires n < |ops|
    ensures LastLookup(ops, n + 1, call)
            == if ops[n].Lookup? && ops[n].call == call then Some(n) else LastLookup(ops, n, call)
  {
  }

  lemma StepPending(s: State, op: Op, call: nat)
    ensures var before, after := s.pending, Step(s, op).pending;
            && (call in after <==>
                 (op.Lookup? && op.call == call) || (call in before && !WritesFor(op, call, before[call].0)))
            && (call in after ==>
                 after[call].0 == if op.Lookup? && op.call == call then op.coordinatorId else before[call].0)
  {
    hide WriteDataset;
  }

  lemma SourcedPersists(ops: seq<Op>, n: nat, row: DatasetRow, row': DatasetRow)
    requires n < |ops| && Sourced(ops, n, row) && !Accepted(ops, n, row.Key())
    requires row'.(isActive := true) == row.(isActive := true)
    ensures Sourced(ops, n + 1, row')
  {
    hide After, Accepted, LookedUp;
    var i, j :| Written(ops, n, row, i, j);
    assert row'.Key() == row.Key();
    assert Written(ops, n + 1, row', i, j);
  }

  /** In every run, however statements interleave, each row's endpoint is the one its coordinator
      had when the latest accepted upsert of that pair looked it up. */
  lemma {:induction false} EndpointComesFromLatestUpsert(ops: seq<Op>, n: nat)
    requires n <= |ops|
    ensures AllSourced(ops, n)
  {
    hide *;
    if n == 0 {
      NothingToSource(ops);
    } else {
      EndpointComesFromLatestUpsert(ops, n - 1);
      ReachableConsistent(ops, n - 1);
      RowsStaySourced(ops, n - 1);
    }
  }

  lemma NothingToSource(ops: seq<Op>)
    ensures AllSourced(ops, 0)
  {
  }

  lemma RowsStaySourced(ops: seq<Op>, n: nat)
    requires n < |ops| && Consistent(After(ops, n).tables)
    requires AllSourced(ops, n)
    ensures AllSourced(ops, n + 1)
  {
    hide After, Sourced, Consistent;
    var rows := After(ops, n + 1).tables.datasets;
    forall row | row in rows
      ensures Sourced(ops, n + 1, row)
    {
      var k :| 0 <= k < |rows| && rows[k] == row;
      RowStaysSourced(ops, n, k);
    }
  }

  lemma RowStaysSourced(ops: seq<Op>, n: nat, k: nat)
    requires n < |ops| && Consistent(After(ops, n).tables)
    requires AllSourced(ops, n)
    requires k < |After(ops, n + 1).tables.datasets|
    ensures Sourced(ops, n + 1, After(ops, n + 1).tables.datasets[k])
  {
    var rows, rows' := After(ops, n).tables.datasets, After(ops, n + 1).tables.datasets;
    if Accepted(ops, n, rows'[k].Key()) {
      AcceptedRowIsSourced(ops, n, k);
    } else {
      UnwrittenRowStays(ops, n, k);
      hide After, Accepted, Sourced, Consistent;
      assert rows[k] in rows;
      SourcedPersists(ops, n, rows[k], rows'[k]);
    }
  }

  lemma AcceptedRowIsSourced(ops: seq<Op>, n: nat, k: nat)
    requires n < |ops| && Consistent(After(ops, n).tables)
    requires k < |After(ops, n + 1).tables.datasets|
    requires Accepted(ops, n, After(ops, n + 1).tables.datasets[k].Key())
    ensures Sourced(ops, n + 1, After(ops, n + 1).tables.datasets[k])
  {
    var row := After(ops, n + 1).tables.datasets[k];
    var i := PendingIsLookedUp(ops, n, ops[n].call);
    assert Written(ops, n + 1, row, i, n);
  }

  lemma UnwrittenRowStays(ops: seq<Op>, n: nat, k: nat)
    requires n < |ops| && k < |After(ops, n + 1).tables.datasets|
    requires !Accepted(ops, n, After(ops, n + 1).tables.datasets[k].Key())
    ensures var rows, rows' := After(ops, n).tables.datasets, After(ops, n + 1).tables.datasets;
            k < |rows| && rows[k].(isActive := true) == rows'[k].(isActive := true)
  {
    if ops[n].Write? {
      hide After;
      UnwrittenRow(After(ops, n), ops[n].call, ops[n].reg, k);
      assert After(ops, n + 1) == Step(After(ops, n), ops[n]) by {
        NextState(ops, n);
      }
    } else {
      hide WriteDataset;
    }
  }

  lemma NextState(ops: seq<Op>, n: nat)
    requires n < |ops|
    ensures After(ops, n + 1) == Step(After(ops, n), ops[n])
  {
  }

  lemma UnwrittenRow(s: State, call: nat, reg: Registration, k: nat)
    requires k < |Step(s, Write(call, reg)).tables.datasets|
    requires var key := Step(s, Write(call, reg)).tables.datasets[k].Key();
             !(reg.Key() == key && Enabled(s, call, reg) && WriteDataset(s.tables, reg, s.pending[call].1).Ok?)
    ensures k < |s.tables.datasets| && s.tables.datasets[k] == Step(s, Write(call, reg)).tables.datasets[k]
  {
  }

  /** The endpoint in the coordinator's last registration among steps i to n - 1, if there is one. */
  function LastRegistered(ops: seq<Op>, i: nat, n: nat, coordinatorId: string): Option<string>
    requires i <= n <= |ops|
    decreases n
  {
    if i == n then None
    else if ops[n - 1].Register? && ops[n - 1].id == coordinatorId then Some(ops[n - 1].endpoint)
    else LastRegistered(ops, i, n - 1, coordinatorId)
  }

  lemma StepEndpoint(s: State, op: Op, coordinatorId: string)
    ensures LookupEndpoint(Step(s, op).tables, coordinatorId)
            == if op.Register? && op.id == coordinatorId then op.endpoint else LookupEndpoint(s.tables, coordinatorId)
  {
  }

  /** Only its own registrations change a coordinator's endpoint. */
  lemma {:induction false} EndpointAfter(ops: seq<Op>, i: nat, n: nat, coordinatorId: string)
    requires i <= n <= |ops|
    ensures LookupEndpoint(After(ops, n).tables, coordinatorId)
            == LastRegistered(ops, i, n, coordinatorId).GetOr(LookupEndpoint(After(ops, i).tables, coordinatorId))
    decreases n
  {
    if i < n {
      hide Step, LookupEndpoint;
      EndpointAfter(ops, i, n - 1, coordinatorId);
      StepEndpoint(After(ops, n - 1), ops[n - 1], coordinatorId);
    }
  }

  lemma CoordinatorKnown(t: Tables, row: DatasetRow)
    requires Consistent(t) && row in t.datasets
    ensures row.coordinatorId in t.coordinators
  {
  }

  lemma SeenEndpoint(t: Tables, coordinatorId: string)
    requires coordinatorId in t.coordinators
    ensures LookupEndpoint(t, coordinatorId) == t.coordinators[coordinatorId].executorEndpoint
  {
  }

  /** When a stored endpoint is current, for every row at every instant of every run: exactly when the
      coordinator's last registration since the row's lookup, if there was one, repeated the endpoint
      that was looked up. No other step matters, whatever comes between lookup and write. */
  lemma EndpointCurrentIff(ops: seq<Op>, n: nat, row: DatasetRow, i: nat, j: nat)
    requires n <= |ops| && row in After(ops, n).tables.datasets && Written(ops, n, row, i, j)
    ensures var coordinators := After(ops, n).tables.coordinators;
            && row.coordinatorId in coordinators
            && (row.executorEndpoint == coordinators[row.coordinatorId].executorEndpoint <==>
                LastRegistered(ops, i, n, row.coordinatorId) in {None, Some(row.executorEndpoint)})
  {
    RowSeen(ops, n, row, i, j);
    hide After, Written, Consistent, LastRegistered, LookupEndpoint;
    ReachableConsistent(ops, n);
    CoordinatorKnown(After(ops, n).tables, row);
    CurrentSince(ops, i, n, row.coordinatorId, row.executorEndpoint);
  }

  lemma CurrentSince(ops: seq<Op>, i: nat, n: nat, c: string, endpoint: string)
    requires i <= n <= |ops| && c in After(ops, n).tables.coordinators
    requires endpoint == LookupEndpoint(After(ops, i).tables, c)
    ensures endpoint == After(ops, n).tables.coordinators[c].executorEndpoint <==>
            LastRegistered(ops, i, n, c) in {None, Some(endpoint)}
  {
    hide After, LastRegistered, LookupEndpoint;
    EndpointAfter(ops, i, n, c);
    SeenEndpoint(After(ops, n).tables, c);
  }

  lemma RowSeen(ops: seq<Op>, n: nat, row: DatasetRow, i: nat, j: nat)
    requires n <= |ops| && Written(ops, n, row, i, j)
    ensures i <= n && row.executorEndpoint == LookupEndpoint(After(ops, i).tables, row.coordinatorId)
  {
    hide After, Accepted, NoLookupBetween, Reflects, LookupEndpoint;
  }

  /** Neither a lookup nor a write by this call in the steps strictly between i and n. */
  ghost predicate Quiet(ops: seq<Op>, i: nat, n: nat, call: nat)
    requires n <= |ops|
  {
    NoLookupBetween(ops, i, n, call) && forall k :: i < k < n ==> !(ops[k].Write? && ops[k].call == call)
  }

  lemma {:induction false} LookupIsHeld(ops: seq<Op>, i: nat, n: nat)
    requires i < n <= |ops| && ops[i].Lookup? && Quiet(ops, i, n, ops[i].call)
    ensures var pending := After(ops, n).pending;
            && ops[i].call in pending
            && pending[ops[i].call] ==
                 (ops[i].coordinatorId, LookupEndpoint(After(ops, i).tables, ops[i].coordinatorId))
    decreases n
  {
    if i + 1 < n {
      LookupIsHeld(ops, i, n - 1);
    }
  }

  lemma WrittenAgree(ops: seq<Op>, n: nat, row: DatasetRow, i: nat, j: nat, i': nat, j': nat)
    requires n <= |ops| && Written(ops, n, row, i', j')
    requires i < j < n && Accepted(ops, j, row.Key()) && (forall k :: j < k < n ==> !Accepted(ops, k, row.Key()))
    requires ops[i].Lookup? && ops[i].call == ops[j].call && NoLookupBetween(ops, i, j, ops[j].call)
    ensures i' == i && j' == j
  {
    hide Accepted;
    assert j' == j;
  }

  lemma {:induction false} AcceptedRowStays(ops: seq<Op>, j: nat, n: nat, key: DatasetKey) returns (k: nat)
    requires j < n <= |ops| && Accepted(ops, j, key)
    ensures k < |After(ops, n).tables.datasets| && After(ops, n).tables.datasets[k].Key() == key
  {
    var t := After(ops, j).tables;
    var found := FindKey(t.datasets, key);
    k := if found.Some? then found.value else |t.datasets|;
    assert k < |After(ops, j + 1).tables.datasets| && After(ops, j + 1).tables.datasets[k].Key() == key;
    IdentityIsPermanent(ops, j + 1, n);
  }

  /** The same for one call: its lookup in step i and its accepted write in step j, with anything by
      other calls in between, leave at every later instant n, until the pair is written again, a row
      whose endpoint is current exactly when the coordinator's last registration since step i, if
      there was one, has the endpoint it had in step i. */
  lemma UpsertCurrentIff(ops: seq<Op>, i: nat, j: nat, n: nat, key: DatasetKey)
    requires i < j < n <= |ops| && Accepted(ops, j, key) && ops[i] == Lookup(ops[j].call, ops[j].reg.coordinatorId)
    requires Quiet(ops, i, j, ops[j].call) && forall k :: j < k < n ==> !Accepted(ops, k, key)
    ensures var c, t := ops[j].reg.coordinatorId, After(ops, n).tables;
            var seen := LookupEndpoint(After(ops, i).tables, c);
            && c in t.coordinators
            && exists row :: row in t.datasets && row.Key() == key && row.coordinatorId == c
                 && row.executorEndpoint == seen
                 && (row.executorEndpoint == t.coordinators[c].executorEndpoint <==>
                     LastRegistered(ops, i, n, c) in {None, Some(seen)})
  {
    var k := AcceptedRowStays(ops, j, n, key);
    var row := After(ops, n).tables.datasets[k];
    assert row in After(ops, n).tables.datasets;
    EndpointComesFromLatestUpsert(ops, n);
    var i', j' :| Written(ops, n, row, i', j');
    WrittenAgree(ops, n, row, i, j, i', j');
    EndpointCurrentIff(ops, n, row, i, j);
  }

  /** A dataset does not follow its coordinator: after a new registration under another endpoint, the
      row is still live and still has the old one. */
  lemma EndpointDoesNotFollow(reg: Registration, before: string, after: string)
    requires before != after
    ensures var c := reg.coordinatorId;
            var ops := [Register(c, "env", "host", before), Lookup(0, c), Write(0, reg),
                        Register(c, "env", "host", after)];
            var t := After(ops, 4).tables;
            && |t.datasets| == 1 && Live(t, t.datasets[0]) && t.datasets[0].Key() == reg.Key()
            && t.datasets[0].executorEndpoint == before
            && c in t.coordinators && t.coordinators[c].executorEndpoint == after
  {
    var c := reg.coordinatorId;
    var ops := [Register(c, "env", "host", before), Lookup(0, c), Write(0, reg), Register(c, "env", "host", after)];
    assert After(ops, 0) == INITIAL;
    assert After(ops, 1) == State(UpsertCoordinator(EMPTY, c, "env", "host", before), map[]);
    assert After(ops, 2).tables == After(ops, 1).tables && After(ops, 2).pending == map[0 := (c, before)];
    assert FindKey([], reg.Key()).None? && !HasId([], reg.datasetId);
    assert After(ops, 3).tables.datasets == [NewRow(reg, before)];
    assert After(ops, 4).tables.datasets == [NewRow(reg, before)];
  }

  /** Nor need it ever have had one: a dataset whose upsert races its coordinator's first registration is
      accepted with an empty endpoint, and stays active and listed under a live coordinator. */
  lemma RacingUpsertLosesEndpoint(reg: Registration, endpoint: string)
    requires endpoint != ""
    ensures var c := reg.coordinatorId;
            var ops := [Lookup(0, c), Register(c, "env", "host", endpoint), Write(0, reg)];
            var t := After(ops, 3).tables;
            && |t.datasets| == 1 && Live(t, t.datasets[0]) && t.datasets[0].Key() == reg.Key()
            && t.datasets[0].executorEndpoint == ""
            && reg.coordinatorId in t.coordinators
            && t.coordinators[reg.coordinatorId].executorEndpoint == endpoint
  {
    var ops := [Lookup(0, reg.coordinatorId), Register(reg.coordinatorId, "env", "host", endpoint), Write(0, reg)];
    assert After(ops, 0) == INITIAL;
    assert After(ops, 1) == State(EMPTY, map[0 := (reg.coordinatorId, "")]);
    assert After(ops, 2).pending == After(ops, 1).pending && After(ops, 2).tables.datasets == [];
    assert FindKey([], reg.Key()).None? && !HasId([], reg.datasetId);
    assert After(ops, 3).tables.datasets == [NewRow(reg, "")];
  }

  // ----- Who is live -----

  /** The coordinator was marked dead and has neither registered nor been heard from since. */
  ghost predicate MarkedDead(ops: seq<Op>, n: nat, id: string)
    requires n <= |ops|
  {
    exists k :: 0 <= k < n && ops[k] == Die(id)
      && forall l :: k < l < n ==> !((ops[l].Register? || ops[l].Beat?) && ops[l].id == id)
  }

  ghost predicate HasRegistered(ops: seq<Op>, n: nat, id: string)
    requires n <= |ops|
  {
    exists k :: 0 <= k < n && ops[k].Register? && ops[k].id == id
  }

  /** The row's id was unregistered and its pair has not been written since. */
  ghost predicate Unregistered(ops: seq<Op>, n: nat, row: DatasetRow)
    requires n <= |ops|
  {
    exists k :: 0 <= k < n && ops[k] == Unregister(row.id) && forall l :: k < l < n ==> !Accepted(ops, l, row.Key())
  }

  lemma MarkedDeadStep(ops: seq<Op>, n: nat, id: string)
    requires n < |ops|
    ensures MarkedDead(ops, n + 1, id) <==>
            || ops[n] == Die(id)
            || (MarkedDead(ops, n, id) && !((ops[n].Register? || ops[n].Beat?) && ops[n].id == id))
  {
    if MarkedDead(ops, n, id) {
      var k :| 0 <= k < n && ops[k] == Die(id)
        && forall l :: k < l < n ==> !((ops[l].Register? || ops[l].Beat?) && ops[l].id == id);
    }
    if MarkedDead(ops, n + 1, id) {
      var k :| 0 <= k < n + 1 && ops[k] == Die(id)
        && forall l :: k < l < n + 1 ==> !((ops[l].Register? || ops[l].Beat?) && ops[l].id == id);
    }
  }

  /** At every instant of every run a coordinator is known if it has registered, and alive unless it was
      marked dead and has been silent since. */
  lemma {:induction false} AliveIff(ops: seq<Op>, n: nat, id: string)
    requires n <= |ops|
    ensures var coordinators := After(ops, n).tables.coordinators;
            && (id in coordinators <==> HasRegistered(ops, n, id))
            && (id in coordinators ==> (coordinators[id].isAlive <==> !MarkedDead(ops, n, id)))
  {
    if n > 0 {
      AliveIff(ops, n - 1, id);
      MarkedDeadStep(ops, n - 1, id);
      hide MarkedDead, WriteDataset;
      StepStatus(After(ops, n - 1), ops[n - 1], id);
    }
  }

  lemma StepStatus(s: State, op: Op, id: string)
    ensures var before, after := s.tables.coordinators, Step(s, op).tables.coordinators;
            && (id in after <==> id in before || (op.Register? && op.id == id))
            && (id in after ==>
                 after[id].isAlive ==
                 if (op.Register? || op.Beat?) && op.id == id then true
                 else if op == Die(id) then false
                 else before[id].isAlive)
  {
  }

  lemma UnregisteredStep(ops: seq<Op>, n: nat, row: DatasetRow)
    requires n < |ops|
    ensures Unregistered(ops, n + 1, row) <==>
            ops[n] == Unregister(row.id) || (Unregistered(ops, n, row) && !Accepted(ops, n, row.Key()))
  {
    hide Accepted;
    if Unregistered(ops, n, row) {
      var k :| 0 <= k < n && ops[k] == Unregister(row.id) && forall l :: k < l < n ==> !Accepted(ops, l, row.Key());
    }
    if Unregistered(ops, n + 1, row) {
      var k :| 0 <= k < n + 1 && ops[k] == Unregister(row.id)
        && forall l :: k < l < n + 1 ==> !Accepted(ops, l, row.Key());
    }
  }

  /** ... and a dataset is active unless it was unregistered and has not been registered since. */
  lemma {:induction false} ActiveIff(ops: seq<Op>, n: nat, k: nat)
    requires n <= |ops| && k < |After(ops, n).tables.datasets|
    ensures var row := After(ops, n).tables.datasets[k]; row.isActive <==> !Unregistered(ops, n, row)
  {
    if n > 0 {
      var row := After(ops, n).tables.datasets[k];
      UnregisteredStep(ops, n - 1, row);
      if Accepted(ops, n - 1, row.Key()) {
        AcceptedIsActive(ops, n - 1, k);
      } else {
        UnwrittenRowStays(ops, n - 1, k);
        ActiveIff(ops, n - 1, k);
        SameHistory(ops, n - 1, After(ops, n - 1).tables.datasets[k], row);
        ActiveStep(ops, n - 1, k);
      }
    }
  }

  lemma SameHistory(ops: seq<Op>, n: nat, row: DatasetRow, row': DatasetRow)
    requires n <= |ops| && row.id == row'.id && row.Key() == row'.Key()
    ensures Unregistered(ops, n, row) <==> Unregistered(ops, n, row')
  {
  }

  lemma AcceptedIsActive(ops: seq<Op>, n: nat, k: nat)
    requires n < |ops| && k < |After(ops, n + 1).tables.datasets|
    requires Accepted(ops, n, After(ops, n + 1).tables.datasets[k].Key())
    ensures After(ops, n + 1).tables.datasets[k].isActive && !ops[n].Unregister?
  {
    var rows, rows' := After(ops, n).tables.datasets, After(ops, n + 1).tables.datasets;
    var found := FindKey(rows, ops[n].reg.Key());
    var written := if found.Some? then found.value else |rows|;
    assert written < |rows'| && rows'[written].isActive && RowKey(rows'[written]) == RowKey(rows'[k]);
    ReachableConsistent(ops, n + 1);
    hide After, WriteDataset, FindKey;
  }

  lemma ActiveStep(ops: seq<Op>, n: nat, k: nat)
    requires n < |ops| && k < |After(ops, n).tables.datasets| && k < |After(ops, n + 1).tables.datasets|
    requires !Accepted(ops, n, After(ops, n + 1).tables.datasets[k].Key())
    ensures var row, row' := After(ops, n).tables.datasets[k], After(ops, n + 1).tables.datasets[k];
            row'.isActive == if ops[n] == Unregister(row.id) then false else row.isActive
  {
    if ops[n].Write? {
      NextState(ops, n);
      UnwrittenRow(After(ops, n), ops[n].call, ops[n].reg, k);
    }
  }

  /** What is on show, in every run at every instant: a dataset is live exactly if it has not been
      unregistered since it was last registered, and its coordinator has not been marked dead since it
      was last heard from. */
  lemma LiveIff(ops: seq<Op>, n: nat, k: nat)
    requires n <= |ops| && k < |After(ops, n).tables.datasets|
    ensures var t := After(ops, n).tables;
            var row := t.datasets[k];
            Live(t, row) <==> !Unregistered(ops, n, row) && !MarkedDead(ops, n, row.coordinatorId)
  {
    ReachableConsistent(ops, n);
    ActiveIff(ops, n, k);
    AliveIff(ops, n, After(ops, n).tables.datasets[k].coordinatorId);
    hide Unregistered, MarkedDead, After;
  }
}

/** One-shot startup registration (crates/elan-coordinator/src/registration.rs). */
module StartupRegistration {
  import opened Wrappers
  import opened CatalogTypes
  import opened CatalogStore

  /** One configured dataset, with the id generated for it and the schema inferred for it; None if
      encoding the schema fails (crates/elan-coordinator/src/dataset.rs:20-37). */
  datatype DatasetConfig = DatasetConfig(
    datasetId: string, name: string, namespace: string, sourceType: string, schemaIpc: Option<Bytes>,
    metadataJson: string
  ) {
    function Key(): DatasetKey { DatasetKey(namespace, name) }
  }

  datatype CoordinatorConfig = CoordinatorConfig(
    id: string, environment: string, hostname: string, endpoint: string, datasets: seq<DatasetConfig>
  )

  /** Empty metadata is stored as absent (crates/elan-central/src/grpc/coordinator_svc.rs:114-118). */
  function ToRegistration(d: DatasetConfig, coordinatorId: string): Option<Registration> {
    if d.schemaIpc.None? then None
    else Some(Registration(coordinatorId, d.datasetId, d.name, d.namespace, d.sourceType, d.schemaIpc.value,
                           if d.metadataJson == "" then None else Some(d.metadataJson)))
  }

  datatype RegisterError = NotBuilt | Refused(error: StoreError)

  function RegisterOne(t: Tables, coordinatorId: string, d: DatasetConfig): Result<Tables, RegisterError> {
    match ToRegistration(d, coordinatorId)
    case None => Err(NotBuilt)
    case Some(reg) =>
      match UpsertDataset(t, reg)
      case Err(e) => Err(Refused(e))
      case Ok(t') => Ok(t')
  }

  function RegisterAll(t: Tables, coordinatorId: string, datasets: seq<DatasetConfig>): Result<Tables, RegisterError>
  {
    if datasets == [] then Ok(t)
    else
      match RegisterAll(t, coordinatorId, datasets[..|datasets| - 1])
      case Err(e) => Err(e)
      case Ok(t') => RegisterOne(t', coordinatorId, datasets[|datasets| - 1])
  }

  function RegisterCoordinatorFirst(t: Tables, cfg: CoordinatorConfig): Tables {
    UpsertCoordinator(t, cfg.id, cfg.environment, cfg.hostname, cfg.endpoint)
  }

  lemma RegisterOneMore(t: Tables, coordinatorId: string, datasets: seq<DatasetConfig>, n: nat)
    requires n < |datasets| && RegisterAll(t, coordinatorId, datasets[..n]).Ok?
    ensures RegisterAll(t, coordinatorId, datasets[..n + 1])
            == RegisterOne(RegisterAll(t, coordinatorId, datasets[..n]).value, coordinatorId, datasets[n])
  {
    assert datasets[..n + 1][..n] == datasets[..n];
  }

  /** The contents are those after the datasets before k, and the dataset at k is the one that failed. */
  ghost predicate StoppedAt(t: Tables, cfg: CoordinatorConfig, contents: Tables, k: nat) {
    && k < |cfg.datasets| && RegisterAll(t, cfg.id, cfg.datasets[..k]) == Ok(contents)
    && RegisterOne(contents, cfg.id, cfg.datasets[k]).Err?
  }

  lemma FailureStops(t: Tables, cfg: CoordinatorConfig, contents: Tables, k: nat)
    requires k < |cfg.datasets| && RegisterAll(t, cfg.id, cfg.datasets[..k]) == Ok(contents)
    requires RegisterOne(contents, cfg.id, cfg.datasets[k]).Err?
    ensures StoppedAt(t, cfg, contents, k)
    ensures RegisterAll(t, cfg.id, cfg.datasets) == Err(RegisterOne(contents, cfg.id, cfg.datasets[k]).error)
  {
    hide RegisterAll, RegisterOne;
    RegisterOneMore(t, cfg.id, cfg.datasets, k);
    FailureIsFinal(t, cfg.id, cfg.datasets, k + 1);
  }

  /** Registers the coordinator, then each dataset in order; the first registration that cannot be
      built, or is refused, ends the run and leaves the effects of the calls before it. */
  method Register(store: Store, cfg: CoordinatorConfig) returns (outcome: Result<(), RegisterError>)
    modifies store
    ensures var t := RegisterCoordinatorFirst(old(store.Contents()), cfg);
            match RegisterAll(t, cfg.id, cfg.datasets)
            case Ok(t') => outcome == Ok(()) && store.Contents() == t'
            case Err(e) => outcome == Err(e) && exists k :: StoppedAt(t, cfg, store.Contents(), k)
  {
    store.RegisterCoordinator(cfg.id, cfg.environment, cfg.hostname, cfg.endpoint);
    ghost var t := RegisterCoordinatorFirst(old(store.Contents()), cfg);
    var i := 0;
    while i < |cfg.datasets|
      invariant 0 <= i <= |cfg.datasets|
      invariant RegisterAll(t, cfg.id, cfg.datasets[..i]) == Ok(store.Contents())
    {
      hide RegisterAll, StoppedAt, UpsertDataset;
      var registration := ToRegistration(cfg.datasets[i], cfg.id);
      if registration.None? {
        FailureStops(t, cfg, store.Contents(), i);
        return Err(NotBuilt);
      }
      var reply := store.RegisterDataset(registration.value);
      if reply.Err? {
        FailureStops(t, cfg, store.Contents(), i);
        return Err(Refused(reply.error));
      }
      RegisterOneMore(t, cfg.id, cfg.datasets, i);
      i := i + 1;
    }
    assert cfg.datasets[..i] == cfg.datasets;
    outcome := Ok(());
  }

  lemma {:induction false} FailureIsFinal(t: Tables, coordinatorId: string, datasets: seq<DatasetConfig>, n: nat)
    requires n <= |datasets| && RegisterAll(t, coordinatorId, datasets[..n]).Err?
    ensures RegisterAll(t, coordinatorId, datasets) == Err(RegisterAll(t, coordinatorId, datasets[..n]).error)
  {
    if n < |datasets| {
      var shorter := datasets[..|datasets| - 1];
      assert shorter[..n] == datasets[..n];
      FailureIsFinal(t, coordinatorId, shorter, n);
    } else {
      assert datasets[..n] == datasets;
    }
  }

  /** The last configuration entry for a key. */
  function LastFor(datasets: seq<DatasetConfig>, key: DatasetKey): Option<DatasetConfig> {
    if datasets == [] then None
    else if datasets[|datasets| - 1].Key() == key then Some(datasets[|datasets| - 1])
    else LastFor(datasets[..|datasets| - 1], key)
  }

  /** What the run has made of one row of the table. */
  ghost predicate RowAsConfigured(row: DatasetRow, d: DatasetConfig, cfg: CoordinatorConfig) {
    ToRegistration(d, cfg.id).Some? && Reflects(row, ToRegistration(d, cfg.id).value, cfg.endpoint)
  }

  /** After a successful run from any consistent catalog: rows keep their place and identity; a row
      whose key is configured holds exactly the last entry for that key, active, under this
      coordinator and its configured endpoint; every other row is untouched, and no other is added. */
  lemma {:induction false} RegistrationOutcome(t: Tables, cfg: CoordinatorConfig, datasets: seq<DatasetConfig>)
    requires Consistent(t)
    requires cfg.id in t.coordinators && t.coordinators[cfg.id].executorEndpoint == cfg.endpoint
    requires RegisterAll(t, cfg.id, datasets).Ok?
    ensures var t' := RegisterAll(t, cfg.id, datasets).value;
            && Consistent(t') && KeepsRows(t, t') && t'.coordinators == t.coordinators
            && (forall i :: 0 <= i < |t'.datasets| ==>
                 var row := t'.datasets[i];
                 match LastFor(datasets, row.Key())
                 case Some(d) => RowAsConfigured(row, d, cfg)
                 case None => i < |t.datasets| && row == t.datasets[i])
  {
    if datasets != [] {
      var n := |datasets| - 1;
      RegistrationOutcome(t, cfg, datasets[..n]);
      var before, after := RegisterAll(t, cfg.id, datasets[..n]).value, RegisterAll(t, cfg.id, datasets).value;
      hide RegisterAll, Consistent, KeepsRows;
      OneRegistration(before, cfg, datasets[n], after);
      KeepsRowsAcross(t, before, after);
      hide RegisterOne, RowAsConfigured;
    }
  }

  lemma KeepsRowsAcross(a: Tables, b: Tables, c: Tables)
    requires KeepsRows(a, b) && KeepsRows(b, c)
    ensures KeepsRows(a, c)
  {
  }

  lemma OneRegistration(before: Tables, cfg: CoordinatorConfig, d: DatasetConfig, after: Tables)
    requires Consistent(before) && RegisterOne(before, cfg.id, d) == Ok(after)
    requires cfg.id in before.coordinators && before.coordinators[cfg.id].executorEndpoint == cfg.endpoint
    ensures Consistent(after) && KeepsRows(before, after) && after.coordinators == before.coordinators
    ensures forall i :: 0 <= i < |after.datasets| ==>
              var row := after.datasets[i];
              if row.Key() == d.Key() then RowAsConfigured(row, d, cfg)
              else i < |before.datasets| && row == before.datasets[i]
  {
    var reg := ToRegistration(d, cfg.id).value;
    WriteKeepsConsistent(before, reg, cfg.endpoint);
  }

  /** ... and each configured key has such a row, so it is live. */
  lemma {:induction false} ConfiguredKeysAreLive(
    t: Tables, cfg: CoordinatorConfig, datasets: seq<DatasetConfig>, d: DatasetConfig
  )
    requires Consistent(t) && d in datasets
    requires cfg.id in t.coordinators && t.coordinators[cfg.id].executorEndpoint == cfg.endpoint
    requires t.coordinators[cfg.id].isAlive
    requires RegisterAll(t, cfg.id, datasets).Ok?
    ensures var t' := RegisterAll(t, cfg.id, datasets).value;
            exists row :: row in t'.datasets && row.Key() == d.Key() && Live(t', row)
                       && RowAsConfigured(row, LastFor(datasets, d.Key()).GetOr(d), cfg)
  {
    var t' := RegisterAll(t, cfg.id, datasets).value;
    RegistrationOutcome(t, cfg, datasets);
    var i := KeyPresent(t, cfg, datasets, d);
    LastForFinds(datasets, d);
    assert t'.datasets[i] in t'.datasets;
  }

  lemma {:induction false} LastForFinds(datasets: seq<DatasetConfig>, d: DatasetConfig)
    requires d in datasets
    ensures LastFor(datasets, d.Key()).Some?
  {
    var n := |datasets| - 1;
    if datasets[n].Key() != d.Key() {
      assert datasets == datasets[..n] + [datasets[n]];
      LastForFinds(datasets[..n], d);
    }
  }

  lemma UpsertedKeyPresent(t: Tables, reg: Registration) returns (i: nat)
    requires UpsertDataset(t, reg).Ok?
    ensures var t' := UpsertDataset(t, reg).value;
            i < |t'.datasets| && t'.datasets[i].Key() == reg.Key()
  {
    var found := FindKey(t.datasets, reg.Key());
    i := if found.Some? then found.value else |t.datasets|;
  }

  lemma {:induction false} KeyPresent(t: Tables, cfg: CoordinatorConfig, datasets: seq<DatasetConfig>, d: DatasetConfig)
    returns (i: nat)
    requires Consistent(t) && d in datasets
    requires cfg.id in t.coordinators && t.coordinators[cfg.id].executorEndpoint == cfg.endpoint
    requires RegisterAll(t, cfg.id, datasets).Ok?
    ensures var t' := RegisterAll(t, cfg.id, datasets).value;
            i < |t'.datasets| && t'.datasets[i].Key() == d.Key()
  {
    var n := |datasets| - 1;
    var before := RegisterAll(t, cfg.id, datasets[..n]).value;
    var reg := ToRegistration(datasets[n], cfg.id).value;
    if datasets[n] == d {
      i := UpsertedKeyPresent(before, reg);
    } else {
      assert datasets == datasets[..n] + [datasets[n]];
      i := KeyPresent(t, cfg, datasets[..n], d);
      RegistrationOutcome(t, cfg, datasets[..n]);
      WriteKeepsConsistent(before, reg, LookupEndpoint(before, cfg.id));
    }
  }

  lemma {:induction false} LastForIsLast(datasets: seq<DatasetConfig>, key: DatasetKey) returns (m: nat)
    requires LastFor(datasets, key).Some?
    ensures m < |datasets| && datasets[m] == LastFor(datasets, key).value && datasets[m].Key() == key
    ensures forall l :: m < l < |datasets| ==> datasets[l].Key() != key
  {
    if datasets[|datasets| - 1].Key() == key {
      m := |datasets| - 1;
    } else {
      m := LastForIsLast(datasets[..|datasets| - 1], key);
    }
  }

  lemma {:induction false} UnconfiguredKey(datasets: seq<DatasetConfig>, key: DatasetKey)
    requires forall d :: d in datasets ==> d.namespace != key.namespace || d.name != key.name
    ensures LastFor(datasets, key).None?
  {
    if datasets != [] {
      assert datasets[|datasets| - 1] in datasets;
      UnconfiguredKey(datasets[..|datasets| - 1], key);
    }
  }

  lemma RegisteredFirst(t: Tables, cfg: CoordinatorConfig)
    requires Consistent(t)
    ensures var first := RegisterCoordinatorFirst(t, cfg);
            && Consistent(first) && first.datasets == t.datasets && cfg.id in first.coordinators
            && first.coordinators[cfg.id] == Coordinator(cfg.environment, cfg.hostname, cfg.endpoint, true)
            && OthersUnchanged(t.coordinators, first.coordinators, cfg.id)
  {
  }

  /** The whole of a successful registration, from any consistent catalog: the coordinator is there as
      configured and alive, and no other coordinator and no row under another key has changed. */
  lemma RegisteredAsConfigured(t: Tables, cfg: CoordinatorConfig)
    requires Consistent(t) && RegisterAll(RegisterCoordinatorFirst(t, cfg), cfg.id, cfg.datasets).Ok?
    ensures var after := RegisterAll(RegisterCoordinatorFirst(t, cfg), cfg.id, cfg.datasets).value;
            && Consistent(after) && |t.datasets| <= |after.datasets|
            && cfg.id in after.coordinators
            && after.coordinators[cfg.id] == Coordinator(cfg.environment, cfg.hostname, cfg.endpoint, true)
            && OthersUnchanged(t.coordinators, after.coordinators, cfg.id)
            && forall i :: 0 <= i < |after.datasets| && (forall d :: d in cfg.datasets ==>
                 d.namespace != after.datasets[i].namespace || d.name != after.datasets[i].name) ==>
                 i < |t.datasets| && after.datasets[i] == t.datasets[i]
  {
    var first := RegisterCoordinatorFirst(t, cfg);
    RegisteredFirst(t, cfg);
    RegistrationOutcome(first, cfg, cfg.datasets);
    var after := RegisterAll(first, cfg.id, cfg.datasets).value;
    hide RegisterCoordinatorFirst, RegisterAll, Consistent, OthersUnchanged, RowAsConfigured;
    forall i | 0 <= i < |after.datasets| && (forall d :: d in cfg.datasets ==>
      d.namespace != after.datasets[i].namespace || d.name != after.datasets[i].name)
      ensures i < |t.datasets| && after.datasets[i] == t.datasets[i]
    {
      UnconfiguredKey(cfg.datasets, after.datasets[i].Key());
    }
  }

  /** ... and each configured dataset has a live row under this coordinator and endpoint, with the source
      type, schema and metadata of the last entry for its key. */
  lemma RegisteredDataset(t: Tables, cfg: CoordinatorConfig, d: DatasetConfig) returns (i: nat, m: nat)
    requires Consistent(t) && RegisterAll(RegisterCoordinatorFirst(t, cfg), cfg.id, cfg.datasets).Ok?
    requires d in cfg.datasets
    ensures m < |cfg.datasets| && cfg.datasets[m].namespace == d.namespace && cfg.datasets[m].name == d.name
    ensures forall l :: m < l < |cfg.datasets| ==>
              cfg.datasets[l].namespace != d.namespace || cfg.datasets[l].name != d.name
    ensures var after := RegisterAll(RegisterCoordinatorFirst(t, cfg), cfg.id, cfg.datasets).value;
            && i < |after.datasets| && Live(after, after.datasets[i])
            && var row := after.datasets[i];
               && row.namespace == d.namespace && row.name == d.name
               && row.coordinatorId == cfg.id && row.executorEndpoint == cfg.endpoint
               && row.sourceType == cfg.datasets[m].sourceType && Some(row.schemaIpc) == cfg.datasets[m].schemaIpc
               && row.metadataJson
                  == (if cfg.datasets[m].metadataJson == "" then None else Some(cfg.datasets[m].metadataJson))
  {
    var first := RegisterCoordinatorFirst(t, cfg);
    RegisteredFirst(t, cfg);
    ConfiguredKeysAreLive(first, cfg, cfg.datasets, d);
    LastForFinds(cfg.datasets, d);
    m := LastForIsLast(cfg.datasets, d.Key());
    var after := RegisterAll(first, cfg.id, cfg.datasets).value;
    hide RegisterCoordinatorFirst, RegisterAll, Consistent, LastFor;
    var row :| row in after.datasets && row.Key() == d.Key() && Live(after, row)
            && RowAsConfigured(row, LastFor(cfg.datasets, d.Key()).GetOr(d), cfg);
    i :| 0 <= i < |after.datasets| && after.datasets[i] == row;
  }
}
