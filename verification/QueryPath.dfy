/** The whole path of a query: policies empty the denied scans, each remaining scan sends its
    filters and limit as SQL text to the executor at its dataset's endpoint, and operators above it
    re-apply them (crates/elan-iam/src/optimizer.rs, crates/elan-query/src/catalog/table.rs,
    crates/elan-query/src/planner/remote_scan.rs). */
module QueryPath {
  import opened Wrappers
  import opened Sequences
  import opened IamTypes
  import opened PlanRewrite
  import opened SqlPrinter
  import opened SqlRoundTrip
  import opened StatementRoundTrip
  import opened Pushdown
  import opened Endpoint
  import CatalogStore

  /** A scan knows its dataset's endpoint and what was pushed into it; the table it names is the
      dataset's bare name. */
  datatype Op =
    | Pushdown(endpoint: string, filters: seq<Expr>, limit: Option<nat>)
    | Refilter(filters: seq<Expr>)
    | Slice(skip: nat, fetch: nat)
    | Other(kind: string)

  /** What the other operators (joins, projections, aggregates) compute. */
  type Operators = (string, seq<seq<Row>>) -> seq<Row>

  /** The executors, by the host and port of their SQL service. */
  type Fleet = map<(string, nat), Mounts>

  /** What a plan runs in, and what each dataset is supposed to hold. */
  datatype World = World(fleet: Fleet, db: Database<Row>, others: Operators, interp: Interpretation)

  function Sliced(skip: nat, fetch: nat, rows: seq<Row>): seq<Row> {
    if skip <= |rows| then Take(fetch, rows[skip..]) else []
  }

  function RunOperator(op: Op, inputs: seq<seq<Row>>, w: World): seq<Row> {
    match op
    case Refilter(filters) => if inputs == [] then [] else Filter(Keeps(filters, w.interp), inputs[0])
    case Slice(skip, fetch) => if inputs == [] then [] else Sliced(skip, fetch, inputs[0])
    case Other(kind) => w.others(kind, inputs)
    case Pushdown(_, _, _) => []
  }

  /** A scan as it runs: SQL text to the address its endpoint stands for, rows or an error back. */
  function RunScan(dataset: ResourceId, op: Op, w: World): Option<seq<Row>> {
    if !op.Pushdown? then None
    else
      match SqlAddress(op.endpoint)
      case Err(_) => None
      case Ok(address) =>
        if address !in w.fleet then None
        else Execute(ScanSql(dataset.name, op.filters, op.limit), w.fleet[address], w.interp)
  }

  /** A plan as it runs; a scan that fails fails the query. */
  function Run<Schema>(plan: Plan<Op, Schema>, w: World): Option<seq<Row>>
    decreases plan, 1
  {
    match plan
    case RemoteScan(dataset, _, scan) => RunScan(dataset, scan, w)
    case Empty(_) => Some([])
    case Node(_, _, op, children) =>
      match RunAll(children, w)
      case None => None
      case Some(inputs) => Some(RunOperator(op, inputs, w))
  }

  function RunAll<Schema>(plans: seq<Plan<Op, Schema>>, w: World): Option<seq<seq<Row>>>
    decreases plans, 0
  {
    if plans == [] then Some([])
    else
      match (Run(plans[0], w), RunAll(plans[1..], w))
      case (Some(first), Some(rest)) => Some([first] + rest)
      case _ => None
  }

  /** What a plan means: every scan reads its whole dataset, and nothing is pushed down. */
  function Local(w: World): Semantics<Op, Row> {
    Semantics((op, inputs) => RunOperator(op, inputs, w), (op, rows) => rows)
  }

  // ----- Plans and executors that fit together -----

  /** An operator that hands on its one input as it is, such as a repartitioning. */
  ghost predicate PassesOn<Schema>(plan: Plan<Op, Schema>, w: World) {
    && plan.Node? && plan.op.Other? && |plan.children| == 1
    && forall rows :: w.others(plan.op.kind, [rows]) == rows
  }

  /** What stands below the operators that hand on their input. */
  ghost function Strip<Schema>(plan: Plan<Op, Schema>, w: World): Plan<Op, Schema>
    decreases plan
  {
    if PassesOn(plan, w) then Strip(plan.children[0], w) else plan
  }

  ghost predicate ScanOf<Schema>(plan: Plan<Op, Schema>, filters: seq<Expr>) {
    plan.RemoteScan? && plan.scan.Pushdown? && plan.scan.filters == filters && '"' !in plan.dataset.name
  }

  /** A scan with all its filters re-applied above it. */
  ghost predicate FilteredScan<Schema>(plan: Plan<Op, Schema>, w: World) {
    && plan.Node? && plan.op.Refilter? && |plan.children| == 1
    && ScanOf(Strip(plan.children[0], w), plan.op.filters)
  }

  /** ... without a limit, and with filters whose pushdown re-filtering repairs on the scanned rows. */
  ghost predicate RepairedScan<Schema>(plan: Plan<Op, Schema>, w: World) {
    && FilteredScan(plan, w)
    && var scan := Strip(plan.children[0], w);
       scan.scan.limit.None? && Repairable(plan.op.filters, w.db(scan.dataset), w.interp)
  }

  /** A slice above a scan that carries a limit: the limit covers the slice, and every filter between
      them translates and is read exactly of the scanned rows. */
  ghost predicate SlicedScan<Schema>(plan: Plan<Op, Schema>, w: World) {
    && plan.Node? && plan.op.Slice? && |plan.children| == 1
    && var child := Strip(plan.children[0], w);
       var scan := if child.Node? && |child.children| == 1 then Strip(child.children[0], w) else child;
       && (ScanOf(child, []) || FilteredScan(child, w))
       && scan.scan.limit.Some? && plan.op.skip + plan.op.fetch <= scan.scan.limit.value
       && (forall f :: f in scan.scan.filters ==> Supported(f))
       && ReadExactly(scan.scan.filters, w.db(scan.dataset), w.interp)
  }

  /** The planner honours the Inexact answer: above every scan of a readable dataset its filters are
      re-applied, and a limit in it comes from a slice. */
  ghost predicate Planned<Schema>(plan: Plan<Op, Schema>, access: Access, w: World)
    decreases plan
  {
    match plan
    case RemoteScan(dataset, _, scan) => access(dataset).Allow? ==> ScanOf(plan, []) && scan.limit.None?
    case Empty(_) => true
    case Node(_, _, op, children) =>
      || RepairedScan(plan, w)
      || SlicedScan(plan, w)
      || (forall child :: child in children ==> Planned(child, access, w))
  }

  /** The executor at this endpoint serves the dataset's rows under the dataset's bare name. */
  ghost predicate Serves(fleet: Fleet, dataset: ResourceId, endpoint: string, db: Database<Row>) {
    && SqlAddress(endpoint).Ok? && SqlAddress(endpoint).value in fleet
    && dataset.name in fleet[SqlAddress(endpoint).value]
    && fleet[SqlAddress(endpoint).value][dataset.name] == db(dataset)
  }

  function Unrestricted(): Access {
    (resource: ResourceId) => Allow(None, None)
  }

  /** Every scan of a readable dataset is served. */
  ghost predicate Served<Schema>(plan: Plan<Op, Schema>, access: Access, w: World)
    decreases plan
  {
    match plan
    case RemoteScan(dataset, _, scan) =>
      access(dataset).Allow? ==> scan.Pushdown? && Serves(w.fleet, dataset, scan.endpoint, w.db)
    case Empty(_) => true
    case Node(_, _, _, children) => forall child :: child in children ==> Served(child, access, w)
  }

  // ----- Running equals meaning -----

  lemma SliceOfPrefix(skip: nat, fetch: nat, xs: seq<Row>, ys: seq<Row>)
    requires Take(skip + fetch, xs) == Take(skip + fetch, ys)
    ensures Sliced(skip, fetch, xs) == Sliced(skip, fetch, ys)
  {
    SliceIsTail(skip, fetch, xs);
    SliceIsTail(skip, fetch, ys);
  }

  /** A slice holds the rows from the skip-th on, at most as many as asked for. */
  lemma SliceHolds(skip: nat, fetch: nat, rows: seq<Row>)
    ensures var slice := Sliced(skip, fetch, rows);
            && |slice| == (if |rows| <= skip then 0 else if |rows| - skip < fetch then |rows| - skip else fetch)
            && forall i :: 0 <= i < |slice| ==> slice[i] == rows[skip + i]
  {
  }

  lemma SliceIsTail(skip: nat, fetch: nat, xs: seq<Row>)
    ensures var prefix := Take(skip + fetch, xs);
            Sliced(skip, fetch, xs) == if skip <= |prefix| then prefix[skip..] else []
  {
  }

  lemma RunOne<Schema>(plan: Plan<Op, Schema>, w: World)
    ensures RunAll([plan], w) == match Run(plan, w) case None => None case Some(rows) => Some([rows])
  {
    assert [plan][1..] == [];
    assert RunAll([plan][1..], w) == Some([]);
    if Run(plan, w).Some? {
      var rows := Run(plan, w).value;
      assert [rows] + [] == [rows];
    }
  }

  lemma EvaluateOne<Schema>(plan: Plan<Op, Schema>, w: World)
    ensures EvaluateAll([plan], w.db, Local(w)) == [Evaluate(plan, w.db, Local(w))]
  {
    assert [plan][1..] == [];
  }

  lemma {:induction false} StripRuns<Schema>(plan: Plan<Op, Schema>, w: World)
    ensures Run(Strip(plan, w), w) == Run(plan, w)
    ensures Evaluate(Strip(plan, w), w.db, Local(w)) == Evaluate(plan, w.db, Local(w))
    decreases plan
  {
    if PassesOn(plan, w) {
      var child := plan.children[0];
      assert plan.children == [child];
      StripRuns(child, w);
      RunOne(child, w);
      EvaluateOne(child, w);
    }
  }

  lemma {:induction false} StripServed<Schema>(plan: Plan<Op, Schema>, access: Access, w: World)
    requires Served(plan, access, w)
    ensures Served(Strip(plan, w), access, w)
    decreases plan
  {
    if PassesOn(plan, w) {
      assert plan.children[0] in plan.children;
      StripServed(plan.children[0], access, w);
    }
  }

  lemma ScanRuns<Schema>(plan: Plan<Op, Schema>, filters: seq<Expr>, w: World)
    requires ScanOf(plan, filters) && ReadExactly(filters, w.db(plan.dataset), w.interp)
    requires Serves(w.fleet, plan.dataset, plan.scan.endpoint, w.db)
    ensures Run(plan, w)
            == Some(Limited(plan.scan.limit, Filter(Keeps(Pushed(filters), w.interp), w.db(plan.dataset))))
  {
    var mounts := w.fleet[SqlAddress(plan.scan.endpoint).value];
    RemoteRowsExact(plan.dataset.name, filters, plan.scan.limit, mounts, w.interp);
  }

  lemma BareScanRuns<Schema>(plan: Plan<Op, Schema>, w: World)
    requires ScanOf(plan, []) && Serves(w.fleet, plan.dataset, plan.scan.endpoint, w.db)
    ensures Run(plan, w) == Some(Limited(plan.scan.limit, w.db(plan.dataset)))
    ensures Evaluate(plan, w.db, Local(w)) == w.db(plan.dataset)
  {
    ScanRuns(plan, [], w);
    FilterAll(Keeps([], w.interp), w.db(plan.dataset));
  }

  /** A filter above a scan, by what the scan delivers. */
  lemma FilteredScanRuns<Schema>(plan: Plan<Op, Schema>, w: World)
    requires FilteredScan(plan, w)
    ensures var keeps, scan := Keeps(plan.op.filters, w.interp), Strip(plan.children[0], w);
            && Evaluate(plan, w.db, Local(w)) == Filter(keeps, w.db(scan.dataset))
            && (Run(scan, w).Some? ==> Run(plan, w) == Some(Filter(keeps, Run(scan, w).value)))
  {
    var child := plan.children[0];
    assert plan.children == [child];
    hide Strip, Keeps, ScanOf;
    StripRuns(child, w);
    RunOne(child, w);
    EvaluateOne(child, w);
    ScanMeans(Strip(child, w), plan.op.filters, w);
  }

  lemma ScanMeans<Schema>(plan: Plan<Op, Schema>, filters: seq<Expr>, w: World)
    requires ScanOf(plan, filters)
    ensures Evaluate(plan, w.db, Local(w)) == w.db(plan.dataset)
  {
  }

  lemma RepairedScanRuns<Schema>(plan: Plan<Op, Schema>, w: World)
    requires RepairedScan(plan, w) && Served(plan, Unrestricted(), w)
    ensures Run(plan, w) == Some(Evaluate(plan, w.db, Local(w)))
  {
    assert plan.children[0] in plan.children;
    StripServed(plan.children[0], Unrestricted(), w);
    FilteredScanRuns(plan, w);
    var scan := Strip(plan.children[0], w);
    var mounts := w.fleet[SqlAddress(scan.scan.endpoint).value];
    hide FilteredScan, Evaluate, Strip, Served;
    RefilterExact(scan.dataset.name, plan.op.filters, mounts, w.interp);
  }

  lemma LimitedFilterRuns<Schema>(plan: Plan<Op, Schema>, k: nat, w: World)
    requires FilteredScan(plan, w) && Served(plan, Unrestricted(), w)
    requires var scan := Strip(plan.children[0], w);
             && scan.scan.limit.Some? && k <= scan.scan.limit.value
             && ReadExactly(scan.scan.filters, w.db(scan.dataset), w.interp)
             && forall f :: f in scan.scan.filters ==> Supported(f)
    ensures Run(plan, w).Some?
    ensures Take(k, Run(plan, w).value) == Take(k, Evaluate(plan, w.db, Local(w)))
  {
    assert plan.children[0] in plan.children;
    StripServed(plan.children[0], Unrestricted(), w);
    FilteredScanRuns(plan, w);
    var scan := Strip(plan.children[0], w);
    hide Evaluate, ReadExactly, Strip, Run;
    ScanRuns(scan, plan.op.filters, w);
    hide FilteredScan, Serves, Served, ScanOf;
    LimitedThenFiltered(plan.op.filters, scan.scan.limit.value, k, w.db(scan.dataset), w.interp);
  }

  /** Below a slice, a scan with a limit need only be right in the rows the slice can see. */
  lemma SlicedScanRuns<Schema>(plan: Plan<Op, Schema>, w: World)
    requires SlicedScan(plan, w) && Served(plan, Unrestricted(), w)
    ensures Run(plan, w) == Some(Evaluate(plan, w.db, Local(w)))
  {
    hide *;
    SliceHasServedInput(plan, w);
    var top := plan.children[0];
    StripServed(top, Unrestricted(), w);
    StripRuns(top, w);
    LimitedInputRuns(plan, w);
    SliceRuns(plan, w);
    SliceOfPrefix(plan.op.skip, plan.op.fetch, Run(top, w).value, Evaluate(top, w.db, Local(w)));
  }

  lemma SliceHasServedInput<Schema>(plan: Plan<Op, Schema>, w: World)
    requires SlicedScan(plan, w) && Served(plan, Unrestricted(), w)
    ensures plan.Node? && plan.op.Slice? && |plan.children| == 1 && Served(plan.children[0], Unrestricted(), w)
  {
    hide Strip, ScanOf, FilteredScan, ReadExactly, Serves;
    assert plan.children[0] in plan.children;
  }

  lemma SliceRuns<Schema>(plan: Plan<Op, Schema>, w: World)
    requires plan.Node? && plan.op.Slice? && |plan.children| == 1 && Run(plan.children[0], w).Some?
    ensures var top := plan.children[0];
            && Run(plan, w) == Some(Sliced(plan.op.skip, plan.op.fetch, Run(top, w).value))
            && Evaluate(plan, w.db, Local(w))
               == Sliced(plan.op.skip, plan.op.fetch, Evaluate(top, w.db, Local(w)))
  {
    var top := plan.children[0];
    assert plan.children == [top];
    RunOne(top, w);
    EvaluateOne(top, w);
    hide Sliced;
  }

  lemma LimitedInputRuns<Schema>(plan: Plan<Op, Schema>, w: World)
    requires SlicedScan(plan, w) && Served(Strip(plan.children[0], w), Unrestricted(), w)
    ensures var child, k := Strip(plan.children[0], w), plan.op.skip + plan.op.fetch;
            Run(child, w).Some? && Take(k, Run(child, w).value) == Take(k, Evaluate(child, w.db, Local(w)))
  {
    hide Strip, Run, Evaluate, ReadExactly, Serves;
    var child, k := Strip(plan.children[0], w), plan.op.skip + plan.op.fetch;
    if ScanOf(child, []) {
      BareScanRuns(child, w);
    } else {
      hide Served;
      LimitedFilterRuns(child, k, w);
    }
  }

  /** Pushing filters and limits to executors as text changes no query result. */
  lemma {:induction false} PushdownInvisible<Schema>(plan: Plan<Op, Schema>, w: World)
    requires Planned(plan, Unrestricted(), w) && Served(plan, Unrestricted(), w)
    ensures Run(plan, w) == Some(Evaluate(plan, w.db, Local(w)))
    decreases plan, 1
  {
    match plan
    case RemoteScan(_, _, _) => BareScanRuns(plan, w);
    case Empty(_) =>
    case Node(_, _, op, children) =>
      if RepairedScan(plan, w) {
        RepairedScanRuns(plan, w);
      } else if SlicedScan(plan, w) {
        SlicedScanRuns(plan, w);
      } else {
        AllPushdownInvisible(children, w);
      }
  }

  lemma {:induction false} AllPushdownInvisible<Schema>(plans: seq<Plan<Op, Schema>>, w: World)
    requires forall plan :: plan in plans ==> Planned(plan, Unrestricted(), w) && Served(plan, Unrestricted(), w)
    ensures RunAll(plans, w) == Some(EvaluateAll(plans, w.db, Local(w)))
    decreases plans, 0
  {
    if plans != [] {
      PushdownInvisible(plans[0], w);
      AllPushdownInvisible(plans[1..], w);
    }
  }

  // ----- End to end -----

  lemma {:induction false} BlankedIsServed<Schema>(p: Plan<Op, Schema>, q: Plan<Op, Schema>, access: Access, w: World)
    requires Blanks(p, q, access) && Served(p, access, w)
    ensures Served(q, Unrestricted(), w)
    decreases p
  {
    if p.Node? {
      forall i | 0 <= i < |p.children|
        ensures Served(q.children[i], Unrestricted(), w)
      {
        assert p.children[i] in p.children;
        BlankedIsServed(p.children[i], q.children[i], access, w);
      }
    }
  }

  lemma {:induction false} StripBlanks<Schema>(p: Plan<Op, Schema>, q: Plan<Op, Schema>, access: Access, w: World)
    requires Blanks(p, q, access)
    ensures Blanks(Strip(p, w), Strip(q, w), access)
    decreases p
  {
    if PassesOn(p, w) {
      StripBlanks(p.children[0], q.children[0], access, w);
    }
  }

  lemma {:induction false} StrippedIsPlanned<Schema>(plan: Plan<Op, Schema>, access: Access, w: World)
    requires Planned(Strip(plan, w), access, w)
    ensures Planned(plan, access, w)
    decreases plan
  {
    if PassesOn(plan, w) {
      StrippedIsPlanned(plan.children[0], access, w);
      assert plan.children == [plan.children[0]];
    }
  }

  lemma BlankedFilter<Schema>(p: Plan<Op, Schema>, q: Plan<Op, Schema>, access: Access, w: World)
    requires FilteredScan(p, w) && Blanks(p, q, access)
    ensures || (FilteredScan(q, w) && Strip(q.children[0], w) == Strip(p.children[0], w))
            || Planned(q, Unrestricted(), w)
  {
    StripBlanks(p.children[0], q.children[0], access, w);
    var scan := Strip(q.children[0], w);
    if scan.Empty? {
      StrippedIsPlanned(q.children[0], Unrestricted(), w);
      assert q.children == [q.children[0]];
    }
  }

  lemma BlankedSlice<Schema>(p: Plan<Op, Schema>, q: Plan<Op, Schema>, access: Access, w: World)
    requires SlicedScan(p, w) && Blanks(p, q, access)
    ensures Planned(q, Unrestricted(), w)
  {
    StripBlanks(p.children[0], q.children[0], access, w);
    var child, child' := Strip(p.children[0], w), Strip(q.children[0], w);
    if FilteredScan(child, w) {
      BlankedFilter(child, child', access, w);
    }
    if Planned(child', Unrestricted(), w) {
      StrippedIsPlanned(q.children[0], Unrestricted(), w);
      assert q.children == [q.children[0]];
    } else {
      assert SlicedScan(q, w);
    }
  }

  /** Blanking the denied scans leaves a planned plan planned, and every scan left in it served. */
  lemma {:induction false} BlankedStaysPlanned<Schema>(
    p: Plan<Op, Schema>, q: Plan<Op, Schema>, access: Access, w: World
  )
    requires Blanks(p, q, access) && Planned(p, access, w) && Served(p, access, w)
    ensures Planned(q, Unrestricted(), w) && Served(q, Unrestricted(), w)
    decreases p
  {
    BlankedIsServed(p, q, access, w);
    if p.Node? {
      if RepairedScan(p, w) {
        BlankedFilter(p, q, access, w);
      } else if SlicedScan(p, w) {
        BlankedSlice(p, q, access, w);
      } else {
        forall i | 0 <= i < |p.children|
          ensures Planned(q.children[i], Unrestricted(), w)
        {
          assert p.children[i] in p.children;
          BlankedStaysPlanned(p.children[i], q.children[i], access, w);
        }
      }
    }
  }

  /** The plan rewritten for a user and run through the executors returns what the plan means with
      every denied dataset empty. */
  ghost predicate RunsAsMeant<Schema, E>(
    plan: Plan<Op, Schema>, access: Access, rebuild: Rebuild<Op, Schema, E>, w: World
  ) {
    var rewritten := ApplyIam(plan, access, rebuild);
    rewritten.Ok? && Run(rewritten.value, w) == Some(Evaluate(plan, Emptied(w.db, access), Local(w)))
  }

  /** End to end: for every planned query, whatever its operators, if every dataset the user may read
      is served under its bare name at its endpoint, the query rewritten for that user and run through
      the executors returns exactly what it would return reading whole datasets with nothing pushed
      down and every denied dataset empty. */
  lemma QueryEndToEnd<Schema, E>(
    plan: Plan<Op, Schema>, access: Access, rebuild: Rebuild<Op, Schema, E>, w: World
  )
    requires WellBuilt(plan, rebuild) && Planned(plan, access, w) && Served(plan, access, w)
    ensures RunsAsMeant(plan, access, rebuild, w)
  {
    RewriteKeepsShape(plan, access, rebuild);
    var rewritten := ApplyIam(plan, access, rebuild).value;
    BlankedStaysPlanned(plan, rewritten, access, w);
    PushdownInvisible(rewritten, w);
    RewritePreservesMeaning(plan, access, rebuild, w.db, Local(w));
  }

  // ----- When datasets are served -----

  /** A dataset and the endpoint recorded for it. */
  datatype Site = Site(dataset: ResourceId, endpoint: string) {
    function Address(): Result<(string, nat), EndpointError> { SqlAddress(endpoint) }
  }

  function WholeScan<Schema>(site: Site, schema: Schema): Plan<Op, Schema> {
    RemoteScan(site.dataset, schema, Pushdown(site.endpoint, [], None))
  }

  /** A whole-table scan returns its dataset's rows exactly when they are served under its bare name. */
  lemma WholeScanIff<Schema>(site: Site, schema: Schema, w: World)
    requires '"' !in site.dataset.name
    ensures Run(WholeScan(site, schema), w) == Some(w.db(site.dataset)) <==>
            Serves(w.fleet, site.dataset, site.endpoint, w.db)
  {
    var address := site.Address();
    if address.Ok? && address.value in w.fleet {
      var mounts := w.fleet[address.value];
      RemoteRowsExact(site.dataset.name, [], None, mounts, w.interp);
      FilterAll(Keeps([], w.interp), MountedRows(site.dataset.name, mounts));
    }
  }

  /** Every scan in the plan is of one of these datasets at its endpoint. */
  ghost predicate Over<Schema>(plan: Plan<Op, Schema>, sites: set<Site>)
    decreases plan
  {
    match plan
    case RemoteScan(dataset, _, scan) => scan.Pushdown? && Site(dataset, scan.endpoint) in sites
    case Empty(_) => true
    case Node(_, _, _, children) => forall child :: child in children ==> Over(child, sites)
  }

  ghost predicate ReadableServed(sites: set<Site>, access: Access, w: World) {
    forall s :: s in sites && access(s.dataset).Allow? ==> Serves(w.fleet, s.dataset, s.endpoint, w.db)
  }

  lemma {:induction false} OverIsServed<Schema>(plan: Plan<Op, Schema>, sites: set<Site>, access: Access, w: World)
    requires Over(plan, sites) && ReadableServed(sites, access, w)
    ensures Served(plan, access, w)
    decreases plan
  {
    match plan
    case RemoteScan(dataset, _, scan) =>
      assert Site(dataset, scan.endpoint) in sites;
    case Empty(_) =>
    case Node(_, _, _, children) =>
      forall child | child in children
        ensures Served(child, access, w)
      {
        OverIsServed(child, sites, access, w);
      }
  }

  /** The condition is exact: with the executors there are, all planned queries over some datasets run
      as meant for a user if and only if every one of them that the user may read is served under its
      bare name at its endpoint. */
  lemma EndToEndIff<Schema, E>(
    sites: set<Site>, schema: Schema, access: Access, rebuild: Rebuild<Op, Schema, E>, w: World
  )
    requires forall s :: s in sites ==> '"' !in s.dataset.name
    ensures (forall plan: Plan<Op, Schema> ::
              WellBuilt(plan, rebuild) && Planned(plan, access, w) && Over(plan, sites) ==>
                RunsAsMeant(plan, access, rebuild, w)) <==>
            ReadableServed(sites, access, w)
  {
    if ReadableServed(sites, access, w) {
      forall plan: Plan<Op, Schema> | WellBuilt(plan, rebuild) && Planned(plan, access, w) && Over(plan, sites)
        ensures RunsAsMeant(plan, access, rebuild, w)
      {
        OverIsServed(plan, sites, access, w);
        QueryEndToEnd(plan, access, rebuild, w);
      }
    } else {
      var s :| s in sites && access(s.dataset).Allow? && !Serves(w.fleet, s.dataset, s.endpoint, w.db);
      var plan := WholeScan(s, schema);
      WholeScanIff(s, schema, w);
      assert ApplyIam(plan, access, rebuild) == Ok(plan);
      assert Evaluate(plan, Emptied(w.db, access), Local(w)) == w.db(s.dataset);
      assert !RunsAsMeant(plan, access, rebuild, w);
    }
  }

  ghost predicate SameMount(a: Site, b: Site) {
    a.Address() == b.Address() && a.dataset.name == b.dataset.name
  }

  type Address = Result<(string, nat), EndpointError>

  ghost function RowsAt(sites: set<Site>, address: Address, name: string, db: Database<Row>): seq<Row>
    requires exists s :: s in sites && s.Address() == address && s.dataset.name == name
  {
    var s :| s in sites && s.Address() == address && s.dataset.name == name;
    db(s.dataset)
  }

  ghost function Addresses(sites: set<Site>): set<(string, nat)> {
    set s | s in sites && s.Address().Ok? :: s.Address().value
  }

  ghost function NamesAt(sites: set<Site>, address: Address): set<string> {
    set s | s in sites && s.Address() == address :: s.dataset.name
  }

  ghost function MountsAt(sites: set<Site>, address: Address, db: Database<Row>): Mounts {
    map name | name in NamesAt(sites, address) :: RowsAt(sites, address, name, db)
  }

  ghost function MountAll(sites: set<Site>, db: Database<Row>): Fleet {
    map address | address in Addresses(sites) :: MountsAt(sites, Ok(address), db)
  }

  ghost predicate AllServed(fleet: Fleet, sites: set<Site>, db: Database<Row>) {
    forall s :: s in sites ==> Serves(fleet, s.dataset, s.endpoint, db)
  }

  ghost predicate Compatible(sites: set<Site>, db: Database<Row>) {
    forall a, b :: a in sites && b in sites && SameMount(a, b) ==> db(a.dataset) == db(b.dataset)
  }

  /** Executors can serve a set of datasets exactly when every endpoint stands for an address and no
      two datasets with different rows share a bare name at one address, whatever their namespaces. */
  lemma ServableIff(sites: set<Site>, db: Database<Row>)
    ensures (exists fleet :: AllServed(fleet, sites, db)) <==>
            (forall s :: s in sites ==> s.Address().Ok?) && Compatible(sites, db)
  {
    if (forall s :: s in sites ==> s.Address().Ok?) && Compatible(sites, db) {
      var fleet := MountAll(sites, db);
      forall s | s in sites
        ensures Serves(fleet, s.dataset, s.endpoint, db)
      {
        MountServes(sites, s, db);
      }
      assert AllServed(fleet, sites, db);
    }
    if fleet :| AllServed(fleet, sites, db) {
      assert forall s :: s in sites ==> Serves(fleet, s.dataset, s.endpoint, db);
      forall a, b | a in sites && b in sites && SameMount(a, b)
        ensures db(a.dataset) == db(b.dataset)
      {
        assert Serves(fleet, a.dataset, a.endpoint, db) && Serves(fleet, b.dataset, b.endpoint, db);
      }
    }
  }

  lemma MountServes(sites: set<Site>, s: Site, db: Database<Row>)
    requires s in sites && s.Address().Ok? && Compatible(sites, db)
    ensures Serves(MountAll(sites, db), s.dataset, s.endpoint, db)
  {
    var fleet := MountAll(sites, db);
    var address := s.Address();
    assert address.value in Addresses(sites) && s.dataset.name in NamesAt(sites, address);
    var t :| t in sites && t.Address() == address && t.dataset.name == s.dataset.name
             && fleet[address.value][s.dataset.name] == db(t.dataset);
    assert SameMount(s, t);
  }

  /** Where the condition fails: a scan checked and rewritten under one namespace returns whatever its
      endpoint serves under that bare name, even the rows of another namespace's dataset that the same
      user is denied. */
  lemma SharedNameReturnsOtherDataset<Schema, E>(
    own: Site, other: Site, schema: Schema, access: Access, rebuild: Rebuild<Op, Schema, E>, w: World
  )
    requires SameMount(own, other) && own.dataset.namespace != other.dataset.namespace && '"' !in own.dataset.name
    requires access(own.dataset).Allow? && Serves(w.fleet, other.dataset, other.endpoint, w.db)
    ensures var plan := WholeScan(own, schema);
            && WellBuilt(plan, rebuild) && Planned(plan, access, w) && ApplyIam(plan, access, rebuild) == Ok(plan)
            && Run(plan, w) == Some(w.db(other.dataset))
            && Evaluate(plan, Emptied(w.db, access), Local(w)) == w.db(own.dataset)
  {
    RemoteRowsExact(own.dataset.name, [], None, w.fleet[own.Address().value], w.interp);
    FilterAll(Keeps([], w.interp), w.db(other.dataset));
  }

  /** A registration under a known coordinator and an unused id is accepted, and brings in no other id. */
  lemma FreshIdAccepted(t: CatalogStore.Tables, reg: CatalogStore.Registration, unused: string) returns (k: nat)
    requires CatalogStore.Consistent(t) && reg.coordinatorId in t.coordinators
    requires forall row :: row in t.datasets ==> row.id != reg.datasetId
    ensures var r := CatalogStore.UpsertDataset(t, reg);
            && r.Ok? && CatalogStore.Consistent(r.value) && r.value.coordinators == t.coordinators
            && k < |r.value.datasets|
            && CatalogStore.Reflects(r.value.datasets[k], reg, t.coordinators[reg.coordinatorId].executorEndpoint)
            && (forall i :: 0 <= i < |t.datasets| && t.datasets[i].Key() != reg.Key() ==>
                 i < |r.value.datasets| && r.value.datasets[i] == t.datasets[i])
            && (unused != reg.datasetId && (forall row :: row in t.datasets ==> row.id != unused) ==>
                 forall row :: row in r.value.datasets ==> row.id != unused)
  {
    var endpoint := t.coordinators[reg.coordinatorId].executorEndpoint;
    CatalogStore.WriteRejectedIff(t, reg, endpoint);
    assert forall i :: 0 <= i < |t.datasets| ==> t.datasets[i] in t.datasets;
    CatalogStore.WriteKeepsConsistent(t, reg, endpoint);
    k := CatalogStore.UpsertEffect(t, reg);
  }

  /** The catalog accepts such a pair: one coordinator may register a name in two namespaces, and both
      datasets get its endpoint. */
  lemma CatalogAllowsSharedNames(
    t: CatalogStore.Tables, first: CatalogStore.Registration, second: CatalogStore.Registration
  )
    requires CatalogStore.Consistent(t) && first.coordinatorId in t.coordinators
    requires second.coordinatorId == first.coordinatorId && second.name == first.name
    requires second.namespace != first.namespace && first.datasetId != second.datasetId
    requires forall row :: row in t.datasets ==> row.id != first.datasetId && row.id != second.datasetId
    ensures var t1 := CatalogStore.UpsertDataset(t, first);
            && t1.Ok?
            && var t2 := CatalogStore.UpsertDataset(t1.value, second);
               && t2.Ok?
               && exists a, b :: a in t2.value.datasets && b in t2.value.datasets && a.name == b.name
                    && a.namespace == first.namespace && b.namespace == second.namespace
                    && a.executorEndpoint == b.executorEndpoint
  {
    var k := FreshIdAccepted(t, first, second.datasetId);
    var t1 := CatalogStore.UpsertDataset(t, first).value;
    var l := FreshIdAccepted(t1, second, "");
    var t2 := CatalogStore.UpsertDataset(t1, second).value;
    hide CatalogStore.UpsertDataset, CatalogStore.Consistent;
    assert t1.datasets[k].Key() != second.Key();
    assert t2.datasets[k] == t1.datasets[k];
    assert t2.datasets[k] in t2.datasets && t2.datasets[l] in t2.datasets;
  }
}
