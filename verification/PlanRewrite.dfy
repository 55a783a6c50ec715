/** The physical optimizer rule that enforces policies on query plans
    (crates/elan-iam/src/optimizer.rs). Operators, their schemas and their row semantics belong to
    the query engine, so they are parameters: nothing below depends on what an operator computes. */
module PlanRewrite {
  import opened Wrappers
  import opened Sequences
  import opened IamTypes
  import opened IamEngine

  const REMOTE_SCAN := "RemoteTableScanExec"

  datatype Plan<Op, Schema> =
    | RemoteScan(dataset: ResourceId, schema: Schema, scan: Op)
    | Empty(schema: Schema)
    | Node(title: string, schema: Schema, op: Op, children: seq<Plan<Op, Schema>>)
  {
    function Name(): string {
      match this
      case RemoteScan(_, _, _) => REMOTE_SCAN
      case Empty(_) => "EmptyExec"
      case Node(title, _, _, _) => title
    }

    /** The extractor that elan-query injects: a downcast to the remote scan type. */
    function Extract(): Option<ResourceId> {
      if RemoteScan? then Some(dataset) else None
    }
  }

  /** How an operator recomputes its schema from its inputs, or rejects them. */
  type Rebuild<!Op, !Schema, !E> = (Op, seq<Schema>) -> Result<Schema, E>

  function SchemaOf<Op, Schema>(plan: Plan<Op, Schema>): Schema { plan.schema }

  function WithNewChildren<Op, Schema, E>(
    plan: Plan<Op, Schema>, children: seq<Plan<Op, Schema>>, rebuild: Rebuild<Op, Schema, E>
  ): Result<Plan<Op, Schema>, E>
  {
    match plan
    case Node(title, _, op, _) =>
      (match rebuild(op, Map(SchemaOf, children))
       case Ok(schema) => Ok(Node(title, schema, op, children))
       case Err(e) => Err(e))
    case _ => Ok(plan)
  }

  /** What the policies say about reading each dataset, for one user. */
  type Access = ResourceId -> AccessDecision

  function AccessOf(policies: seq<Policy>, subject: Subject, readMask: MaskReader): Access {
    (resource: ResourceId) => Decide(policies, Request(subject, resource, "SELECT"), readMask)
  }

  function ApplyIam<Op, Schema, E>(
    plan: Plan<Op, Schema>, access: Access, rebuild: Rebuild<Op, Schema, E>
  ): Result<Plan<Op, Schema>, E>
    decreases plan, 1
  {
    var target := if plan.Name() == REMOTE_SCAN then plan.Extract() else None;
    if target.Some? && access(target.value).Deny? then Ok(Empty(plan.schema))
    else
      match (if plan.Node? then ApplyIamAll(plan.children, access, rebuild) else Ok([]))
      case Ok(children) => WithNewChildren(plan, children, rebuild)
      case Err(e) => Err(e)
  }

  function ApplyIamAll<Op, Schema, E>(
    plans: seq<Plan<Op, Schema>>, access: Access, rebuild: Rebuild<Op, Schema, E>
  ): (r: Result<seq<Plan<Op, Schema>>, E>)
    ensures r.Ok? ==> |r.value| == |plans|
    decreases plans, 0
  {
    if plans == [] then Ok([])
    else
      match ApplyIam(plans[0], access, rebuild)
      case Err(e) => Err(e)
      case Ok(first) =>
        match ApplyIamAll(plans[1..], access, rebuild)
        case Err(e) => Err(e)
        case Ok(rest) => Ok([first] + rest)
  }

  // ----- Meaning -----

  /** An arbitrary row semantics: of operators over their inputs' rows, and of a scan (its pushed
      filters and limit) over the rows of a dataset. */
  datatype Semantics<!Op, !Row> = Semantics(
    operator: (Op, seq<seq<Row>>) -> seq<Row>,
    scan: (Op, seq<Row>) -> seq<Row>
  )

  type Database<Row> = ResourceId -> seq<Row>

  function Evaluate<Op, Schema, Row>(
    plan: Plan<Op, Schema>, db: Database<Row>, sem: Semantics<Op, Row>
  ): seq<Row>
    decreases plan, 1
  {
    match plan
    case RemoteScan(dataset, _, scan) => sem.scan(scan, db(dataset))
    case Empty(_) => []
    case Node(_, _, op, children) => sem.operator(op, EvaluateAll(children, db, sem))
  }

  function EvaluateAll<Op, Schema, Row>(
    plans: seq<Plan<Op, Schema>>, db: Database<Row>, sem: Semantics<Op, Row>
  ): seq<seq<Row>>
    decreases plans, 0
  {
    if plans == [] then [] else [Evaluate(plans[0], db, sem)] + EvaluateAll(plans[1..], db, sem)
  }

  /** The database as the user may see it: every denied dataset is empty. */
  function Emptied<Row>(db: Database<Row>, access: Access): Database<Row> {
    (resource: ResourceId) => if access(resource).Deny? then [] else db(resource)
  }

  /** The datasets a plan reads, left to right. */
  function Scans<Op, Schema>(plan: Plan<Op, Schema>): seq<ResourceId>
    decreases plan, 1
  {
    match plan
    case RemoteScan(dataset, _, _) => [dataset]
    case Empty(_) => []
    case Node(_, _, _, children) => ScansAll(children)
  }

  function ScansAll<Op, Schema>(plans: seq<Plan<Op, Schema>>): seq<ResourceId>
    decreases plans, 0
  {
    if plans == [] then [] else Scans(plans[0]) + ScansAll(plans[1..])
  }

  function Readable(access: Access): ResourceId -> bool {
    (resource: ResourceId) => access(resource).Allow?
  }

  /** Whatever the operators compute, a rewritten plan returns on any database what the original
      returns on that database with the denied datasets emptied, and it reads exactly the allowed
      datasets, in the original order. */
  lemma {:induction false} RewritePreservesMeaning<Op, Schema, E, Row>(
    plan: Plan<Op, Schema>, access: Access, rebuild: Rebuild<Op, Schema, E>,
    db: Database<Row>, sem: Semantics<Op, Row>
  )
    requires forall scan :: sem.scan(scan, []) == []
    requires ApplyIam(plan, access, rebuild).Ok?
    ensures var rewritten := ApplyIam(plan, access, rebuild).value;
            && Evaluate(rewritten, db, sem) == Evaluate(plan, Emptied(db, access), sem)
            && Scans(rewritten) == Filter(Readable(access), Scans(plan))
    decreases plan, 1
  {
    if plan.Node? {
      RewriteAllPreservesMeaning(plan.children, access, rebuild, db, sem);
    }
  }

  lemma {:induction false} RewriteAllPreservesMeaning<Op, Schema, E, Row>(
    plans: seq<Plan<Op, Schema>>, access: Access, rebuild: Rebuild<Op, Schema, E>,
    db: Database<Row>, sem: Semantics<Op, Row>
  )
    requires forall scan :: sem.scan(scan, []) == []
    requires ApplyIamAll(plans, access, rebuild).Ok?
    ensures var rewritten := ApplyIamAll(plans, access, rebuild).value;
            && EvaluateAll(rewritten, db, sem) == EvaluateAll(plans, Emptied(db, access), sem)
            && ScansAll(rewritten) == Filter(Readable(access), ScansAll(plans))
    decreases plans, 0
  {
    if plans != [] {
      RewritePreservesMeaning(plans[0], access, rebuild, db, sem);
      RewriteAllPreservesMeaning(plans[1..], access, rebuild, db, sem);
      FilterConcat(Readable(access), Scans(plans[0]), ScansAll(plans[1..]));
      var rewritten := ApplyIamAll(plans, access, rebuild).value;
      assert rewritten[1..] == ApplyIamAll(plans[1..], access, rebuild).value;
    }
  }

  // ----- Shape -----

  /** Every operator accepts its own inputs and has the schema they give it. */
  ghost predicate WellBuilt<Op, Schema, E>(plan: Plan<Op, Schema>, rebuild: Rebuild<Op, Schema, E>)
    decreases plan
  {
    plan.Node? ==>
      && rebuild(plan.op, Map(SchemaOf, plan.children)) == Ok(plan.schema)
      && forall child :: child in plan.children ==> WellBuilt(child, rebuild)
  }

  /** q is p with some subtrees that are denied scans replaced by empty relations: same schema at
      every node, same operators, same arity. */
  ghost predicate Blanks<Op, Schema>(p: Plan<Op, Schema>, q: Plan<Op, Schema>, access: Access)
    decreases p
  {
    match p
    case RemoteScan(dataset, schema, _) => q == if access(dataset).Deny? then Empty(schema) else p
    case Empty(_) => q == p
    case Node(title, schema, op, children) =>
      && q.Node? && q.title == title && q.schema == schema && q.op == op && |q.children| == |children|
      && forall i :: 0 <= i < |children| ==> Blanks(children[i], q.children[i], access)
  }

  /** The rewrite never fails on a well-built plan, and yields a well-built plan that differs from
      the original only in its denied scans. */
  lemma {:induction false} RewriteKeepsShape<Op, Schema, E>(
    plan: Plan<Op, Schema>, access: Access, rebuild: Rebuild<Op, Schema, E>
  )
    requires WellBuilt(plan, rebuild)
    ensures var r := ApplyIam(plan, access, rebuild);
            r.Ok? && WellBuilt(r.value, rebuild) && Blanks(plan, r.value, access) && r.value.schema == plan.schema
    decreases plan, 1
  {
    if plan.Node? {
      RewriteAllKeepsShape(plan.children, access, rebuild);
      var children := ApplyIamAll(plan.children, access, rebuild).value;
      assert Map(SchemaOf, children) == Map(SchemaOf, plan.children);
    }
  }

  lemma {:induction false} RewriteAllKeepsShape<Op, Schema, E>(
    plans: seq<Plan<Op, Schema>>, access: Access, rebuild: Rebuild<Op, Schema, E>
  )
    requires forall plan :: plan in plans ==> WellBuilt(plan, rebuild)
    ensures var r := ApplyIamAll(plans, access, rebuild);
            && r.Ok?
            && forall i :: 0 <= i < |plans| ==>
                 && WellBuilt(r.value[i], rebuild)
                 && Blanks(plans[i], r.value[i], access)
                 && r.value[i].schema == plans[i].schema
    decreases plans, 0
  {
    if plans != [] {
      RewriteKeepsShape(plans[0], access, rebuild);
      RewriteAllKeepsShape(plans[1..], access, rebuild);
      forall i | 0 <= i < |plans|
        ensures var r := ApplyIamAll(plans, access, rebuild);
                WellBuilt(r.value[i], rebuild) && Blanks(plans[i], r.value[i], access)
                && r.value[i].schema == plans[i].schema
      {
        if i > 0 {
          assert plans[i] == plans[1..][i - 1];
        }
      }
    }
  }

  /** On a well-built plan the rewrite is the identity exactly when no scan is denied. */
  lemma {:induction false} IdentityIffAllReadable<Op, Schema, E>(
    plan: Plan<Op, Schema>, access: Access, rebuild: Rebuild<Op, Schema, E>
  )
    requires WellBuilt(plan, rebuild)
    ensures ApplyIam(plan, access, rebuild) == Ok(plan) <==> forall d :: d in Scans(plan) ==> access(d).Allow?
    decreases plan, 1
  {
    if plan.Node? {
      AllIdentityIffAllReadable(plan.children, access, rebuild);
    } else if plan.RemoteScan? {
      assert plan.dataset in Scans(plan);
    }
  }

  lemma {:induction false} AllIdentityIffAllReadable<Op, Schema, E>(
    plans: seq<Plan<Op, Schema>>, access: Access, rebuild: Rebuild<Op, Schema, E>
  )
    requires forall plan :: plan in plans ==> WellBuilt(plan, rebuild)
    ensures ApplyIamAll(plans, access, rebuild) == Ok(plans) <==> forall d :: d in ScansAll(plans) ==> access(d).Allow?
    ensures ApplyIamAll(plans, access, rebuild).Ok?
    decreases plans, 0
  {
    if plans != [] {
      RewriteKeepsShape(plans[0], access, rebuild);
      IdentityIffAllReadable(plans[0], access, rebuild);
      AllIdentityIffAllReadable(plans[1..], access, rebuild);
      var first := ApplyIam(plans[0], access, rebuild).value;
      var rest := ApplyIamAll(plans[1..], access, rebuild).value;
      assert [first] + rest == plans <==> first == plans[0] && rest == plans[1..] by {
        assert plans == [plans[0]] + plans[1..];
        assert ([first] + rest)[1..] == rest;
      }
    }
  }

  /** Only the allow/deny outcome reaches the plan: row filters and masks have no effect on it. */
  lemma {:induction false} RestrictionsAreIgnored<Op, Schema, E>(
    plan: Plan<Op, Schema>, access: Access, access': Access, rebuild: Rebuild<Op, Schema, E>
  )
    requires forall d :: d in Scans(plan) ==> (access(d).Deny? <==> access'(d).Deny?)
    ensures ApplyIam(plan, access, rebuild) == ApplyIam(plan, access', rebuild)
    decreases plan, 1
  {
    if plan.Node? {
      AllRestrictionsAreIgnored(plan.children, access, access', rebuild);
    } else if plan.RemoteScan? {
      assert plan.dataset in Scans(plan);
    }
  }

  lemma {:induction false} AllRestrictionsAreIgnored<Op, Schema, E>(
    plans: seq<Plan<Op, Schema>>, access: Access, access': Access, rebuild: Rebuild<Op, Schema, E>
  )
    requires forall d :: d in ScansAll(plans) ==> (access(d).Deny? <==> access'(d).Deny?)
    ensures ApplyIamAll(plans, access, rebuild) == ApplyIamAll(plans, access', rebuild)
    decreases plans, 0
  {
    if plans != [] {
      RestrictionsAreIgnored(plans[0], access, access', rebuild);
      AllRestrictionsAreIgnored(plans[1..], access, access', rebuild);
    }
  }

  /** Rewriting a rewritten plan changes nothing. */
  lemma RewriteIdempotent<Op, Schema, E>(
    plan: Plan<Op, Schema>, access: Access, rebuild: Rebuild<Op, Schema, E>
  )
    requires WellBuilt(plan, rebuild)
    ensures ApplyIam(plan, access, rebuild).Ok?
    ensures var once := ApplyIam(plan, access, rebuild); ApplyIam(once.value, access, rebuild) == once
  {
    RewriteKeepsShape(plan, access, rebuild);
    var once := ApplyIam(plan, access, rebuild).value;
    RewritePreservesMeaning<Op, Schema, E, bool>(plan, access, rebuild, _ => [], Semantics((_, _) => [], (_, _) => []));
    IdentityIffAllReadable(once, access, rebuild);
  }
}
