/** Policies as stored and listed (crates/elan-central/src/db/iam_store.rs, migrations/0003) and as
    sent to elan-query (crates/elan-central/src/grpc/iam_svc.rs, crates/elan-query/src/session.rs). */
module PolicyStore {
  import opened Wrappers
  import opened Sequences
  import opened Sorting
  import opened IamTypes
  import opened IamEngine

  datatype SubjectRow = SubjectRow(id: string, subjectType: string, name: string)

  datatype PolicyRow = PolicyRow(
    id: string, subjectId: string, resourcePattern: string, action: string, effect: string,
    rowFilter: Option<string>, columnMaskJson: Option<string>, priority: i32
  )

  function PolicyRowId(row: PolicyRow): string { row.id }

  datatype Store = Store(subjects: seq<SubjectRow>, policies: seq<PolicyRow>)

  datatype StoreError = CheckFailed | NotUnique | UnknownSubject

  /** A policy on the wire: absent texts are empty, the effect is a number. */
  datatype PolicyProto = PolicyProto(
    policyId: string, subjectName: string, subjectType: string, resourcePattern: string, action: string,
    effect: int, rowFilter: string, columnMaskJson: string, priority: i32
  )

  function NonEmpty(s: string): Option<string> {
    if s == "" then None else Some(s)
  }

  // ----- Statements -----

  function Named(name: string): SubjectRow -> bool {
    (subject: SubjectRow) => subject.name == name
  }

  function WithId(id: string): SubjectRow -> bool {
    (subject: SubjectRow) => subject.id == id
  }

  function SubjectByName(subjects: seq<SubjectRow>, name: string): (r: Option<SubjectRow>)
    ensures r.Some? ==> r.value in subjects && r.value.name == name
    ensures r.None? ==> forall s :: s in subjects ==> s.name != name
  {
    FindFirst(Named(name), subjects)
  }

  function SubjectById(subjects: seq<SubjectRow>, id: string): (r: Option<SubjectRow>)
    ensures r.Some? ==> r.value in subjects && r.value.id == id
    ensures r.None? ==> forall s :: s in subjects ==> s.id != id
  {
    FindFirst(WithId(id), subjects)
  }

  predicate HasPolicy(policies: seq<PolicyRow>, id: string) {
    exists i :: 0 <= i < |policies| && policies[i].id == id
  }

  function AddSubject(s: Store, subjectType: string, name: string, id: string): Result<Store, StoreError> {
    if subjectType !in {"user", "group"} then Err(CheckFailed)
    else if SubjectByName(s.subjects, name).Some? || SubjectById(s.subjects, id).Some? then Err(NotUnique)
    else Ok(s.(subjects := s.subjects + [SubjectRow(id, subjectType, name)]))
  }

  function RowOf(request: PolicyProto, subjectId: string, id: string): PolicyRow {
    PolicyRow(id, subjectId, request.resourcePattern, request.action,
              if request.effect == 1 then "Deny" else "Allow",
              NonEmpty(request.rowFilter), NonEmpty(request.columnMaskJson), request.priority)
  }

  function InsertPolicy(s: Store, request: PolicyProto, subjectId: string, id: string): Result<Store, StoreError> {
    if SubjectById(s.subjects, subjectId).None? then Err(UnknownSubject)
    else if HasPolicy(s.policies, id) then Err(NotUnique)
    else Ok(s.(policies := s.policies + [RowOf(request, subjectId, id)]))
  }

  function OtherThan(id: string): PolicyRow -> bool {
    (row: PolicyRow) => row.id != id
  }

  function DeletePolicy(s: Store, id: string): Store {
    s.(policies := Filter(OtherThan(id), s.policies))
  }

  /** A subject is found by name alone: an existing one is used whatever type was asked for. */
  function GetOrCreateSubject(s: Store, subjectType: string, name: string, newId: string)
    : (Store, Result<string, StoreError>)
  {
    match SubjectByName(s.subjects, name)
    case Some(row) => (s, Ok(row.id))
    case None =>
      match AddSubject(s, subjectType, name, newId)
      case Err(e) => (s, Err(e))
      case Ok(s') => (s', Ok(newId))
  }

  /** The store after `create_policy` and its outcome; a subject created on the way stays. */
  function CreatePolicy(s: Store, request: PolicyProto, newSubjectId: string, newId: string)
    : (Store, Result<string, StoreError>)
  {
    match GetOrCreateSubject(s, request.subjectType, request.subjectName, newSubjectId)
    case (s', Err(e)) => (s', Err(e))
    case (s', Ok(subjectId)) =>
      match InsertPolicy(s', request, subjectId, newId)
      case Err(e) => (s', Err(e))
      case Ok(s'') => (s'', Ok(newId))
  }

  // ----- Listing -----

  function ToPolicy(row: PolicyRow, subject: SubjectRow): Policy {
    Policy(row.id, subject.name, if subject.subjectType == "group" then Group else User,
           row.resourcePattern, row.action, if row.effect == "Deny" then EffectDeny else EffectAllow,
           row.rowFilter, row.columnMaskJson, row.priority)
  }

  /** The join of policies with their subjects, in table order. */
  function Join(subjects: seq<SubjectRow>, policies: seq<PolicyRow>): seq<Policy> {
    if policies == [] then []
    else
      var rest := Join(subjects, policies[..|policies| - 1]);
      var row := policies[|policies| - 1];
      match SubjectById(subjects, row.subjectId)
      case None => rest
      case Some(subject) => rest + [ToPolicy(row, subject)]
  }

  predicate HigherFirst(a: Policy, b: Policy) { a.priority >= b.priority }

  ghost predicate Descending(list: seq<Policy>) {
    forall i, j :: 0 <= i < j < |list| ==> list[i].priority >= list[j].priority
  }

  /** A possible result of listing the store: the order among equal priorities is not promised. */
  ghost predicate IsListing(s: Store, list: seq<Policy>) {
    Descending(list) && multiset(list) == multiset(Join(s.subjects, s.policies))
  }

  function ListPolicies(s: Store): seq<Policy> {
    StableSort(Join(s.subjects, s.policies), HigherFirst)
  }

  lemma ListPoliciesIsListing(s: Store)
    ensures IsListing(s, ListPolicies(s))
    ensures var list := ListPolicies(s);
            && (forall i, j :: 0 <= i < j < |list| ==> list[i].priority >= list[j].priority)
            && multiset(list) == multiset(Join(s.subjects, s.policies))
  {
    StableSortCorrect(Join(s.subjects, s.policies), HigherFirst);
    assert Sorted(ListPolicies(s), HigherFirst);
  }

  /** Any two listings of a store decide every request alike, up to ties at the top. */
  lemma ListingsAgree(s: Store, a: seq<Policy>, b: seq<Policy>, request: Request, readMask: MaskReader)
    requires IsListing(s, a) && IsListing(s, b)
    ensures Decide(a, request, readMask).Allow? <==> Decide(b, request, readMask).Allow?
  {
    assert forall p: Policy :: (p in a <==> p in multiset(a)) && (p in b <==> p in multiset(b));
    OutcomeIgnoresOrder(a, b, request, readMask);
  }

  // ----- Reachable stores -----

  ghost predicate CleanText(text: Option<string>) { text != Some("") }

  ghost predicate CleanRow(row: PolicyRow) {
    row.effect in {"Allow", "Deny"} && CleanText(row.rowFilter) && CleanText(row.columnMaskJson)
  }

  ghost predicate Consistent(s: Store) {
    && (forall i, j :: 0 <= i < j < |s.subjects| ==>
         s.subjects[i].id != s.subjects[j].id && s.subjects[i].name != s.subjects[j].name)
    && (forall subject :: subject in s.subjects ==> subject.subjectType in {"user", "group"})
    && DistinctBy(PolicyRowId, s.policies)
    && (forall row :: row in s.policies ==> CleanRow(row) && SubjectById(s.subjects, row.subjectId).Some?)
  }

  lemma SubjectByIdStable(subjects: seq<SubjectRow>, extra: SubjectRow, id: string)
    requires SubjectById(subjects, id).Some?
    ensures SubjectById(subjects + [extra], id) == SubjectById(subjects, id)
  {
    FindFirstConcat(WithId(id), subjects, [extra]);
  }

  lemma {:induction false} JoinIgnoresNewSubject(subjects: seq<SubjectRow>, extra: SubjectRow, policies: seq<PolicyRow>)
    requires forall row :: row in policies ==> SubjectById(subjects, row.subjectId).Some?
    ensures Join(subjects + [extra], policies) == Join(subjects, policies)
  {
    if policies != [] {
      SubjectByIdStable(subjects, extra, policies[|policies| - 1].subjectId);
      JoinIgnoresNewSubject(subjects, extra, policies[..|policies| - 1]);
    }
  }

  lemma AddSubjectKeeps(s: Store, subjectType: string, name: string, id: string)
    requires Consistent(s) && AddSubject(s, subjectType, name, id).Ok?
    ensures var s' := AddSubject(s, subjectType, name, id).value;
            Consistent(s') && Join(s'.subjects, s'.policies) == Join(s.subjects, s.policies)
  {
    var extra := SubjectRow(id, subjectType, name);
    JoinIgnoresNewSubject(s.subjects, extra, s.policies);
    forall row | row in s.policies
      ensures SubjectById(s.subjects + [extra], row.subjectId).Some?
    {
      SubjectByIdStable(s.subjects, extra, row.subjectId);
    }
  }

  lemma InsertPolicyKeeps(s: Store, request: PolicyProto, subjectId: string, id: string)
    requires Consistent(s) && InsertPolicy(s, request, subjectId, id).Ok?
    ensures Consistent(InsertPolicy(s, request, subjectId, id).value)
  {
  }

  lemma DeletePolicyKeeps(s: Store, id: string)
    requires Consistent(s)
    ensures Consistent(DeletePolicy(s, id))
    ensures forall row :: row in DeletePolicy(s, id).policies <==> row in s.policies && row.id != id
  {
    FilterKeepsDistinct(PolicyRowId, OtherThan(id), s.policies);
    var s' := DeletePolicy(s, id);
    assert forall row :: row in s'.policies <==> row in s.policies && row.id != id;
  }

  /** The policy a request asks for. */
  function Requested(request: PolicyProto, id: string): Policy {
    Policy(id, request.subjectName, if request.subjectType == "group" then Group else User,
           request.resourcePattern, request.action, if request.effect == 1 then EffectDeny else EffectAllow,
           NonEmpty(request.rowFilter), NonEmpty(request.columnMaskJson), request.priority)
  }

  /** When a policy is created: for a known subject if the policy's id is free, for a new one if
      moreover its type is one of the two and its own id is free. A refused call may leave the new
      subject behind, and nothing else. */
  lemma CreateAcceptedIff(s: Store, request: PolicyProto, newSubjectId: string, newId: string)
    requires Consistent(s)
    ensures var (s', outcome) := CreatePolicy(s, request, newSubjectId, newId);
            var known := exists subject :: subject in s.subjects && subject.name == request.subjectName;
            var subjectOk := request.subjectType in {"user", "group"}
                             && forall subject :: subject in s.subjects ==> subject.id != newSubjectId;
            var idFree := forall row :: row in s.policies ==> row.id != newId;
            && (outcome.Ok? <==> idFree && (known || subjectOk))
            && (outcome.Ok? ==> outcome.value == newId)
            && (outcome.Err? ==> s'.policies == s.policies)
            && (s'.subjects == if known || !subjectOk then s.subjects
                               else s.subjects + [SubjectRow(newSubjectId, request.subjectType, request.subjectName)])
            && (s.policies <= s'.policies)
  {
    var (s1, subjectId) := GetOrCreateSubject(s, request.subjectType, request.subjectName, newSubjectId);
    if SubjectByName(s.subjects, request.subjectName).None? {
      if subjectId.Ok? {
        NewestSubjectFound(s.subjects, SubjectRow(newSubjectId, request.subjectType, request.subjectName));
      }
    } else {
      FoundByIdToo(s, SubjectByName(s.subjects, request.subjectName).value);
    }
    assert HasPolicy(s.policies, newId) <==> exists row :: row in s.policies && row.id == newId;
  }

  /** The policy that is listed for an accepted request, field by field; the subject's type is the one
      already stored, if there was one. */
  lemma CreatedPolicyFields(s: Store, request: PolicyProto, newSubjectId: string, newId: string)
    requires Consistent(s) && CreatePolicy(s, request, newSubjectId, newId).1.Ok?
    ensures var s' := CreatePolicy(s, request, newSubjectId, newId).0;
            var before := |Join(s.subjects, s.policies)|;
            && before < |Join(s'.subjects, s'.policies)|
            && var p := Join(s'.subjects, s'.policies)[before];
               && p.id == newId && p.subjectName == request.subjectName
               && p.resourcePattern == request.resourcePattern && p.action == request.action
               && p.effect == (if request.effect == 1 then EffectDeny else EffectAllow)
               && p.rowFilter == (if request.rowFilter == "" then None else Some(request.rowFilter))
               && p.columnMaskJson == (if request.columnMaskJson == "" then None else Some(request.columnMaskJson))
               && p.priority == request.priority
               && ((forall subject :: subject in s.subjects ==> subject.name != request.subjectName) ==>
                    p.subjectType == if request.subjectType == "group" then Group else User)
  {
    var subject := CreatedRow(s, request, newSubjectId, newId);
    var s' := CreatePolicy(s, request, newSubjectId, newId).0;
    hide CreatePolicy, Consistent, Join, SubjectById;
    LastJoined(s'.subjects, s.policies, RowOf(request, subject.id, newId), subject);
  }

  lemma LastJoined(subjects: seq<SubjectRow>, policies: seq<PolicyRow>, row: PolicyRow, subject: SubjectRow)
    requires SubjectById(subjects, row.subjectId) == Some(subject)
    ensures Join(subjects, policies + [row]) == Join(subjects, policies) + [ToPolicy(row, subject)]
  {
    hide SubjectById, ToPolicy;
    assert (policies + [row])[..|policies|] == policies;
  }

  /** An accepted request adds one row, under a subject of the requested name. */
  lemma CreatedRow(s: Store, request: PolicyProto, newSubjectId: string, newId: string) returns (subject: SubjectRow)
    requires Consistent(s) && CreatePolicy(s, request, newSubjectId, newId).1.Ok?
    ensures var s' := CreatePolicy(s, request, newSubjectId, newId).0;
            && s'.policies == s.policies + [RowOf(request, subject.id, newId)]
            && SubjectById(s'.subjects, subject.id) == Some(subject) && subject.name == request.subjectName
            && Join(s'.subjects, s.policies) == Join(s.subjects, s.policies)
            && (subject in s.subjects || subject == SubjectRow(newSubjectId, request.subjectType, request.subjectName))
  {
    match SubjectByName(s.subjects, request.subjectName)
    case Some(known) =>
      subject := known;
      FoundByIdToo(s, subject);
    case None =>
      subject := SubjectRow(newSubjectId, request.subjectType, request.subjectName);
      NewestSubjectFound(s.subjects, subject);
      JoinIgnoresNewSubject(s.subjects, subject, s.policies);
  }

  /** A created policy is listed next to all the others, as requested, exactly when its subject name
      is new or already has the requested type; otherwise the stored type silently wins. */
  lemma CreatedPolicyIsListed(s: Store, request: PolicyProto, newSubjectId: string, newId: string)
    requires Consistent(s) && CreatePolicy(s, request, newSubjectId, newId).1.Ok?
    ensures var s' := CreatePolicy(s, request, newSubjectId, newId).0;
            var existing := SubjectByName(s.subjects, request.subjectName);
            && Consistent(s')
            && |Join(s'.subjects, s'.policies)| == |Join(s.subjects, s.policies)| + 1
            && Join(s.subjects, s.policies) <= Join(s'.subjects, s'.policies)
            && (Join(s'.subjects, s'.policies)[|Join(s.subjects, s.policies)|] == Requested(request, newId) <==>
                existing.None? || (existing.value.subjectType == "group" <==> request.subjectType == "group"))
  {
    var (s1, subjectId) := GetOrCreateSubject(s, request.subjectType, request.subjectName, newSubjectId);
    if SubjectByName(s.subjects, request.subjectName).None? {
      AddSubjectKeeps(s, request.subjectType, request.subjectName, newSubjectId);
      NewestSubjectFound(s.subjects, SubjectRow(newSubjectId, request.subjectType, request.subjectName));
    } else {
      FoundByIdToo(s, SubjectByName(s.subjects, request.subjectName).value);
    }
    InsertPolicyKeeps(s1, request, subjectId.value, newId);
    var s' := CreatePolicy(s, request, newSubjectId, newId).0;
    assert s'.policies[..|s'.policies| - 1] == s.policies;
  }

  lemma NewestSubjectFound(subjects: seq<SubjectRow>, extra: SubjectRow)
    requires SubjectById(subjects, extra.id).None?
    ensures SubjectById(subjects + [extra], extra.id) == Some(extra)
  {
    FindFirstConcat(WithId(extra.id), subjects, [extra]);
  }

  lemma FoundByIdToo(s: Store, subject: SubjectRow)
    requires Consistent(s) && subject in s.subjects
    ensures SubjectById(s.subjects, subject.id) == Some(subject)
  {
    var found := SubjectById(s.subjects, subject.id);
    var i :| 0 <= i < |s.subjects| && s.subjects[i] == subject;
    var j :| 0 <= j < |s.subjects| && s.subjects[j] == found.value;
    assert i == j;
  }

  // ----- The wire -----

  function PolicyToProto(p: Policy): PolicyProto {
    PolicyProto(p.id, p.subjectName, if p.subjectType.User? then "user" else "group", p.resourcePattern, p.action,
                if p.effect.EffectAllow? then 0 else 1, p.rowFilter.GetOr(""), p.columnMaskJson.GetOr(""), p.priority)
  }

  /** elan-query's decoding; an unreadable id is replaced by a new one. */
  function ProtoToPolicy(proto: PolicyProto, readUuid: string -> Option<string>, newId: string): Policy {
    Policy(readUuid(proto.policyId).GetOr(newId), proto.subjectName,
           if proto.subjectType == "group" then Group else User,
           proto.resourcePattern, proto.action, if proto.effect == 1 then EffectDeny else EffectAllow,
           NonEmpty(proto.rowFilter), NonEmpty(proto.columnMaskJson), proto.priority)
  }

  /** The encoding loses nothing exactly when no text is present but empty. */
  lemma WireRoundTripIff(p: Policy, readUuid: string -> Option<string>, newId: string)
    requires readUuid(p.id) == Some(p.id)
    ensures ProtoToPolicy(PolicyToProto(p), readUuid, newId) == p <==>
              CleanText(p.rowFilter) && CleanText(p.columnMaskJson)
  {
  }

  /** A list as elan-query receives it; the i-th unreadable id is replaced by `newIds(i)`. */
  function Received(list: seq<Policy>, readUuid: string -> Option<string>, newIds: nat -> string): (r: seq<Policy>)
    ensures |r| == |list|
  {
    seq(|list|, i requires 0 <= i < |list| => ProtoToPolicy(PolicyToProto(list[i]), readUuid, newIds(i)))
  }

  /** elan-query's startup load: None items are stream errors. A load that fails anywhere is replaced
      by the empty list, which denies everything. */
  method LoadPolicies(stream: seq<Option<PolicyProto>>, readUuid: string -> Option<string>, newIds: nat -> string)
    returns (policies: seq<Policy>)
    ensures None in stream ==> policies == []
    ensures None !in stream ==>
              && |policies| == |stream|
              && forall i :: 0 <= i < |stream| ==>
                   var proto, p := stream[i].value, policies[i];
                   && p == ProtoToPolicy(proto, readUuid, newIds(i))
                   && p.id == (if readUuid(proto.policyId).Some? then readUuid(proto.policyId).value else newIds(i))
                   && p.subjectName == proto.subjectName
                   && p.subjectType == (if proto.subjectType == "group" then Group else User)
                   && p.resourcePattern == proto.resourcePattern && p.action == proto.action
                   && p.effect == (if proto.effect == 1 then EffectDeny else EffectAllow)
                   && p.rowFilter == (if proto.rowFilter == "" then None else Some(proto.rowFilter))
                   && p.columnMaskJson == (if proto.columnMaskJson == "" then None else Some(proto.columnMaskJson))
                   && p.priority == proto.priority
  {
    policies := [];
    for i := 0 to |stream|
      invariant |policies| == i
      invariant forall k :: 0 <= k < i ==>
                  stream[k].Some? && policies[k] == ProtoToPolicy(stream[k].value, readUuid, newIds(k))
    {
      match stream[i] {
        case None => return [];
        case Some(proto) => policies := policies + [ProtoToPolicy(proto, readUuid, newIds(i))];
      }
    }
  }

  lemma {:induction false} JoinIsClean(subjects: seq<SubjectRow>, policies: seq<PolicyRow>, p: Policy)
    requires forall row :: row in policies ==> CleanRow(row)
    requires p in Join(subjects, policies)
    ensures CleanText(p.rowFilter) && CleanText(p.columnMaskJson)
    ensures exists row :: row in policies && row.id == p.id
  {
    var n := |policies| - 1;
    var row := policies[n];
    var subject := SubjectById(subjects, row.subjectId);
    if subject.Some? && p == ToPolicy(row, subject.value) {
      assert row in policies;
    } else {
      JoinIsClean(subjects, policies[..n], p);
    }
  }

  /** Both services decide alike: what elan-query receives of a listing is the listing, so every
      decision, with its filter, mask and reason, is central's. */
  lemma ServicesAgree(
    s: Store, list: seq<Policy>, readUuid: string -> Option<string>, newIds: nat -> string,
    request: Request, readMask: MaskReader
  )
    requires Consistent(s) && IsListing(s, list)
    requires forall row :: row in s.policies ==> readUuid(row.id) == Some(row.id)
    ensures Received(list, readUuid, newIds) == list
    ensures Decide(Received(list, readUuid, newIds), request, readMask) == Decide(list, request, readMask)
  {
    forall i | 0 <= i < |list|
      ensures Received(list, readUuid, newIds)[i] == list[i]
    {
      assert list[i] in multiset(list);
      assert list[i] in Join(s.subjects, s.policies);
      JoinIsClean(s.subjects, s.policies, list[i]);
      WireRoundTripIff(list[i], readUuid, newIds(i));
    }
  }
}

/** The policy service: every policy write is followed by a listing and an engine reload
    (crates/elan-central/src/grpc/iam_svc.rs). */
module PolicyService {
  import opened Wrappers
  import opened IamEngine
  import opened PolicyStore

  /** A call is refused by the store, or its listing fails after the write. */
  datatype ServiceError = Refused(error: StoreError) | ListingFailed

  /** The service with no other call in progress. Identifiers are generated by the caller, and
      `listWorks` says whether the listing after a write succeeds. */
  class IamService {
    var store: Store
    const engine: SnapshotIamEngine

    constructor (initial: Store, engine: SnapshotIamEngine)
      ensures store == initial && this.engine == engine
    {
      this.store, this.engine := initial, engine;
    }

    method ReloadEngine(listWorks: bool) returns (r: Result<(), ServiceError>)
      modifies engine
      ensures r == if listWorks then Ok(()) else Err(ListingFailed)
      ensures r.Ok? ==> IsListing(store, engine.policies)
      ensures r.Err? ==> engine.policies == old(engine.policies)
    {
      if !listWorks {
        return Err(ListingFailed);
      }
      ListPoliciesIsListing(store);
      engine.Reload(ListPolicies(store));
      r := Ok(());
    }

    /** A failing listing is reported as an error although the policy is stored. */
    method Create(request: PolicyProto, newSubjectId: string, newId: string, listWorks: bool)
      returns (r: Result<string, ServiceError>)
      modifies this, engine
      ensures var (stored, outcome) := PolicyStore.CreatePolicy(old(store), request, newSubjectId, newId);
              && store == stored
              && r == match outcome
                      case Err(e) => Err(Refused(e))
                      case Ok(id) => if listWorks then Ok(id) else Err(ListingFailed)
      ensures r.Ok? ==> IsListing(store, engine.policies)
      ensures r.Err? ==> engine.policies == old(engine.policies)
    {
      var (s1, subject) := GetOrCreateSubject(store, request.subjectType, request.subjectName, newSubjectId);
      store := s1;
      if subject.Err? {
        return Err(Refused(subject.error));
      }
      var inserted := InsertPolicy(store, request, subject.value, newId);
      if inserted.Err? {
        return Err(Refused(inserted.error));
      }
      store := inserted.value;
      var reloaded := ReloadEngine(listWorks);
      r := if reloaded.Ok? then Ok(newId) else Err(reloaded.error);
    }

    method Delete(id: string, listWorks: bool) returns (r: Result<(), ServiceError>)
      modifies this, engine
      ensures store == PolicyStore.DeletePolicy(old(store), id)
      ensures r == if listWorks then Ok(()) else Err(ListingFailed)
      ensures r.Ok? ==> IsListing(store, engine.policies)
      ensures r.Err? ==> engine.policies == old(engine.policies)
    {
      store := PolicyStore.DeletePolicy(store, id);
      r := ReloadEngine(listWorks);
    }
  }
}

/** Policy-writing calls as they really run: write, list and reload are separate steps, and steps of
    different calls interleave (crates/elan-central/src/grpc/iam_svc.rs:136-176, 204-214). */
module PolicyRuns {
  import opened Wrappers
  import opened Sequences
  import opened IamTypes
  import opened PolicyStore

  datatype Mutation =
    | Insert(request: PolicyProto, subjectId: string, id: string)
    | Delete(id: string)

  datatype Event =
    | NewSubject(subjectType: string, name: string, id: string)
    | Write(call: nat, mutation: Mutation)
    | List(call: nat, list: seq<Policy>)
    | ListFails(call: nat)
    | Reload(call: nat)

  datatype Phase = Wrote | Listed(list: seq<Policy>, at: nat)

  /** The shared state, each call's progress, and the instant the engine's list was taken. */
  datatype State = State(store: Store, engine: seq<Policy>, engineAt: nat, calls: map<nat, Phase>)

  function Mutate(s: Store, m: Mutation): Result<Store, StoreError> {
    match m
    case Insert(request, subjectId, id) => InsertPolicy(s, request, subjectId, id)
    case Delete(id) => Ok(DeletePolicy(s, id))
  }

  /** Which events can happen: a list step returns a listing of the store as it then is. */
  ghost predicate Enabled(s: State, e: Event) {
    match e
    case NewSubject(_, _, _) => true
    case Write(call, _) => call !in s.calls
    case List(call, list) => call in s.calls && s.calls[call].Wrote? && IsListing(s.store, list)
    case ListFails(call) => call in s.calls && s.calls[call].Wrote?
    case Reload(call) => call in s.calls && s.calls[call].Listed?
  }

  function Step(s: State, e: Event, now: nat): State {
    match e
    case NewSubject(subjectType, name, id) =>
      (match AddSubject(s.store, subjectType, name, id)
       case Err(_) => s
       case Ok(store) => s.(store := store))
    case Write(call, mutation) =>
      (match Mutate(s.store, mutation)
       case Err(_) => s
       case Ok(store) => s.(store := store, calls := s.calls[call := Wrote]))
    case List(call, list) => s.(calls := s.calls[call := Listed(list, now)])
    case ListFails(call) => s.(calls := s.calls - {call})
    case Reload(call) =>
      if call in s.calls && s.calls[call].Listed? then
        s.(engine := s.calls[call].list, engineAt := s.calls[call].at, calls := s.calls - {call})
      else s
  }

  /** A run: every event was enabled when it happened, and the engine starts from a listing. */
  datatype Run = Run(events: seq<Event>, states: seq<State>)

  ghost predicate StepAt(run: Run, n: nat)
    requires n < |run.events| && |run.states| == |run.events| + 1
  {
    Enabled(run.states[n], run.events[n]) && run.states[n + 1] == Step(run.states[n], run.events[n], n)
  }

  ghost predicate IsRun(run: Run) {
    && |run.states| == |run.events| + 1
    && Consistent(run.states[0].store) && IsListing(run.states[0].store, run.states[0].engine)
    && run.states[0].engineAt == 0 && run.states[0].calls == map[]
    && forall n :: 0 <= n < |run.events| ==> StepAt(run, n)
  }

  lemma StepKeepsConsistent(s: State, e: Event, now: nat)
    requires Consistent(s.store)
    ensures Consistent(Step(s, e, now).store)
    ensures !e.Write? ==> forall list :: IsListing(s.store, list) ==> IsListing(Step(s, e, now).store, list)
  {
    if e.NewSubject? && AddSubject(s.store, e.subjectType, e.name, e.id).Ok? {
      AddSubjectKeeps(s.store, e.subjectType, e.name, e.id);
    } else if e.Write? && Mutate(s.store, e.mutation).Ok? {
      if e.mutation.Insert? {
        InsertPolicyKeeps(s.store, e.mutation.request, e.mutation.subjectId, e.mutation.id);
      } else {
        DeletePolicyKeeps(s.store, e.mutation.id);
      }
    }
  }

  /** Every reachable store keeps its constraints, so what it lists always survives the wire. */
  lemma {:induction false} StoreStaysConsistent(run: Run, n: nat)
    requires IsRun(run) && n <= |run.events|
    ensures Consistent(run.states[n].store)
  {
    if n > 0 {
      StoreStaysConsistent(run, n - 1);
      assert StepAt(run, n - 1);
      StepKeepsConsistent(run.states[n - 1], run.events[n - 1], n - 1);
    }
  }

  ghost predicate ListedAt(run: Run, m: nat, list: seq<Policy>) {
    m < |run.states| && IsListing(run.states[m].store, list)
  }

  /** Everything the engine holds, or is about to be given, was listed at one past instant. */
  ghost predicate FromThePast(run: Run, n: nat, s: State) {
    && s.engineAt <= n && ListedAt(run, s.engineAt, s.engine)
    && forall call :: call in s.calls && s.calls[call].Listed? ==>
         s.calls[call].at < n && ListedAt(run, s.calls[call].at, s.calls[call].list)
  }

  lemma PastGrows(run: Run, n: nat, s: State)
    requires FromThePast(run, n, s)
    ensures FromThePast(run, n + 1, s)
  {
    hide ListedAt;
  }

  /** Dropping calls, or giving the engine a call's list, brings in nothing new. */
  lemma PastShrinks(run: Run, n: nat, s: State, s': State)
    requires FromThePast(run, n, s)
    requires forall call :: call in s'.calls && s'.calls[call].Listed? ==>
               call in s.calls && s.calls[call] == s'.calls[call]
    requires || (s'.engine == s.engine && s'.engineAt == s.engineAt)
             || (exists call :: call in s.calls && s.calls[call] == Listed(s'.engine, s'.engineAt))
    ensures FromThePast(run, n, s')
  {
    hide ListedAt;
  }

  lemma PastLists(run: Run, n: nat, s: State, call: nat, list: seq<Policy>)
    requires FromThePast(run, n, s) && ListedAt(run, n, list)
    ensures FromThePast(run, n + 1, s.(calls := s.calls[call := Listed(list, n)]))
  {
    hide ListedAt;
  }

  lemma StepFromThePast(run: Run, n: nat)
    requires IsRun(run) && n < |run.events| && StepAt(run, n) && FromThePast(run, n, run.states[n])
    ensures FromThePast(run, n + 1, run.states[n + 1])
  {
    var s, e, s' := run.states[n], run.events[n], run.states[n + 1];
    PastGrows(run, n, s);
    if e.List? {
      assert ListedAt(run, n, e.list);
      PastLists(run, n, s, e.call, e.list);
    } else {
      hide FromThePast, IsRun, IsListing, AddSubject, Mutate;
      PastShrinks(run, n + 1, s, s');
    }
  }

  /** In every run, however the steps of different calls interleave, the engine holds a listing of
      the store as it was at one past instant. */
  lemma {:induction false} EngineIsPastListing(run: Run, n: nat)
    requires IsRun(run) && n <= |run.events|
    ensures FromThePast(run, n, run.states[n])
  {
    if n > 0 {
      hide Step, Enabled;
      EngineIsPastListing(run, n - 1);
      assert StepAt(run, n - 1);
      StepFromThePast(run, n - 1);
    }
  }

  // ----- When the engine is current -----

  function PolicyId(p: Policy): string { p.id }

  /** The policy listed for a row. */
  function Shown(s: Store, row: PolicyRow): Policy
    requires SubjectById(s.subjects, row.subjectId).Some?
  {
    ToPolicy(row, SubjectById(s.subjects, row.subjectId).value)
  }

  lemma {:induction false} JoinShows(s: Store)
    requires forall row :: row in s.policies ==> SubjectById(s.subjects, row.subjectId).Some?
    ensures |Join(s.subjects, s.policies)| == |s.policies|
    ensures forall i :: 0 <= i < |s.policies| ==> Join(s.subjects, s.policies)[i] == Shown(s, s.policies[i])
    decreases |s.policies|
  {
    if s.policies != [] {
      JoinShows(s.(policies := s.policies[..|s.policies| - 1]));
    }
  }

  lemma ShownInjective(s: Store, row: PolicyRow, other: PolicyRow)
    requires Consistent(s) && CleanRow(row) && CleanRow(other)
    requires SubjectById(s.subjects, row.subjectId).Some? && SubjectById(s.subjects, other.subjectId).Some?
    requires Shown(s, row) == Shown(s, other)
    ensures row == other
  {
    var a, b := SubjectById(s.subjects, row.subjectId).value, SubjectById(s.subjects, other.subjectId).value;
    var i :| 0 <= i < |s.subjects| && s.subjects[i] == a;
    var j :| 0 <= j < |s.subjects| && s.subjects[j] == b;
    assert i == j;
  }

  ghost predicate SameRows(a: seq<PolicyRow>, b: seq<PolicyRow>) {
    forall row :: row in a <==> row in b
  }

  lemma ListedRowsAreStored(s: Store, t: Store)
    requires Consistent(s) && Consistent(t) && s.subjects == t.subjects
    requires forall p :: p in Join(s.subjects, s.policies) ==> p in Join(t.subjects, t.policies)
    ensures forall row :: row in s.policies ==> row in t.policies
  {
    JoinShows(s);
    JoinShows(t);
    forall row | row in s.policies
      ensures row in t.policies
    {
      var i :| 0 <= i < |s.policies| && s.policies[i] == row;
      assert Join(s.subjects, s.policies)[i] in Join(t.subjects, t.policies);
      var j :| 0 <= j < |t.policies| && Join(t.subjects, t.policies)[j] == Shown(s, row);
      assert t.policies[j] in t.policies;
      ShownInjective(s, row, t.policies[j]);
    }
  }

  lemma StoredRowsAreListed(s: Store, t: Store)
    requires Consistent(s) && Consistent(t) && s.subjects == t.subjects
    requires forall row :: row in s.policies ==> row in t.policies
    ensures forall p :: p in Join(s.subjects, s.policies) ==> p in Join(t.subjects, t.policies)
  {
    JoinShows(s);
    JoinShows(t);
    hide SubjectById, ToPolicy, Join;
    var xs, ys := Join(s.subjects, s.policies), Join(t.subjects, t.policies);
    forall i | 0 <= i < |xs|
      ensures xs[i] in ys
    {
      assert s.policies[i] in t.policies;
      var j :| 0 <= j < |t.policies| && t.policies[j] == s.policies[i];
      assert ys[j] == Shown(t, t.policies[j]) == Shown(s, s.policies[i]) == xs[i];
    }
  }

  lemma JoinDistinct(s: Store)
    requires Consistent(s)
    ensures DistinctBy(PolicyId, Join(s.subjects, s.policies))
  {
    JoinShows(s);
    hide SubjectById, Join;
  }

  lemma SameRowsSameListings(s: Store, t: Store)
    requires Consistent(s) && Consistent(t) && s.subjects == t.subjects && SameRows(s.policies, t.policies)
    ensures multiset(Join(s.subjects, s.policies)) == multiset(Join(t.subjects, t.policies))
  {
    hide Consistent, Join, DistinctBy;
    StoredRowsAreListed(s, t);
    StoredRowsAreListed(t, s);
    JoinDistinct(s);
    JoinDistinct(t);
    SameElements(PolicyId, Join(s.subjects, s.policies), Join(t.subjects, t.policies));
  }

  lemma StepKeepsSubjects(s: State, e: Event, now: nat, id: string)
    requires Enabled(s, e) && SubjectById(s.store.subjects, id).Some?
    ensures SubjectById(Step(s, e, now).store.subjects, id) == SubjectById(s.store.subjects, id)
  {
    if e.NewSubject? {
      SubjectByIdStable(s.store.subjects, SubjectRow(e.id, e.subjectType, e.name), id);
    }
    hide SubjectById;
  }

  lemma {:induction false} SubjectsLast(run: Run, m: nat, n: nat, id: string)
    requires IsRun(run) && m <= n <= |run.events|
    requires SubjectById(run.states[m].store.subjects, id).Some?
    ensures SubjectById(run.states[n].store.subjects, id) == SubjectById(run.states[m].store.subjects, id)
    decreases n
  {
    if m < n {
      hide Step, SubjectById;
      SubjectsLast(run, m, n - 1, id);
      assert StepAt(run, n - 1);
      StepKeepsSubjects(run.states[n - 1], run.events[n - 1], n - 1, id);
    }
  }

  /** An earlier store, seen with all the subjects of a later one, has the listings it had. */
  lemma EarlierListings(run: Run, m: nat, n: nat)
    requires IsRun(run) && m <= n <= |run.events|
    ensures var before := run.states[m].store;
            var seen := before.(subjects := run.states[n].store.subjects);
            && Consistent(before) && Consistent(seen) && Consistent(run.states[n].store)
            && Join(seen.subjects, seen.policies) == Join(before.subjects, before.policies)
  {
    StoreStaysConsistent(run, m);
    StoreStaysConsistent(run, n);
    var before := run.states[m].store;
    forall row | row in before.policies
      ensures SubjectById(run.states[n].store.subjects, row.subjectId) == SubjectById(before.subjects, row.subjectId)
    {
      assert SubjectById(before.subjects, row.subjectId).Some?;
      SubjectsLast(run, m, n, row.subjectId);
    }
    hide IsRun, Consistent, SubjectById, Join;
    MoreSubjects(before, run.states[n].store);
  }

  lemma MoreSubjects(before: Store, after: Store)
    requires Consistent(before) && Consistent(after)
    requires forall row :: row in before.policies ==>
               SubjectById(after.subjects, row.subjectId) == SubjectById(before.subjects, row.subjectId)
    ensures var seen := before.(subjects := after.subjects);
            Consistent(seen) && Join(seen.subjects, seen.policies) == Join(before.subjects, before.policies)
  {
    hide SubjectById, Join;
    JoinShows(before);
    JoinShows(before.(subjects := after.subjects));
  }

  lemma ListingsHaveSameRows(s: Store, t: Store)
    requires Consistent(s) && Consistent(t) && s.subjects == t.subjects
    requires multiset(Join(s.subjects, s.policies)) == multiset(Join(t.subjects, t.policies))
    ensures SameRows(s.policies, t.policies)
  {
    var xs, ys := Join(s.subjects, s.policies), Join(t.subjects, t.policies);
    assert forall p :: (p in xs <==> p in multiset(xs)) && (p in ys <==> p in multiset(ys));
    hide Consistent, Join;
    ListedRowsAreStored(s, t);
    ListedRowsAreStored(t, s);
  }

  /** A list taken at one instant of a run is still a listing of the store at a later one exactly when
      the policy rows are the same. */
  lemma ListingLastsIff(run: Run, m: nat, n: nat, list: seq<Policy>)
    requires IsRun(run) && m <= n <= |run.events| && IsListing(run.states[m].store, list)
    ensures IsListing(run.states[n].store, list) <==>
            SameRows(run.states[m].store.policies, run.states[n].store.policies)
  {
    EarlierListings(run, m, n);
    hide IsRun, Consistent, Join, SameRows;
    var now := run.states[n].store;
    var seen := run.states[m].store.(subjects := now.subjects);
    if SameRows(seen.policies, now.policies) {
      SameRowsSameListings(seen, now);
    }
    if IsListing(now, list) {
      ListingsHaveSameRows(seen, now);
    }
  }

  /** In every run, at every instant, the engine holds a listing of the store exactly when the policy
      rows are those that were there when its list was taken. */
  lemma CurrentIffSameRows(run: Run, n: nat)
    requires IsRun(run) && n <= |run.events|
    ensures run.states[n].engineAt <= n
    ensures IsListing(run.states[n].store, run.states[n].engine) <==>
            SameRows(run.states[run.states[n].engineAt].store.policies, run.states[n].store.policies)
  {
    EngineIsPastListing(run, n);
    ListingLastsIff(run, run.states[n].engineAt, n, run.states[n].engine);
  }

  /** The event changes the policy table. */
  ghost predicate Changes(s: Store, e: Event) {
    e.Write? && Mutate(s, e.mutation).Ok? && Mutate(s, e.mutation).value.policies != s.policies
  }

  lemma StepOnRows(s: State, e: Event, now: nat)
    requires Enabled(s, e)
    ensures Step(s, e, now).store.policies != s.store.policies <==> Changes(s.store, e)
    ensures e.Write? && e.mutation.Insert? ==> s.store.policies <= Step(s, e, now).store.policies
    ensures !e.Write? ==> s.store.policies == Step(s, e, now).store.policies
  {
    hide SubjectByName, SubjectById, HasPolicy, RowOf, IsListing;
  }

  lemma {:induction false} RowsLast(run: Run, m: nat, n: nat)
    requires IsRun(run) && m <= n <= |run.events|
    requires forall k :: m <= k < n ==> !Changes(run.states[k].store, run.events[k])
    ensures run.states[n].store.policies == run.states[m].store.policies
    decreases n
  {
    hide Step, Enabled, Changes;
    if m < n {
      RowsLast(run, m, n - 1);
      assert StepAt(run, n - 1);
      StepOnRows(run.states[n - 1], run.events[n - 1], n - 1);
    }
  }

  lemma {:induction false} RowsGrow(run: Run, m: nat, n: nat)
    requires IsRun(run) && m <= n <= |run.events|
    requires forall k :: m <= k < n && run.events[k].Write? ==> run.events[k].mutation.Insert?
    ensures run.states[m].store.policies <= run.states[n].store.policies
    decreases n
  {
    hide Step, Enabled, Changes;
    if m < n {
      RowsGrow(run, m, n - 1);
      assert StepAt(run, n - 1);
      StepOnRows(run.states[n - 1], run.events[n - 1], n - 1);
    }
  }

  /** The engine is up to date unless the policy table was changed after its list was taken. */
  lemma CurrentUnlessChangedSince(run: Run, n: nat)
    requires IsRun(run) && n <= |run.events|
    requires forall k :: run.states[n].engineAt <= k < n ==> !Changes(run.states[k].store, run.events[k])
    ensures IsListing(run.states[n].store, run.states[n].engine)
  {
    CurrentIffSameRows(run, n);
    assert |run.states| == |run.events| + 1;
    hide IsRun, Changes, IsListing;
    RowsLast(run, run.states[n].engineAt, n);
  }

  ghost predicate Accepted(s: Store, e: Event) {
    e.Write? && Mutate(s, e.mutation).Ok?
  }

  lemma InsertionAddsRow(run: Run, k: nat) returns (row: PolicyRow)
    requires IsRun(run) && k < |run.events|
    requires Accepted(run.states[k].store, run.events[k]) && run.events[k].mutation.Insert?
    ensures row in run.states[k + 1].store.policies && row !in run.states[k].store.policies
  {
    assert StepAt(run, k);
    var m := run.events[k].mutation;
    row := RowOf(m.request, m.subjectId, m.id);
    var before, after := run.states[k].store.policies, run.states[k + 1].store.policies;
    assert after == before + [row] && after[|before|] == row;
    assert forall i :: 0 <= i < |before| ==> before[i].id != m.id;
  }

  lemma InsertionMakesStale(run: Run, n: nat, k: nat)
    requires IsRun(run) && n <= |run.events|
    requires forall j :: run.states[n].engineAt <= j < n && run.events[j].Write? ==> run.events[j].mutation.Insert?
    requires run.states[n].engineAt <= k < n && Accepted(run.states[k].store, run.events[k])
    ensures !IsListing(run.states[n].store, run.states[n].engine)
  {
    assert run.events[k].Write?;
    CurrentIffSameRows(run, n);
    var m := run.states[n].engineAt;
    RowsGrow(run, m, k);
    RowsGrow(run, k + 1, n);
    var row := InsertionAddsRow(run, k);
    hide IsRun, IsListing, Accepted;
    var listed, before := run.states[m].store.policies, run.states[k].store.policies;
    var after, now := run.states[k + 1].store.policies, run.states[n].store.policies;
    assert row !in listed by {
      assert forall i :: 0 <= i < |listed| ==> listed[i] == before[i] && before[i] in before;
    }
    var i :| 0 <= i < |after| && after[i] == row;
    assert now[i] == row;
  }

  /** If no policy was deleted since, a change also makes it stale: it is up to date exactly when every
      insertion since its list was taken was refused. */
  lemma CurrentIffNothingInserted(run: Run, n: nat)
    requires IsRun(run) && n <= |run.events|
    requires forall k :: run.states[n].engineAt <= k < n && run.events[k].Write? ==> run.events[k].mutation.Insert?
    ensures IsListing(run.states[n].store, run.states[n].engine) <==>
            forall k :: run.states[n].engineAt <= k < n ==> !Accepted(run.states[k].store, run.events[k])
  {
    var m := run.states[n].engineAt;
    if forall k :: m <= k < n ==> !Accepted(run.states[k].store, run.events[k]) {
      assert forall k :: m <= k < n && Changes(run.states[k].store, run.events[k]) ==>
        Accepted(run.states[k].store, run.events[k]);
      hide IsRun, IsListing, Accepted, Changes;
      CurrentUnlessChangedSince(run, n);
    } else {
      hide IsRun, IsListing, Accepted;
      var k :| m <= k < n && Accepted(run.states[k].store, run.events[k]);
      InsertionMakesStale(run, n, k);
    }
  }

  // ----- What is stored, and who is busy -----

  /** The k-th event inserted a policy under this id. */
  ghost predicate Inserts(run: Run, k: nat, id: string)
    requires k < |run.events| && k < |run.states|
  {
    && run.events[k].Write? && run.events[k].mutation.Insert? && run.events[k].mutation.id == id
    && Mutate(run.states[k].store, run.events[k].mutation).Ok?
  }

  ghost predicate Deletes(e: Event, id: string) {
    e.Write? && e.mutation == Delete(id)
  }

  lemma StepOnId(s: State, e: Event, now: nat, id: string)
    requires Enabled(s, e)
    ensures HasPolicy(Step(s, e, now).store.policies, id) <==>
            || (e.Write? && e.mutation.Insert? && e.mutation.id == id && Mutate(s.store, e.mutation).Ok?)
            || (HasPolicy(s.store.policies, id) && !Deletes(e, id))
  {
    var before, after := s.store.policies, Step(s, e, now).store.policies;
    if e.Write? && Mutate(s.store, e.mutation).Ok? {
      if e.mutation.Insert? {
        var row := RowOf(e.mutation.request, e.mutation.subjectId, e.mutation.id);
        assert after == before + [row] && after[|before|] == row && row.id == e.mutation.id;
        HasPolicyMember(before, id);
        HasPolicyMember(after, id);
        hide HasPolicy;
        assert forall x :: x in after <==> x in before || x == row;
      } else {
        HasPolicyMember(before, id);
        HasPolicyMember(after, id);
        hide HasPolicy;
        assert forall x :: x in after <==> x in before && x.id != e.mutation.id;
      }
    }
  }

  lemma HasPolicyMember(policies: seq<PolicyRow>, id: string)
    ensures HasPolicy(policies, id) <==> exists row :: row in policies && row.id == id
  {
  }

  /** The policy was there at the start, or inserted, and has not been deleted since. */
  ghost predicate ShouldBeStored(run: Run, n: nat, id: string)
    requires n <= |run.events| < |run.states|
  {
    || (HasPolicy(run.states[0].store.policies, id) && forall l :: 0 <= l < n ==> !Deletes(run.events[l], id))
    || exists k :: 0 <= k < n && Inserts(run, k, id) && forall l :: k < l < n ==> !Deletes(run.events[l], id)
  }

  lemma ShouldBeStoredStep(run: Run, n: nat, id: string)
    requires n < |run.events| < |run.states|
    ensures ShouldBeStored(run, n + 1, id) <==>
            Inserts(run, n, id) || (ShouldBeStored(run, n, id) && !Deletes(run.events[n], id))
  {
    hide Inserts, Deletes, HasPolicy;
    if k :| 0 <= k < n && Inserts(run, k, id) && forall l :: k < l < n ==> !Deletes(run.events[l], id) {
      assert !Deletes(run.events[n], id) ==> forall l :: k < l < n + 1 ==> !Deletes(run.events[l], id);
    }
    if k :| 0 <= k < n + 1 && Inserts(run, k, id) && forall l :: k < l < n + 1 ==> !Deletes(run.events[l], id) {
      assert k < n ==> forall l :: k < l < n ==> !Deletes(run.events[l], id);
    }
  }

  /** At every instant of every run exactly those policies are stored that should be. */
  lemma {:induction false} StoredIff(run: Run, n: nat, id: string)
    requires IsRun(run) && n <= |run.events|
    ensures HasPolicy(run.states[n].store.policies, id) <==> ShouldBeStored(run, n, id)
  {
    if n == 0 {
      hide Inserts, Deletes, HasPolicy;
    } else {
      StepOf(run, n - 1);
      InsertsAt(run, n - 1, id);
      hide *;
      StoredIff(run, n - 1, id);
      StepOnId(run.states[n - 1], run.events[n - 1], n - 1, id);
      ShouldBeStoredStep(run, n - 1, id);
    }
  }

  lemma InsertsAt(run: Run, n: nat, id: string)
    requires n < |run.events| < |run.states|
    ensures var s, e := run.states[n].store, run.events[n];
            && (Inserts(run, n, id) <==>
                 e.Write? && e.mutation.Insert? && e.mutation.id == id && Mutate(s, e.mutation).Ok?)
            && (Inserts(run, n, id) ==> !Deletes(e, id))
  {
  }

  /** The k-th event added a subject of this name. */
  ghost predicate AddsSubject(run: Run, k: nat, name: string)
    requires k < |run.events| && k < |run.states|
  {
    var e := run.events[k];
    e.NewSubject? && e.name == name && AddSubject(run.states[k].store, e.subjectType, e.name, e.id).Ok?
  }

  ghost predicate KnowsName(s: Store, name: string) {
    exists subject :: subject in s.subjects && subject.name == name
  }

  /** Subjects are never lost: a name is known exactly if it was at the start or has been added. */
  lemma {:induction false} SubjectKnownIff(run: Run, n: nat, name: string)
    requires IsRun(run) && n <= |run.events|
    ensures KnowsName(run.states[n].store, name) <==>
            || KnowsName(run.states[0].store, name)
            || exists k :: 0 <= k < n && AddsSubject(run, k, name)
  {
    if n > 0 {
      SubjectKnownIff(run, n - 1, name);
      assert StepAt(run, n - 1);
      StepOnSubjects(run.states[n - 1], run.events[n - 1], n - 1, name);
      var e := run.events[n - 1];
      assert AddsSubject(run, n - 1, name) <==>
        e.NewSubject? && e.name == name && AddSubject(run.states[n - 1].store, e.subjectType, e.name, e.id).Ok?;
      hide IsRun, AddSubject, KnowsName, AddsSubject;
    }
  }

  lemma StepOnSubjects(s: State, e: Event, now: nat, name: string)
    requires Enabled(s, e)
    ensures KnowsName(Step(s, e, now).store, name) <==>
            || KnowsName(s.store, name)
            || (e.NewSubject? && e.name == name && AddSubject(s.store, e.subjectType, e.name, e.id).Ok?)
  {
    if e.NewSubject? && AddSubject(s.store, e.subjectType, e.name, e.id).Ok? {
      var row := SubjectRow(e.id, e.subjectType, e.name);
      assert forall x :: x in s.store.subjects + [row] <==> x in s.store.subjects || x == row;
    }
    hide SubjectByName, SubjectById, HasPolicy, IsListing;
  }

  /** The event ends this call. */
  ghost predicate Ends(e: Event, call: nat) {
    (e.ListFails? || e.Reload?) && e.call == call
  }

  ghost predicate Starts(s: Store, e: Event, call: nat) {
    Accepted(s, e) && e.call == call
  }

  /** The call's write was accepted, and it has neither reloaded nor failed to list since. */
  ghost predicate Busy(run: Run, n: nat, call: nat)
    requires n <= |run.events| < |run.states|
  {
    exists k :: 0 <= k < n && Starts(run.states[k].store, run.events[k], call)
      && forall l :: k < l < n ==> !Ends(run.events[l], call)
  }

  lemma BusyStep(run: Run, n: nat, call: nat)
    requires n < |run.events| < |run.states|
    ensures Busy(run, n + 1, call) <==>
            Starts(run.states[n].store, run.events[n], call) || (Busy(run, n, call) && !Ends(run.events[n], call))
  {
    hide Starts, Ends;
    if k :| 0 <= k < n && Starts(run.states[k].store, run.events[k], call)
            && forall l :: k < l < n ==> !Ends(run.events[l], call)
    {
      assert !Ends(run.events[n], call) ==> forall l :: k < l < n + 1 ==> !Ends(run.events[l], call);
    }
    if k :| 0 <= k < n + 1 && Starts(run.states[k].store, run.events[k], call)
            && forall l :: k < l < n + 1 ==> !Ends(run.events[l], call)
    {
      assert k < n ==> forall l :: k < l < n ==> !Ends(run.events[l], call);
    }
  }

  /** At every instant of every run the calls in progress are the busy ones. */
  lemma {:induction false} InProgressIff(run: Run, n: nat, call: nat)
    requires IsRun(run) && n <= |run.events|
    ensures call in run.states[n].calls <==> Busy(run, n, call)
  {
    if n == 0 {
      hide Starts, Ends;
    } else {
      StepOf(run, n - 1);
      hide *;
      InProgressIff(run, n - 1, call);
      StepOnCall(run.states[n - 1], run.events[n - 1], n - 1, call);
      BusyStep(run, n - 1, call);
    }
  }

  lemma StepOf(run: Run, n: nat)
    requires IsRun(run) && n < |run.events|
    ensures |run.states| == |run.events| + 1 && Enabled(run.states[n], run.events[n])
    ensures run.states[n + 1] == Step(run.states[n], run.events[n], n)
  {
    assert StepAt(run, n);
  }

  lemma StepOnCall(s: State, e: Event, now: nat, call: nat)
    requires Enabled(s, e)
    ensures call in Step(s, e, now).calls <==>
            Starts(s.store, e, call) || (call in s.calls && !Ends(e, call))
    ensures Starts(s.store, e, call) ==> !Ends(e, call)
  {
    hide IsListing, InsertPolicy, DeletePolicy, AddSubject;
  }

  /** No policy-writing call is in progress. */
  ghost predicate Idle(s: State) { s.calls == map[] }

  /** Calls that write policies do not overlap, and none of their list steps fails. */
  ghost predicate Serial(run: Run)
    requires IsRun(run)
  {
    forall n :: 0 <= n < |run.events| ==> SerialEvent(run.states[n], run.events[n])
  }

  ghost predicate SerialEvent(s: State, e: Event) {
    !e.ListFails? && (e.Write? ==> Idle(s))
  }

  ghost predicate SerialInvariant(s: State) {
    if Idle(s) then IsListing(s.store, s.engine)
    else
      exists call :: s.calls.Keys == {call} && (s.calls[call].Listed? ==> IsListing(s.store, s.calls[call].list))
  }

  lemma SerialStep(s: State, e: Event, now: nat)
    requires Consistent(s.store) && SerialInvariant(s) && Enabled(s, e) && SerialEvent(s, e)
    ensures SerialInvariant(Step(s, e, now))
  {
    var s' := Step(s, e, now);
    StepKeepsConsistent(s, e, now);
    if e.Write? {
      if Mutate(s.store, e.mutation).Ok? {
        assert s'.calls.Keys == {e.call};
      }
    } else if e.NewSubject? {
    } else {
      var call :| s.calls.Keys == {call} && (s.calls[call].Listed? ==> IsListing(s.store, s.calls[call].list));
      assert e.call == call;
      if e.List? {
        assert s'.calls.Keys == {call};
      } else {
        assert s'.calls == map[];
      }
    }
  }

  /** Serial runs keep the engine exact: whenever no call is in progress, it holds a listing of the
      current store. */
  lemma {:induction false} SerialRunsAreExact(run: Run, n: nat)
    requires IsRun(run) && Serial(run) && n <= |run.events|
    ensures SerialInvariant(run.states[n])
  {
    hide Step, SerialInvariant, SerialEvent, Consistent, IsListing, Enabled;
    if n == 0 {
      SerialStart(run);
    } else {
      SerialRunsAreExact(run, n - 1);
      StoreStaysConsistent(run, n - 1);
      assert StepAt(run, n - 1);
      assert SerialEvent(run.states[n - 1], run.events[n - 1]);
      SerialStep(run.states[n - 1], run.events[n - 1], n - 1);
    }
  }

  lemma SerialStart(run: Run)
    requires IsRun(run)
    ensures SerialInvariant(run.states[0])
  {
    hide IsListing, Consistent;
  }

  // ----- Overlapping calls -----

  /** All steps of the run succeeded and no call is in progress at its end. */
  ghost predicate Completed(run: Run, start: Store, end: Store) {
    && IsRun(run) && run.states[0].store == start
    && (forall k :: 0 <= k < |run.events| ==> !run.events[k].ListFails?)
    && run.states[|run.events|].store == end && run.states[|run.events|].calls == map[]
  }

  function Last(run: Run): State
    requires run.states != []
  {
    run.states[|run.states| - 1]
  }

  /** A run from this store in which no listing fails. */
  ghost predicate Smooth(run: Run, start: Store) {
    IsRun(run) && run.states[0].store == start && forall k :: 0 <= k < |run.events| ==> !run.events[k].ListFails?
  }

  lemma Begin(start: Store) returns (run: Run)
    requires Consistent(start)
    ensures Smooth(run, start) && run.states != [] && Last(run) == State(start, ListPolicies(start), 0, map[])
  {
    ListPoliciesIsListing(start);
    hide IsListing, Consistent, ListPolicies;
    run := Run([], [State(start, ListPolicies(start), 0, map[])]);
  }

  lemma Extend(run: Run, e: Event, start: Store) returns (longer: Run)
    requires Smooth(run, start) && run.states != [] && Enabled(Last(run), e) && !e.ListFails?
    ensures Smooth(longer, start) && longer.states != [] && Last(longer) == Step(Last(run), e, |run.events|)
  {
    hide Enabled, Step, IsListing, Consistent;
    longer := Run(run.events + [e], run.states + [Step(Last(run), e, |run.events|)]);
    forall n | 0 <= n < |longer.events|
      ensures StepAt(longer, n)
    {
      if n < |run.events| {
        assert StepAt(run, n);
      }
    }
  }

  lemma CallWrites(run: Run, call: nat, mutation: Mutation, after: Store, start: Store) returns (longer: Run)
    requires Smooth(run, start) && run.states != [] && call !in Last(run).calls
    requires Mutate(Last(run).store, mutation) == Ok(after)
    ensures Smooth(longer, start) && longer.states != []
    ensures Last(longer) == Last(run).(store := after, calls := Last(run).calls[call := Wrote])
  {
    hide Smooth, Mutate, ListPolicies;
    longer := Extend(run, Write(call, mutation), start);
  }

  lemma CallLists(run: Run, call: nat, start: Store) returns (longer: Run, now: nat)
    requires Smooth(run, start) && run.states != [] && call in Last(run).calls && Last(run).calls[call].Wrote?
    ensures Smooth(longer, start) && longer.states != []
    ensures Last(longer)
            == Last(run).(calls := Last(run).calls[call := Listed(ListPolicies(Last(run).store), now)])
  {
    var list := ListPolicies(Last(run).store);
    ListPoliciesIsListing(Last(run).store);
    hide Smooth, IsListing, ListPolicies;
    now := |run.events|;
    longer := Extend(run, List(call, list), start);
  }

  lemma CallReloads(run: Run, call: nat, start: Store) returns (longer: Run)
    requires Smooth(run, start) && run.states != [] && call in Last(run).calls && Last(run).calls[call].Listed?
    ensures Smooth(longer, start) && longer.states != []
    ensures var s := Last(run);
            Last(longer)
            == s.(engine := s.calls[call].list, engineAt := s.calls[call].at, calls := s.calls - {call})
  {
    hide Smooth;
    longer := Extend(run, Reload(call), start);
  }

  lemma SmoothCompletes(run: Run, start: Store, end: Store)
    requires Smooth(run, start) && run.states != [] && Last(run).store == end && Last(run).calls == map[]
    ensures Completed(run, start, end) && |run.states| == |run.events| + 1
    ensures run.states[|run.events|] == Last(run)
  {
    hide StepAt, Consistent, IsListing;
  }

  /** Two overlapping calls can both finish in such a way that the first one's list is loaded last. */
  lemma OverlapLoadsOldList(first: Mutation, second: Mutation, none: Store, one: Store, two: Store) returns (run: Run)
    requires Consistent(none) && Mutate(none, first) == Ok(one) && Mutate(one, second) == Ok(two)
    ensures Completed(run, none, two)
    ensures |run.states| == |run.events| + 1 && run.states[|run.events|].engine == ListPolicies(one)
  {
    hide *;
    run := Begin(none);
    run := CallWrites(run, 0, first, one, none);
    var at: nat, later: nat;
    run, at := CallLists(run, 0, none);
    run := CallWrites(run, 1, second, two, none);
    run, later := CallLists(run, 1, none);
    run := CallReloads(run, 1, none);
    run := CallReloads(run, 0, none);
    SmoothCompletes(run, none, two);
  }

  ghost predicate Lists(list: seq<Policy>, id: string) {
    exists i :: 0 <= i < |list| && list[i].id == id
  }

  lemma ListsStored(s: Store, list: seq<Policy>, id: string)
    requires Consistent(s) && IsListing(s, list)
    ensures Lists(list, id) <==> HasPolicy(s.policies, id)
  {
    var xs := Join(s.subjects, s.policies);
    JoinShows(s);
    assert forall i :: 0 <= i < |xs| ==> xs[i].id == s.policies[i].id;
    hide Consistent, SubjectById, Join, ToPolicy;
    SameIds(list, xs, id);
    if Lists(xs, id) {
      var i :| 0 <= i < |xs| && xs[i].id == id;
      assert s.policies[i].id == id;
    }
    if HasPolicy(s.policies, id) {
      var i :| 0 <= i < |s.policies| && s.policies[i].id == id;
      assert xs[i].id == id;
    }
  }

  lemma SameIds(a: seq<Policy>, b: seq<Policy>, id: string)
    requires multiset(a) == multiset(b)
    ensures Lists(a, id) <==> Lists(b, id)
  {
    assert forall p :: (p in a <==> p in multiset(a)) && (p in b <==> p in multiset(b));
    if Lists(a, id) {
      var i :| 0 <= i < |a| && a[i].id == id;
      assert a[i] in b;
    }
    if Lists(b, id) {
      var i :| 0 <= i < |b| && b[i].id == id;
      assert b[i] in a;
    }
  }

  lemma CreateForKnownSubject(s: Store, request: PolicyProto, id: string)
    requires Consistent(s) && SubjectByName(s.subjects, request.subjectName).Some? && !HasPolicy(s.policies, id)
    ensures var subjectId := SubjectByName(s.subjects, request.subjectName).value.id;
            var (created, outcome) := CreatePolicy(s, request, "", id);
            && outcome == Ok(id) && Mutate(s, Insert(request, subjectId, id)) == Ok(created)
            && Consistent(created) && created.subjects == s.subjects
            && forall other :: HasPolicy(created.policies, other) <==> HasPolicy(s.policies, other) || other == id
  {
    FoundByIdToo(s, SubjectByName(s.subjects, request.subjectName).value);
    var subjectId := SubjectByName(s.subjects, request.subjectName).value.id;
    InsertPolicyKeeps(s, request, subjectId, id);
    var row := RowOf(request, subjectId, id);
    assert (s.policies + [row])[|s.policies|].id == id;
    hide SubjectByName, SubjectById, RowOf, Consistent;
    forall other
      ensures HasPolicy(s.policies + [row], other) <==> HasPolicy(s.policies, other) || other == id
    {
      if HasPolicy(s.policies, other) {
        var i :| 0 <= i < |s.policies| && s.policies[i].id == other;
        assert (s.policies + [row])[i].id == other;
      }
    }
  }

  /** Without serialisation exactness fails, from every consistent store and for any two requests for
      known subjects under unused ids: their overlapping calls can both finish, every step succeeding,
      and leave the engine without the policy written last. */
  lemma OverlapCanStrandAPolicy(start: Store, first: PolicyProto, second: PolicyProto, id0: string, id1: string)
    returns (run: Run)
    requires Consistent(start) && id0 != id1 && !HasPolicy(start.policies, id0) && !HasPolicy(start.policies, id1)
    requires SubjectByName(start.subjects, first.subjectName).Some?
    requires SubjectByName(start.subjects, second.subjectName).Some?
    ensures |run.states| == |run.events| + 1
    ensures var one := CreatePolicy(start, first, "", id0).0;
            var two := CreatePolicy(one, second, "", id1).0;
            var engine := run.states[|run.events|].engine;
            && Completed(run, start, two) && HasPolicy(two.policies, id0) && HasPolicy(two.policies, id1)
            && Lists(engine, id0) && !Lists(engine, id1) && !IsListing(two, engine)
  {
    CreateForKnownSubject(start, first, id0);
    var one := CreatePolicy(start, first, "", id0).0;
    CreateForKnownSubject(one, second, id1);
    var two := CreatePolicy(one, second, "", id1).0;
    var subject0 := SubjectByName(start.subjects, first.subjectName).value.id;
    var subject1 := SubjectByName(one.subjects, second.subjectName).value.id;
    ListPoliciesIsListing(one);
    ListsStored(one, ListPolicies(one), id0);
    ListsStored(one, ListPolicies(one), id1);
    hide CreatePolicy, Mutate, SubjectByName, Consistent, IsListing, ListPolicies, HasPolicy, Lists, Completed;
    run := OverlapLoadsOldList(Insert(first, subject0, id0), Insert(second, subject1, id1), start, one, two);
    var engine := run.states[|run.events|].engine;
    if IsListing(two, engine) {
      ListsStored(two, engine, id1);
    }
  }
}

/** The policy list that elan-query enforces: loaded once at startup and never reloaded
    (crates/elan-query/src/session.rs:64-76). */
module StartupPolicies {
  import opened Wrappers
  import opened IamTypes
  import opened IamEngine
  import opened PolicyStore
  import opened PolicyRuns

  ghost predicate ReadsIds(s: Store, readUuid: string -> Option<string>) {
    forall row :: row in s.policies ==> readUuid(row.id) == Some(row.id)
  }

  /** In every run of central's policies, what elan-query loaded at instant m is a listing of the store
      at a later instant exactly when the policy rows are the same as at m, and then it grants what
      central's own listings grant. */
  lemma StartupListCurrentIff(
    run: Run, m: nat, n: nat, list: seq<Policy>, central: seq<Policy>, readUuid: string -> Option<string>,
    newIds: nat -> string, request: Request, readMask: MaskReader
  )
    requires IsRun(run) && m <= n <= |run.events| && IsListing(run.states[m].store, list)
    requires ReadsIds(run.states[m].store, readUuid) && IsListing(run.states[n].store, central)
    ensures var loaded, same := Received(list, readUuid, newIds),
                                SameRows(run.states[m].store.policies, run.states[n].store.policies);
            && (IsListing(run.states[n].store, loaded) <==> same)
            && (same ==> (Decide(loaded, request, readMask).Allow? <==> Decide(central, request, readMask).Allow?))
  {
    StoreStaysConsistent(run, m);
    ServicesAgree(run.states[m].store, list, readUuid, newIds, request, readMask);
    ListingLastsIff(run, m, n, list);
    hide IsRun, Consistent, IsListing, SameRows, Received, Decide;
    if IsListing(run.states[n].store, list) {
      ListingsAgree(run.states[n].store, list, central, request, readMask);
    }
  }

  /** One policy call by itself: write, list, reload. */
  lemma SingleCallCompletes(mutation: Mutation, before: Store, after: Store) returns (run: Run)
    requires Consistent(before) && Mutate(before, mutation) == Ok(after)
    ensures Completed(run, before, after)
    ensures |run.states| == |run.events| + 1 && run.states[|run.events|].engine == ListPolicies(after)
  {
    hide *;
    run := Begin(before);
    run := CallWrites(run, 0, mutation, after, before);
    var at: nat;
    run, at := CallLists(run, 0, before);
    run := CallReloads(run, 0, before);
    SmoothCompletes(run, before, after);
  }

  /** The policy that a request creates for a known subject. */
  function Created(s: Store, request: PolicyProto, id: string): Policy
    requires SubjectByName(s.subjects, request.subjectName).Some?
  {
    var subject := SubjectByName(s.subjects, request.subjectName).value;
    ToPolicy(RowOf(request, subject.id, id), subject)
  }

  lemma CreatedIsListed(s: Store, request: PolicyProto, id: string)
    requires Consistent(s) && SubjectByName(s.subjects, request.subjectName).Some? && !HasPolicy(s.policies, id)
    ensures var after := CreatePolicy(s, request, "", id).0;
            Created(s, request, id) in ListPolicies(after)
  {
    var subject := SubjectByName(s.subjects, request.subjectName).value;
    var after := CreatePolicy(s, request, "", id).0;
    var row := RowOf(request, subject.id, id);
    FoundByIdToo(s, subject);
    assert after.policies == s.policies + [row] && after.subjects == s.subjects;
    assert after.policies[..|after.policies| - 1] == s.policies;
    var joined := Join(after.subjects, after.policies);
    assert joined[|joined| - 1] == Created(s, request, id);
    ListPoliciesIsListing(after);
    assert Created(s, request, id) in multiset(ListPolicies(after));
  }

  /** A Deny created later is enforced by central as soon as its call completes, and never by an
      elan-query that was already running: from every store that grants a request, for every Deny that
      matches it. */
  lemma LaterDenyIsNotEnforced(
    start: Store, deny: PolicyProto, id: string, request: Request, readMask: MaskReader,
    readUuid: string -> Option<string>, newIds: nat -> string
  ) returns (run: Run)
    requires Consistent(start) && ReadsIds(start, readUuid) && !HasPolicy(start.policies, id)
    requires SubjectByName(start.subjects, deny.subjectName).Some? && deny.effect == 1
    requires Created(start, deny, id).Matches(request) && Decide(ListPolicies(start), request, readMask).Allow?
    ensures Completed(run, start, CreatePolicy(start, deny, "", id).0) && |run.states| == |run.events| + 1
    ensures !Decide(run.states[|run.events|].engine, request, readMask).Allow?
    ensures var loaded := Received(ListPolicies(start), readUuid, newIds);
            IsListing(start, loaded) && Decide(loaded, request, readMask).Allow?
  {
    var after := CreatePolicy(start, deny, "", id).0;
    var subjectId := SubjectByName(start.subjects, deny.subjectName).value.id;
    CreateForKnownSubject(start, deny, id);
    CreatedIsListed(start, deny, id);
    ListPoliciesIsListing(start);
    ServicesAgree(start, ListPolicies(start), readUuid, newIds, request, readMask);
    AllowedIff(ListPolicies(after), request, readMask);
    assert Created(start, deny, id).effect == EffectDeny;
    assert SomeMatch(ListPolicies(after), request, EffectDeny);
    hide Decide, ListPolicies, CreatePolicy, Consistent, Mutate, Completed, Received, IsListing, SomeMatch;
    run := SingleCallCompletes(Insert(deny, subjectId, id), start, after);
  }
}
