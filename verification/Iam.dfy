/** Subjects, resources, policies and decisions (crates/elan-iam/src/types.rs). */
module IamTypes {
  import opened Wrappers

  type i32 = x: int | -0x8000_0000 <= x < 0x8000_0000

  datatype Subject = Subject(userId: string, groups: seq<string>)

  datatype ResourceId = ResourceId(namespace: string, name: string) {
    function Qualified(): string { namespace + "." + name }
  }

  datatype MaskKind = Redact | Sha256

  datatype AccessDecision =
    | Allow(rowFilter: Option<string>, columnMask: Option<map<string, MaskKind>>)
    | Deny(reason: string)

  datatype PolicyEffect = EffectAllow | EffectDeny

  datatype SubjectType = User | Group

  datatype Request = Request(subject: Subject, resource: ResourceId, action: string)

  function Lower(c: char): char {
    if 'A' <= c <= 'Z' then c - 'A' + 'a' else c
  }

  predicate EqualIgnoringCase(a: string, b: string) {
    |a| == |b| && forall i :: 0 <= i < |a| ==> Lower(a[i]) == Lower(b[i])
  }

  predicate IsNamespacePattern(pattern: string) {
    2 <= |pattern| && pattern[|pattern| - 2..] == ".*"
  }

  datatype Policy = Policy(
    id: string,
    subjectName: string,
    subjectType: SubjectType,
    resourcePattern: string,
    action: string,
    effect: PolicyEffect,
    rowFilter: Option<string>,
    columnMaskJson: Option<string>,
    priority: i32
  ) {
    predicate MatchesResource(resource: ResourceId) {
      if resourcePattern == "*" then true
      else if IsNamespacePattern(resourcePattern) then
        resourcePattern[..|resourcePattern| - 2] == resource.namespace
      else resourcePattern == resource.Qualified()
    }

    predicate MatchesAction(requested: string) {
      action == "*" || EqualIgnoringCase(action, requested)
    }

    predicate MatchesSubject(subject: Subject) {
      match subjectType
      case User => subjectName == "*" || subjectName == subject.userId
      case Group => subjectName in subject.groups
    }

    predicate Matches(request: Request) {
      && MatchesSubject(request.subject)
      && MatchesResource(request.resource)
      && MatchesAction(request.action)
    }
  }
}

/** Which resources a pattern names. A qualified name does not say where its namespace ends, so
    an exact pattern names one resource per dot it contains. */
module ResourcePatterns {
  import opened IamTypes

  ghost function SplitAt(pattern: string, i: nat): ResourceId
    requires i < |pattern|
  {
    ResourceId(pattern[..i], pattern[i + 1..])
  }

  ghost function DotPositions(pattern: string): set<nat> {
    set i: nat | i < |pattern| && pattern[i] == '.'
  }

  ghost function NamedResources(pattern: string): set<ResourceId> {
    Splits(pattern, DotPositions(pattern))
  }

  ghost function Splits(pattern: string, positions: set<nat>): set<ResourceId>
    requires forall i :: i in positions ==> i < |pattern|
  {
    set i | i in positions :: SplitAt(pattern, i)
  }

  function CountDots(s: string): nat {
    if s == "" then 0 else CountDots(s[..|s| - 1]) + (if s[|s| - 1] == '.' then 1 else 0)
  }

  lemma {:induction false} DotPositionsCount(pattern: string)
    ensures |DotPositions(pattern)| == CountDots(pattern)
  {
    if pattern != "" {
      var n := |pattern| - 1;
      DotPositionsCount(pattern[..n]);
      assert DotPositions(pattern) == DotPositions(pattern[..n]) + (if pattern[n] == '.' then {n} else {});
    }
  }

  lemma {:induction false} SplitsCount(pattern: string, positions: set<nat>)
    requires forall i :: i in positions ==> i < |pattern|
    ensures |Splits(pattern, positions)| == |positions|
    decreases |positions|
  {
    if positions != {} {
      var k :| k in positions;
      var rest := positions - {k};
      SplitsCount(pattern, rest);
      assert SplitAt(pattern, k) !in Splits(pattern, rest) by {
        assert forall i :: i in rest ==> |SplitAt(pattern, i).namespace| == i;
      }
      assert Splits(pattern, positions) == Splits(pattern, rest) + {SplitAt(pattern, k)};
    } else {
      assert Splits(pattern, positions) == {};
    }
  }

  lemma QualifiedIffSplit(pattern: string, r: ResourceId)
    ensures pattern == r.Qualified() <==>
            |r.namespace| < |pattern| && pattern[|r.namespace|] == '.' && r == SplitAt(pattern, |r.namespace|)
  {
    var n := |r.namespace|;
    if n < |pattern| && pattern[n] == '.' && r == SplitAt(pattern, n) {
      assert pattern == pattern[..n] + "." + pattern[n + 1..];
    }
  }

  /** An exact pattern matches exactly the resources got by cutting it at a dot, and there are as
      many of them as dots: none for a bare name, one only if the pattern has a single dot. */
  lemma ExactPatternResources(policy: Policy)
    requires policy.resourcePattern != "*" && !IsNamespacePattern(policy.resourcePattern)
    ensures forall r: ResourceId :: policy.MatchesResource(r) <==> r in NamedResources(policy.resourcePattern)
    ensures |NamedResources(policy.resourcePattern)| == CountDots(policy.resourcePattern)
  {
    var pattern := policy.resourcePattern;
    DotPositionsCount(pattern);
    SplitsCount(pattern, DotPositions(pattern));
    forall r: ResourceId
      ensures policy.MatchesResource(r) <==> r in NamedResources(pattern)
    {
      QualifiedIffSplit(pattern, r);
      assert forall i :: i in DotPositions(pattern) ==> |SplitAt(pattern, i).namespace| == i;
    }
  }

  /** `ns.*` names a whole namespace and nothing else, for every namespace. */
  lemma NamespacePatternResources(policy: Policy, namespace: string)
    requires policy.resourcePattern == namespace + ".*"
    ensures forall r: ResourceId :: policy.MatchesResource(r) <==> r.namespace == namespace
  {
    assert policy.resourcePattern[|policy.resourcePattern| - 2..] == ".*";
    assert policy.resourcePattern[..|policy.resourcePattern| - 2] == namespace;
  }

  /** Joined names are injective as soon as namespaces carry no dot. */
  lemma QualifiedInjective(a: ResourceId, b: ResourceId)
    requires '.' !in a.namespace && '.' !in b.namespace
    requires a.Qualified() == b.Qualified()
    ensures a == b
  {
    var q := a.Qualified();
    assert q[|a.namespace|] == '.' && q[|b.namespace|] == '.';
    assert q[..|a.namespace|] == a.namespace && q[..|b.namespace|] == b.namespace;
    assert forall i :: 0 <= i < |a.namespace| ==> q[i] == a.namespace[i];
    assert forall i :: 0 <= i < |b.namespace| ==> q[i] == b.namespace[i];
    assert |a.namespace| == |b.namespace|;
    assert q[|a.namespace| + 1..] == a.name && q[|b.namespace| + 1..] == b.name;
  }

  /** Read against dot-free namespaces, a policy written for `ns.name` reaches no other namespace;
      it matches that one resource and nothing else exactly when the pattern does not happen to
      end in `.*` (a name of `*` widens it, a name ending in `.*` makes it miss its own dataset). */
  lemma DotFreePattern(policy: Policy, own: ResourceId)
    requires '.' !in own.namespace && policy.resourcePattern == own.Qualified()
    ensures (forall r: ResourceId :: '.' !in r.namespace ==> (policy.MatchesResource(r) <==> r == own))
            <==> !IsNamespacePattern(policy.resourcePattern)
    ensures forall r: ResourceId :: '.' !in r.namespace && policy.MatchesResource(r) ==> r.namespace == own.namespace
  {
    var pattern := policy.resourcePattern;
    assert pattern[|own.namespace|] == '.';
    assert pattern != "*";
    if IsNamespacePattern(pattern) {
      var ns := pattern[..|pattern| - 2];
      assert pattern == ns + ".*";
      NamespacePatternResources(policy, ns);
      var other := ResourceId(ns, own.name + "x");
      assert policy.MatchesResource(other) && own != other;
      if '.' !in ns {
        QualifiedInjective(ResourceId(ns, "*"), own);
      } else {
        assert !policy.MatchesResource(own);
      }
    } else {
      forall r: ResourceId | '.' !in r.namespace && policy.MatchesResource(r)
        ensures r == own
      {
        QualifiedInjective(r, own);
      }
    }
  }
}

/** The policy engine (crates/elan-iam/src/engine.rs). */
module IamEngine {
  import opened Wrappers
  import opened Sequences
  import opened Sorting
  import opened IamTypes

  /** A mask document, as the JSON library reads it. */
  type MaskReader = string -> Option<map<string, string>>

  function Matcher(request: Request): Policy -> bool {
    (p: Policy) => p.Matches(request)
  }

  function Matching(policies: seq<Policy>, request: Request): seq<Policy> {
    Filter(Matcher(request), policies)
  }

  function EffectOrder(effect: PolicyEffect): nat {
    match effect
    case EffectDeny => 0
    case EffectAllow => 1
  }

  predicate Precedes(a: Policy, b: Policy) {
    || EffectOrder(a.effect) < EffectOrder(b.effect)
    || (EffectOrder(a.effect) == EffectOrder(b.effect) && a.priority >= b.priority)
  }

  function ReadMask(readMask: MaskReader, json: string): Option<map<string, MaskKind>> {
    match readMask(json)
    case None => None
    case Some(m) =>
      Some(map column | column in m && m[column] in {"REDACT", "SHA256"} ::
        if m[column] == "REDACT" then Redact else Sha256)
  }

  function Verdict(policy: Policy, request: Request, readMask: MaskReader): AccessDecision {
    match policy.effect
    case EffectDeny => Deny("Deny policy '" + policy.id + "' matched for " + request.resource.Qualified())
    case EffectAllow =>
      Allow(policy.rowFilter,
            if policy.columnMaskJson.Some? then ReadMask(readMask, policy.columnMaskJson.value) else None)
  }

  function DefaultDeny(request: Request): AccessDecision {
    Deny("No Allow policy for " + request.subject.userId + " on " + request.resource.Qualified())
  }

  /** Filter, stable sort, head: what `check` computes. */
  function Decide(policies: seq<Policy>, request: Request, readMask: MaskReader): AccessDecision {
    var sorted := StableSort(Matching(policies, request), Precedes);
    if sorted == [] then DefaultDeny(request) else Verdict(sorted[0], request, readMask)
  }

  lemma MatchingSnoc(policies: seq<Policy>, i: nat, request: Request)
    requires i < |policies|
    ensures Matching(policies[..i + 1], request)
            == Matching(policies[..i], request) + if policies[i].Matches(request) then [policies[i]] else []
  {
    FilterSnoc(Matcher(request), policies[..i], policies[i]);
    assert policies[..i + 1] == policies[..i] + [policies[i]];
  }

  lemma SortedFrom(matching: seq<Policy>, i: nat)
    requires i < |matching|
    ensures StableSort(matching[i..], Precedes)
            == Insert(matching[i], StableSort(matching[i + 1..], Precedes), Precedes)
  {
    assert matching[i..][1..] == matching[i + 1..];
  }

  class SnapshotIamEngine {
    var policies: seq<Policy>
    const readMask: MaskReader

    constructor (policies: seq<Policy>, readMask: MaskReader)
      ensures this.policies == policies && this.readMask == readMask
    {
      this.policies := policies;
      this.readMask := readMask;
    }

    method Check(request: Request) returns (decision: AccessDecision)
      ensures decision == Decide(policies, request, readMask)
    {
      var matching: seq<Policy> := [];
      for i := 0 to |policies|
        invariant matching == Matching(policies[..i], request)
      {
        hide *;
        MatchingSnoc(policies, i, request);
        if policies[i].Matches(request) {
          matching := matching + [policies[i]];
        }
      }
      assert policies[..|policies|] == policies;
      var sorted: seq<Policy> := [];
      for i := |matching| downto 0
        invariant sorted == StableSort(matching[i..], Precedes)
      {
        hide *;
        SortedFrom(matching, i);
        sorted := Insert(matching[i], sorted, Precedes);
      }
      assert matching[0..] == matching;
      decision := if sorted == [] then DefaultDeny(request) else Verdict(sorted[0], request, readMask);
    }

    method Reload(latest: seq<Policy>)
      modifies this
      ensures policies == latest
    {
      policies := latest;
    }
  }

  // ----- The declarative rule -----

  /** Policy i decides: Deny overrides Allow, then the highest priority, then list order. */
  ghost predicate Governs(policies: seq<Policy>, request: Request, i: nat) {
    && i < |policies|
    && policies[i].Matches(request)
    && (policies[i].effect.EffectAllow? ==> !exists p :: p in policies && p.Matches(request) && p.effect.EffectDeny?)
    && forall j :: 0 <= j < |policies| && policies[j].Matches(request) && policies[j].effect == policies[i].effect ==>
         && policies[j].priority <= policies[i].priority
         && (j < i ==> policies[j].priority < policies[i].priority)
  }

  ghost predicate SomeMatch(policies: seq<Policy>, request: Request, effect: PolicyEffect) {
    exists p :: p in policies && p.Matches(request) && p.effect == effect
  }

  lemma HeadGoverns(policies: seq<Policy>, request: Request, i: nat, k: nat)
    requires i < |policies| && k < |Matching(policies, request)| && policies[i] == Matching(policies, request)[k]
    requires Filter(Matcher(request), policies[..i]) == Matching(policies, request)[..k]
    requires forall p :: p in Matching(policies, request) ==> Precedes(policies[i], p)
    requires forall p :: p in Matching(policies, request)[..k] ==> !Precedes(p, policies[i])
    ensures Governs(policies, request, i)
  {
    var matching := Matching(policies, request);
    assert policies[i] in matching && policies[i].Matches(request);
    forall j | 0 <= j < |policies| && policies[j].Matches(request)
      ensures Precedes(policies[i], policies[j])
      ensures j < i ==> !Precedes(policies[j], policies[i])
    {
      assert policies[j] in matching;
      if j < i {
        assert policies[..i][j] in Filter(Matcher(request), policies[..i]);
      }
    }
  }

  /** `check` refines the declarative rule on every policy list. */
  lemma DecideFollowsTheRule(policies: seq<Policy>, request: Request, readMask: MaskReader)
    ensures Matching(policies, request) == [] ==> Decide(policies, request, readMask) == DefaultDeny(request)
    ensures Matching(policies, request) != [] ==>
              exists i: nat :: Governs(policies, request, i)
                       && Decide(policies, request, readMask) == Verdict(policies[i], request, readMask)
    ensures forall i: nat, j: nat :: Governs(policies, request, i) && Governs(policies, request, j) ==> i == j
  {
    var matching := Matching(policies, request);
    var sorted := StableSort(matching, Precedes);
    StableSortCorrect(matching, Precedes);
    if matching != [] {
      var k := StableHead(matching, sorted, Precedes);
      var isMatch := Matcher(request);
      assert matching == Filter(isMatch, policies);
      var i := FilterPosition(isMatch, policies, k);
      HeadGoverns(policies, request, i, k);
      assert policies[i] == sorted[0];
    } else {
      assert |multiset(sorted)| == |multiset(matching)|;
    }
  }

  /** Access is granted exactly when some Allow matches and no Deny does. */
  lemma AllowedIff(policies: seq<Policy>, request: Request, readMask: MaskReader)
    ensures Decide(policies, request, readMask).Allow? <==>
            SomeMatch(policies, request, EffectAllow) && !SomeMatch(policies, request, EffectDeny)
  {
    DecideFollowsTheRule(policies, request, readMask);
    if Matching(policies, request) != [] {
      var i: nat :| Governs(policies, request, i)
               && Decide(policies, request, readMask) == Verdict(policies[i], request, readMask);
      assert policies[i] in policies;
    } else {
      assert forall p :: p in policies && p.Matches(request) ==> p in Matching(policies, request);
    }
  }

  /** On a list in descending priority, as the store supplies it, the governing policy is simply
      the first matching Deny, or without one the first match. */
  lemma DescendingListRule(policies: seq<Policy>, request: Request, i: nat)
    requires forall a, b :: 0 <= a < b < |policies| ==> policies[a].priority >= policies[b].priority
    requires i < |policies| && policies[i].Matches(request)
    requires policies[i].effect.EffectAllow? ==> !SomeMatch(policies, request, EffectDeny)
    requires forall j :: 0 <= j < i && policies[j].Matches(request) ==> policies[j].effect != policies[i].effect
    ensures Governs(policies, request, i)
  {
  }

  /** Neither the order of the list nor policies that do not match affect who gets in. */
  lemma OutcomeIgnoresOrder(policies: seq<Policy>, shuffled: seq<Policy>, request: Request, readMask: MaskReader)
    requires forall p: Policy :: p.Matches(request) ==> (p in policies <==> p in shuffled)
    ensures Decide(policies, request, readMask).Allow? <==> Decide(shuffled, request, readMask).Allow?
  {
    AllowedIff(policies, request, readMask);
    AllowedIff(shuffled, request, readMask);
  }

  /** A policy that does not match leaves the whole decision alone, wherever it is inserted. */
  lemma InsertIrrelevant(before: seq<Policy>, p: Policy, after: seq<Policy>, request: Request, readMask: MaskReader)
    requires !p.Matches(request)
    ensures Decide(before + [p] + after, request, readMask) == Decide(before + after, request, readMask)
  {
    hide StableSort, Filter, Verdict;
    var isMatch := Matcher(request);
    FilterConcat(isMatch, before + [p], after);
    FilterSnoc(isMatch, before, p);
    FilterConcat(isMatch, before, after);
    assert Matching(before + [p] + after, request) == Matching(before + after, request);
  }

  /** Adding a Deny never opens access; adding an Allow never closes it. */
  lemma InsertMonotone(before: seq<Policy>, p: Policy, after: seq<Policy>, request: Request, readMask: MaskReader)
    ensures p.effect.EffectDeny? && Decide(before + [p] + after, request, readMask).Allow? ==>
              Decide(before + after, request, readMask).Allow?
    ensures p.effect.EffectAllow? && Decide(before + after, request, readMask).Allow? ==>
              Decide(before + [p] + after, request, readMask).Allow?
  {
    AllowedIff(before + [p] + after, request, readMask);
    AllowedIff(before + after, request, readMask);
    assert forall q :: q in before + [p] + after <==> q == p || q in before + after;
  }

  /** What an Allow carries: the governing policy's row filter, and from a readable mask document each
      column that asks for one of the two known masks, with that mask. */
  lemma AllowCarries(policies: seq<Policy>, request: Request, i: nat, readMask: MaskReader)
    requires Governs(policies, request, i) && policies[i].effect.EffectAllow?
    ensures var decision, json := Decide(policies, request, readMask), policies[i].columnMaskJson;
            && decision.Allow? && decision.rowFilter == policies[i].rowFilter
            && (json.None? || readMask(json.value).None? ==> decision.columnMask == None)
            && (json.Some? && readMask(json.value).Some? ==>
                 var document := readMask(json.value).value;
                 && decision.columnMask.Some?
                 && forall column ::
                      var mask := decision.columnMask.value;
                      && (column in mask <==> column in document && document[column] in {"REDACT", "SHA256"})
                      && (column in mask && document[column] == "REDACT" ==> mask[column] == Redact)
                      && (column in mask && document[column] == "SHA256" ==> mask[column] == Sha256))
  {
    GoverningVerdict(policies, request, i, readMask);
  }

  lemma GoverningVerdict(policies: seq<Policy>, request: Request, i: nat, readMask: MaskReader)
    requires Governs(policies, request, i)
    ensures Decide(policies, request, readMask) == Verdict(policies[i], request, readMask)
  {
    DecideFollowsTheRule(policies, request, readMask);
    assert policies[i] in Matching(policies, request);
    var j: nat :| Governs(policies, request, j)
             && Decide(policies, request, readMask) == Verdict(policies[j], request, readMask);
  }

  /** What a Deny says: the policy that decided, or who had no Allow on what. */
  lemma DenySays(policies: seq<Policy>, request: Request, readMask: MaskReader)
    ensures var resource := request.resource.namespace + "." + request.resource.name;
            && (forall i: nat :: Governs(policies, request, i) && policies[i].effect.EffectDeny? ==>
                 Decide(policies, request, readMask)
                 == Deny("Deny policy '" + policies[i].id + "' matched for " + resource))
            && ((forall p :: p in policies ==> !p.Matches(request)) ==>
                 Decide(policies, request, readMask)
                 == Deny("No Allow policy for " + request.subject.userId + " on " + resource))
  {
    forall i: nat | Governs(policies, request, i)
      ensures Decide(policies, request, readMask) == Verdict(policies[i], request, readMask)
    {
      GoverningVerdict(policies, request, i, readMask);
    }
    if forall p :: p in policies ==> !p.Matches(request) {
      FilterNone(Matcher(request), policies);
      DecideFollowsTheRule(policies, request, readMask);
    }
  }

  lemma SinglePolicy(p: Policy, request: Request, readMask: MaskReader)
    ensures Decide([p], request, readMask).Allow? <==> p.effect.EffectAllow? && p.Matches(request)
  {
    AllowedIff([p], request, readMask);
    assert [p][0] in [p];
  }

  /** Whom, what and which action one Allow reaches: a user by name or all by `*`, a group by its
      members; everything by `*`, a namespace by `ns.*`, else one qualified name; every action by `*`,
      else one, whatever the case of its ASCII letters. */
  lemma SinglePolicyReaches(p: Policy, request: Request, readMask: MaskReader)
    ensures var resource, wanted := request.resource, request.action;
            Decide([p], request, readMask).Allow? <==>
            && p.effect == EffectAllow
            && (match p.subjectType
                case User => p.subjectName == "*" || p.subjectName == request.subject.userId
                case Group => p.subjectName in request.subject.groups)
            && (|| p.resourcePattern == "*"
                || p.resourcePattern == resource.namespace + ".*"
                || (&& p.resourcePattern == resource.namespace + "." + resource.name
                    && (|resource.name| >= 2 ==> resource.name[|resource.name| - 2..] != ".*")))
            && (|| p.action == "*"
                || (&& |p.action| == |wanted|
                    && forall i :: 0 <= i < |wanted| ==>
                         || p.action[i] == wanted[i]
                         || ('A' <= wanted[i] <= 'Z' && p.action[i] as int == wanted[i] as int + 32)
                         || ('A' <= p.action[i] <= 'Z' && wanted[i] as int == p.action[i] as int + 32)))
  {
    SinglePolicy(p, request, readMask);
    ResourceReached(p, request.resource);
    ActionReached(p, request.action);
  }

  lemma ResourceReached(p: Policy, resource: ResourceId)
    ensures p.MatchesResource(resource) <==>
            || p.resourcePattern == "*"
            || p.resourcePattern == resource.namespace + ".*"
            || (&& p.resourcePattern == resource.namespace + "." + resource.name
                && (|resource.name| >= 2 ==> resource.name[|resource.name| - 2..] != ".*"))
  {
    var pattern, whole := p.resourcePattern, resource.namespace + "." + resource.name;
    var suffixed := resource.namespace + ".*";
    assert suffixed[|suffixed| - 2..] == ".*" && suffixed[..|suffixed| - 2] == resource.namespace;
    if IsNamespacePattern(pattern) {
      assert pattern == pattern[..|pattern| - 2] + ".*";
    }
    if |resource.name| >= 2 {
      assert whole[|whole| - 2..] == resource.name[|resource.name| - 2..];
    } else if resource.name != "" {
      assert resource.name == [resource.name[0]];
      assert whole[|whole| - 2..] == "." + resource.name;
    } else if |whole| >= 2 {
      assert whole[|whole| - 1] == '.';
      assert whole[|whole| - 2..][1] == '.' && ".*"[1] == '*';
    }
  }

  lemma ActionReached(p: Policy, wanted: string)
    ensures p.MatchesAction(wanted) <==>
            || p.action == "*"
            || (&& |p.action| == |wanted|
                && forall i :: 0 <= i < |wanted| ==>
                     || p.action[i] == wanted[i]
                     || ('A' <= wanted[i] <= 'Z' && p.action[i] as int == wanted[i] as int + 32)
                     || ('A' <= p.action[i] <= 'Z' && wanted[i] as int == p.action[i] as int + 32))
  {
    forall a: char, b: char
      ensures Lower(a) == Lower(b) <==>
              || a == b
              || ('A' <= b <= 'Z' && a as int == b as int + 32)
              || ('A' <= a <= 'Z' && b as int == a as int + 32)
    {
      LowerIsAscii(a);
      LowerIsAscii(b);
    }
  }

  lemma LowerIsAscii(c: char)
    ensures Lower(c) as int == if 'A' <= c <= 'Z' then c as int + 32 else c as int
  {
  }

  /** Row filter and mask depend on list order only through ties at the top: if one Allow outranks
      every other match, any list with the same matches yields that policy's filter and mask. */
  lemma UniqueTopIsOrderFree(policies: seq<Policy>, shuffled: seq<Policy>, top: Policy, request: Request,
                             readMask: MaskReader)
    requires forall p: Policy :: p.Matches(request) ==> (p in policies <==> p in shuffled)
    requires top in policies && top.Matches(request) && !SomeMatch(policies, request, EffectDeny)
    requires forall p :: p in policies && p.Matches(request) && p != top ==> p.priority < top.priority
    ensures Decide(policies, request, readMask) == Verdict(top, request, readMask)
    ensures Decide(shuffled, request, readMask) == Verdict(top, request, readMask)
    ensures var decision := Decide(shuffled, request, readMask);
            && decision.Allow? && decision.rowFilter == top.rowFilter
            && (top.columnMaskJson.None? ==> decision.columnMask == None)
            && decision == Decide([top], request, readMask)
  {
    assert top in Matching(policies, request) && top in Matching(shuffled, request);
    DecideFollowsTheRule(policies, request, readMask);
    DecideFollowsTheRule(shuffled, request, readMask);
    var i: nat :| Governs(policies, request, i)
             && Decide(policies, request, readMask) == Verdict(policies[i], request, readMask);
    var j: nat :| Governs(shuffled, request, j)
             && Decide(shuffled, request, readMask) == Verdict(shuffled[j], request, readMask);
    var i' :| 0 <= i' < |policies| && policies[i'] == top;
    var j' :| 0 <= j' < |shuffled| && shuffled[j'] == top;
    assert policies[i] in policies && shuffled[j] in policies;
    OnlyPolicy(top, request, readMask);
  }

  lemma OnlyPolicy(p: Policy, request: Request, readMask: MaskReader)
    requires p.Matches(request)
    ensures Decide([p], request, readMask) == Verdict(p, request, readMask)
  {
    assert Governs([p], request, 0);
    GoverningVerdict([p], request, 0, readMask);
  }

  /** Whether the catalog shows a dataset (crates/elan-iam/src/catalog_filter.rs). */
  predicate IsVisible(policies: seq<Policy>, subject: Subject, resource: ResourceId, readMask: MaskReader) {
    Decide(policies, Request(subject, resource, "SELECT"), readMask).Allow?
  }

  /** A dataset is shown exactly if reading it with SELECT is allowed. */
  lemma VisibleIff(policies: seq<Policy>, subject: Subject, resource: ResourceId, readMask: MaskReader)
    ensures IsVisible(policies, subject, resource, readMask) <==>
            && (exists p :: p in policies && p.Matches(Request(subject, resource, "SELECT")) && p.effect == EffectAllow)
            && !exists p :: p in policies && p.Matches(Request(subject, resource, "SELECT")) && p.effect == EffectDeny
  {
    AllowedIff(policies, Request(subject, resource, "SELECT"), readMask);
  }
}
