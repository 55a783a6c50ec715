/** elan-query's view of the catalog: the namespace-grouped cache and its refresh
    (crates/elan-query/src/session.rs), and the per-session table lookup with fallback to central
    (crates/elan-query/src/catalog/provider.rs). */
module SessionCache {
  import opened Wrappers
  import opened Sequences
  import opened CatalogTypes
  import opened CatalogStore
  import opened CatalogReads

  datatype LoadError = StreamBroken | Undecodable

  /** A streamed listing: each item arrives or the stream fails there. */
  type ListingStream = seq<Result<DatasetProto, LoadError>>

  function DecodeStream(stream: ListingStream, decoders: Decoders): Result<seq<DatasetInfo>, LoadError> {
    if stream == [] then Ok([])
    else
      match DecodeStream(stream[..|stream| - 1], decoders)
      case Err(e) => Err(e)
      case Ok(list) =>
        match stream[|stream| - 1]
        case Err(e) => Err(e)
        case Ok(proto) =>
          match ProtoToDataset(proto, decoders)
          case None => Err(Undecodable)
          case Some(d) => Ok(list + [d])
  }

  type Grouped = map<string, seq<DatasetInfo>>

  function Namespaces(list: seq<DatasetInfo>): set<string> {
    set d | d in list :: d.namespace
  }

  /** Each dataset once, under its own namespace, in listing order. */
  function GroupByNamespace(list: seq<DatasetInfo>): Grouped {
    map ns | ns in Namespaces(list) :: Filter(InNamespace(ns), list)
  }

  lemma GroupSnocKeys(list: seq<DatasetInfo>, d: DatasetInfo)
    ensures Namespaces(list + [d]) == Namespaces(list) + {d.namespace}
  {
    assert forall x :: x in list + [d] <==> x in list || x == d;
  }

  lemma GroupSnocAt(list: seq<DatasetInfo>, d: DatasetInfo, ns: string)
    ensures var own := if ns in Namespaces(list) then Filter(InNamespace(ns), list) else [];
            Filter(InNamespace(ns), list + [d]) == if ns == d.namespace then own + [d] else own
  {
    FilterSnoc(InNamespace(ns), list, d);
    if ns !in Namespaces(list) {
      forall x | x in list
        ensures !InNamespace(ns)(x)
      {
        assert x.namespace in Namespaces(list);
      }
      FilterNone(InNamespace(ns), list);
    }
  }

  /** Pushing a dataset onto its namespace's list. */
  function Push(g: Grouped, d: DatasetInfo): Grouped {
    g[d.namespace := (if d.namespace in g then g[d.namespace] else []) + [d]]
  }

  lemma GroupSnoc(list: seq<DatasetInfo>, d: DatasetInfo)
    ensures GroupByNamespace(list + [d]) == Push(GroupByNamespace(list), d)
  {
    var g, g' := GroupByNamespace(list), GroupByNamespace(list + [d]);
    GroupSnocKeys(list, d);
    assert g'.Keys == Push(g, d).Keys;
    forall ns | ns in g'
      ensures g'[ns] == Push(g, d)[ns]
    {
      GroupSnocAt(list, d, ns);
    }
  }

  lemma {:induction false} FilterCounts(p: DatasetInfo -> bool, list: seq<DatasetInfo>, d: DatasetInfo)
    ensures multiset(Filter(p, list))[d] == if p(d) then multiset(list)[d] else 0
  {
    if list != [] {
      FilterCounts(p, list[1..], d);
      assert list == [list[0]] + list[1..];
    }
  }

  /** Grouping loses and repeats nothing: every dataset occurs under its own namespace as often as
      in the listing, and under no other. */
  lemma GroupingConserves(list: seq<DatasetInfo>, d: DatasetInfo, ns: string)
    ensures d in list ==> d.namespace in GroupByNamespace(list)
    ensures ns in GroupByNamespace(list) ==>
              multiset(GroupByNamespace(list)[ns])[d] == if d.namespace == ns then multiset(list)[d] else 0
  {
    FilterCounts(InNamespace(ns), list, d);
    if d in list {
      assert d.namespace in Namespaces(list);
    }
  }

  /** ... and each namespace's list is in the order of the listing. */
  lemma GroupingKeepsOrder(list: seq<DatasetInfo>, ns: string, i: nat, j: nat) returns (a: nat, b: nat)
    requires ns in GroupByNamespace(list) && i < j < |GroupByNamespace(list)[ns]|
    ensures a < b < |list|
    ensures list[a] == GroupByNamespace(list)[ns][i] && list[b] == GroupByNamespace(list)[ns][j]
  {
    a := FilterPosition(InNamespace(ns), list, i);
    b := FilterPosition(InNamespace(ns), list, j);
    if b <= a {
      FilterGrows(InNamespace(ns), list, b, a);
    }
  }

  /** A load succeeds exactly if every item arrives and decodes, and then yields the items in order. */
  lemma {:induction false} DecodeStreamIff(stream: ListingStream, decoders: Decoders)
    ensures DecodeStream(stream, decoders).Ok? <==>
            forall i :: 0 <= i < |stream| ==> stream[i].Ok? && ProtoToDataset(stream[i].value, decoders).Some?
    ensures DecodeStream(stream, decoders).Ok? ==>
              && |DecodeStream(stream, decoders).value| == |stream|
              && forall i :: 0 <= i < |stream| ==>
                   && stream[i].Ok?
                   && ProtoToDataset(stream[i].value, decoders) == Some(DecodeStream(stream, decoders).value[i])
  {
    if stream != [] {
      hide ProtoToDataset;
      DecodeStreamIff(stream[..|stream| - 1], decoders);
    }
  }

  lemma {:induction false} BrokenPrefix(stream: ListingStream, n: nat, decoders: Decoders)
    requires n <= |stream| && DecodeStream(stream[..n], decoders).Err?
    ensures DecodeStream(stream, decoders) == Err(DecodeStream(stream[..n], decoders).error)
  {
    if n < |stream| {
      var shorter := stream[..|stream| - 1];
      assert shorter[..n] == stream[..n];
      BrokenPrefix(shorter, n, decoders);
    } else {
      assert stream[..n] == stream;
    }
  }

  /** Builds the grouping item by item; any failure discards the whole load. */
  method LoadDatasets(stream: ListingStream, decoders: Decoders) returns (r: Result<Grouped, LoadError>)
    ensures match DecodeStream(stream, decoders)
            case Ok(list) => r == Ok(GroupByNamespace(list))
            case Err(e) => r == Err(e)
  {
    var byNs: Grouped := map[];
    ghost var list: seq<DatasetInfo> := [];
    for i := 0 to |stream|
      invariant DecodeStream(stream[..i], decoders) == Ok(list) && byNs == GroupByNamespace(list)
    {
      assert stream[..i + 1][..i] == stream[..i];
      match stream[i] {
        case Err(e) =>
          BrokenPrefix(stream, i + 1, decoders);
          return Err(e);
        case Ok(proto) =>
          match ProtoToDataset(proto, decoders) {
            case None =>
              BrokenPrefix(stream, i + 1, decoders);
              return Err(Undecodable);
            case Some(d) =>
              GroupSnoc(list, d);
              byNs := Push(byNs, d);
              list := list + [d];
          }
      }
    }
    assert stream[..|stream|] == stream;
    r := Ok(byNs);
  }

  class SessionFactory {
    var datasetsByNs: Grouped

    constructor (initial: Grouped)
      ensures datasetsByNs == initial
    {
      datasetsByNs := initial;
    }

    /** One turn of the refresh task: replace the whole view, or keep it. */
    method Refresh(stream: ListingStream, decoders: Decoders)
      modifies this
      ensures match DecodeStream(stream, decoders)
              case Ok(list) => datasetsByNs == GroupByNamespace(list)
              case Err(_) => datasetsByNs == old(datasetsByNs)
    {
      var r := LoadDatasets(stream, decoders);
      if r.Ok? {
        datasetsByNs := r.value;
      }
    }
  }

  /** The first n items that central sends for a listing. */
  function Sent(list: seq<DatasetInfo>): ListingStream {
    Map((d: DatasetInfo) => Ok(DatasetToProto(d)), list)
  }

  /** A listing that arrives complete is decoded to what central listed. */
  lemma {:induction false} CompleteStreamDecodes(list: seq<DatasetInfo>, decoders: Decoders)
    requires forall d :: d in list ==> ProtoToDataset(DatasetToProto(d), decoders) == Some(d)
    ensures DecodeStream(Sent(list), decoders) == Ok(list)
  {
    hide ProtoToDataset, DatasetToProto;
    if list != [] {
      var n := |list| - 1;
      CompleteStreamDecodes(list[..n], decoders);
      assert Sent(list)[..n] == Sent(list[..n]);
      assert Sent(list)[n] == Ok(DatasetToProto(list[n]));
      assert list == list[..n] + [list[n]];
    }
  }

  lemma ListingSurvivesWire(t: Tables, decoders: Decoders)
    requires decoders.Lawful() && ListDatasets(t, None, decoders).Ok?
    ensures var list := ListDatasets(t, None, decoders).value; DecodeStream(Sent(list), decoders) == Ok(list)
  {
    var list := ListDatasets(t, None, decoders).value;
    forall d | d in list
      ensures ProtoToDataset(DatasetToProto(d), decoders) == Some(d)
    {
      ListHoldsLiveDatasets(t, None, decoders, d);
      var row :| row in t.datasets && Selects(t, None)(row) && RowToDataset(row, decoders) == Some(d);
      WireRoundTrip(row, decoders);
    }
    CompleteStreamDecodes(list, decoders);
  }
}

/** Runs of central and the refresh task together. */
module CacheRuns {
  import opened Wrappers
  import opened CatalogTypes
  import opened CatalogStore
  import opened SessionCache
  import CatalogRuns

  /** Fetch asks central for the listing, of which `received` items arrive before the stream ends
      or breaks; Install overwrites the shared view. Central keeps changing in between. */
  datatype Event =
    | Central(op: CatalogRuns.Op)
    | Fetch(received: nat)
    | Install

  /** The cache and the load in progress, each with the instant its listing was taken. */
  datatype State = State(
    central: CatalogRuns.State,
    cache: Grouped, cachedAt: nat,
    loaded: Option<Grouped>, loadedAt: nat
  )

  /** What a fetch yields: nothing if the listing fails or is cut short. */
  function FetchResult(t: Tables, received: nat, decoders: Decoders): Option<Grouped> {
    match ListDatasets(t, None, decoders)
    case Err(_) => None
    case Ok(list) =>
      var stream := if received >= |list| then Sent(list) else Sent(list)[..received] + [Err(StreamBroken)];
      match DecodeStream(stream, decoders)
      case Err(_) => None
      case Ok(received) => Some(GroupByNamespace(received))
  }

  function Step(s: State, e: Event, now: nat, decoders: Decoders): State {
    match e
    case Central(op) => s.(central := CatalogRuns.Step(s.central, op))
    case Fetch(received) =>
      s.(loaded := FetchResult(s.central.tables, received, decoders), loadedAt := now)
    case Install =>
      if s.loaded.Some? then s.(cache := s.loaded.value, cachedAt := s.loadedAt, loaded := None) else s
  }

  /** The factory starts with a complete load from central. */
  function After(start: CatalogRuns.State, events: seq<Event>, n: nat, decoders: Decoders): State
    requires n <= |events| && ListDatasets(start.tables, None, decoders).Ok?
  {
    if n == 0 then State(start, GroupByNamespace(ListDatasets(start.tables, None, decoders).value), 0, None, 0)
    else Step(After(start, events, n - 1, decoders), events[n - 1], n - 1, decoders)
  }

  lemma {:induction false} CentralStaysConsistent(
    start: CatalogRuns.State, events: seq<Event>, n: nat, decoders: Decoders
  )
    requires n <= |events| && ListDatasets(start.tables, None, decoders).Ok? && Consistent(start.tables)
    ensures Consistent(After(start, events, n, decoders).central.tables)
  {
    if n > 0 {
      hide Step, Consistent, ListDatasets, GroupByNamespace;
      CentralStaysConsistent(start, events, n - 1, decoders);
      CentralStep(After(start, events, n - 1, decoders), events[n - 1], n - 1, decoders);
    }
  }

  lemma CentralStep(s: State, e: Event, now: nat, decoders: Decoders)
    requires Consistent(s.central.tables)
    ensures Consistent(Step(s, e, now, decoders).central.tables)
  {
    hide CatalogRuns.Step, Consistent, FetchResult;
    if e.Central? {
      CatalogRuns.StepKeepsInvariants(s.central, e.op);
    }
  }

  /** The view is the grouping of one whole listing, the one central would have given at instant m. */
  ghost predicate IsListingAt(start: CatalogRuns.State, events: seq<Event>, m: nat, view: Grouped, decoders: Decoders)
    requires m <= |events| && ListDatasets(start.tables, None, decoders).Ok?
  {
    var listing := ListDatasets(After(start, events, m, decoders).central.tables, None, decoders);
    listing.Ok? && view == GroupByNamespace(listing.value)
  }

  lemma FetchIsWholeListing(t: Tables, received: nat, decoders: Decoders)
    requires decoders.Lawful() && FetchResult(t, received, decoders).Some?
    ensures ListDatasets(t, None, decoders).Ok?
    ensures FetchResult(t, received, decoders) == Some(GroupByNamespace(ListDatasets(t, None, decoders).value))
  {
    var list := ListDatasets(t, None, decoders).value;
    ListingSurvivesWire(t, decoders);
    if received < |list| {
      var stream := Sent(list)[..received] + [Err(StreamBroken)];
      assert stream[|stream| - 1] == Err(StreamBroken);
      assert DecodeStream(stream, decoders).Err?;
    }
  }

  ghost predicate CacheInvariant(start: CatalogRuns.State, events: seq<Event>, n: nat, s: State, decoders: Decoders)
    requires n <= |events| && ListDatasets(start.tables, None, decoders).Ok?
  {
    && s.cachedAt <= n && IsListingAt(start, events, s.cachedAt, s.cache, decoders)
    && (s.loaded.Some? ==>
         s.cachedAt <= s.loadedAt < n && IsListingAt(start, events, s.loadedAt, s.loaded.value, decoders))
  }

  lemma CacheStep(start: CatalogRuns.State, events: seq<Event>, n: nat, decoders: Decoders)
    requires n < |events| && ListDatasets(start.tables, None, decoders).Ok? && decoders.Lawful()
    requires CacheInvariant(start, events, n, After(start, events, n, decoders), decoders)
    ensures var s := After(start, events, n, decoders);
            var s' := Step(s, events[n], n, decoders);
            CacheInvariant(start, events, n + 1, s', decoders) && s.cachedAt <= s'.cachedAt
  {
    var s := After(start, events, n, decoders);
    if events[n].Fetch? {
      var result := FetchResult(s.central.tables, events[n].received, decoders);
      if result.Some? {
        FetchIsWholeListing(s.central.tables, events[n].received, decoders);
        assert IsListingAt(start, events, n, result.value, decoders);
      }
      hide FetchResult;
    }
    hide After, IsListingAt, CatalogRuns.Step;
  }

  /** While only central is active, the cache and the load in progress stay as they are. */
  lemma {:induction false} OnlyCentral(start: CatalogRuns.State, events: seq<Event>, i: nat, j: nat, decoders: Decoders)
    requires i <= j <= |events| && ListDatasets(start.tables, None, decoders).Ok?
    requires forall k :: i <= k < j ==> events[k].Central?
    ensures var s, s' := After(start, events, i, decoders), After(start, events, j, decoders);
            && s'.cache == s.cache && s'.cachedAt == s.cachedAt && s'.loaded == s.loaded && s'.loadedAt == s.loadedAt
    decreases j
  {
    if i < j {
      hide GroupByNamespace, ListDatasets, CatalogRuns.Step;
      OnlyCentral(start, events, i, j - 1, decoders);
    }
  }

  lemma FetchSucceedsIff(t: Tables, received: nat, decoders: Decoders)
    requires decoders.Lawful()
    ensures var listing := ListDatasets(t, None, decoders);
            FetchResult(t, received, decoders)
            == if listing.Ok? && received >= |listing.value| then Some(GroupByNamespace(listing.value)) else None
  {
    if ListDatasets(t, None, decoders).Ok? {
      var list := ListDatasets(t, None, decoders).value;
      ListingSurvivesWire(t, decoders);
      if received < |list| {
        var stream := Sent(list)[..received] + [Err(StreamBroken)];
        assert stream[|stream| - 1] == Err(StreamBroken);
        assert DecodeStream(stream, decoders).Err?;
      }
    }
  }

  lemma NextState(start: CatalogRuns.State, events: seq<Event>, n: nat, decoders: Decoders)
    requires n < |events| && ListDatasets(start.tables, None, decoders).Ok?
    ensures After(start, events, n + 1, decoders) == Step(After(start, events, n, decoders), events[n], n, decoders)
  {
  }

  /** A refresh takes effect: a fetch that got the whole of central's listing, once installed, is the
      cache, whatever central did in between; one that failed or was cut short changes nothing. */
  lemma RefreshTakesEffect(
    start: CatalogRuns.State, events: seq<Event>, i: nat, j: nat, decoders: Decoders
  )
    requires i < j < |events| && ListDatasets(start.tables, None, decoders).Ok? && decoders.Lawful()
    requires events[i].Fetch? && events[j].Install? && forall k :: i < k < j ==> events[k].Central?
    ensures var s, s' := After(start, events, i, decoders), After(start, events, j + 1, decoders);
            var listing := ListDatasets(s.central.tables, None, decoders);
            if listing.Ok? && events[i].received >= |listing.value|
            then s'.cache == GroupByNamespace(listing.value) && s'.cachedAt == i
            else s'.cache == s.cache && s'.cachedAt == s.cachedAt
  {
    hide After, FetchResult, GroupByNamespace, ListDatasets, CatalogRuns.Step;
    var s := After(start, events, i, decoders);
    NextState(start, events, i, decoders);
    OnlyCentral(start, events, i + 1, j, decoders);
    NextState(start, events, j, decoders);
    FetchSucceedsIff(s.central.tables, events[i].received, decoders);
  }

  /** Central's own statements, in order. */
  function CentralOps(events: seq<Event>): seq<CatalogRuns.Op> {
    if events == [] then []
    else
      var last := events[|events| - 1];
      CentralOps(events[..|events| - 1]) + if last.Central? then [last.op] else []
  }

  function RunFrom(start: CatalogRuns.State, ops: seq<CatalogRuns.Op>): CatalogRuns.State {
    if ops == [] then start else CatalogRuns.Step(RunFrom(start, ops[..|ops| - 1]), ops[|ops| - 1])
  }

  /** Central runs as if nobody fetched from it. */
  lemma {:induction false} CentralRunsAlone(start: CatalogRuns.State, events: seq<Event>, n: nat, decoders: Decoders)
    requires n <= |events| && ListDatasets(start.tables, None, decoders).Ok?
    ensures After(start, events, n, decoders).central == RunFrom(start, CentralOps(events[..n]))
  {
    if n > 0 {
      hide GroupByNamespace, ListDatasets, CatalogRuns.Step, FetchResult;
      CentralRunsAlone(start, events, n - 1, decoders);
      var ops := CentralOps(events[..n - 1]);
      assert events[..n][..n - 1] == events[..n - 1];
      if events[n - 1].Central? {
        assert (ops + [events[n - 1].op])[..|ops|] == ops;
      } else {
        assert ops + [] == ops;
      }
    }
  }

  /** In every run, with refreshes failing anywhere, the cache is the grouping of one whole past
      listing, never a mixture, and never goes back to an older one. */
  lemma {:induction false} CacheIsOnePastListing(
    start: CatalogRuns.State, events: seq<Event>, n: nat, decoders: Decoders
  )
    requires n <= |events| && ListDatasets(start.tables, None, decoders).Ok? && decoders.Lawful()
    ensures CacheInvariant(start, events, n, After(start, events, n, decoders), decoders)
    ensures n > 0 ==> After(start, events, n - 1, decoders).cachedAt <= After(start, events, n, decoders).cachedAt
  {
    if n > 0 {
      hide GroupByNamespace, ListDatasets, Step, IsListingAt;
      CacheIsOnePastListing(start, events, n - 1, decoders);
      CacheStep(start, events, n - 1, decoders);
    }
  }
}

/** Table lookup in a session, and its agreement with central and with the plan rewrite. */
module SchemaProvider {
  import opened Wrappers
  import opened Sequences
  import opened IamTypes
  import opened IamEngine
  import opened PlanRewrite
  import opened CatalogTypes
  import opened CatalogStore
  import opened CatalogReads
  import opened SessionCache
  import CacheRuns
  import CatalogRuns

  datatype LookupError = Unreachable | CentralFailed | BadReply

  /** What the fallback call returns: a dataset, not found, or an error status. */
  type Reply = Result<Option<DatasetProto>, LookupError>

  function CentralReply(t: Tables, key: DatasetKey, decoders: Decoders): Reply {
    match GetDataset(t, key, decoders)
    case Err(_) => Err(CentralFailed)
    case Ok(None) => Ok(None)
    case Ok(Some(d)) => Ok(Some(DatasetToProto(d)))
  }

  function ByName(list: seq<DatasetInfo>): map<string, DatasetInfo> {
    if list == [] then map[]
    else ByName(list[..|list| - 1])[list[|list| - 1].name := list[|list| - 1]]
  }

  /** The result of a lookup and the provider's map after it. */
  function Lookup(
    datasets: map<string, DatasetInfo>, name: string, visible: bool, reply: Reply, decoders: Decoders
  ): (Result<Option<DatasetInfo>, LookupError>, map<string, DatasetInfo>)
  {
    if !visible then (Ok(None), datasets)
    else if name in datasets then (Ok(Some(datasets[name])), datasets)
    else
      match reply
      case Err(e) => (Err(e), datasets)
      case Ok(None) => (Ok(None), datasets)
      case Ok(Some(proto)) =>
        match ProtoToDataset(proto, decoders)
        case None => (Err(BadReply), datasets)
        case Some(d) => (Ok(Some(d)), datasets[name := d])
  }

  lemma {:induction false} LastOfNameWins(list: seq<DatasetInfo>, i: nat)
    requires i < |list| && forall j :: i < j < |list| ==> list[j].name != list[i].name
    ensures list[i].name in ByName(list) && ByName(list)[list[i].name] == list[i]
  {
    if i < |list| - 1 {
      LastOfNameWins(list[..|list| - 1], i);
    }
  }

  lemma {:induction false} OnlyListedNames(list: seq<DatasetInfo>, name: string) returns (i: nat)
    requires name in ByName(list)
    ensures i < |list| && list[i].name == name
  {
    if list[|list| - 1].name == name {
      i := |list| - 1;
    } else {
      i := OnlyListedNames(list[..|list| - 1], name);
    }
  }

  class Provider {
    const namespace: string
    const subject: Subject
    const engine: SnapshotIamEngine
    var datasets: map<string, DatasetInfo>

    constructor (namespace: string, list: seq<DatasetInfo>, engine: SnapshotIamEngine, subject: Subject)
      ensures this.namespace == namespace && this.engine == engine && this.subject == subject
      ensures datasets == ByName(list)
      ensures forall i :: 0 <= i < |list| && (forall j :: i < j < |list| ==> list[j].name != list[i].name) ==>
                list[i].name in datasets && datasets[list[i].name] == list[i]
      ensures forall name :: name in datasets ==> exists i :: 0 <= i < |list| && list[i].name == name
    {
      var byName: map<string, DatasetInfo> := map[];
      for i := 0 to |list|
        invariant byName == ByName(list[..i])
      {
        assert list[..i + 1][..i] == list[..i];
        byName := byName[list[i].name := list[i]];
      }
      assert list[..|list|] == list;
      forall i | 0 <= i < |list| && (forall j :: i < j < |list| ==> list[j].name != list[i].name)
        ensures list[i].name in byName && byName[list[i].name] == list[i]
      {
        LastOfNameWins(list, i);
      }
      forall name | name in byName
        ensures exists i :: 0 <= i < |list| && list[i].name == name
      {
        var i := OnlyListedNames(list, name);
      }
      this.namespace, this.engine, this.subject, this.datasets := namespace, engine, subject, byName;
    }

    predicate Visible(name: string)
      reads this, engine
    {
      IsVisible(engine.policies, subject, ResourceId(namespace, name), engine.readMask)
    }

    /** The reply is what the fallback call would return; it is consulted only on a miss. */
    method Table(name: string, reply: Reply, decoders: Decoders) returns (r: Result<Option<DatasetInfo>, LookupError>)
      modifies this
      ensures (r, datasets) == Lookup(old(datasets), name, old(Visible(name)), reply, decoders)
      ensures !old(Visible(name)) ==> r == Ok(None) && datasets == old(datasets)
      ensures old(Visible(name)) && name in old(datasets) ==>
                r == Ok(Some(old(datasets)[name])) && datasets == old(datasets)
      ensures old(Visible(name)) && name !in old(datasets) ==>
                && (reply.Err? ==> r == Err(reply.error) && datasets == old(datasets))
                && (reply == Ok(None) ==> r == Ok(None) && datasets == old(datasets))
      ensures old(Visible(name)) && name !in old(datasets) && reply.Ok? && reply.value.Some? ==>
                var proto := reply.value.value;
                if decoders.uuid(proto.datasetId).None? || proto.sourceType !in {"parquet", "csv", "postgres", "delta"}
                then r == Err(BadReply) && datasets == old(datasets)
                else
                  && r.Ok? && r.value.Some? && datasets == old(datasets)[name := r.value.value]
                  && var d := r.value.value;
                     && decoders.uuid(proto.datasetId) == Some(d.id) && d.name == proto.name
                     && d.namespace == proto.namespace && d.coordinatorId == proto.coordinatorId
                     && d.executorEndpoint == proto.executorEndpoint && d.schemaIpc == proto.arrowSchemaIpc
                     && d.metadata == (if decoders.json(proto.metadataJson).Some?
                                       then decoders.json(proto.metadataJson).value else "null")
                     && proto.sourceType == (match d.sourceType
                                             case Parquet => "parquet" case Csv => "csv"
                                             case Postgres => "postgres" case Delta => "delta")
    {
      var decision := engine.Check(Request(subject, ResourceId(namespace, name), "SELECT"));
      if decision.Deny? {
        return Ok(None);
      }
      if name in datasets {
        return Ok(Some(datasets[name]));
      }
      match reply {
        case Err(e) => r := Err(e);
        case Ok(None) => r := Ok(None);
        case Ok(Some(proto)) =>
          match ProtoToDataset(proto, decoders) {
            case None => r := Err(BadReply);
            case Some(d) =>
              datasets := datasets[name := d];
              r := Ok(Some(d));
          }
      }
    }

    method TableNames() returns (names: set<string>)
      ensures forall name :: name in names <==> name in datasets && Visible(name)
    {
      names := {};
      var remaining := datasets.Keys;
      while remaining != {}
        invariant remaining <= datasets.Keys
        invariant forall name :: name in names <==> name in datasets && name !in remaining && Visible(name)
        decreases |remaining|
      {
        var name :| name in remaining;
        var decision := engine.Check(Request(subject, ResourceId(namespace, name), "SELECT"));
        if decision.Allow? {
          names := names + {name};
        }
        remaining := remaining - {name};
      }
    }
  }

  // ----- Agreement with central -----

  /** Every entry is what central would return for it. */
  ghost predicate Mirrors(datasets: map<string, DatasetInfo>, namespace: string, t: Tables, decoders: Decoders) {
    forall name :: name in datasets ==>
      GetDataset(t, DatasetKey(namespace, name), decoders) == Ok(Some(datasets[name]))
  }

  lemma {:induction false} ByNameHolds(list: seq<DatasetInfo>, name: string)
    ensures name in ByName(list) ==> ByName(list)[name] in list && ByName(list)[name].name == name
    ensures (exists d :: d in list && d.name == name) ==> name in ByName(list)
  {
    if list != [] {
      ByNameHolds(list[..|list| - 1], name);
      assert list == list[..|list| - 1] + [list[|list| - 1]];
    }
  }

  /** A provider built from a current listing mirrors central, entry by entry. */
  lemma FreshProviderMirrors(t: Tables, namespace: string, decoders: Decoders)
    requires Consistent(t) && ListDatasets(t, None, decoders).Ok?
    requires namespace in GroupByNamespace(ListDatasets(t, None, decoders).value)
    ensures Mirrors(ByName(GroupByNamespace(ListDatasets(t, None, decoders).value)[namespace]), namespace, t, decoders)
  {
    var list := ListDatasets(t, None, decoders).value;
    var own := GroupByNamespace(list)[namespace];
    forall name | name in ByName(own)
      ensures GetDataset(t, DatasetKey(namespace, name), decoders) == Ok(Some(ByName(own)[name]))
    {
      ByNameHolds(own, name);
      var d := ByName(own)[name];
      assert d in list && InNamespace(namespace)(d);
      GetAgreesWithList(t, DatasetKey(namespace, name), decoders, d);
    }
  }

  /** While central does not change, every visible lookup gives central's own answer, cached or not,
      and keeps the provider a mirror. */
  lemma LookupEqualsDirect(
    datasets: map<string, DatasetInfo>, namespace: string, name: string, t: Tables, decoders: Decoders
  )
    requires decoders.Lawful() && Mirrors(datasets, namespace, t, decoders)
    requires GetDataset(t, DatasetKey(namespace, name), decoders).Ok?
    ensures var key := DatasetKey(namespace, name);
            var (r, datasets') := Lookup(datasets, name, true, CentralReply(t, key, decoders), decoders);
            r == Ok(GetDataset(t, key, decoders).value) && Mirrors(datasets', namespace, t, decoders)
  {
    var key := DatasetKey(namespace, name);
    var found := GetDataset(t, key, decoders).value;
    if name !in datasets && found.Some? {
      var rows := Filter(Fetches(t, key), t.datasets);
      WireRoundTrip(rows[0], decoders);
    }
  }

  /** When central cannot answer, because the row does not decode, a visible lookup of an uncached name
      fails and caches nothing; when central has no such dataset, it is unknown. */
  lemma LookupWithoutAnswer(
    datasets: map<string, DatasetInfo>, namespace: string, name: string, t: Tables, decoders: Decoders
  )
    requires name !in datasets
    ensures var key := DatasetKey(namespace, name);
            var (r, datasets') := Lookup(datasets, name, true, CentralReply(t, key, decoders), decoders);
            && (GetDataset(t, key, decoders).Err? ==> r == Err(CentralFailed) && datasets' == datasets)
            && (GetDataset(t, key, decoders) == Ok(None) ==> r == Ok(None) && datasets' == datasets)
  {
  }

  /** Cache refinement: in any run, if central has not changed since the cached listing was taken,
      a session opened on a cached namespace answers every visible first lookup as central would. */
  lemma CachedSessionAgrees(
    start: CatalogRuns.State, events: seq<CacheRuns.Event>, n: nat, namespace: string, name: string, decoders: Decoders
  )
    requires n <= |events| && decoders.Lawful()
    requires Consistent(start.tables) && ListDatasets(start.tables, None, decoders).Ok?
    requires var s := CacheRuns.After(start, events, n, decoders);
             && namespace in s.cache && s.cachedAt <= |events|
             && CacheRuns.After(start, events, s.cachedAt, decoders).central.tables == s.central.tables
    ensures var s := CacheRuns.After(start, events, n, decoders);
            var key := DatasetKey(namespace, name);
            var t := s.central.tables;
            && GetDataset(t, key, decoders).Ok?
            && Lookup(ByName(s.cache[namespace]), name, true, CentralReply(t, key, decoders), decoders).0
               == Ok(GetDataset(t, key, decoders).value)
  {
    CacheRuns.CacheIsOnePastListing(start, events, n, decoders);
    CacheRuns.CentralStaysConsistent(start, events, n, decoders);
    var s := CacheRuns.After(start, events, n, decoders);
    var t := s.central.tables;
    FreshProviderMirrors(t, namespace, decoders);
    GetNoneIffUnlisted(t, DatasetKey(namespace, name), decoders);
    ListSucceedsIff(t, None, decoders);
    GetIsOk(t, DatasetKey(namespace, name), decoders);
    LookupEqualsDirect(ByName(s.cache[namespace]), namespace, name, t, decoders);
  }

  lemma GetIsOk(t: Tables, key: DatasetKey, decoders: Decoders)
    requires forall row :: row in t.datasets && Selects(t, None)(row) ==> Decodes(row, decoders)
    ensures GetDataset(t, key, decoders).Ok?
  {
    var rows := Filter(Fetches(t, key), t.datasets);
    if rows != [] {
      assert rows[0] in rows && Selects(t, None)(rows[0]);
    }
  }

  // ----- The two enforcement layers -----

  /** Every entry is filed under its own name, in its own namespace. */
  ghost predicate WellFiled(datasets: map<string, DatasetInfo>, namespace: string) {
    forall name :: name in datasets ==> datasets[name].Key() == DatasetKey(namespace, name)
  }

  lemma PreloadedWellFiled(list: seq<DatasetInfo>, namespace: string)
    requires namespace in GroupByNamespace(list)
    ensures WellFiled(ByName(GroupByNamespace(list)[namespace]), namespace)
  {
    forall name | name in ByName(GroupByNamespace(list)[namespace])
      ensures ByName(GroupByNamespace(list)[namespace])[name].Key() == DatasetKey(namespace, name)
    {
      ByNameHolds(GroupByNamespace(list)[namespace], name);
      assert InNamespace(namespace)(ByName(GroupByNamespace(list)[namespace])[name]);
    }
  }

  /** Whatever state central is in, a lookup keeps entries well filed, and the table it hands out is
      the one whose visibility was checked. */
  lemma LookupWellFiled(
    datasets: map<string, DatasetInfo>, namespace: string, name: string, visible: bool, t: Tables, decoders: Decoders
  )
    requires WellFiled(datasets, namespace)
    ensures var reply := CentralReply(t, DatasetKey(namespace, name), decoders);
            var (r, datasets') := Lookup(datasets, name, visible, reply, decoders);
            && WellFiled(datasets', namespace)
            && (r.Ok? && r.value.Some? ==> visible && r.value.value.Key() == DatasetKey(namespace, name))
  {
    var key := DatasetKey(namespace, name);
    var rows := Filter(Fetches(t, key), t.datasets);
    if rows != [] {
      assert rows[0] in rows;
    }
  }

  /** The resource a scan of this table is checked against by the plan rewrite. */
  function ResourceOf(d: DatasetInfo): ResourceId { ResourceId(d.namespace, d.name) }

  /** The user got this dataset from a table lookup under these policies. */
  ghost predicate Resolved(
    d: DatasetInfo, policies: seq<Policy>, subject: Subject, readMask: MaskReader, decoders: Decoders
  ) {
    exists datasets: map<string, DatasetInfo>, namespace: string, name: string, t: Tables ::
      && WellFiled(datasets, namespace)
      && Lookup(datasets, name, IsVisible(policies, subject, ResourceId(namespace, name), readMask),
                CentralReply(t, DatasetKey(namespace, name), decoders), decoders).0 == Ok(Some(d))
  }

  /** Whether the rewrite keeps a scan is whether the catalog shows its dataset. */
  lemma SameQuestion(policies: seq<Policy>, subject: Subject, readMask: MaskReader, resource: ResourceId)
    ensures AccessOf(policies, subject, readMask)(resource).Allow? <==>
            IsVisible(policies, subject, resource, readMask)
    ensures AccessOf(policies, subject, readMask)(resource).Allow? <==>
            && (exists p :: p in policies && p.Matches(Request(subject, resource, "SELECT")) && p.effect == EffectAllow)
            && !exists p :: p in policies && p.Matches(Request(subject, resource, "SELECT")) && p.effect == EffectDeny
  {
    VisibleIff(policies, subject, resource, readMask);
  }

  /** The catalog filter and the plan rewrite ask the same question: under one policy snapshot, the
      rewrite leaves every plan over resolved tables exactly as it was. */
  lemma LayersAgree<Op, Schema, E>(
    plan: Plan<Op, Schema>, policies: seq<Policy>, subject: Subject, readMask: MaskReader,
    rebuild: Rebuild<Op, Schema, E>, decoders: Decoders
  )
    requires WellBuilt(plan, rebuild)
    requires forall r :: r in Scans(plan) ==>
               exists d :: ResourceOf(d) == r && Resolved(d, policies, subject, readMask, decoders)
    ensures ApplyIam(plan, AccessOf(policies, subject, readMask), rebuild) == Ok(plan)
  {
    var access := AccessOf(policies, subject, readMask);
    forall r | r in Scans(plan)
      ensures access(r).Allow?
    {
      var d :| ResourceOf(d) == r && Resolved(d, policies, subject, readMask, decoders);
      var datasets: map<string, DatasetInfo>, namespace: string, name: string, t: Tables :|
        && WellFiled(datasets, namespace)
        && Lookup(datasets, name, IsVisible(policies, subject, ResourceId(namespace, name), readMask),
                  CentralReply(t, DatasetKey(namespace, name), decoders), decoders).0 == Ok(Some(d));
      var visible := IsVisible(policies, subject, ResourceId(namespace, name), readMask);
      LookupWellFiled(datasets, namespace, name, visible, t, decoders);
    }
    IdentityIffAllReadable(plan, access, rebuild);
  }
}
