/** The two ways of reading the catalog agree (crates/elan-central/src/db/catalog_store.rs:126-225). */
module CatalogReads {
  import opened Wrappers
  import opened Sequences
  import opened Sorting
  import opened CatalogTypes
  import opened CatalogStore

  // ----- The collation is a total order -----

  lemma {:induction false} TextTotal(a: string, b: string)
    ensures TextLe(a, b) || TextLe(b, a)
    ensures TextLe(a, b) && TextLe(b, a) ==> a == b
  {
    if a != "" && b != "" {
      TextTotal(a[1..], b[1..]);
      assert a == [a[0]] + a[1..] && b == [b[0]] + b[1..];
    }
  }

  lemma {:induction false} TextTransitive(a: string, b: string, c: string)
    requires TextLe(a, b) && TextLe(b, c)
    ensures TextLe(a, c)
  {
    if a != "" && a[0] == b[0] == c[0] {
      TextTransitive(a[1..], b[1..], c[1..]);
    }
  }

  lemma KeyOrder(a: DatasetKey, b: DatasetKey, c: DatasetKey)
    ensures KeyLe(a, b) || KeyLe(b, a)
    ensures KeyLe(a, b) && KeyLe(b, a) ==> a == b
    ensures KeyLe(a, b) && KeyLe(b, c) ==> KeyLe(a, c)
  {
    TextTotal(a.namespace, b.namespace);
    TextTotal(b.namespace, c.namespace);
    TextTotal(a.name, b.name);
    if KeyLe(a, b) && KeyLe(b, c) {
      if a.namespace == b.namespace == c.namespace {
        TextTransitive(a.name, b.name, c.name);
      } else if a.namespace != b.namespace && b.namespace != c.namespace {
        TextTransitive(a.namespace, b.namespace, c.namespace);
      }
    }
  }

  lemma RowOrder()
    ensures TotalPreorder(RowLe)
  {
    forall x: DatasetRow, y: DatasetRow
      ensures RowLe(x, y) || RowLe(y, x)
    {
      KeyOrder(x.Key(), y.Key(), y.Key());
    }
    forall x: DatasetRow, y: DatasetRow, z: DatasetRow | RowLe(x, y) && RowLe(y, z)
      ensures RowLe(x, z)
    {
      KeyOrder(x.Key(), y.Key(), z.Key());
    }
  }

  // ----- Sorting commutes with filtering -----

  lemma {:induction false} TiesOfFilter<T>(p: T -> bool, xs: seq<T>, c: T, le: (T, T) -> bool)
    ensures Ties(Filter(p, xs), c, le) == Filter(p, Ties(xs, c, le))
  {
    if xs != [] {
      TiesOfFilter(p, xs[1..], c, le);
      if p(xs[0]) {
        assert Filter(p, xs)[1..] == Filter(p, xs[1..]);
      }
      if le(xs[0], c) && le(c, xs[0]) {
        assert Ties(xs, c, le)[1..] == Ties(xs[1..], c, le);
      }
    }
  }

  lemma {:induction false} FilterKeepsSorted<T>(p: T -> bool, xs: seq<T>, le: (T, T) -> bool)
    requires Sorted(xs, le)
    ensures Sorted(Filter(p, xs), le)
  {
    if xs != [] {
      FilterKeepsSorted(p, xs[1..], le);
      forall j | 0 <= j < |Filter(p, xs[1..])|
        ensures le(xs[0], Filter(p, xs[1..])[j])
      {
        var x := Filter(p, xs[1..])[j];
        assert x in xs[1..];
      }
    }
  }

  lemma SortCommutesWithFilter<T(!new)>(p: T -> bool, xs: seq<T>, le: (T, T) -> bool)
    requires TotalPreorder(le)
    ensures Filter(p, StableSort(xs, le)) == StableSort(Filter(p, xs), le)
  {
    var sorted := StableSort(xs, le);
    StableSortCorrect(xs, le);
    StableSortCorrect(Filter(p, xs), le);
    FilterKeepsSorted(p, sorted, le);
    forall c
      ensures Ties(Filter(p, sorted), c, le) == Ties(StableSort(Filter(p, xs), le), c, le)
    {
      TiesOfFilter(p, sorted, c, le);
      TiesOfFilter(p, xs, c, le);
      assert Ties(sorted, c, le) == Ties(xs, c, le);
    }
    StableSortUnique(Filter(p, sorted), StableSort(Filter(p, xs), le), le);
  }

  // ----- Listing -----

  ghost predicate Decodes(row: DatasetRow, decoders: Decoders) {
    RowToDataset(row, decoders).Some?
  }

  lemma {:induction false} DecodeAllPointwise(rows: seq<DatasetRow>, decoders: Decoders)
    ensures DecodeAll(rows, decoders).Ok? <==> forall i :: 0 <= i < |rows| ==> Decodes(rows[i], decoders)
    ensures DecodeAll(rows, decoders).Ok? ==>
              && |DecodeAll(rows, decoders).value| == |rows|
              && forall i :: 0 <= i < |rows| ==>
                   RowToDataset(rows[i], decoders) == Some(DecodeAll(rows, decoders).value[i])
  {
    if rows != [] {
      DecodeAllPointwise(rows[1..], decoders);
      assert forall i :: 1 <= i < |rows| ==> rows[i] == rows[1..][i - 1];
    }
  }

  lemma ListedRowsAre(t: Tables, namespace: Option<string>)
    ensures Sorted(ListedRows(t, namespace), RowLe)
    ensures forall row :: row in ListedRows(t, namespace) <==> row in t.datasets && Selects(t, namespace)(row)
    ensures multiset(ListedRows(t, namespace)) == multiset(Filter(Selects(t, namespace), t.datasets))
  {
    RowOrder();
    var chosen := Filter(Selects(t, namespace), t.datasets);
    StableSortCorrect(chosen, RowLe);
    forall row: DatasetRow
      ensures row in ListedRows(t, namespace) <==> row in chosen
    {
      assert row in ListedRows(t, namespace) <==> row in multiset(ListedRows(t, namespace));
      assert row in chosen <==> row in multiset(chosen);
    }
  }

  /** One row that does not decode hides every dataset from the listing. */
  lemma ListSucceedsIff(t: Tables, namespace: Option<string>, decoders: Decoders)
    ensures ListDatasets(t, namespace, decoders).Ok? <==>
            forall row :: row in t.datasets && Selects(t, namespace)(row) ==> Decodes(row, decoders)
  {
    var rows := ListedRows(t, namespace);
    ListedRowsAre(t, namespace);
    DecodeAllPointwise(rows, decoders);
    assert forall i :: 0 <= i < |rows| ==> rows[i] in rows;
  }

  lemma FilterIgnoresSlot<T>(p: T -> bool, xs: seq<T>, ys: seq<T>, k: nat)
    requires k < |ys| && |xs| <= |ys| <= |xs| + 1 && (|ys| > |xs| ==> k == |xs|)
    requires forall i :: 0 <= i < |xs| && i != k ==> ys[i] == xs[i]
    requires !p(ys[k]) && (k < |xs| ==> !p(xs[k]))
    ensures Filter(p, ys) == Filter(p, xs)
  {
    FilterDrops(p, ys, k);
    hide Filter;
    if k < |xs| {
      FilterDrops(p, xs, k);
      assert xs[..k] == ys[..k] && xs[k + 1..] == ys[k + 1..];
    } else {
      assert xs == ys[..k] + ys[k + 1..];
    }
  }

  lemma {:induction false} FilterDrops<T>(p: T -> bool, xs: seq<T>, k: nat)
    requires k < |xs| && !p(xs[k])
    ensures Filter(p, xs) == Filter(p, xs[..k] + xs[k + 1..])
    decreases k
  {
    hide Filter;
    var tail := xs[1..];
    FilterCons(p, xs[0], tail);
    assert xs == [xs[0]] + tail;
    if k == 0 {
      assert xs[..k] + xs[k + 1..] == tail;
    } else {
      var shorter := tail[..k - 1] + tail[k..];
      FilterDrops(p, tail, k - 1);
      FilterCons(p, xs[0], shorter);
      assert xs[..k] + xs[k + 1..] == [xs[0]] + shorter;
    }
  }

  /** ... and nothing keeps such a row out: the source type is not checked on registration. One
      accepted registration with an unknown source type makes every listing fail, while each other
      dataset is still fetched as before. */
  lemma BadRegistrationHidesListing(t: Tables, reg: Registration, decoders: Decoders)
    requires Consistent(t) && UpsertDataset(t, reg).Ok? && ReadSourceType(reg.sourceType).None?
    requires reg.coordinatorId in t.coordinators && t.coordinators[reg.coordinatorId].isAlive
    ensures var t' := UpsertDataset(t, reg).value;
            && ListDatasets(t', None, decoders).Err?
            && forall key :: key != reg.Key() ==> GetDataset(t', key, decoders) == GetDataset(t, key, decoders)
  {
    var t' := UpsertDataset(t, reg).value;
    var k := UpsertEffect(t, reg);
    var row := t'.datasets[k];
    ListSucceedsIff(t', None, decoders);
    assert row.Key() == reg.Key() && (k < |t.datasets| ==> t.datasets[k].Key() == reg.Key()) by {
      OverwrittenKey(t, reg, k);
    }
    hide UpsertDataset, ListDatasets, Consistent, GetDataset;
    assert row in t'.datasets && Selects(t', None)(row) && !Decodes(row, decoders);
    forall key | key != reg.Key()
      ensures GetDataset(t', key, decoders) == GetDataset(t, key, decoders)
    {
      OtherKeyFetchedAsBefore(t, t', k, key, decoders);
    }
  }

  lemma OverwrittenKey(t: Tables, reg: Registration, k: nat)
    requires UpsertDataset(t, reg).Ok? && k < |UpsertDataset(t, reg).value.datasets|
    requires Reflects(UpsertDataset(t, reg).value.datasets[k], reg, LookupEndpoint(t, reg.coordinatorId))
    requires k < |t.datasets| ==> exists row :: row in t.datasets && row.Key() == reg.Key()
    ensures UpsertDataset(t, reg).value.datasets[k].Key() == reg.Key()
    ensures k < |t.datasets| ==> t.datasets[k].Key() == reg.Key()
  {
  }

  lemma OtherKeyFetchedAsBefore(t: Tables, t': Tables, k: nat, key: DatasetKey, decoders: Decoders)
    requires t'.coordinators == t.coordinators && k < |t'.datasets| && k <= |t.datasets|
    requires |t'.datasets| == if k < |t.datasets| then |t.datasets| else |t.datasets| + 1
    requires forall i :: 0 <= i < |t.datasets| && i != k ==> t'.datasets[i] == t.datasets[i]
    requires t'.datasets[k].Key() != key && (k < |t.datasets| ==> t.datasets[k].Key() != key)
    ensures GetDataset(t', key, decoders) == GetDataset(t, key, decoders)
  {
    FilterCongruence(Fetches(t', key), Fetches(t, key), t'.datasets);
    FilterIgnoresSlot(Fetches(t, key), t.datasets, t'.datasets, k);
  }

  /** A listing is strictly increasing by namespace and name. */
  lemma ListStrictlyIncreasing(t: Tables, namespace: Option<string>, decoders: Decoders)
    requires Consistent(t) && ListDatasets(t, namespace, decoders).Ok?
    ensures var list := ListDatasets(t, namespace, decoders).value;
            forall i, j :: 0 <= i < j < |list| ==> KeyLe(list[i].Key(), list[j].Key()) && list[i].Key() != list[j].Key()
  {
    var rows := ListedRows(t, namespace);
    ListedRowsAre(t, namespace);
    FilterKeepsDistinct(RowKey, Selects(t, namespace), t.datasets);
    SelectionKeepsDistinct(RowKey, Filter(Selects(t, namespace), t.datasets), rows);
    DecodeAllPointwise(rows, decoders);
    var list := ListDatasets(t, namespace, decoders).value;
    assert forall i :: 0 <= i < |rows| ==> list[i].Key() == rows[i].Key();
    forall i, j | 0 <= i < j < |list|
      ensures KeyLe(list[i].Key(), list[j].Key()) && list[i].Key() != list[j].Key()
    {
      assert RowLe(rows[i], rows[j]);
    }
  }

  lemma DecodedMembers(rows: seq<DatasetRow>, decoders: Decoders, d: DatasetInfo)
    requires DecodeAll(rows, decoders).Ok?
    ensures d in DecodeAll(rows, decoders).value <==>
            exists row :: row in rows && RowToDataset(row, decoders) == Some(d)
  {
    var list := DecodeAll(rows, decoders).value;
    DecodeAllPointwise(rows, decoders);
    if d in list {
      var i :| 0 <= i < |list| && list[i] == d;
      assert rows[i] in rows;
    }
    if row :| row in rows && RowToDataset(row, decoders) == Some(d) {
      var i :| 0 <= i < |rows| && rows[i] == row;
      assert list[i] == d;
    }
  }

  /** A listing holds exactly the live datasets, decoded. */
  lemma ListHoldsLiveDatasets(t: Tables, namespace: Option<string>, decoders: Decoders, d: DatasetInfo)
    requires ListDatasets(t, namespace, decoders).Ok?
    ensures d in ListDatasets(t, namespace, decoders).value <==>
            exists row :: row in t.datasets && Selects(t, namespace)(row) && RowToDataset(row, decoders) == Some(d)
  {
    ListedRowsAre(t, namespace);
    DecodedMembers(ListedRows(t, namespace), decoders, d);
  }

  /** Fetching one dataset finds exactly the entry that the listing holds under that key. */
  lemma GetAgreesWithList(t: Tables, key: DatasetKey, decoders: Decoders, d: DatasetInfo)
    requires Consistent(t) && ListDatasets(t, None, decoders).Ok?
    ensures GetDataset(t, key, decoders) == Ok(Some(d)) <==>
            d.Key() == key && d in ListDatasets(t, None, decoders).value
    ensures GetDataset(t, key, decoders).Ok?
  {
    ListHoldsLiveDatasets(t, None, decoders, d);
    ListSucceedsIff(t, None, decoders);
    var rows := Filter(Fetches(t, key), t.datasets);
    hide ListDatasets;
    if rows != [] {
      assert rows[0] in rows && Selects(t, None)(rows[0]);
    }
    if row :| row in t.datasets && Selects(t, None)(row) && RowToDataset(row, decoders) == Some(d) {
      if d.Key() == key {
        assert row.Key() == key;
        assert row in rows;
        OneRowPerKey(t, row, rows[0]);
      }
    }
  }

  lemma OneRowPerKey(t: Tables, row: DatasetRow, other: DatasetRow)
    requires Consistent(t) && row in t.datasets && other in t.datasets && row.Key() == other.Key()
    ensures row == other
  {
    var i :| 0 <= i < |t.datasets| && t.datasets[i] == row;
    var j :| 0 <= j < |t.datasets| && t.datasets[j] == other;
    assert i == j;
  }

  lemma GetNoneIffUnlisted(t: Tables, key: DatasetKey, decoders: Decoders)
    requires Consistent(t) && ListDatasets(t, None, decoders).Ok?
    ensures GetDataset(t, key, decoders) == Ok(None) <==>
            forall d :: d in ListDatasets(t, None, decoders).value ==> d.Key() != key
  {
    var list := ListDatasets(t, None, decoders).value;
    forall d: DatasetInfo
      ensures GetDataset(t, key, decoders) == Ok(Some(d)) <==> d.Key() == key && d in list
      ensures GetDataset(t, key, decoders).Ok?
    {
      GetAgreesWithList(t, key, decoders, d);
    }
    ListSucceedsIff(t, None, decoders);
    var rows := Filter(Fetches(t, key), t.datasets);
    if rows != [] {
      assert rows[0] in rows && Selects(t, None)(rows[0]);
      assert GetDataset(t, key, decoders) == Ok(Some(RowToDataset(rows[0], decoders).value));
    }
  }

  function InNamespace(namespace: string): DatasetInfo -> bool {
    (d: DatasetInfo) => d.namespace == namespace
  }

  lemma {:induction false} DecodeFiltered(rows: seq<DatasetRow>, namespace: string, decoders: Decoders)
    requires DecodeAll(rows, decoders).Ok?
    ensures DecodeAll(Filter((row: DatasetRow) => row.namespace == namespace, rows), decoders)
            == Ok(Filter(InNamespace(namespace), DecodeAll(rows, decoders).value))
  {
    if rows != [] {
      DecodeFiltered(rows[1..], namespace, decoders);
      var d := RowToDataset(rows[0], decoders).value;
      var rest := DecodeAll(rows[1..], decoders).value;
      assert ([d] + rest)[1..] == rest;
    }
  }

  /** Listing one namespace is filtering the full listing. */
  lemma NamespaceListIsFilter(t: Tables, namespace: string, decoders: Decoders)
    requires ListDatasets(t, None, decoders).Ok?
    ensures ListDatasets(t, Some(namespace), decoders)
            == Ok(Filter(InNamespace(namespace), ListDatasets(t, None, decoders).value))
  {
    var inNs := (row: DatasetRow) => row.namespace == namespace;
    RowOrder();
    SortCommutesWithFilter(inNs, Filter(Selects(t, None), t.datasets), RowLe);
    FilterFilter(inNs, Selects(t, None), Selects(t, Some(namespace)), t.datasets);
    assert ListedRows(t, Some(namespace)) == Filter(inNs, ListedRows(t, None));
    DecodeFiltered(ListedRows(t, None), namespace, decoders);
  }

  function NotFrom(coordinatorId: string): DatasetInfo -> bool {
    (d: DatasetInfo) => d.coordinatorId != coordinatorId
  }

  lemma {:induction false} DecodeWithout(rows: seq<DatasetRow>, coordinatorId: string, decoders: Decoders)
    requires DecodeAll(rows, decoders).Ok?
    ensures DecodeAll(Filter(RowNotFrom(coordinatorId), rows), decoders)
            == Ok(Filter(NotFrom(coordinatorId), DecodeAll(rows, decoders).value))
  {
    if rows != [] {
      DecodeWithout(rows[1..], coordinatorId, decoders);
      var d := RowToDataset(rows[0], decoders).value;
      var rest := DecodeAll(rows[1..], decoders).value;
      assert ([d] + rest)[1..] == rest;
    }
  }

  function RowNotFrom(coordinatorId: string): DatasetRow -> bool {
    (row: DatasetRow) => row.coordinatorId != coordinatorId
  }

  lemma SelectedAfterDeath(t: Tables, coordinatorId: string)
    ensures Filter(RowNotFrom(coordinatorId), Filter(Selects(t, None), t.datasets))
            == Filter(Selects(SetAlive(t, coordinatorId, false), None), t.datasets)
  {
    var after := SetAlive(t, coordinatorId, false);
    FilterFilter(RowNotFrom(coordinatorId), Selects(t, None), Selects(after, None), t.datasets);
  }

  lemma ListedAfterDeath(t: Tables, coordinatorId: string)
    ensures ListedRows(SetAlive(t, coordinatorId, false), None) ==
            Filter(RowNotFrom(coordinatorId), ListedRows(t, None))
  {
    RowOrder();
    SelectedAfterDeath(t, coordinatorId);
    SortCommutesWithFilter(RowNotFrom(coordinatorId), Filter(Selects(t, None), t.datasets), RowLe);
  }

  /** A coordinator's death takes exactly its datasets out of the listing, and its next heartbeat
      puts the catalog back as it was. */
  lemma DeathHidesExactlyItsDatasets(t: Tables, coordinatorId: string, decoders: Decoders)
    requires ListDatasets(t, None, decoders).Ok?
    ensures ListDatasets(SetAlive(t, coordinatorId, false), None, decoders)
            == Ok(Filter(NotFrom(coordinatorId), ListDatasets(t, None, decoders).value))
    ensures coordinatorId in t.coordinators && t.coordinators[coordinatorId].isAlive ==>
              SetAlive(SetAlive(t, coordinatorId, false), coordinatorId, true) == t
  {
    hide ListedRows, DecodeAll, Filter;
    ListedAfterDeath(t, coordinatorId);
    DecodeWithout(ListedRows(t, None), coordinatorId, decoders);
  }

  // ----- The wire -----

  /** What central decoded from a row survives the trip to elan-query unchanged. */
  lemma WireRoundTrip(row: DatasetRow, decoders: Decoders)
    requires decoders.Lawful() && Decodes(row, decoders)
    ensures ProtoToDataset(DatasetToProto(RowToDataset(row, decoders).value), decoders) == RowToDataset(row, decoders)
  {
  }

  // ----- Field by field -----

  /** The dataset a row stands for: every field from the column of that name, the id and the metadata
      as the libraries read them, absent metadata as JSON null. */
  lemma RowToDatasetIff(row: DatasetRow, decoders: Decoders, d: DatasetInfo)
    ensures RowToDataset(row, decoders) == Some(d) <==>
            && decoders.uuid(row.id) == Some(d.id) && row.name == d.name && row.namespace == d.namespace
            && row.coordinatorId == d.coordinatorId && row.executorEndpoint == d.executorEndpoint
            && row.schemaIpc == d.schemaIpc
            && row.sourceType == (match d.sourceType
                                  case Parquet => "parquet" case Csv => "csv"
                                  case Postgres => "postgres" case Delta => "delta")
            && (match row.metadataJson
                case None => d.metadata == "null"
                case Some(text) => decoders.json(text) == Some(d.metadata))
  {
  }

  /** What a listing holds, field by field: exactly the active rows of live coordinators, in the asked
      namespace. */
  lemma ListedFields(t: Tables, namespace: Option<string>, decoders: Decoders, d: DatasetInfo)
    requires ListDatasets(t, namespace, decoders).Ok?
    ensures d in ListDatasets(t, namespace, decoders).value <==>
            exists row :: row in t.datasets
              && row.isActive && row.coordinatorId in t.coordinators && t.coordinators[row.coordinatorId].isAlive
              && (namespace.None? || row.namespace == namespace.value)
              && decoders.uuid(row.id) == Some(d.id) && row.name == d.name && row.namespace == d.namespace
              && row.coordinatorId == d.coordinatorId && row.executorEndpoint == d.executorEndpoint
              && row.schemaIpc == d.schemaIpc
              && row.sourceType == (match d.sourceType
                                    case Parquet => "parquet" case Csv => "csv"
                                    case Postgres => "postgres" case Delta => "delta")
              && (match row.metadataJson
                  case None => d.metadata == "null"
                  case Some(text) => decoders.json(text) == Some(d.metadata))
  {
    ListHoldsLiveDatasets(t, namespace, decoders, d);
    forall row: DatasetRow
    {
      RowToDatasetIff(row, decoders, d);
    }
    hide ListDatasets, RowToDataset;
  }

  /** What a fetch yields, field by field: the one live row of the key, an error if it does not decode,
      and nothing if there is none. */
  lemma FetchedFields(t: Tables, key: DatasetKey, decoders: Decoders, d: DatasetInfo)
    requires Consistent(t)
    ensures GetDataset(t, key, decoders) == Ok(Some(d)) <==>
            exists row :: row in t.datasets && row.namespace == key.namespace && row.name == key.name
              && row.isActive && row.coordinatorId in t.coordinators && t.coordinators[row.coordinatorId].isAlive
              && decoders.uuid(row.id) == Some(d.id) && row.name == d.name && row.namespace == d.namespace
              && row.coordinatorId == d.coordinatorId && row.executorEndpoint == d.executorEndpoint
              && row.schemaIpc == d.schemaIpc
              && row.sourceType == (match d.sourceType
                                    case Parquet => "parquet" case Csv => "csv"
                                    case Postgres => "postgres" case Delta => "delta")
              && (match row.metadataJson
                  case None => d.metadata == "null"
                  case Some(text) => decoders.json(text) == Some(d.metadata))
  {
    FetchedRow(t, key, decoders, d);
    forall row: DatasetRow
    {
      RowToDatasetIff(row, decoders, d);
    }
    hide GetDataset, RowToDataset;
  }

  lemma FetchedRow(t: Tables, key: DatasetKey, decoders: Decoders, d: DatasetInfo)
    requires Consistent(t)
    ensures GetDataset(t, key, decoders) == Ok(Some(d)) <==>
            exists row :: row in t.datasets && Fetches(t, key)(row) && RowToDataset(row, decoders) == Some(d)
  {
    var rows := Filter(Fetches(t, key), t.datasets);
    if rows != [] {
      assert rows[0] in rows;
    }
    if row :| row in t.datasets && Fetches(t, key)(row) && RowToDataset(row, decoders) == Some(d) {
      assert row in rows;
      OneRowPerKey(t, row, rows[0]);
    }
  }

  lemma FetchedNothingIff(t: Tables, key: DatasetKey, decoders: Decoders)
    ensures GetDataset(t, key, decoders) == Ok(None) <==>
            forall row :: row in t.datasets && row.namespace == key.namespace && row.name == key.name ==>
              !(row.isActive && row.coordinatorId in t.coordinators && t.coordinators[row.coordinatorId].isAlive)
  {
    var rows := Filter(Fetches(t, key), t.datasets);
    assert forall row :: row in t.datasets && Fetches(t, key)(row) ==> row in rows;
    if rows != [] {
      assert rows[0] in rows;
    }
  }

  /** An accepted registration of a live coordinator is fetched back under its key with the fields it
      was registered with, the coordinator's endpoint, and the id the row had before, if it had one. */
  lemma RegisteredIsFetched(t: Tables, reg: Registration, id: string, sourceType: SourceType, decoders: Decoders)
    requires Consistent(t) && UpsertDataset(t, reg).Ok?
    requires reg.coordinatorId in t.coordinators && t.coordinators[reg.coordinatorId].isAlive
    requires id == reg.datasetId || exists row :: row in t.datasets && row.id == id && row.Key() == reg.Key()
    requires (exists row :: row in t.datasets && row.Key() == reg.Key()) ==>
               exists row :: row in t.datasets && row.id == id && row.Key() == reg.Key()
    requires decoders.uuid(id).Some? && reg.sourceType == SourceTypeText(sourceType)
    requires reg.metadataJson.Some? ==> decoders.json(reg.metadataJson.value).Some?
    ensures var fetched := GetDataset(UpsertDataset(t, reg).value, DatasetKey(reg.namespace, reg.name), decoders);
            && fetched.Ok? && fetched.value.Some?
            && var d := fetched.value.value;
               && d.id == decoders.uuid(id).value && d.name == reg.name && d.namespace == reg.namespace
               && d.sourceType == sourceType && d.coordinatorId == reg.coordinatorId
               && d.executorEndpoint == t.coordinators[reg.coordinatorId].executorEndpoint
               && d.schemaIpc == reg.schemaIpc
               && d.metadata == (if reg.metadataJson.None? then "null" else decoders.json(reg.metadataJson.value).value)
  {
    var t' := UpsertDataset(t, reg).value;
    var k := UpsertEffect(t, reg);
    var row := t'.datasets[k];
    OverwrittenKey(t, reg, k);
    WriteKeepsConsistent(t, reg, LookupEndpoint(t, reg.coordinatorId));
    hide UpsertDataset, GetDataset, RowToDataset, Consistent;
    assert row.id == id by {
      if k < |t.datasets| {
        var known :| known in t.datasets && known.id == id && known.Key() == reg.Key();
        assert t.datasets[k] in t.datasets;
        OneRowPerKey(t, known, t.datasets[k]);
      }
    }
    var d := RegisteredDecodes(row, reg, row.executorEndpoint, sourceType, decoders);
    assert row in t'.datasets && Fetches(t', reg.Key())(row);
    hide Reflects;
    FetchedRow(t', reg.Key(), decoders, d);
  }

  lemma RegisteredDecodes(
    row: DatasetRow, reg: Registration, endpoint: string, sourceType: SourceType, decoders: Decoders
  ) returns (d: DatasetInfo)
    requires Reflects(row, reg, endpoint) && decoders.uuid(row.id).Some? && reg.sourceType == SourceTypeText(sourceType)
    requires reg.metadataJson.Some? ==> decoders.json(reg.metadataJson.value).Some?
    ensures RowToDataset(row, decoders) == Some(d)
    ensures d.id == decoders.uuid(row.id).value && d.name == reg.name && d.namespace == reg.namespace
    ensures d.sourceType == sourceType && d.coordinatorId == reg.coordinatorId && d.executorEndpoint == endpoint
    ensures d.schemaIpc == reg.schemaIpc
    ensures d.metadata == if reg.metadataJson.None? then "null" else decoders.json(reg.metadataJson.value).value
  {
    d := RowToDataset(row, decoders).value;
  }

  // ----- The order of a listing -----

  /** The binary order spelled out: a proper prefix, or the smaller character at the first difference. */
  lemma {:induction false} FirstDifference(a: string, b: string) returns (k: nat)
    requires TextLe(a, b) && a != b
    ensures k <= |a| && k < |b| && a[..k] == b[..k]
    ensures k < |a| ==> a[k] < b[k]
  {
    if a == "" || a[0] < b[0] {
      k := 0;
    } else {
      assert a == [a[0]] + a[1..] && b == [b[0]] + b[1..];
      var k' := FirstDifference(a[1..], b[1..]);
      k := k' + 1;
      assert a[..k] == [a[0]] + a[1..][..k'] && b[..k] == [b[0]] + b[1..][..k'];
    }
  }

  /** Of two listed datasets the earlier has the smaller namespace, or the same and the smaller name. */
  lemma ListOrder(t: Tables, namespace: Option<string>, decoders: Decoders, i: nat, j: nat) returns (k: nat)
    requires Consistent(t) && ListDatasets(t, namespace, decoders).Ok?
    requires i < j < |ListDatasets(t, namespace, decoders).value|
    ensures var list := ListDatasets(t, namespace, decoders).value;
            var tied := list[i].namespace == list[j].namespace;
            var a := if tied then list[i].name else list[i].namespace;
            var b := if tied then list[j].name else list[j].namespace;
            k <= |a| && k < |b| && a[..k] == b[..k] && (k < |a| ==> a[k] < b[k])
  {
    ListStrictlyIncreasing(t, namespace, decoders);
    var list := ListDatasets(t, namespace, decoders).value;
    if list[i].namespace == list[j].namespace {
      k := FirstDifference(list[i].name, list[j].name);
    } else {
      k := FirstDifference(list[i].namespace, list[j].namespace);
    }
  }

  // ----- Unregistering -----

  function NotUnder(key: DatasetKey): DatasetInfo -> bool {
    (d: DatasetInfo) => d.Key() != key
  }

  function RowNotUnder(key: DatasetKey): DatasetRow -> bool {
    (row: DatasetRow) => row.Key() != key
  }

  lemma {:induction false} DecodeWithoutKey(rows: seq<DatasetRow>, key: DatasetKey, decoders: Decoders)
    requires DecodeAll(rows, decoders).Ok?
    ensures DecodeAll(Filter(RowNotUnder(key), rows), decoders)
            == Ok(Filter(NotUnder(key), DecodeAll(rows, decoders).value))
  {
    if rows != [] {
      DecodeWithoutKey(rows[1..], key, decoders);
      var d := RowToDataset(rows[0], decoders).value;
      var rest := DecodeAll(rows[1..], decoders).value;
      assert ([d] + rest)[1..] == rest;
    }
  }

  lemma UnregisteredRow(t: Tables, gone: DatasetRow, i: nat)
    requires Consistent(t) && gone in t.datasets && i < |t.datasets|
    ensures var row, row' := t.datasets[i], Deactivate(t, gone.id).datasets[i];
            && (Selects(t, None)(row') <==> Selects(t, None)(row) && RowNotUnder(gone.Key())(row))
            && (Selects(t, None)(row') ==> row' == row)
  {
    SameIdSameKey(t, t.datasets[i], gone);
  }

  /** Replacing exactly the elements that fail q by ones that fail p is filtering by q as well. */
  lemma {:induction false} FilterReplaced<T>(p: T -> bool, q: T -> bool, xs: seq<T>, ys: seq<T>)
    requires |xs| == |ys|
    requires forall i :: 0 <= i < |xs| ==> (p(ys[i]) <==> p(xs[i]) && q(xs[i])) && (p(ys[i]) ==> ys[i] == xs[i])
    ensures Filter(p, ys) == Filter(q, Filter(p, xs))
  {
    if xs != [] {
      FilterReplaced(p, q, xs[1..], ys[1..]);
      hide Filter;
      FilterCons(p, xs[0], xs[1..]);
      FilterCons(p, ys[0], ys[1..]);
      FilterCons(q, xs[0], Filter(p, xs[1..]));
      assert xs == [xs[0]] + xs[1..] && ys == [ys[0]] + ys[1..];
    }
  }

  lemma SelectedAfterUnregistering(t: Tables, gone: DatasetRow)
    requires Consistent(t) && gone in t.datasets
    ensures Filter(Selects(t, None), Deactivate(t, gone.id).datasets)
            == Filter(RowNotUnder(gone.Key()), Filter(Selects(t, None), t.datasets))
  {
    var after := Deactivate(t, gone.id).datasets;
    forall i | 0 <= i < |t.datasets|
      ensures Selects(t, None)(after[i]) <==> Selects(t, None)(t.datasets[i]) && RowNotUnder(gone.Key())(t.datasets[i])
      ensures Selects(t, None)(after[i]) ==> after[i] == t.datasets[i]
    {
      UnregisteredRow(t, gone, i);
    }
    FilterReplaced(Selects(t, None), RowNotUnder(gone.Key()), t.datasets, after);
  }

  lemma SameIdSameKey(t: Tables, row: DatasetRow, other: DatasetRow)
    requires Consistent(t) && row in t.datasets && other in t.datasets
    ensures row.id == other.id <==> row.Key() == other.Key()
  {
    var i :| 0 <= i < |t.datasets| && t.datasets[i] == row;
    var j :| 0 <= j < |t.datasets| && t.datasets[j] == other;
    assert i < j ==> RowId(t.datasets[i]) != RowId(t.datasets[j]);
    assert j < i ==> RowId(t.datasets[j]) != RowId(t.datasets[i]);
  }

  /** Unregistering a dataset takes exactly it out of the listing, makes its key unknown, and leaves
      what every other key yields as it was; an unknown id changes nothing. */
  lemma UnregisteringHidesExactlyIt(t: Tables, id: string, gone: DatasetRow, decoders: Decoders)
    requires Consistent(t) && gone in t.datasets && gone.id == id
    ensures var after := Deactivate(t, id);
            && (ListDatasets(t, None, decoders).Ok? ==>
                 ListDatasets(after, None, decoders)
                 == Ok(Filter(NotUnder(gone.Key()), ListDatasets(t, None, decoders).value)))
            && GetDataset(after, gone.Key(), decoders) == Ok(None)
            && forall key :: key != gone.Key() ==> GetDataset(after, key, decoders) == GetDataset(t, key, decoders)
  {
    var after := Deactivate(t, id);
    SelectedAfterUnregistering(t, gone);
    ListedAfterUnregistering(t, gone);
    if ListDatasets(t, None, decoders).Ok? {
      DecodeWithoutKey(ListedRows(t, None), gone.Key(), decoders);
    }
    FetchedAfterUnregistering(t, gone, decoders);
  }

  lemma ListedAfterUnregistering(t: Tables, gone: DatasetRow)
    requires var after := Deactivate(t, gone.id);
             Filter(Selects(t, None), after.datasets)
             == Filter(RowNotUnder(gone.Key()), Filter(Selects(t, None), t.datasets))
    ensures ListedRows(Deactivate(t, gone.id), None) == Filter(RowNotUnder(gone.Key()), ListedRows(t, None))
  {
    var after := Deactivate(t, gone.id);
    RowOrder();
    FilterCongruence(Selects(after, None), Selects(t, None), after.datasets);
    SortCommutesWithFilter(RowNotUnder(gone.Key()), Filter(Selects(t, None), t.datasets), RowLe);
  }

  lemma FetchedAfterUnregistering(t: Tables, gone: DatasetRow, decoders: Decoders)
    requires Consistent(t) && gone in t.datasets
    ensures GetDataset(Deactivate(t, gone.id), gone.Key(), decoders) == Ok(None)
    ensures forall key :: key != gone.Key() ==>
              GetDataset(Deactivate(t, gone.id), key, decoders) == GetDataset(t, key, decoders)
  {
    var after := Deactivate(t, gone.id);
    var k :| 0 <= k < |t.datasets| && t.datasets[k] == gone;
    forall i | 0 <= i < |t.datasets|
      ensures after.datasets[i] == if i == k then gone.(isActive := false) else t.datasets[i]
    {
      assert i < k ==> RowId(t.datasets[i]) != RowId(t.datasets[k]);
      assert k < i ==> RowId(t.datasets[k]) != RowId(t.datasets[i]);
    }
    forall row | row in after.datasets
      ensures !Fetches(after, gone.Key())(row)
    {
      var i :| 0 <= i < |after.datasets| && after.datasets[i] == row;
      assert i < k ==> RowKey(t.datasets[i]) != RowKey(t.datasets[k]);
      assert k < i ==> RowKey(t.datasets[k]) != RowKey(t.datasets[i]);
    }
    FilterNone(Fetches(after, gone.Key()), after.datasets);
    forall key | key != gone.Key()
      ensures GetDataset(after, key, decoders) == GetDataset(t, key, decoders)
    {
      OtherKeyFetchedAsBefore(t, after, k, key, decoders);
    }
  }

  lemma UnknownIdChangesNothing(t: Tables, id: string)
    requires forall row :: row in t.datasets ==> row.id != id
    ensures Deactivate(t, id) == t
  {
    assert Deactivate(t, id).datasets == t.datasets;
  }
}
