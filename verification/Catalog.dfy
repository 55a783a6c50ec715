/** Dataset records as stored, listed and sent over the wire
    (crates/elan-common/src/types/catalog.rs, crates/elan-central/src/grpc/catalog_svc.rs). */
module CatalogTypes {
  import opened Wrappers

  datatype SourceType = Parquet | Csv | Postgres | Delta

  function SourceTypeText(t: SourceType): string {
    match t
    case Parquet => "parquet"
    case Csv => "csv"
    case Postgres => "postgres"
    case Delta => "delta"
  }

  function ReadSourceType(s: string): Option<SourceType> {
    if s == "parquet" then Some(Parquet)
    else if s == "csv" then Some(Csv)
    else if s == "postgres" then Some(Postgres)
    else if s == "delta" then Some(Delta)
    else None
  }

  type Bytes = seq<bv8>

  datatype DatasetKey = DatasetKey(namespace: string, name: string)

  /** Ids and metadata are held in canonical text form. */
  datatype DatasetInfo = DatasetInfo(
    id: string, name: string, namespace: string, sourceType: SourceType, coordinatorId: string,
    executorEndpoint: string, schemaIpc: Bytes, metadata: string
  ) {
    function Key(): DatasetKey { DatasetKey(namespace, name) }
  }

  /** The UUID and JSON libraries: text to canonical text, or an error. */
  datatype Decoders = Decoders(uuid: string -> Option<string>, json: string -> Option<string>) {
    /** Canonical forms read back as themselves. */
    ghost predicate Lawful() {
      && (forall s :: uuid(s).Some? ==> uuid(uuid(s).value) == uuid(s))
      && (forall s :: json(s).Some? ==> json(json(s).value) == json(s))
      && json("null") == Some("null")
    }
  }

  datatype DatasetProto = DatasetProto(
    datasetId: string, name: string, namespace: string, sourceType: string, coordinatorId: string,
    executorEndpoint: string, arrowSchemaIpc: Bytes, metadataJson: string
  )

  function DatasetToProto(d: DatasetInfo): DatasetProto {
    DatasetProto(d.id, d.name, d.namespace, SourceTypeText(d.sourceType), d.coordinatorId,
                 d.executorEndpoint, d.schemaIpc, d.metadata)
  }

  function ProtoToDataset(p: DatasetProto, decoders: Decoders): Option<DatasetInfo> {
    match (decoders.uuid(p.datasetId), ReadSourceType(p.sourceType))
    case (Some(id), Some(sourceType)) =>
      Some(DatasetInfo(id, p.name, p.namespace, sourceType, p.coordinatorId, p.executorEndpoint,
                       p.arrowSchemaIpc, decoders.json(p.metadataJson).GetOr("null")))
    case _ => None
  }
}

/** The catalog store: coordinators and datasets as two keyed tables
    (crates/elan-central/src/db/catalog_store.rs, migrations/0001 and 0002). */
module CatalogStore {
  import opened Wrappers
  import opened Sequences
  import opened Sorting
  import opened CatalogTypes

  datatype Coordinator = Coordinator(environment: string, hostname: string, executorEndpoint: string, isAlive: bool)

  datatype DatasetRow = DatasetRow(
    id: string, name: string, namespace: string, sourceType: string, coordinatorId: string,
    executorEndpoint: string, schemaIpc: Bytes, metadataJson: Option<string>, isActive: bool
  ) {
    function Key(): DatasetKey { DatasetKey(namespace, name) }
  }

  function RowId(row: DatasetRow): string { row.id }

  function RowKey(row: DatasetRow): DatasetKey { row.Key() }

  /** The datasets table in insertion order. */
  datatype Tables = Tables(coordinators: map<string, Coordinator>, datasets: seq<DatasetRow>)

  datatype Registration = Registration(
    coordinatorId: string, datasetId: string, name: string, namespace: string, sourceType: string,
    schemaIpc: Bytes, metadataJson: Option<string>
  ) {
    function Key(): DatasetKey { DatasetKey(namespace, name) }
  }

  datatype StoreError = UnknownCoordinator | DuplicateId | MalformedRow

  const EMPTY := Tables(map[], [])

  // ----- Writes -----

  function UpsertCoordinator(t: Tables, id: string, environment: string, hostname: string, endpoint: string): Tables {
    t.(coordinators := t.coordinators[id := Coordinator(environment, hostname, endpoint, true)])
  }

  function SetAlive(t: Tables, id: string, alive: bool): Tables {
    if id in t.coordinators then
      t.(coordinators := t.coordinators[id := t.coordinators[id].(isAlive := alive)])
    else t
  }

  /** The first of the two statements of an upsert: an unknown coordinator reads as the empty text. */
  function LookupEndpoint(t: Tables, coordinatorId: string): string {
    if coordinatorId in t.coordinators then t.coordinators[coordinatorId].executorEndpoint else ""
  }

  function FindKey(rows: seq<DatasetRow>, key: DatasetKey): (r: Option<nat>)
    ensures r.Some? ==> r.value < |rows| && rows[r.value].Key() == key
    ensures r.None? ==> forall i :: 0 <= i < |rows| ==> rows[i].Key() != key
  {
    if rows == [] then None
    else if rows[0].Key() == key then Some(0)
    else
      match FindKey(rows[1..], key)
      case None => None
      case Some(i) => Some(i + 1)
  }

  predicate HasId(rows: seq<DatasetRow>, id: string) {
    exists i :: 0 <= i < |rows| && rows[i].id == id
  }

  function NewRow(reg: Registration, endpoint: string): DatasetRow {
    DatasetRow(reg.datasetId, reg.name, reg.namespace, reg.sourceType, reg.coordinatorId, endpoint,
               reg.schemaIpc, reg.metadataJson, true)
  }

  /** On a conflict the id and the key stay; everything else comes from the new registration. */
  function UpdatedRow(old_: DatasetRow, reg: Registration, endpoint: string): DatasetRow {
    NewRow(reg, endpoint).(id := old_.id)
  }

  /** The second statement: insert, or update on a (namespace, name) conflict, under the tables'
      primary key and foreign key. */
  function WriteDataset(t: Tables, reg: Registration, endpoint: string): Result<Tables, StoreError> {
    if reg.coordinatorId !in t.coordinators then Err(UnknownCoordinator)
    else
      match FindKey(t.datasets, reg.Key())
      case Some(i) => Ok(t.(datasets := t.datasets[i := UpdatedRow(t.datasets[i], reg, endpoint)]))
      case None =>
        if HasId(t.datasets, reg.datasetId) then Err(DuplicateId)
        else Ok(t.(datasets := t.datasets + [NewRow(reg, endpoint)]))
  }

  function UpsertDataset(t: Tables, reg: Registration): Result<Tables, StoreError> {
    WriteDataset(t, reg, LookupEndpoint(t, reg.coordinatorId))
  }

  function Deactivate(t: Tables, id: string): Tables {
    t.(datasets := Map((r: DatasetRow) => if r.id == id then r.(isActive := false) else r, t.datasets))
  }

  // ----- Reads -----

  predicate Live(t: Tables, row: DatasetRow) {
    row.isActive && row.coordinatorId in t.coordinators && t.coordinators[row.coordinatorId].isAlive
  }

  function RowToDataset(row: DatasetRow, decoders: Decoders): Option<DatasetInfo> {
    match (decoders.uuid(row.id), ReadSourceType(row.sourceType))
    case (Some(id), Some(sourceType)) =>
      var metadata := if row.metadataJson.None? then Some("null") else decoders.json(row.metadataJson.value);
      if metadata.None? then None
      else Some(DatasetInfo(id, row.name, row.namespace, sourceType, row.coordinatorId,
                            row.executorEndpoint, row.schemaIpc, metadata.value))
    case _ => None
  }

  function DecodeAll(rows: seq<DatasetRow>, decoders: Decoders): Result<seq<DatasetInfo>, StoreError> {
    if rows == [] then Ok([])
    else
      match RowToDataset(rows[0], decoders)
      case None => Err(MalformedRow)
      case Some(d) =>
        match DecodeAll(rows[1..], decoders)
        case Err(e) => Err(e)
        case Ok(rest) => Ok([d] + rest)
  }

  /** SQLite's binary collation. */
  predicate TextLe(a: string, b: string) {
    a == "" || (b != "" && (a[0] < b[0] || (a[0] == b[0] && TextLe(a[1..], b[1..]))))
  }

  predicate KeyLe(a: DatasetKey, b: DatasetKey) {
    if a.namespace == b.namespace then TextLe(a.name, b.name) else TextLe(a.namespace, b.namespace)
  }

  predicate RowLe(a: DatasetRow, b: DatasetRow) { KeyLe(a.Key(), b.Key()) }

  /** The rows a listing selects. */
  function Selects(t: Tables, namespace: Option<string>): DatasetRow -> bool {
    (row: DatasetRow) => Live(t, row) && (namespace.Some? ==> row.namespace == namespace.value)
  }

  function ListedRows(t: Tables, namespace: Option<string>): seq<DatasetRow> {
    StableSort(Filter(Selects(t, namespace), t.datasets), RowLe)
  }

  function ListDatasets(t: Tables, namespace: Option<string>, decoders: Decoders)
    : Result<seq<DatasetInfo>, StoreError>
  {
    DecodeAll(ListedRows(t, namespace), decoders)
  }

  /** The rows a fetch selects. */
  function Fetches(t: Tables, key: DatasetKey): DatasetRow -> bool {
    (row: DatasetRow) => row.Key() == key && Live(t, row)
  }

  function GetDataset(t: Tables, key: DatasetKey, decoders: Decoders): Result<Option<DatasetInfo>, StoreError> {
    var rows := Filter(Fetches(t, key), t.datasets);
    if rows == [] then Ok(None)
    else
      match RowToDataset(rows[0], decoders)
      case None => Err(MalformedRow)
      case Some(d) => Ok(Some(d))
  }

  /** The two tables agree on every coordinator but this one. */
  ghost predicate OthersUnchanged(before: map<string, Coordinator>, after: map<string, Coordinator>, id: string) {
    forall other :: other != id ==>
      (other in after <==> other in before) && (other in before ==> after[other] == before[other])
  }

  class Store {
    var coordinators: map<string, Coordinator>
    var datasets: seq<DatasetRow>

    ghost function Contents(): Tables
      reads this
    {
      Tables(coordinators, datasets)
    }

    constructor ()
      ensures Contents() == EMPTY
    {
      coordinators, datasets := map[], [];
    }

    method RegisterCoordinator(id: string, environment: string, hostname: string, endpoint: string)
      modifies this
      ensures id in coordinators && coordinators[id] == Coordinator(environment, hostname, endpoint, true)
      ensures OthersUnchanged(old(coordinators), coordinators, id) && datasets == old(datasets)
      ensures Contents() == UpsertCoordinator(old(Contents()), id, environment, hostname, endpoint)
    {
      coordinators := coordinators[id := Coordinator(environment, hostname, endpoint, true)];
    }

    method Heartbeat(id: string)
      modifies this
      ensures id in coordinators <==> id in old(coordinators)
      ensures id in coordinators ==> coordinators[id] == old(coordinators)[id].(isAlive := true)
      ensures OthersUnchanged(old(coordinators), coordinators, id) && datasets == old(datasets)
      ensures Contents() == SetAlive(old(Contents()), id, true)
    {
      if id in coordinators {
        coordinators := coordinators[id := coordinators[id].(isAlive := true)];
      }
    }

    method MarkDead(id: string)
      modifies this
      ensures id in coordinators <==> id in old(coordinators)
      ensures id in coordinators ==> coordinators[id] == old(coordinators)[id].(isAlive := false)
      ensures OthersUnchanged(old(coordinators), coordinators, id) && datasets == old(datasets)
      ensures Contents() == SetAlive(old(Contents()), id, false)
    {
      if id in coordinators {
        coordinators := coordinators[id := coordinators[id].(isAlive := false)];
      }
    }

    method RegisterDataset(reg: Registration) returns (outcome: Result<(), StoreError>)
      modifies this
      ensures match UpsertDataset(old(Contents()), reg)
              case Ok(t) => outcome == Ok(()) && Contents() == t
              case Err(e) => outcome == Err(e) && Contents() == old(Contents())
    {
      var known := reg.coordinatorId in coordinators;
      var endpoint := if known then coordinators[reg.coordinatorId].executorEndpoint else "";
      if reg.coordinatorId !in coordinators {
        return Err(UnknownCoordinator);
      }
      match FindKey(datasets, reg.Key()) {
        case Some(i) =>
          datasets := datasets[i := UpdatedRow(datasets[i], reg, endpoint)];
        case None =>
          if HasId(datasets, reg.datasetId) {
            return Err(DuplicateId);
          }
          datasets := datasets + [NewRow(reg, endpoint)];
      }
      outcome := Ok(());
    }

    method DeactivateDataset(id: string)
      modifies this
      ensures coordinators == old(coordinators) && |datasets| == |old(datasets)|
      ensures forall k :: 0 <= k < |datasets| ==>
                var row := old(datasets)[k];
                datasets[k] == if row.id == id then row.(isActive := false) else row
      ensures Contents() == Deactivate(old(Contents()), id)
    {
      ghost var before := datasets;
      var i := 0;
      while i < |datasets|
        invariant 0 <= i <= |datasets| == |before|
        invariant coordinators == old(coordinators)
        invariant forall k :: 0 <= k < i ==>
          datasets[k] == if before[k].id == id then before[k].(isActive := false) else before[k]
        invariant forall k :: i <= k < |before| ==> datasets[k] == before[k]
      {
        if datasets[i].id == id {
          datasets := datasets[i := datasets[i].(isActive := false)];
        }
        i := i + 1;
      }
      assert datasets == Deactivate(old(Contents()), id).datasets;
    }
  }

  // ----- Table constraints -----

  ghost predicate Consistent(t: Tables) {
    && DistinctBy(RowId, t.datasets)
    && DistinctBy(RowKey, t.datasets)
    && (forall i :: 0 <= i < |t.datasets| ==> t.datasets[i].coordinatorId in t.coordinators)
  }

  /** Rows are never removed or re-keyed: each keeps its position, id, namespace and name. */
  ghost predicate KeepsRows(t: Tables, t': Tables) {
    && |t.datasets| <= |t'.datasets|
    && (forall i :: 0 <= i < |t.datasets| ==>
         t.datasets[i].id == t'.datasets[i].id && t.datasets[i].Key() == t'.datasets[i].Key())
    && t.coordinators.Keys <= t'.coordinators.Keys
  }

  /** The row carries every field of the registration, is active, and has the given endpoint. */
  ghost predicate Reflects(row: DatasetRow, reg: Registration, endpoint: string) {
    && row.name == reg.name && row.namespace == reg.namespace && row.sourceType == reg.sourceType
    && row.coordinatorId == reg.coordinatorId && row.executorEndpoint == endpoint
    && row.schemaIpc == reg.schemaIpc && row.metadataJson == reg.metadataJson && row.isActive
  }

  /** An accepted upsert: one row, old or new, reflects the registration with the coordinator's
      endpoint of that moment; it has its old id if it had one, else the given id; no other row and
      no coordinator changes. */
  lemma UpsertEffect(t: Tables, reg: Registration) returns (k: nat)
    requires Consistent(t) && UpsertDataset(t, reg).Ok?
    ensures reg.coordinatorId in t.coordinators
    ensures var t' := UpsertDataset(t, reg).value;
            && t'.coordinators == t.coordinators
            && k < |t'.datasets| && Reflects(t'.datasets[k], reg, t.coordinators[reg.coordinatorId].executorEndpoint)
            && k <= |t.datasets| && |t'.datasets| == (if k < |t.datasets| then |t.datasets| else |t.datasets| + 1)
            && t'.datasets[k].id == (if k < |t.datasets| then t.datasets[k].id else reg.datasetId)
            && (k < |t.datasets| <==> exists row :: row in t.datasets && row.Key() == reg.Key())
            && forall i :: 0 <= i < |t.datasets| && i != k ==> t'.datasets[i] == t.datasets[i]
  {
    var found := FindKey(t.datasets, reg.Key());
    k := if found.Some? then found.value else |t.datasets|;
    if found.Some? {
      assert t.datasets[k] in t.datasets;
    }
  }

  /** An upsert is refused exactly for an unknown coordinator, or a new pair under a used id. */
  lemma WriteRejectedIff(t: Tables, reg: Registration, endpoint: string)
    ensures WriteDataset(t, reg, endpoint).Err? <==>
            || reg.coordinatorId !in t.coordinators
            || (HasId(t.datasets, reg.datasetId) && forall row :: row in t.datasets ==> row.Key() != reg.Key())
  {
    var found := FindKey(t.datasets, reg.Key());
    if found.Some? {
      assert t.datasets[found.value] in t.datasets;
    }
  }

  lemma WriteKeepsConsistent(t: Tables, reg: Registration, endpoint: string)
    requires Consistent(t) && WriteDataset(t, reg, endpoint).Ok?
    ensures var t' := WriteDataset(t, reg, endpoint).value;
            Consistent(t') && KeepsRows(t, t')
  {
    var found := FindKey(t.datasets, reg.Key());
    if found.Some? {
      hide HasId;
    } else {
      hide FindKey;
    }
  }
}
