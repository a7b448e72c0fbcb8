/**
 * The two passes import_data makes over the models of the import order:
 * splitting each model's entries into those the database already holds and
 * those it does not, and creating the rows, repository folders, calculation
 * states and attributes of the new ones.
 */
module Creation {
  import opened Wrappers
  import opened Values
  import opened Attributes
  import opened Archive
  import opened Fields
  import opened Store
  import opened Checks

  /** calc_states.IMPORTED, the state every new node gets. */
  const IMPORTED_STATE: string := "IMPORTED"

  /** One model's entry of the returned dict: (archive pk, database pk) pairs. */
  datatype Pairs = Pairs(newPairs: set<(nat, nat)>, existingPairs: set<(nat, nat)>)

  /** What creating one model gives: the database, the model's reverse mapping and its report. */
  datatype Created = Created(db: Db, reverse: map<Value, nat>, pairs: Pairs)

  /** The unique identifiers of a model's entries. */
  function IdentifiersOf(entries: map<nat, Record>, f: string): set<Value>
    requires EntriesIdentified(entries, f)
  {
    set k | k in entries :: entries[k][f]
  }

  /** The rows of the first table are rows of the second, unchanged. */
  predicate RowsKept(before: map<nat, Record>, after: map<nat, Record>) {
    forall pk :: pk in before ==> pk in after && after[pk] == before[pk]
  }

  // ---------------------------------------------------------------------------
  // Existing and new entries
  // ---------------------------------------------------------------------------

  /**
   * The rows of the database whose identifier some entry carries make the
   * reverse mapping of the model; an entry is existing when its identifier
   * is in that mapping and new otherwise.
   */
  method Partition(table: map<nat, Record>, entries: map<nat, Record>, f: string)
    returns (reverse: map<Value, nat>, existing: map<nat, Record>, additions: map<nat, Record>)
    requires EntriesIdentified(entries, f)
    ensures forall u :: u in reverse <==> u in IdentifiersOf(entries, f) && exists pk :: Carries(table, pk, f, u)
    ensures forall u :: u in reverse ==> Carries(table, reverse[u], f, u)
    ensures existing.Keys !! additions.Keys && existing.Keys + additions.Keys == entries.Keys
    ensures forall k :: k in existing ==> existing[k] == entries[k] && entries[k][f] in reverse
    ensures forall k :: k in additions ==> additions[k] == entries[k] && forall pk :: !Carries(table, pk, f, entries[k][f])
  {
    reverse := LookupByIdentifier(table, f, IdentifiersOf(entries, f));
    existing, additions := map[], map[];
    var todo := entries.Keys;
    while todo != {}
      invariant todo <= entries.Keys
      invariant existing.Keys !! additions.Keys && existing.Keys + additions.Keys == entries.Keys - todo
      invariant forall k :: k in existing ==> existing[k] == entries[k] && entries[k][f] in reverse
      invariant forall k :: k in additions ==> additions[k] == entries[k] && entries[k][f] !in reverse
      decreases todo
    {
      var k :| k in todo;
      if entries[k][f] in reverse {
        existing := existing[k := entries[k]];
      } else {
        additions := additions[k := entries[k]];
      }
      todo := todo - {k};
    }
    forall k | k in additions
      ensures forall pk :: !Carries(table, pk, f, entries[k][f])
    {
      assert entries[k][f] in IdentifiersOf(entries, f);
    }
  }

  /** The (import pk, database pk) pair of every existing entry. */
  function ExistingPairs(existing: map<nat, Record>, f: string, reverse: map<Value, nat>): set<(nat, nat)>
    requires forall k :: k in existing ==> f in existing[k] && existing[k][f] in reverse
  {
    set k | k in existing :: (k, reverse[existing[k][f]])
  }

  // ---------------------------------------------------------------------------
  // Deserialising the new entries
  // ---------------------------------------------------------------------------

  /** rec is what dict(deserialize_field(k, v, ...) for k, v in entry) can give. */
  ghost predicate Deserializes(
    entry: Record, rec: Record, fieldsInfo: map<string, FieldInfo>,
    uniqueIds: map<string, map<nat, Value>>, reverse: map<string, map<Value, nat>>)
  {
    && (forall k :: k in entry ==> DeserializeField(k, entry[k], fieldsInfo, uniqueIds, reverse).Ok?)
    && (forall k :: k in entry ==> DeserializeField(k, entry[k], fieldsInfo, uniqueIds, reverse).value.0 in rec)
    && (forall c :: c in rec ==> exists k :: k in entry && DeserializeField(k, entry[k], fieldsInfo, uniqueIds, reverse) == Ok((c, rec[c])))
  }

  /** A deserialised record never sets the primary key itself. */
  lemma DeserializedHasNoId(
    entry: Record, rec: Record, fieldsInfo: map<string, FieldInfo>,
    uniqueIds: map<string, map<nat, Value>>, reverse: map<string, map<Value, nat>>)
    requires Deserializes(entry, rec, fieldsInfo, uniqueIds, reverse)
    ensures "id" !in rec && "pk" !in rec
  {
  }

  /**
   * An identifier field is a plain column: not converted, not a foreign
   * key, and not the column a foreign key is stored under.
   */
  ghost predicate PlainIdentifier(fieldsInfo: map<string, FieldInfo>, f: string) {
    && (f in fieldsInfo ==> fieldsInfo[f].target.None? && fieldsInfo[f].convertType == Null)
    && (forall k :: k in fieldsInfo && fieldsInfo[k].target.Some? ==> ForeignKeyColumn(k) != f)
  }

  /** A row deserialised from an entry carries the entry's plain identifier unchanged. */
  lemma IdentifierCopied(
    entry: Record, rec: Record, fieldsInfo: map<string, FieldInfo>,
    uniqueIds: map<string, map<nat, Value>>, reverse: map<string, map<Value, nat>>, f: string)
    requires Deserializes(entry, rec, fieldsInfo, uniqueIds, reverse)
    requires PlainIdentifier(fieldsInfo, f) && f in entry && entry[f].Str?
    ensures f in rec && rec[f] == entry[f]
  {
    var own := DeserializeField(f, entry[f], fieldsInfo, uniqueIds, reverse);
    assert own == Ok((f, entry[f]));
    var k :| k in entry && DeserializeField(k, entry[k], fieldsInfo, uniqueIds, reverse) == Ok((f, rec[f]));
    if fieldsInfo[k].target.Some? {
      assert ForeignKeyColumn(k) != f;
    }
  }

  /** Some field of the entry fails to deserialise with this error. */
  ghost predicate RaisedBy(
    entry: Record, e: ImportError, fieldsInfo: map<string, FieldInfo>,
    uniqueIds: map<string, map<nat, Value>>, reverse: map<string, map<Value, nat>>)
  {
    exists k :: k in entry && DeserializeField(k, entry[k], fieldsInfo, uniqueIds, reverse) == Err(e)
  }

  /** An entry whose fields all deserialise; the first failure, in dict order, is raised. */
  method DeserializeRecord(
    entry: Record, fieldsInfo: map<string, FieldInfo>,
    uniqueIds: map<string, map<nat, Value>>, reverse: map<string, map<Value, nat>>)
    returns (r: Result<Record, ImportError>)
    ensures r.Ok? ==> Deserializes(entry, r.value, fieldsInfo, uniqueIds, reverse)
    ensures r.Err? ==> RaisedBy(entry, r.error, fieldsInfo, uniqueIds, reverse)
  {
    var rec: Record := map[];
    var todo := entry.Keys;
    ghost var seen: set<string> := {};
    while todo != {}
      invariant todo + seen == entry.Keys && todo !! seen
      invariant forall k :: k in seen ==> DeserializeField(k, entry[k], fieldsInfo, uniqueIds, reverse).Ok?
      invariant forall k :: k in seen ==> DeserializeField(k, entry[k], fieldsInfo, uniqueIds, reverse).value.0 in rec
      invariant forall c :: c in rec ==> exists k :: k in seen && DeserializeField(k, entry[k], fieldsInfo, uniqueIds, reverse) == Ok((c, rec[c]))
      decreases todo
    {
      var k :| k in todo;
      var field := DeserializeField(k, entry[k], fieldsInfo, uniqueIds, reverse);
      if field.Err? {
        return Err(field.error);
      }
      rec := rec[field.value.0 := field.value.1];
      todo, seen := todo - {k}, seen + {k};
    }
    return Ok(rec);
  }

  /** Every field of the entry deserialises. */
  ghost predicate FieldsDeserialize(
    entry: Record, fieldsInfo: map<string, FieldInfo>,
    uniqueIds: map<string, map<nat, Value>>, reverse: map<string, map<Value, nat>>)
  {
    forall k :: k in entry ==> DeserializeField(k, entry[k], fieldsInfo, uniqueIds, reverse).Ok?
  }

  /** ids maps the identifier of every entry with a pk in keys to one such pk. */
  ghost predicate IndexesIdentifiers(ids: map<Value, nat>, entries: map<nat, Record>, keys: set<nat>, f: string)
    requires EntriesIdentified(entries, f)
  {
    && (forall u :: u in ids ==> ids[u] in keys && ids[u] in entries && entries[ids[u]][f] == u)
    && (forall k :: k in keys && k in entries ==> entries[k][f] in ids)
  }

  /** Every object is a deserialisation of the entry with its pk. */
  ghost predicate ObjectsDeserialize(
    objects: map<nat, Record>, additions: map<nat, Record>, fieldsInfo: map<string, FieldInfo>,
    uniqueIds: map<string, map<nat, Value>>, reverse: map<string, map<Value, nat>>)
  {
    forall k :: k in objects ==> k in additions && Deserializes(additions[k], objects[k], fieldsInfo, uniqueIds, reverse)
  }

  /**
   * The loop over new_entries, first half: the objects to create, by
   * archive pk; the first entry that fails, in dict order, raises.
   */
  method DeserializeNew(
    additions: map<nat, Record>, fieldsInfo: map<string, FieldInfo>,
    uniqueIds: map<string, map<nat, Value>>, reverse: map<string, map<Value, nat>>)
    returns (r: Result<map<nat, Record>, ImportError>)
    ensures r.Ok? ==> r.value.Keys == additions.Keys && ObjectsDeserialize(r.value, additions, fieldsInfo, uniqueIds, reverse)
    ensures r.Err? ==> exists k :: k in additions && RaisedBy(additions[k], r.error, fieldsInfo, uniqueIds, reverse)
  {
    var objects: map<nat, Record> := map[];
    var todo := additions.Keys;
    while todo != {}
      invariant todo <= additions.Keys && objects.Keys == additions.Keys - todo
      invariant ObjectsDeserialize(objects, additions, fieldsInfo, uniqueIds, reverse)
      decreases todo
    {
      var k :| k in todo;
      var rec := DeserializeRecord(additions[k], fieldsInfo, uniqueIds, reverse);
      if rec.Err? {
        return Err(rec.error);
      }
      ExtendObjects(objects, additions, k, rec.value, fieldsInfo, uniqueIds, reverse);
      objects := objects[k := rec.value];
      todo := todo - {k};
    }
    return Ok(objects);
  }

  /**
   * The loop over new_entries, second half: import_entry_ids, from unique
   * identifier to archive pk (the last entry wins when two carry the same
   * identifier).
   */
  method IndexNew(additions: map<nat, Record>, f: string) returns (ids: map<Value, nat>)
    requires EntriesIdentified(additions, f)
    ensures IndexesIdentifiers(ids, additions, additions.Keys, f)
  {
    ids := map[];
    var todo := additions.Keys;
    while todo != {}
      invariant todo <= additions.Keys
      invariant IndexesIdentifiers(ids, additions, additions.Keys - todo, f)
      decreases todo
    {
      var k :| k in todo;
      ExtendIndex(ids, additions, additions.Keys - todo, k, f);
      ids := ids[additions[k][f] := k];
      todo := todo - {k};
    }
  }

  lemma ExtendObjects(
    objects: map<nat, Record>, additions: map<nat, Record>, k: nat, rec: Record, fieldsInfo: map<string, FieldInfo>,
    uniqueIds: map<string, map<nat, Value>>, reverse: map<string, map<Value, nat>>)
    requires ObjectsDeserialize(objects, additions, fieldsInfo, uniqueIds, reverse)
    requires k in additions && Deserializes(additions[k], rec, fieldsInfo, uniqueIds, reverse)
    ensures ObjectsDeserialize(objects[k := rec], additions, fieldsInfo, uniqueIds, reverse)
  {
  }

  lemma ExtendIndex(ids: map<Value, nat>, entries: map<nat, Record>, keys: set<nat>, k: nat, f: string)
    requires EntriesIdentified(entries, f) && IndexesIdentifiers(ids, entries, keys, f) && k in entries
    ensures IndexesIdentifiers(ids[entries[k][f] := k], entries, keys + {k}, f)
  {
  }

  /** The keys of an identifier index are the entries' identifiers. */
  lemma IndexedIdentifiers(ids: map<Value, nat>, entries: map<nat, Record>, f: string)
    requires EntriesIdentified(entries, f) && IndexesIdentifiers(ids, entries, entries.Keys, f)
    ensures ids.Keys == IdentifiersOf(entries, f)
  {
  }

  // ---------------------------------------------------------------------------
  // Repository folders of new nodes
  // ---------------------------------------------------------------------------

  /**
   * The UUID of a new node object: its 'uuid' column; a record without one
   * gets a fresh UUID from the model, which no archive folder can match,
   * written here as null.
   */
  function ObjectUuid(rec: Record): Value {
    if "uuid" in rec then rec["uuid"] else Null
  }

  /**
   * Every new node's folder replaces the repository folder of its UUID.
   * The repository is outside the transaction: the folders copied before a
   * missing one stay copied.
   */
  method CopyNodeFolders(repo: Repository, objects: map<nat, Record>, folders: map<Value, Folder>)
    returns (r: Outcome<ImportError>, repo': Repository)
    ensures r.Pass? <==> forall k :: k in objects ==> ObjectUuid(objects[k]) != Null && ObjectUuid(objects[k]) in folders
    ensures r.Fail? ==> exists k :: (
      && k in objects && r.error == MissingNodeFolder(ObjectUuid(objects[k]))
      && (ObjectUuid(objects[k]) == Null || ObjectUuid(objects[k]) !in folders))
    ensures forall u :: u in repo' ==> u in repo || exists k :: k in objects && ObjectUuid(objects[k]) == u
    ensures forall u :: u in repo' && u !in repo ==> u in folders && repo'[u] == folders[u]
    ensures forall u :: u in repo' && u in repo && repo'[u] != repo[u] ==> u in folders && repo'[u] == folders[u]
    ensures forall u :: u in repo ==> u in repo'
    ensures r.Pass? ==> forall k :: k in objects ==> ObjectUuid(objects[k]) in repo' && repo'[ObjectUuid(objects[k])] == folders[ObjectUuid(objects[k])]
  {
    repo' := repo;
    var todo := objects.Keys;
    ghost var seen: set<nat> := {};
    while todo != {}
      invariant todo + seen == objects.Keys && todo !! seen
      invariant forall k :: k in seen ==> ObjectUuid(objects[k]) != Null && ObjectUuid(objects[k]) in folders
      invariant forall k :: k in seen ==> ObjectUuid(objects[k]) in repo' && repo'[ObjectUuid(objects[k])] == folders[ObjectUuid(objects[k])]
      invariant forall u :: u in repo' ==> u in repo || exists k :: k in seen && ObjectUuid(objects[k]) == u
      invariant forall u :: u in repo' && u !in repo ==> u in folders && repo'[u] == folders[u]
      invariant forall u :: u in repo' && u in repo && repo'[u] != repo[u] ==> u in folders && repo'[u] == folders[u]
      invariant forall u :: u in repo ==> u in repo'
      decreases todo
    {
      var k :| k in todo;
      var uuid := ObjectUuid(objects[k]);
      if uuid == Null || uuid !in folders {
        return Fail(MissingNodeFolder(uuid)), repo';
      }
      repo' := repo'[uuid := folders[uuid]];
      todo, seen := todo - {k}, seen + {k};
    }
    return Pass, repo';
  }

  // ---------------------------------------------------------------------------
  // Storing the rows
  // ---------------------------------------------------------------------------

  /**
   * bulk_create: one new row per object, each at a pk the table did not
   * use; placed records which pk each object got.
   */
  method StoreRows(table: map<nat, Record>, objects: map<nat, Record>)
    returns (table': map<nat, Record>, ghost placed: map<nat, nat>)
    ensures placed.Keys == objects.Keys
    ensures forall k :: k in placed ==> placed[k] !in table && placed[k] in table' && table'[placed[k]] == objects[k]
    ensures forall k1, k2 :: k1 in placed && k2 in placed && k1 != k2 ==> placed[k1] != placed[k2]
    ensures RowsKept(table, table')
    ensures forall pk :: pk in table' ==> pk in table || exists k :: k in placed && placed[k] == pk
  {
    table' := table;
    placed := map[];
    var todo := objects.Keys;
    while todo != {}
      invariant todo <= objects.Keys && placed.Keys == objects.Keys - todo
      invariant forall k :: k in placed ==> placed[k] !in table && placed[k] in table' && table'[placed[k]] == objects[k]
      invariant forall k1, k2 :: k1 in placed && k2 in placed && k1 != k2 ==> placed[k1] != placed[k2]
      invariant RowsKept(table, table')
      invariant forall pk :: pk in table' ==> pk in table || exists k :: k in placed && placed[k] == pk
      decreases todo
    {
      var k :| k in todo;
      var pk := FreshPk(table'.Keys);
      table' := table'[pk := objects[k]];
      placed := placed[k := pk];
      todo := todo - {k};
    }
  }

  // ---------------------------------------------------------------------------
  // Recording what was saved
  // ---------------------------------------------------------------------------

  /**
   * The loops over just_saved: each saved identifier joins the model's
   * reverse mapping and the report's 'new' pairs, and for nodes each saved
   * pk gets the IMPORTED state.
   */
  method RecordSaved(
    reverse: map<Value, nat>, justSaved: map<Value, nat>, ids: map<Value, nat>,
    states: set<(nat, string)>, isNode: bool)
    returns (reverse': map<Value, nat>, newPairs: set<(nat, nat)>, states': set<(nat, string)>)
    requires justSaved.Keys <= ids.Keys
    ensures reverse' == reverse + justSaved
    ensures forall p :: p in newPairs <==> exists u :: u in justSaved && p == (ids[u], justSaved[u])
    ensures isNode ==> forall s :: s in states' <==> s in states || exists u :: u in justSaved && s == (justSaved[u], IMPORTED_STATE)
    ensures !isNode ==> states' == states
  {
    reverse', newPairs, states' := reverse, {}, states;
    var todo := justSaved.Keys;
    ghost var seen: set<Value> := {};
    while todo != {}
      invariant todo + seen == justSaved.Keys && todo !! seen
      invariant reverse' == reverse + map u | u in seen :: justSaved[u]
      invariant forall p :: p in newPairs <==> exists u :: u in seen && p == (ids[u], justSaved[u])
      invariant isNode ==> forall s :: s in states' <==> s in states || exists u :: u in seen && s == (justSaved[u], IMPORTED_STATE)
      invariant !isNode ==> states' == states
      decreases todo
    {
      var u :| u in todo;
      reverse' := reverse'[u := justSaved[u]];
      newPairs := newPairs + {(ids[u], justSaved[u])};
      if isNode {
        states' := states' + {(justSaved[u], IMPORTED_STATE)};
      }
      todo, seen := todo - {u}, seen + {u};
    }
    assert seen == justSaved.Keys;
    assert reverse + justSaved == reverse + map u | u in seen :: justSaved[u];
  }

  /** Different identifiers were saved as different rows. */
  predicate Injective(m: map<Value, nat>) {
    forall u, w :: u in m && w in m && u != w ==> m[u] != m[w]
  }

  /** The rows a lookup by identifier finds are different for different identifiers. */
  lemma LookupInjective(table: map<nat, Record>, f: string, found: map<Value, nat>)
    requires forall u :: u in found ==> Carries(table, found[u], f, u)
    ensures Injective(found)
  {
  }

  /** The archive holds attributes for the entry that deserialise. */
  predicate AttributesReadable(data: Data, id: nat) {
    && id in data.nodeAttributes && id in data.nodeAttributesConversion
    && DeserializeAttributes(data.nodeAttributes[id], data.nodeAttributesConversion[id]).Ok?
  }

  /**
   * reset_values_for_node for every saved node: its attributes become the
   * deserialised attributes of its archive entry; a missing entry raises
   * ValueError, a bad one what deserialize_attributes raises.
   */
  method StoreAttributes(
    attributes: map<nat, Value>, justSaved: map<Value, nat>, ids: map<Value, nat>, data: Data)
    returns (r: Result<map<nat, Value>, ImportError>)
    requires justSaved.Keys <= ids.Keys && Injective(justSaved)
    ensures r.Ok? <==> forall u :: u in justSaved ==> AttributesReadable(data, ids[u])
    ensures r.Ok? ==> forall u :: u in justSaved ==> (
      && justSaved[u] in r.value
      && r.value[justSaved[u]] == DeserializeAttributes(data.nodeAttributes[ids[u]], data.nodeAttributesConversion[ids[u]]).value)
    ensures r.Ok? ==> forall pk :: pk in r.value ==> pk in attributes || pk in justSaved.Values
    ensures r.Ok? ==> forall pk :: pk in attributes && pk !in justSaved.Values ==> pk in r.value && r.value[pk] == attributes[pk]
    ensures r.Err? ==> exists u :: (
      && u in justSaved && !AttributesReadable(data, ids[u])
      && if ids[u] in data.nodeAttributes && ids[u] in data.nodeAttributesConversion
         then r.error == BadAttributes(DeserializeAttributes(data.nodeAttributes[ids[u]], data.nodeAttributesConversion[ids[u]]).error)
         else r.error == MissingAttributes(u))
  {
    var attrs := attributes;
    var todo := justSaved.Keys;
    ghost var seen: set<Value> := {};
    while todo != {}
      invariant todo + seen == justSaved.Keys && todo !! seen
      invariant forall u :: u in seen ==> AttributesReadable(data, ids[u])
      invariant forall pk :: pk in attrs ==> pk in attributes || pk in justSaved.Values
      invariant forall pk :: pk in attributes && pk !in justSaved.Values ==> pk in attrs && attrs[pk] == attributes[pk]
      invariant forall u :: u in seen ==>
        justSaved[u] in attrs && attrs[justSaved[u]] == DeserializeAttributes(data.nodeAttributes[ids[u]], data.nodeAttributesConversion[ids[u]]).value
      decreases todo
    {
      var u :| u in todo;
      var id := ids[u];
      if id !in data.nodeAttributes || id !in data.nodeAttributesConversion {
        return Err(MissingAttributes(u));
      }
      var d := DeserializeAttributes(data.nodeAttributes[id], data.nodeAttributesConversion[id]);
      if d.Err? {
        return Err(BadAttributes(d.error));
      }
      attrs := attrs[justSaved[u] := d.value];
      todo, seen := todo - {u}, seen + {u};
    }
    return Ok(attrs);
  }

  // ---------------------------------------------------------------------------
  // One model
  // ---------------------------------------------------------------------------

  /**
   * What the first pass leaves for a model: with an identifier field f,
   * every entry carries f, existing entries have their identifier in the
   * model's reverse mapping and new ones do not.
   */
  ghost predicate Split(uid: Option<string>, existing: map<nat, Record>, additions: map<nat, Record>, reverse: map<Value, nat>) {
    match uid
    case None => existing == map[]
    case Some(f) =>
      && EntriesIdentified(existing, f) && EntriesIdentified(additions, f)
      && (forall k :: k in existing ==> existing[k][f] in reverse)
      && (forall k :: k in additions ==> additions[k][f] !in reverse)
  }

  /** Only the model's own table changed among the tables, and links, groups and paths did not. */
  ghost predicate OnlyTableChanged(db: Db, db': Db, model: string) {
    && db'.tables == db.tables[model := Table(db', model)]
    && db'.links == db.links && db'.groupNodes == db.groupNodes && db'.paths == db.paths
  }

  /**
   * placed gives each new entry a new row of its own that deserialises
   * it, and every new row is one of these.
   */
  ghost predicate StoredAt(
    before: map<nat, Record>, after: map<nat, Record>, additions: map<nat, Record>, placed: map<nat, nat>,
    fieldsInfo: map<string, FieldInfo>, uniqueIds: map<string, map<nat, Value>>, reverse: map<string, map<Value, nat>>)
  {
    && placed.Keys == additions.Keys
    && (forall k :: k in placed ==> placed[k] in after && placed[k] !in before && Deserializes(additions[k], after[placed[k]], fieldsInfo, uniqueIds, reverse))
    && (forall k1, k2 :: k1 in placed && k2 in placed && k1 != k2 ==> placed[k1] != placed[k2])
    && (forall pk :: pk in after && pk !in before ==> exists k :: k in placed && placed[k] == pk)
  }

  /**
   * The model's reverse mapping after creation: the existing identifiers
   * keep their rows, and an identifier of a new entry that a new row
   * carries maps to such a row.
   */
  ghost predicate ReverseExtended(
    reverse: map<Value, nat>, reverse': map<Value, nat>, additions: map<nat, Record>, f: string, table: map<nat, Record>)
    requires EntriesIdentified(additions, f)
  {
    && (forall u :: u in reverse ==> u in reverse' && reverse'[u] == reverse[u])
    && (forall u :: u in reverse' && u !in reverse ==> u in IdentifiersOf(additions, f) && Carries(table, reverse'[u], f, u))
    && (forall u :: u in IdentifiersOf(additions, f) && (exists pk :: Carries(table, pk, f, u)) ==> u in reverse')
  }

  /** Each reported new pair joins a new entry to the row that carries its identifier. */
  ghost predicate NewPairsReported(pairs: set<(nat, nat)>, additions: map<nat, Record>, f: string, reverse': map<Value, nat>, table: map<nat, Record>)
    requires EntriesIdentified(additions, f)
  {
    forall p :: p in pairs ==>
      && p.0 in additions
      && Carries(table, p.1, f, additions[p.0][f])
      && additions[p.0][f] in reverse' && reverse'[additions[p.0][f]] == p.1
  }

  /**
   * For nodes, every reported new node gets the IMPORTED state and the
   * deserialised attributes of its entry, and other nodes keep theirs; for
   * other models neither changes.
   */
  ghost predicate NodeStateSet(db: Db, db': Db, pairs: set<(nat, nat)>, data: Data, isNode: bool) {
    if isNode then
      && (forall s :: s in db'.calcStates <==> s in db.calcStates || exists p :: p in pairs && s == (p.1, IMPORTED_STATE))
      && (forall p :: p in pairs ==> (
           && AttributesReadable(data, p.0) && p.1 in db'.attributes
           && db'.attributes[p.1] == DeserializeAttributes(data.nodeAttributes[p.0], data.nodeAttributesConversion[p.0]).value))
      && (forall pk :: pk in db.attributes && (forall p :: p in pairs ==> p.1 != pk) ==> pk in db'.attributes && db'.attributes[pk] == db.attributes[pk])
    else
      db'.calcStates == db.calcStates && db'.attributes == db.attributes
  }

  /** The repository changed only by taking folders from the archive. */
  ghost predicate FoldersFromArchive(repo: Repository, repo': Repository, folders: map<Value, Folder>) {
    && (forall u :: u in repo ==> u in repo')
    && (forall u :: u in repo' && (u !in repo || repo'[u] != repo[u]) ==> u in folders && repo'[u] == folders[u])
  }

  /** The fields_info of a model: all_fields_info.get(model, {}). */
  function FieldsInfoOf(md: Metadata, model: string): map<string, FieldInfo> {
    if model in md.allFieldsInfo then md.allFieldsInfo[model] else map[]
  }

  /** The new rows' folders were copied from the archive. */
  ghost predicate NewFoldersCopied(before: map<nat, Record>, after: map<nat, Record>, repo': Repository, folders: map<Value, Folder>) {
    forall pk :: pk in after && pk !in before ==>
      ObjectUuid(after[pk]) in repo' && ObjectUuid(after[pk]) in folders && repo'[ObjectUuid(after[pk])] == folders[ObjectUuid(after[pk])]
  }

  /** bulk_create of the deserialised objects, with what it means for the new entries. */
  method StoreNew(
    table: map<nat, Record>, objects: map<nat, Record>, additions: map<nat, Record>, fieldsInfo: map<string, FieldInfo>,
    uniqueIds: map<string, map<nat, Value>>, reverse: map<string, map<Value, nat>>)
    returns (table': map<nat, Record>, ghost placed: map<nat, nat>)
    requires objects.Keys == additions.Keys && ObjectsDeserialize(objects, additions, fieldsInfo, uniqueIds, reverse)
    ensures RowsKept(table, table')
    ensures StoredAt(table, table', additions, placed, fieldsInfo, uniqueIds, reverse)
    ensures forall k :: k in placed ==> table'[placed[k]] == objects[k]
  {
    table', placed := StoreRows(table, objects);
  }

  /**
   * The new entries of one model become rows: deserialised, for nodes
   * with their folders copied first, then stored at fresh pks.
   */
  method CreateRows(
    table: map<nat, Record>, repo: Repository, folders: map<Value, Folder>, isNode: bool,
    additions: map<nat, Record>, fieldsInfo: map<string, FieldInfo>,
    uniqueIds: map<string, map<nat, Value>>, reverse: map<string, map<Value, nat>>)
    returns (r: Result<map<nat, Record>, ImportError>, repo': Repository, ghost placed: map<nat, nat>)
    ensures FoldersFromArchive(repo, repo', folders)
    ensures !isNode ==> repo' == repo
    ensures r.Ok? ==> RowsKept(table, r.value)
    ensures r.Ok? ==> StoredAt(table, r.value, additions, placed, fieldsInfo, uniqueIds, reverse)
    ensures r.Ok? && isNode ==> NewFoldersCopied(table, r.value, repo', folders)
    ensures r.Err? ==> (exists k :: k in additions && RaisedBy(additions[k], r.error, fieldsInfo, uniqueIds, reverse)) || (isNode && r.error.MissingNodeFolder?)
  {
    repo', placed := repo, map[];
    var deserialized := DeserializeNew(additions, fieldsInfo, uniqueIds, reverse);
    if deserialized.Err? {
      return Err(deserialized.error), repo', placed;
    }
    var objects := deserialized.value;
    if isNode {
      var copied;
      copied, repo' := CopyNodeFolders(repo, objects, folders);
      if copied.Fail? {
        return Err(copied.error), repo', placed;
      }
    }
    var table';
    table', placed := StoreNew(table, objects, additions, fieldsInfo, uniqueIds, reverse);
    if isNode {
      NewRowsHaveFolders(table, table', objects, placed, repo', folders);
    }
    r := Ok(table');
  }

  lemma NewRowsHaveFolders(
    table: map<nat, Record>, table': map<nat, Record>, objects: map<nat, Record>, placed: map<nat, nat>,
    repo': Repository, folders: map<Value, Folder>)
    requires forall k :: k in objects ==> ObjectUuid(objects[k]) in folders && ObjectUuid(objects[k]) in repo' && repo'[ObjectUuid(objects[k])] == folders[ObjectUuid(objects[k])]
    requires forall k :: k in placed ==> k in objects && placed[k] in table' && table'[placed[k]] == objects[k]
    requires forall pk :: pk in table' && pk !in table ==> exists k :: k in placed && placed[k] == pk
    ensures NewFoldersCopied(table, table', repo', folders)
  {
    forall pk | pk in table' && pk !in table
      ensures ObjectUuid(table'[pk]) in repo' && ObjectUuid(table'[pk]) in folders && repo'[ObjectUuid(table'[pk])] == folders[ObjectUuid(table'[pk])]
    {
      var k :| k in placed && placed[k] == pk;
    }
  }

  /**
   * just_saved and what follows it: the new rows that carry an identifier
   * of a new entry extend the model's reverse mapping and the report, and
   * new nodes get their state and their attributes.
   */
  method SaveRecords(
    db: Db, model: string, table': map<nat, Record>, additions: map<nat, Record>, f: string,
    ids: map<Value, nat>, reverse: map<Value, nat>, data: Data)
    returns (r: Result<(Db, map<Value, nat>, set<(nat, nat)>), ImportError>)
    requires EntriesIdentified(additions, f) && IndexesIdentifiers(ids, additions, additions.Keys, f)
    requires forall k :: k in additions ==> additions[k][f] !in reverse
    ensures r.Ok? ==> var (db', reverse', newPairs) := r.value;
      && db' == db.(tables := db.tables[model := table'], calcStates := db'.calcStates, attributes := db'.attributes)
      && ReverseExtended(reverse, reverse', additions, f, table')
      && NewPairsReported(newPairs, additions, f, reverse', table')
      && NodeStateSet(db, db', newPairs, data, model == NODE_MODEL)
    ensures r.Err? ==> model == NODE_MODEL && (r.error.MissingAttributes? || r.error.BadAttributes?)
  {
    IndexedIdentifiers(ids, additions, f);
    var isNode := model == NODE_MODEL;
    var justSaved := LookupByIdentifier(table', f, ids.Keys);
    LookupInjective(table', f, justSaved);
    var reverse', newPairs, states := RecordSaved(reverse, justSaved, ids, db.calcStates, isNode);
    ReverseAfterSave(reverse, justSaved, ids, additions, f, table');
    PairsAfterSave(newPairs, reverse, justSaved, ids, additions, f, table');
    var attributes := db.attributes;
    if isNode {
      var stored := StoreAttributes(db.attributes, justSaved, ids, data);
      if stored.Err? {
        return Err(stored.error);
      }
      attributes := stored.value;
    }
    var db' := db.(tables := db.tables[model := table'], calcStates := states, attributes := attributes);
    NodeStateAfterSave(db, db', newPairs, justSaved, ids, data, isNode);
    r := Ok((db', reverse', newPairs));
  }

  lemma ReverseAfterSave(
    reverse: map<Value, nat>, justSaved: map<Value, nat>, ids: map<Value, nat>,
    additions: map<nat, Record>, f: string, table: map<nat, Record>)
    requires EntriesIdentified(additions, f) && ids.Keys == IdentifiersOf(additions, f)
    requires forall k :: k in additions ==> additions[k][f] !in reverse
    requires forall u :: u in justSaved <==> u in ids.Keys && exists pk :: Carries(table, pk, f, u)
    requires forall u :: u in justSaved ==> Carries(table, justSaved[u], f, u)
    ensures ReverseExtended(reverse, reverse + justSaved, additions, f, table)
  {
  }

  lemma PairsAfterSave(
    newPairs: set<(nat, nat)>, reverse: map<Value, nat>, justSaved: map<Value, nat>, ids: map<Value, nat>,
    additions: map<nat, Record>, f: string, table: map<nat, Record>)
    requires EntriesIdentified(additions, f) && IndexesIdentifiers(ids, additions, additions.Keys, f)
    requires justSaved.Keys <= ids.Keys
    requires forall p :: p in newPairs <==> exists u :: u in justSaved && p == (ids[u], justSaved[u])
    requires forall u :: u in justSaved ==> Carries(table, justSaved[u], f, u)
    ensures NewPairsReported(newPairs, additions, f, reverse + justSaved, table)
  {
    forall p | p in newPairs
      ensures p.0 in additions && Carries(table, p.1, f, additions[p.0][f])
      ensures additions[p.0][f] in reverse + justSaved && (reverse + justSaved)[additions[p.0][f]] == p.1
    {
      var u :| u in justSaved && p == (ids[u], justSaved[u]);
    }
  }

  lemma NodeStateAfterSave(
    db: Db, db': Db, newPairs: set<(nat, nat)>, justSaved: map<Value, nat>, ids: map<Value, nat>, data: Data, isNode: bool)
    requires justSaved.Keys <= ids.Keys
    requires forall p :: p in newPairs <==> exists u :: u in justSaved && p == (ids[u], justSaved[u])
    requires isNode ==> forall s :: s in db'.calcStates <==> s in db.calcStates || exists u :: u in justSaved && s == (justSaved[u], IMPORTED_STATE)
    requires isNode ==> forall u :: u in justSaved ==> (
      && AttributesReadable(data, ids[u])
      && justSaved[u] in db'.attributes
      && db'.attributes[justSaved[u]] == DeserializeAttributes(data.nodeAttributes[ids[u]], data.nodeAttributesConversion[ids[u]]).value)
    requires isNode ==> forall pk :: pk in db.attributes && pk !in justSaved.Values ==> pk in db'.attributes && db'.attributes[pk] == db.attributes[pk]
    requires !isNode ==> db'.calcStates == db.calcStates && db'.attributes == db.attributes
    ensures NodeStateSet(db, db', newPairs, data, isNode)
  {
    if isNode {
      forall s | s in db'.calcStates
        ensures s in db.calcStates || exists p :: p in newPairs && s == (p.1, IMPORTED_STATE)
      {
        if s !in db.calcStates {
          var u :| u in justSaved && s == (justSaved[u], IMPORTED_STATE);
          assert (ids[u], justSaved[u]) in newPairs;
        }
      }
      forall p | p in newPairs
        ensures AttributesReadable(data, p.0) && p.1 in db'.attributes
        ensures db'.attributes[p.1] == DeserializeAttributes(data.nodeAttributes[p.0], data.nodeAttributesConversion[p.0]).value
      {
        var u :| u in justSaved && p == (ids[u], justSaved[u]);
      }
      forall pk | pk in db.attributes && (forall p :: p in newPairs ==> p.1 != pk)
        ensures pk !in justSaved.Values
      {
        forall u | u in justSaved
          ensures justSaved[u] != pk
        {
          assert (ids[u], justSaved[u]) in newPairs;
        }
      }
    }
  }

  /**
   * One pass of the second loop over model_order: report the existing
   * entries, create the new ones, and for nodes copy their folders, set
   * their state and store their attributes.  A model of the order without
   * a unique identifier fails: on the first new entry (entry_data[None]),
   * or else in the lookup by the field 'None'.
   */
  method ImportModel(
    db: Db, repo: Repository, pkg: Package, model: string,
    existing: map<nat, Record>, additions: map<nat, Record>,
    uniqueIds: map<string, map<nat, Value>>, reverse: map<string, map<Value, nat>>)
    returns (r: Result<Created, ImportError>, repo': Repository, ghost placed: map<nat, nat>)
    requires model in reverse
    requires Split(IdentifierField(pkg.metadata, model), existing, additions, reverse[model])
    ensures FoldersFromArchive(repo, repo', pkg.folders)
    ensures model != NODE_MODEL ==> repo' == repo
    ensures IdentifierField(pkg.metadata, model).None? ==> r == Err(NoUniqueIdentifier(model))
    ensures r.Ok? ==> IdentifierField(pkg.metadata, model).Some?
    ensures r.Ok? ==> var f := IdentifierField(pkg.metadata, model).value; var c := r.value;
      && OnlyTableChanged(db, c.db, model)
      && RowsKept(Table(db, model), Table(c.db, model))
      && StoredAt(Table(db, model), Table(c.db, model), additions, placed, FieldsInfoOf(pkg.metadata, model), uniqueIds, reverse)
      && c.pairs.existingPairs == ExistingPairs(existing, f, reverse[model])
      && ReverseExtended(reverse[model], c.reverse, additions, f, Table(c.db, model))
      && NewPairsReported(c.pairs.newPairs, additions, f, c.reverse, Table(c.db, model))
      && NodeStateSet(db, c.db, c.pairs.newPairs, pkg.data, model == NODE_MODEL)
    ensures r.Ok? && model == NODE_MODEL ==> NewFoldersCopied(Table(db, model), Table(r.value.db, model), repo', pkg.folders)
    ensures r.Err? ==>
      || r.error == NoUniqueIdentifier(model)
      || (exists k :: k in additions && RaisedBy(additions[k], r.error, FieldsInfoOf(pkg.metadata, model), uniqueIds, reverse))
      || (model == NODE_MODEL && (r.error.MissingNodeFolder? || r.error.MissingAttributes? || r.error.BadAttributes?))
  {
    repo', placed := repo, map[];
    var uid := IdentifierField(pkg.metadata, model);
    if uid.None? {
      return Err(NoUniqueIdentifier(model)), repo', placed;
    }
    var f := uid.value;
    var existingPairs := ExistingPairs(existing, f, reverse[model]);
    var created;
    created, repo', placed := CreateRows(Table(db, model), repo, pkg.folders, model == NODE_MODEL,
      additions, FieldsInfoOf(pkg.metadata, model), uniqueIds, reverse);
    if created.Err? {
      return Err(created.error), repo', placed;
    }
    var ids := IndexNew(additions, f);
    var saved := SaveRecords(db, model, created.value, additions, f, ids, reverse[model], pkg.data);
    if saved.Err? {
      return Err(saved.error), repo', placed;
    }
    var (db', reverse', newPairs) := saved.value;
    assert Table(db', model) == created.value;
    r := Ok(Created(db', reverse', Pairs(newPairs, existingPairs)));
  }
}
