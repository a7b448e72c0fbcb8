/**
 * The checks import_data makes before it writes anything: the export
 * version, the nodes links and groups refer to, the models the archive
 * describes and the order they can be loaded in, and the archive-side map
 * from pks to unique identifiers.
 */
module Checks {
  import opened Wrappers
  import opened Values
  import opened Archive
  import opened Store

  // ---------------------------------------------------------------------------
  // Version gate
  // ---------------------------------------------------------------------------

  function CheckVersion(md: Metadata): (r: Outcome<ImportError>)
    ensures r.Pass? <==> md.exportVersion == EXPORT_VERSION
    ensures r.Fail? ==> r.error == VersionMismatch(md.exportVersion)
  {
    if md.exportVersion != EXPORT_VERSION then Fail(VersionMismatch(md.exportVersion)) else Pass
  }

  // ---------------------------------------------------------------------------
  // Unknown nodes
  // ---------------------------------------------------------------------------

  /** linked_nodes: both ends of every link of links_uuid. */
  function LinkedNodes(links: seq<LinkRef>): set<Value> {
    (set i | 0 <= i < |links| :: links[i].input) + (set i | 0 <= i < |links| :: links[i].output)
  }

  /** group_nodes: every member of every group of groups_uuid. */
  function GroupMembers(groups: map<Value, seq<Value>>): set<Value> {
    set g, j | g in groups && 0 <= j < |groups[g]| :: groups[g][j]
  }

  /** db_nodes_uuid: the UUIDs among uuids that a node of the database carries. */
  function StoredNodes(db: Db, uuids: set<Value>): set<Value> {
    var nodes := Table(db, NODE_MODEL);
    set pk | pk in nodes && "uuid" in nodes[pk] && nodes[pk]["uuid"] in uuids :: nodes[pk]["uuid"]
  }

  /** import_nodes_uuid: the UUIDs of the archive's nodes; KeyError without DbNode entries or a 'uuid'. */
  function ArchiveNodes(data: Data): (r: Result<set<Value>, ImportError>)
    ensures r.Ok? <==> NODE_MODEL in data.exportData && forall k :: k in data.exportData[NODE_MODEL] ==> "uuid" in data.exportData[NODE_MODEL][k]
    ensures r.Ok? ==> forall u :: u in r.value <==> exists k :: k in data.exportData[NODE_MODEL] && data.exportData[NODE_MODEL][k]["uuid"] == u
    ensures r.Err? ==> r.error == NoNodeEntries || r.error == MissingField(NODE_MODEL, "uuid")
  {
    if NODE_MODEL !in data.exportData then Err(NoNodeEntries)
    else
      var entries := data.exportData[NODE_MODEL];
      if exists k :: k in entries && "uuid" !in entries[k] then Err(MissingField(NODE_MODEL, "uuid"))
      else Ok(set k | k in entries :: entries[k]["uuid"])
  }

  /** unknown_nodes = linked_nodes | group_nodes - (db_nodes_uuid | import_nodes_uuid) */
  function UnknownNodeSet(db: Db, data: Data): Result<set<Value>, ImportError> {
    var linked := LinkedNodes(data.linksUuid);
    match ArchiveNodes(data)
    case Err(e) => Err(e)
    case Ok(archived) => Ok((linked + GroupMembers(data.groupsUuid)) - (StoredNodes(db, linked) + archived))
  }

  /**
   * A UUID is unknown exactly when a link or a group names it, the archive
   * does not hold it, and it is not a link end the database holds: group
   * members are never looked up in the database.
   */
  lemma UnknownNodesAre(db: Db, data: Data, u: Value)
    requires UnknownNodeSet(db, data).Ok?
    ensures var archived := ArchiveNodes(data).value;
      var linked := LinkedNodes(data.linksUuid);
      u in UnknownNodeSet(db, data).value <==>
        && (u in linked || u in GroupMembers(data.groupsUuid))
        && u !in archived
        && !(u in linked && exists pk :: Carries(Table(db, NODE_MODEL), pk, "uuid", u))
  {
    var linked := LinkedNodes(data.linksUuid);
    var nodes := Table(db, NODE_MODEL);
    if u in linked && exists pk :: Carries(nodes, pk, "uuid", u) {
      var pk :| Carries(nodes, pk, "uuid", u);
      assert u in StoredNodes(db, linked);
    }
    if u in StoredNodes(db, linked) {
      var pk :| pk in nodes && "uuid" in nodes[pk] && nodes[pk]["uuid"] in linked && nodes[pk]["uuid"] == u;
      assert Carries(nodes, pk, "uuid", u);
    }
  }

  /** The gate: ValueError when some node is unknown, unless unknown nodes are to be ignored. */
  function CheckUnknownNodes(db: Db, data: Data, ignoreUnknown: bool): (r: Outcome<ImportError>)
    ensures r.Pass? <==> UnknownNodeSet(db, data).Ok? && (ignoreUnknown || UnknownNodeSet(db, data).value == {})
    ensures r.Fail? && UnknownNodeSet(db, data).Ok? ==> r.error == UnknownNodes(UnknownNodeSet(db, data).value)
  {
    match UnknownNodeSet(db, data)
    case Err(e) => Fail(e)
    case Ok(unknown) => if unknown != {} && !ignoreUnknown then Fail(UnknownNodes(unknown)) else Pass
  }

  // ---------------------------------------------------------------------------
  // Known models and their load order
  // ---------------------------------------------------------------------------

  predicate KnownModel(m: string) {
    m in MODEL_ORDER || m in MODEL_MANUAL
  }

  /** The loop over all_fields_info: NotImplementedError for the first model outside both lists. */
  method CheckKnownModels(info: map<string, map<string, FieldInfo>>) returns (r: Outcome<ImportError>)
    ensures r.Pass? <==> forall m :: m in info ==> KnownModel(m)
    ensures r.Fail? ==> r.error.UnknownModel? && r.error.model in info && !KnownModel(r.error.model)
  {
    var todo := info.Keys;
    while todo != {}
      invariant todo <= info.Keys
      invariant forall m :: m in info.Keys - todo ==> KnownModel(m)
      decreases todo
    {
      var m :| m in todo;
      if !KnownModel(m) {
        return Fail(UnknownModel(m));
      }
      todo := todo - {m};
    }
    return Pass;
  }

  /** Every model a field of model i requires comes strictly earlier in the load order. */
  ghost predicate LoadsAfterDependencies(info: map<string, map<string, FieldInfo>>, i: int)
    requires 0 <= i < |MODEL_ORDER| && MODEL_ORDER[i] in info
  {
    var fields := info[MODEL_ORDER[i]];
    forall f :: f in fields && fields[f].target.Some? ==> fields[f].target.value in MODEL_ORDER[..i]
  }

  ghost predicate DependenciesOrdered(info: map<string, map<string, FieldInfo>>) {
    forall i :: 0 <= i < |MODEL_ORDER| ==> MODEL_ORDER[i] in info && LoadsAfterDependencies(info, i)
  }

  /** The dependencies of one model, checked in the dict order of its fields. */
  method CheckModelDependencies(info: map<string, map<string, FieldInfo>>, i: int) returns (r: Outcome<ImportError>)
    requires 0 <= i < |MODEL_ORDER| && MODEL_ORDER[i] in info
    ensures r.Pass? <==> LoadsAfterDependencies(info, i)
    ensures r.Fail? ==> r.error.LoadedTooEarly? && r.error.model == MODEL_ORDER[i] && r.error.dependency !in MODEL_ORDER[..i]
  {
    var fields := info[MODEL_ORDER[i]];
    var todo := fields.Keys;
    while todo != {}
      invariant todo <= fields.Keys
      invariant forall f :: f in fields.Keys - todo && fields[f].target.Some? ==> fields[f].target.value in MODEL_ORDER[..i]
      decreases todo
    {
      var f :| f in todo;
      if fields[f].target.Some? && fields[f].target.value !in MODEL_ORDER[..i] {
        return Fail(LoadedTooEarly(MODEL_ORDER[i], fields[f].target.value));
      }
      todo := todo - {f};
    }
    return Pass;
  }

  /**
   * The loop over model_order: a model of the order that all_fields_info
   * does not describe raises KeyError, and one that requires a model not
   * loaded before it raises ValueError; the first model in the order that
   * fails decides the exception.
   */
  method CheckDependencyOrder(info: map<string, map<string, FieldInfo>>) returns (r: Outcome<ImportError>)
    ensures r.Pass? <==> DependenciesOrdered(info)
    ensures r.Fail? ==> exists i :: (
      && 0 <= i < |MODEL_ORDER|
      && (forall j :: 0 <= j < i ==> MODEL_ORDER[j] in info && LoadsAfterDependencies(info, j))
      && (r.error == MissingFieldsInfo(MODEL_ORDER[i]) || (r.error.LoadedTooEarly? && r.error.model == MODEL_ORDER[i])))
  {
    for i := 0 to |MODEL_ORDER|
      invariant forall j :: 0 <= j < i ==> MODEL_ORDER[j] in info && LoadsAfterDependencies(info, j)
    {
      if MODEL_ORDER[i] !in info {
        return Fail(MissingFieldsInfo(MODEL_ORDER[i]));
      }
      var one := CheckModelDependencies(info, i);
      if one.Fail? {
        return one;
      }
    }
    return Pass;
  }

  /** A model that requires itself can never be loaded: the check refuses it. */
  lemma SelfReferenceRefused(info: map<string, map<string, FieldInfo>>, i: int, f: string)
    requires 0 <= i < |MODEL_ORDER| && MODEL_ORDER[i] in info
    requires f in info[MODEL_ORDER[i]] && info[MODEL_ORDER[i]][f].target == Some(MODEL_ORDER[i])
    ensures !DependenciesOrdered(info)
  {
    assert !LoadsAfterDependencies(info, i);
  }

  /** The dependencies of the database itself: nodes and groups on users, nodes on computers. */
  lemma StandardDependenciesOrdered(info: map<string, map<string, FieldInfo>>)
    requires USER_MODEL in info && COMPUTER_MODEL in info && NODE_MODEL in info && GROUP_MODEL in info
    requires forall f :: f in info[USER_MODEL] ==> info[USER_MODEL][f].target.None?
    requires forall f :: f in info[COMPUTER_MODEL] ==> info[COMPUTER_MODEL][f].target.None?
    requires forall f :: f in info[NODE_MODEL] && info[NODE_MODEL][f].target.Some? ==>
      info[NODE_MODEL][f].target.value in {USER_MODEL, COMPUTER_MODEL}
    requires forall f :: f in info[GROUP_MODEL] && info[GROUP_MODEL][f].target.Some? ==>
      info[GROUP_MODEL][f].target.value in {USER_MODEL, COMPUTER_MODEL, NODE_MODEL}
    ensures DependenciesOrdered(info)
  {
    assert MODEL_ORDER[..2] == [USER_MODEL, COMPUTER_MODEL];
    assert MODEL_ORDER[..3] == [USER_MODEL, COMPUTER_MODEL, NODE_MODEL];
    assert LoadsAfterDependencies(info, 0);
    assert LoadsAfterDependencies(info, 1);
    assert LoadsAfterDependencies(info, 2);
    assert LoadsAfterDependencies(info, 3);
  }

  // ---------------------------------------------------------------------------
  // import_unique_ids_mappings
  // ---------------------------------------------------------------------------

  /** The unique identifier import_data uses for a model: unique_identifiers.get(model), None if absent. */
  function IdentifierField(md: Metadata, model: string): Option<string> {
    if model in md.uniqueIdentifiers then md.uniqueIdentifiers[model] else None
  }

  /** Every entry of the model carries its identifier field. */
  ghost predicate EntriesIdentified(entries: map<nat, Record>, f: string) {
    forall k :: k in entries ==> f in entries[k]
  }

  /**
   * import_unique_ids_mappings: for every model that the archive exports
   * and unique_identifiers names, the identifier of each entry by its
   * archive pk; a model without an identifier has no entries.
   */
  ghost predicate IdsMapped(data: Data, md: Metadata, ids: map<string, map<nat, Value>>) {
    && ids.Keys == data.exportData.Keys * md.uniqueIdentifiers.Keys
    && forall m :: m in ids ==>
      && (md.uniqueIdentifiers[m].None? ==> data.exportData[m] == map[] && ids[m] == map[])
      && (md.uniqueIdentifiers[m].Some? ==>
           && EntriesIdentified(data.exportData[m], md.uniqueIdentifiers[m].value)
           && ids[m].Keys == data.exportData[m].Keys
           && forall k :: k in ids[m] ==> ids[m][k] == data.exportData[m][k][md.uniqueIdentifiers[m].value])
  }

  /**
   * {int(k): v[uid] for k, v in entries} for every exported model that
   * unique_identifiers names; a None identifier makes v[None] raise
   * KeyError as soon as the model has an entry.
   */
  method UniqueIdMappings(data: Data, md: Metadata) returns (r: Result<map<string, map<nat, Value>>, ImportError>)
    ensures r.Ok? ==> IdsMapped(data, md, r.value)
    ensures r.Err? ==> exists m :: (
      && m in data.exportData && m in md.uniqueIdentifiers
      && match md.uniqueIdentifiers[m]
         case None => r.error == NoUniqueIdentifier(m) && data.exportData[m] != map[]
         case Some(f) => r.error == MissingField(m, f) && !EntriesIdentified(data.exportData[m], f))
  {
    var mappings: map<string, map<nat, Value>> := map[];
    var todo := data.exportData.Keys * md.uniqueIdentifiers.Keys;
    while todo != {}
      invariant todo <= data.exportData.Keys * md.uniqueIdentifiers.Keys
      invariant mappings.Keys == data.exportData.Keys * md.uniqueIdentifiers.Keys - todo
      invariant forall m :: m in mappings ==>
        && (md.uniqueIdentifiers[m].None? ==> data.exportData[m] == map[] && mappings[m] == map[])
        && (md.uniqueIdentifiers[m].Some? ==>
             && EntriesIdentified(data.exportData[m], md.uniqueIdentifiers[m].value)
             && mappings[m].Keys == data.exportData[m].Keys
             && forall k :: k in mappings[m] ==> mappings[m][k] == data.exportData[m][k][md.uniqueIdentifiers[m].value])
      decreases todo
    {
      var m :| m in todo;
      todo := todo - {m};
      var entries := data.exportData[m];
      match md.uniqueIdentifiers[m]
      case None =>
        if entries != map[] {
          return Err(NoUniqueIdentifier(m));
        }
        mappings := mappings[m := map[]];
      case Some(f) =>
        if !EntriesIdentifiedNow(entries, f) {
          return Err(MissingField(m, f));
        }
        mappings := mappings[m := map k | k in entries :: entries[k][f]];
    }
    return Ok(mappings);
  }

  /** Whether every entry carries the field, as the loop computes it. */
  function EntriesIdentifiedNow(entries: map<nat, Record>, f: string): (b: bool)
    ensures b <==> EntriesIdentified(entries, f)
  {
    forall k :: k in entries ==> f in entries[k]
  }
}
