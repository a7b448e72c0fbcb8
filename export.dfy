/**
 * export_tree: from the selected entries to the unpacked archive it writes,
 * data.json, metadata.json and the nodes/ folders; or nothing when no
 * entry is exported.
 */
module Exporter {
  import opened Wrappers
  import opened Values
  import opened Attributes
  import opened Archive
  import opened Store
  import opened Schema
  import opened Checks
  import opened Creation
  import opened Selection
  import opened Closure

  /** The UUID of an entry of a model, Null when it has none. */
  function UuidOf(db: Db, model: string, pk: nat): Value {
    if pk in Table(db, model) then ObjectUuid(Table(db, model)[pk]) else Null
  }

  /** The start of the worklist: one Q(id__in=...) per selected model. */
  function StartQueries(sel: map<string, set<nat>>): (r: Pending)
    ensures r.Keys == sel.Keys
    ensures forall m :: m in r ==> r[m] == {IdIn(sel[m])}
  {
    map m | m in sel :: {IdIn(sel[m])}
  }

  // ---------------------------------------------------------------------------
  // Node attributes
  // ---------------------------------------------------------------------------

  /** n.attributes: the node's attribute dict, empty when it has none. */
  function NodeAttributes(db: Db, pk: nat): map<string, Value> {
    if pk in db.attributes && db.attributes[pk].Dict? then db.attributes[pk].fields else map[]
  }

  /** What serialize_dict needs of a node's attributes: every value is one strftime can format. */
  predicate AttributesSerializable(db: Db, pk: nat) {
    forall k :: k in NodeAttributes(db, pk) ==> Formattable(NodeAttributes(db, pk)[k])
  }

  /** serialize_dict succeeds exactly on serialisable attributes. */
  lemma SerializableAttributes(db: Db, pk: nat)
    ensures AttributesSerializable(db, pk) <==> SerializeDict(NodeAttributes(db, pk), {}, map[]).Ok?
  {
  }

  /**
   * node_attributes and node_attributes_conversion: serialize_dict of every
   * exported node's attributes, which deserialize_attributes reads back as
   * the same attributes (tuples as lists).
   */
  method SerializeAttributes(db: Db, nodes: set<nat>) returns (r: Result<(map<nat, Value>, map<nat, Value>), ExportError>)
    ensures r.Ok? <==> forall pk :: pk in nodes ==> AttributesSerializable(db, pk)
    ensures r.Ok? ==> r.value.0.Keys == nodes && r.value.1.Keys == nodes
    ensures r.Ok? ==> forall pk :: pk in nodes ==>
      DeserializeAttributes(r.value.0[pk], r.value.1[pk]) == Ok(Normalize(Dict(NodeAttributes(db, pk))))
    ensures r.Err? ==> exists pk :: pk in nodes && !AttributesSerializable(db, pk) && r.error == UnserializableAttributes(pk)
  {
    var data: map<nat, Value> := map[];
    var conversion: map<nat, Value> := map[];
    var todo := nodes;
    while todo != {}
      invariant todo <= nodes
      invariant AttributesWritten(db, nodes - todo, data, conversion)
      decreases todo
    {
      var pk :| pk in todo;
      var sd := SerializeDict(NodeAttributes(db, pk), {}, map[]);
      SerializableAttributes(db, pk);
      if sd.Err? {
        return Err(UnserializableAttributes(pk));
      }
      SerializeDictRoundTrip(NodeAttributes(db, pk), {}, map[]);
      PlainRenamedNormal(NodeAttributes(db, pk));
      AttributesStep(db, nodes - todo, data, conversion, pk, Dict(sd.value.data), Dict(sd.value.conversion));
      data, conversion := data[pk := Dict(sd.value.data)], conversion[pk := Dict(sd.value.conversion)];
      assert nodes - (todo - {pk}) == (nodes - todo) + {pk};
      todo := todo - {pk};
    }
    return Ok((data, conversion));
  }

  /** The attributes of the nodes in done are written, and each reads back as the node's attributes. */
  ghost predicate AttributesWritten(db: Db, done: set<nat>, data: map<nat, Value>, conversion: map<nat, Value>) {
    && data.Keys == done && conversion.Keys == done
    && forall pk :: pk in done ==>
      && AttributesSerializable(db, pk)
      && DeserializeAttributes(data[pk], conversion[pk]) == Ok(Normalize(Dict(NodeAttributes(db, pk))))
  }

  lemma AttributesStep(db: Db, done: set<nat>, data: map<nat, Value>, conversion: map<nat, Value>, pk: nat, d: Value, c: Value)
    requires AttributesWritten(db, done, data, conversion)
    requires AttributesSerializable(db, pk)
    requires DeserializeAttributes(d, c) == Ok(Normalize(Dict(NodeAttributes(db, pk))))
    ensures AttributesWritten(db, done + {pk}, data[pk := d], conversion[pk := c])
  {
    var data', conversion' := data[pk := d], conversion[pk := c];
    assert data'.Keys == done + {pk} && conversion'.Keys == done + {pk};
    forall q | q in done + {pk}
      ensures AttributesSerializable(db, q)
      ensures DeserializeAttributes(data'[q], conversion'[q]) == Ok(Normalize(Dict(NodeAttributes(db, q))))
    {
      if q == pk {
        assert data'[q] == d && conversion'[q] == c;
      } else {
        assert data'[q] == data[q] && conversion'[q] == conversion[q];
      }
    }
  }

  // ---------------------------------------------------------------------------
  // Links, groups and folders
  // ---------------------------------------------------------------------------

  /** An entry of links_uuid for a stored link. */
  function LinkRefOf(db: Db, l: Link): LinkRef {
    LinkRef(UuidOf(db, NODE_MODEL, l.input), UuidOf(db, NODE_MODEL, l.output), l.linkLabel)
  }

  /** linksquery: every link into an exported node, whether or not its input is exported. */
  function ParentLinks(db: Db, nodes: set<nat>): set<LinkRef> {
    set l | l in db.links && l.output in nodes :: LinkRefOf(db, l)
  }

  /** A list of the elements of a set, each once. */
  method Enumerate<T>(xs: set<T>) returns (s: seq<T>)
    ensures forall x :: x in s <==> x in xs
    ensures forall i, j :: 0 <= i < j < |s| ==> s[i] != s[j]
  {
    s := [];
    var todo := xs;
    while todo != {}
      invariant todo <= xs
      invariant forall x :: x in s <==> x in xs - todo
      invariant forall i, j :: 0 <= i < j < |s| ==> s[i] != s[j]
      decreases todo
    {
      var x :| x in todo;
      assert x !in s;
      s, todo := s + [x], todo - {x};
    }
  }

  /** The UUIDs of a group's nodes: g.dbnodes.values_list('uuid'). */
  function MemberUuids(db: Db, g: nat): set<Value> {
    var members := if g in db.groupNodes then db.groupNodes[g] else {};
    set n | n in members :: UuidOf(db, NODE_MODEL, n)
  }

  /** groups_uuid: per selected group, its UUID and the UUIDs of its nodes. */
  method GroupsUuid(db: Db, groups: set<nat>) returns (r: map<Value, seq<Value>>)
    ensures forall u :: u in r <==> exists g :: g in groups && UuidOf(db, GROUP_MODEL, g) == u
    ensures forall u :: u in r ==> exists g :: g in groups && UuidOf(db, GROUP_MODEL, g) == u && (forall x :: x in r[u] <==> x in MemberUuids(db, g))
  {
    r := map[];
    var todo := groups;
    while todo != {}
      invariant todo <= groups
      invariant forall u :: u in r <==> exists g :: g in groups - todo && UuidOf(db, GROUP_MODEL, g) == u
      invariant forall u :: u in r ==> exists g :: g in groups - todo && UuidOf(db, GROUP_MODEL, g) == u && (forall x :: x in r[u] <==> x in MemberUuids(db, g))
      decreases todo
    {
      var g :| g in todo;
      var members := Enumerate(MemberUuids(db, g));
      r := r[UuidOf(db, GROUP_MODEL, g) := members];
      todo := todo - {g};
    }
  }

  /** The UUIDs of the exported nodes. */
  function NodeUuids(db: Db, nodes: set<nat>): set<Value> {
    set pk | pk in nodes && pk in Table(db, NODE_MODEL) :: UuidOf(db, NODE_MODEL, pk)
  }

  /** The loop over the exported nodes' UUIDs: each repository folder copied under nodes/. */
  method ExportFolders(db: Db, repo: Repository, nodes: set<nat>) returns (r: Result<map<Value, Folder>, ExportError>)
    ensures r.Ok? <==> NodeUuids(db, nodes) <= repo.Keys
    ensures r.Ok? ==> r.value.Keys == NodeUuids(db, nodes) && forall u :: u in r.value ==> r.value[u] == repo[u]
    ensures r.Err? ==> exists u :: u in NodeUuids(db, nodes) && u !in repo && r.error == MissingRepositoryFolder(u)
  {
    var uuids := NodeUuids(db, nodes);
    var folders: map<Value, Folder> := map[];
    var todo := uuids;
    while todo != {}
      invariant todo <= uuids
      invariant folders.Keys == uuids - todo && (uuids - todo) <= repo.Keys
      invariant forall u :: u in folders ==> folders[u] == repo[u]
      decreases todo
    {
      var u :| u in todo;
      if u !in repo {
        return Err(MissingRepositoryFolder(u));
      }
      folders, todo := folders[u := repo[u]], todo - {u};
    }
    return Ok(folders);
  }

  // ---------------------------------------------------------------------------
  // export_tree
  // ---------------------------------------------------------------------------

  /** The entries of `what` are rows of the database. */
  predicate Stored(db: Db, what: seq<Entry>) {
    forall i :: 0 <= i < |what| ==> what[i].pk in Table(db, what[i].model)
  }

  /** The selection after also_parents and also_calc_outputs. */
  function Selected(db: Db, what: seq<Entry>, alsoParents: bool, alsoCalcOutputs: bool, calcPrefix: string): map<string, set<nat>> {
    ExpandNodes(db, StartIds(what), alsoParents, alsoCalcOutputs, calcPrefix)
  }

  /** The exported node pks: export_data.get(DbNode, {}).keys(). */
  function ExportedNodes(ex: Export): set<nat> {
    Rows(ex, NODE_MODEL).Keys
  }

  /** The archive export_tree writes for a non-empty export. */
  ghost predicate Written(
    db: Db, repo: Repository, what: seq<Entry>, sel: map<string, set<nat>>, pkg: Package)
  {
    var info := pkg.metadata.allFieldsInfo;
    var ex := pkg.data.exportData;
    && CheckVersion(pkg.metadata) == Pass
    && ExportedRows(db, info, ex) && Closure.Closed(db, info, ex)
    && Covered(db, ex, StartQueries(sel)) && Justified(db, info, StartQueries(sel), ex)
    && !NoEntries(ex)
    && pkg.data.nodeAttributes.Keys == ExportedNodes(ex) && pkg.data.nodeAttributesConversion.Keys == ExportedNodes(ex)
    && (forall pk :: pk in ExportedNodes(ex) ==>
          DeserializeAttributes(pkg.data.nodeAttributes[pk], pkg.data.nodeAttributesConversion[pk])
            == Ok(Normalize(Dict(NodeAttributes(db, pk)))))
    && (forall l :: l in pkg.data.linksUuid <==> l in ParentLinks(db, ExportedNodes(ex)))
    && (forall u :: u in pkg.data.groupsUuid <==> exists g :: g in StartGroups(what) && UuidOf(db, GROUP_MODEL, g) == u)
    && (forall u :: u in pkg.data.groupsUuid ==>
          exists g :: g in StartGroups(what) && UuidOf(db, GROUP_MODEL, g) == u && (forall x :: x in pkg.data.groupsUuid[u] <==> x in MemberUuids(db, g)))
    && pkg.folders.Keys == NodeUuids(db, ExportedNodes(ex))
    && (forall u :: u in pkg.folders ==> u in repo && pkg.folders[u] == repo[u])
  }

  /**
   * The causes of a failed export: the schema walk raises; a licence rule
   * is given without a DbNode selection; a selected node's licence is
   * refused; an entry cannot be collected or serialised; a node's
   * attributes do not serialise; a node's folder is missing.
   */
  ghost predicate ExportRefused(
    db: Db, repo: Repository, schema: ModelSchema, sel: map<string, set<nat>>,
    allowed: Option<LicenseRule>, forbidden: Option<LicenseRule>, e: ExportError)
  {
    match e
    case SchemaFailed => exists se :: SchemaRefused(schema, se)
    case NoNodeSelection => (allowed.Some? || forbidden.Some?) && NODE_MODEL !in sel
    case NotAllowedLicense(pk, license) =>
      && NODE_MODEL in sel && pk in sel[NODE_MODEL] && pk in Table(db, NODE_MODEL)
      && License(db, pk) == Some(license) && !Permitted(allowed, forbidden, license)
    case ForbiddenLicense(pk, license) =>
      && NODE_MODEL in sel && pk in sel[NODE_MODEL] && pk in Table(db, NODE_MODEL)
      && License(db, pk) == Some(license) && !Permitted(allowed, forbidden, license)
    case UnknownExportModel(_) => true
    case Unserializable(_) => true
    case UnserializableAttributes(pk) => !AttributesSerializable(db, pk)
    case MissingRepositoryFolder(u) => u !in repo
  }

  /**
   * export_tree: Ok(None) is the early return when nothing is exported,
   * which happens exactly when `what` is empty; otherwise the archive
   * holds every selected entry, closed under foreign keys, with the
   * exported nodes' attributes, the links into them, the selected groups
   * and the node folders.  A licence rule that lets the export through
   * permits every licensed selected node.
   */
  method ExportTree(
    db: Db, repo: Repository, schema: ModelSchema, what: seq<Entry>,
    alsoParents: bool, alsoCalcOutputs: bool, calcPrefix: string,
    allowed: Option<LicenseRule>, forbidden: Option<LicenseRule>)
    returns (r: Result<Option<Package>, ExportError>)
    requires HasKeptField(schema) && Stored(db, what)
    ensures r.Ok? ==> (r.value.None? <==> |what| == 0)
    ensures r.Ok? && r.value.Some? ==> Written(db, repo, what, Selected(db, what, alsoParents, alsoCalcOutputs, calcPrefix), r.value.value)
    ensures r.Ok? && r.value.Some? ==> var md := r.value.value.metadata;
      forall m :: m in md.allFieldsInfo ==> m in schema && Describe(schema[m], Excluded(m)) == Ok(md.allFieldsInfo[m])
    ensures r.Ok? && (allowed.Some? || forbidden.Some?) ==>
      var sel := Selected(db, what, alsoParents, alsoCalcOutputs, calcPrefix);
      NODE_MODEL in sel && forall pk :: pk in sel[NODE_MODEL] && pk in Table(db, NODE_MODEL) && License(db, pk).Some? ==>
        Permitted(allowed, forbidden, License(db, pk).value)
    ensures r.Err? ==> ExportRefused(db, repo, schema, Selected(db, what, alsoParents, alsoCalcOutputs, calcPrefix), allowed, forbidden, r.error)
  {
    var fieldsInfo := GetAllFieldsInfo(schema);
    if fieldsInfo.Err? {
      return Err(SchemaFailed);
    }
    var info, uniqueIds := fieldsInfo.value.0, fieldsInfo.value.1;
    var ids, groups := SelectEntries(what);
    var sel := ExpandNodes(db, ids, alsoParents, alsoCalcOutputs, calcPrefix);
    var gate := LicenseGate(db, sel, allowed, forbidden);
    if gate.Fail? {
      return Err(gate.error);
    }
    SelectionIdle(db, what, alsoParents, alsoCalcOutputs, calcPrefix);
    r := CollectAndWrite(db, repo, what, sel, info, uniqueIds, groups);
  }

  /** The export_data loop, then the early return on an empty export or the package. */
  method CollectAndWrite(
    db: Db, repo: Repository, what: seq<Entry>, sel: map<string, set<nat>>,
    info: map<string, map<string, FieldInfo>>, uniqueIds: map<string, Option<string>>, groups: set<nat>)
    returns (r: Result<Option<Package>, ExportError>)
    requires groups == StartGroups(what)
    ensures r.Ok? ==> (r.value.None? <==> Idle(db, StartQueries(sel)))
    ensures r.Ok? && r.value.Some? ==> Written(db, repo, what, sel, r.value.value) && r.value.value.metadata.allFieldsInfo == info
    ensures r.Err? ==> match r.error
      case UnknownExportModel(_) => true
      case Unserializable(_) => true
      case UnserializableAttributes(pk) => !AttributesSerializable(db, pk)
      case MissingRepositoryFolder(u) => u !in repo
      case _ => false
  {
    var collected := CollectEntries(db, info, StartQueries(sel));
    if collected.Err? {
      return Err(collected.error);
    }
    var ex := collected.value;
    if NoEntries(ex) {
      return Ok(None);
    }
    var pkg := WritePackage(db, repo, what, sel, info, uniqueIds, ex, groups);
    if pkg.Err? {
      return Err(pkg.error);
    }
    return Ok(Some(pkg.value));
  }

  /**
   * The rest of export_tree once export_data is collected: the exported
   * nodes' attributes, the links into them, the groups and the node
   * folders, packed with the metadata.  A node whose attributes do not
   * serialise or whose folder is missing fails the export.
   */
  method WritePackage(
    db: Db, repo: Repository, what: seq<Entry>, sel: map<string, set<nat>>,
    info: map<string, map<string, FieldInfo>>, uniqueIds: map<string, Option<string>>, ex: Export, groups: set<nat>)
    returns (r: Result<Package, ExportError>)
    requires groups == StartGroups(what)
    requires ExportedRows(db, info, ex) && Closure.Closed(db, info, ex)
    requires Covered(db, ex, StartQueries(sel)) && Justified(db, info, StartQueries(sel), ex) && !NoEntries(ex)
    ensures r.Ok? ==> Written(db, repo, what, sel, r.value) && r.value.metadata.allFieldsInfo == info
    ensures r.Err? ==>
      || (exists pk :: pk in ExportedNodes(ex) && !AttributesSerializable(db, pk) && r.error == UnserializableAttributes(pk))
      || (exists u :: u in NodeUuids(db, ExportedNodes(ex)) && u !in repo && r.error == MissingRepositoryFolder(u))
  {
    var nodes := ExportedNodes(ex);
    var attributes := SerializeAttributes(db, nodes);
    if attributes.Err? {
      return Err(attributes.error);
    }
    var links := Enumerate(ParentLinks(db, nodes));
    var groupsUuid := GroupsUuid(db, groups);
    var folders := ExportFolders(db, repo, nodes);
    if folders.Err? {
      return Err(folders.error);
    }
    var data := Data(ex, links, groupsUuid, attributes.value.0, attributes.value.1);
    return Ok(Package(Metadata(EXPORT_VERSION, info, uniqueIds), data, folders.value));
  }

  /** The start of a stored selection selects nothing exactly when `what` is empty. */
  lemma SelectionIdle(db: Db, what: seq<Entry>, alsoParents: bool, alsoCalcOutputs: bool, calcPrefix: string)
    requires Stored(db, what)
    ensures Idle(db, StartQueries(Selected(db, what, alsoParents, alsoCalcOutputs, calcPrefix))) <==> |what| == 0
  {
    var ids := StartIds(what);
    var sel := Selected(db, what, alsoParents, alsoCalcOutputs, calcPrefix);
    var start := StartQueries(sel);
    ExpandNodesSpec(db, ids, alsoParents, alsoCalcOutputs, calcPrefix);
    if |what| > 0 {
      var m, pk := what[0].model, what[0].pk;
      assert Entry(m, pk) in what;
      assert m in sel && pk in sel[m];
      assert pk in Matches(db, m, IdIn(sel[m]));
      assert pk in MatchAll(db, m, start[m]);
    } else {
      assert ids == map[];
      assert Parents(db, {}) == {};
      assert CalcOutputs(db, {}, calcPrefix) == {};
      forall m | m in start
        ensures MatchAll(db, m, start[m]) == {}
      {
        assert sel[m] == {};
      }
    }
  }
}
