/**
 * The start of export_tree: the entries of `what` grouped by model, the
 * nodes added for their parents and for the outputs of calculations, and
 * the licensing gate on the selected nodes.
 */
module Selection {
  import opened Wrappers
  import opened Values
  import opened Archive
  import opened Store

  datatype ExportError =
    /** KeyError: all_fields_info does not describe a model to export. */
    | UnknownExportModel(model: string)
    /** KeyError: a licence rule is given but no node was selected. */
    | NoNodeSelection
    /** LicensingException: a node's licence is not allowed. */
    | NotAllowedLicense(pk: nat, license: string)
    /** LicensingException: a node's licence is forbidden. */
    | ForbiddenLicense(pk: nat, license: string)
    /** serialize_dict raised on an entry of this model. */
    | Unserializable(model: string)
    /** get_all_fields_info raised. */
    | SchemaFailed
    /** serialize_dict raised on the attributes of this node. */
    | UnserializableAttributes(pk: nat)
    /** insert_path found no repository folder for this node UUID. */
    | MissingRepositoryFolder(uuid: Value)

  /** One database entry of `what`: the class string of its model and its pk. */
  datatype Entry = Entry(model: string, pk: nat)

  /** The pks of `what` per model, for the models it has entries of. */
  function StartIds(what: seq<Entry>): (r: map<string, set<nat>>)
    ensures forall m :: m in r <==> exists i :: 0 <= i < |what| && what[i].model == m
    ensures forall m, pk :: m in r ==> (pk in r[m] <==> Entry(m, pk) in what)
  {
    map m | m in ModelsOf(what) :: PksOf(what, m)
  }

  function ModelsOf(what: seq<Entry>): set<string> {
    set i | 0 <= i < |what| :: what[i].model
  }

  function PksOf(what: seq<Entry>, m: string): set<nat> {
    set i | 0 <= i < |what| && what[i].model == m :: what[i].pk
  }

  /** The groups of `what`. */
  function StartGroups(what: seq<Entry>): (r: set<nat>)
    ensures forall pk :: pk in r <==> Entry(GROUP_MODEL, pk) in what
  {
    set i | 0 <= i < |what| && what[i].model == GROUP_MODEL :: what[i].pk
  }

  /** entries_ids_to_add and groups_entries: the loop over `what`. */
  method SelectEntries(what: seq<Entry>) returns (ids: map<string, set<nat>>, groups: set<nat>)
    ensures ids == StartIds(what) && groups == StartGroups(what)
  {
    ids, groups := map[], {};
    for i := 0 to |what|
      invariant forall m :: m in ids <==> exists j :: 0 <= j < i && what[j].model == m
      invariant forall m, pk :: m in ids ==> (pk in ids[m] <==> Entry(m, pk) in what[..i])
      invariant forall pk :: pk in groups <==> Entry(GROUP_MODEL, pk) in what[..i]
    {
      var e := what[i];
      assert what[..i + 1] == what[..i] + [e];
      ids := ids[e.model := (if e.model in ids then ids[e.model] else {}) + {e.pk}];
      if e.model == GROUP_MODEL {
        groups := groups + {e.pk};
      }
    }
    assert what[..|what|] == what;
    SameSelection(ids, StartIds(what), what);
  }

  /** Two selections with the same models and the same pks per model are one. */
  lemma SameSelection(a: map<string, set<nat>>, b: map<string, set<nat>>, what: seq<Entry>)
    requires forall m :: m in a <==> exists i :: 0 <= i < |what| && what[i].model == m
    requires forall m :: m in b <==> exists i :: 0 <= i < |what| && what[i].model == m
    requires forall m, pk :: m in a ==> (pk in a[m] <==> Entry(m, pk) in what)
    requires forall m, pk :: m in b ==> (pk in b[m] <==> Entry(m, pk) in what)
    ensures a == b
  {
    forall m | m in a
      ensures a[m] == b[m]
    {
      assert forall pk :: pk in a[m] <==> pk in b[m];
    }
  }

  /** The selected node pks; entries_ids_to_add is a defaultdict, so reading the key adds it. */
  function NodesOf(ids: map<string, set<nat>>): set<nat> {
    if NODE_MODEL in ids then ids[NODE_MODEL] else {}
  }

  /** DbNode.objects.filter(children__in=nodes): the nodes with a DbPath to one of them. */
  function Parents(db: Db, nodes: set<nat>): set<nat> {
    set pc | pc in db.paths && pc.1 in nodes :: pc.0
  }

  /** A node whose type string starts with the calculations' query type string. */
  predicate IsCalculation(db: Db, pk: nat, calcPrefix: string) {
    var nodes := Table(db, NODE_MODEL);
    pk in nodes && "type" in nodes[pk] && nodes[pk]["type"].Str? && calcPrefix <= nodes[pk]["type"].text
  }

  /** The outputs of the calculations among the nodes (one filter: the same input meets both conditions). */
  function CalcOutputs(db: Db, nodes: set<nat>, calcPrefix: string): set<nat> {
    set l | l in db.links && l.input in nodes && IsCalculation(db, l.input, calcPrefix) :: l.output
  }

  /** The also_parents and also_calc_outputs steps. */
  function ExpandNodes(db: Db, ids: map<string, set<nat>>, alsoParents: bool, alsoCalcOutputs: bool, calcPrefix: string): map<string, set<nat>> {
    var withParents := if alsoParents then ids[NODE_MODEL := NodesOf(ids) + Parents(db, NodesOf(ids))] else ids;
    if alsoCalcOutputs then
      withParents[NODE_MODEL := NodesOf(withParents) + CalcOutputs(db, NodesOf(withParents), calcPrefix)]
    else withParents
  }

  /**
   * The selection grows only in DbNode, by every parent of a selected node
   * and then every output of a selected calculation; reading the node list
   * adds the DbNode key even when it stays empty.
   */
  lemma ExpandNodesSpec(db: Db, ids: map<string, set<nat>>, alsoParents: bool, alsoCalcOutputs: bool, calcPrefix: string)
    ensures var r := ExpandNodes(db, ids, alsoParents, alsoCalcOutputs, calcPrefix);
      && r.Keys == ids.Keys + (if alsoParents || alsoCalcOutputs then {NODE_MODEL} else {})
      && (forall m :: m in ids && m != NODE_MODEL ==> r[m] == ids[m])
      && NodesOf(ids) <= NodesOf(r)
      && (alsoParents ==> forall p, c :: (p, c) in db.paths && c in NodesOf(ids) ==> p in NodesOf(r))
      && (alsoCalcOutputs ==> forall l :: (
            && l in db.links && IsCalculation(db, l.input, calcPrefix)
            && (l.input in NodesOf(ids) || (alsoParents && l.input in Parents(db, NodesOf(ids))))) ==> l.output in NodesOf(r))
      && (forall n :: n in NodesOf(r) ==>
            || n in NodesOf(ids)
            || (alsoParents && exists c :: (n, c) in db.paths && c in NodesOf(ids))
            || (alsoCalcOutputs && exists l :: (
                  && l in db.links && l.output == n && IsCalculation(db, l.input, calcPrefix)
                  && (l.input in NodesOf(ids) || (alsoParents && l.input in Parents(db, NodesOf(ids)))))))
  {
    var r := ExpandNodes(db, ids, alsoParents, alsoCalcOutputs, calcPrefix);
    if alsoParents {
      forall p, c | (p, c) in db.paths && c in NodesOf(ids)
        ensures p in Parents(db, NodesOf(ids))
      {
        assert (p, c).1 in NodesOf(ids);
      }
    }
    var withParents := if alsoParents then ids[NODE_MODEL := NodesOf(ids) + Parents(db, NodesOf(ids))] else ids;
    forall n | n in NodesOf(r)
      ensures || n in NodesOf(ids)
              || (alsoParents && exists c :: (n, c) in db.paths && c in NodesOf(ids))
              || (alsoCalcOutputs && exists l :: (
                    && l in db.links && l.output == n && IsCalculation(db, l.input, calcPrefix)
                    && (l.input in NodesOf(ids) || (alsoParents && l.input in Parents(db, NodesOf(ids))))))
    {
      if n !in NodesOf(withParents) {
        var l :| l in db.links && l.input in NodesOf(withParents) && IsCalculation(db, l.input, calcPrefix) && l.output == n;
      } else if n !in NodesOf(ids) {
        var pc :| pc in db.paths && pc.1 in NodesOf(ids) && pc.0 == n;
      }
    }
  }

  // ---------------------------------------------------------------------------
  // The licensing gate
  // ---------------------------------------------------------------------------

  /**
   * allowed_licenses / forbidden_licenses: a list of licence names, or a
   * function; a function's result is None when it raises.
   */
  datatype LicenseRule =
    | Listed(names: seq<string>)
    | Decides(verdict: string -> Option<bool>)

  /**
   * The allow check passes: the licence is listed, or the function returns
   * True. A function that raises admits nothing, and a list admits exactly
   * its members.
   */
  predicate Allows(rule: LicenseRule, license: string): (b: bool)
    ensures rule.Decides? && rule.verdict(license).None? ==> !b
    ensures rule.Listed? ==> (b <==> license in rule.names)
  {
    match rule
    case Listed(names) => license in names
    case Decides(verdict) => verdict(license) == Some(true)
  }

  /**
   * The deny check fails: the licence is listed, or the function returns
   * True or raises. A function that raises forbids the licence, and a rule
   * used both ways forbids every licence it allows.
   */
  predicate Forbids(rule: LicenseRule, license: string): (b: bool)
    ensures rule.Decides? && rule.verdict(license).None? ==> b
    ensures rule.Listed? ==> (b <==> license in rule.names)
    ensures Allows(rule, license) ==> b
  {
    match rule
    case Listed(names) => license in names
    case Decides(verdict) => verdict(license) != Some(false)
  }

  /** A licence passes both checks that are given. */
  predicate Permitted(allowed: Option<LicenseRule>, forbidden: Option<LicenseRule>, license: string) {
    (allowed.None? || Allows(allowed.value, license)) && (forbidden.None? || !Forbids(forbidden.value, license))
  }

  /** The 'source.license' attribute of a node: its text, or '' when it is not a string. */
  function License(db: Db, pk: nat): Option<string> {
    if pk in db.attributes && db.attributes[pk].Dict? && "source" in db.attributes[pk].fields then
      var source := db.attributes[pk].fields["source"];
      if source.Dict? && "license" in source.fields then
        Some(if source.fields["license"].Str? then source.fields["license"].text else "")
      else None
    else None
  }

  /** node_licenses: the selected nodes that carry a licence, with it. */
  function NodeLicenses(db: Db, nodes: set<nat>): (r: map<nat, string>)
    ensures forall pk :: pk in r <==> pk in nodes && pk in Table(db, NODE_MODEL) && License(db, pk).Some?
  {
    map pk | pk in nodes && pk in Table(db, NODE_MODEL) && License(db, pk).Some? :: License(db, pk).value
  }

  /** The loop over node_licenses: per node, the allow check and then the deny check. */
  method CheckLicenses(licenses: map<nat, string>, allowed: Option<LicenseRule>, forbidden: Option<LicenseRule>)
    returns (r: Outcome<ExportError>)
    ensures r.Pass? <==> forall pk :: pk in licenses ==> Permitted(allowed, forbidden, licenses[pk])
    ensures r.Fail? ==> exists pk :: (
      && pk in licenses
      && (|| (allowed.Some? && !Allows(allowed.value, licenses[pk]) && r.error == NotAllowedLicense(pk, licenses[pk]))
          || (&& Permitted(allowed, None, licenses[pk]) && forbidden.Some? && Forbids(forbidden.value, licenses[pk])
              && r.error == ForbiddenLicense(pk, licenses[pk]))))
  {
    var todo := licenses.Keys;
    while todo != {}
      invariant todo <= licenses.Keys
      invariant forall pk :: pk in licenses.Keys - todo ==> Permitted(allowed, forbidden, licenses[pk])
      decreases todo
    {
      var pk :| pk in todo;
      var license := licenses[pk];
      if allowed.Some? && !Allows(allowed.value, license) {
        return Fail(NotAllowedLicense(pk, license));
      }
      if forbidden.Some? && Forbids(forbidden.value, license) {
        return Fail(ForbiddenLicense(pk, license));
      }
      todo := todo - {pk};
    }
    return Pass;
  }

  /**
   * The gate: skipped when neither rule is given; otherwise the DbNode
   * selection must exist and every licensed node in it must pass.
   */
  method LicenseGate(db: Db, ids: map<string, set<nat>>, allowed: Option<LicenseRule>, forbidden: Option<LicenseRule>)
    returns (r: Outcome<ExportError>)
    ensures allowed.None? && forbidden.None? ==> r.Pass?
    ensures (allowed.Some? || forbidden.Some?) && NODE_MODEL !in ids ==> r == Fail(NoNodeSelection)
    ensures r.Pass? && NODE_MODEL in ids ==>
      forall pk :: pk in ids[NODE_MODEL] && pk in Table(db, NODE_MODEL) && License(db, pk).Some? ==>
        Permitted(allowed, forbidden, License(db, pk).value)
    ensures (allowed.Some? || forbidden.Some?) && NODE_MODEL in ids ==>
      (r.Pass? <== forall pk :: pk in ids[NODE_MODEL] && pk in Table(db, NODE_MODEL) && License(db, pk).Some? ==>
        Permitted(allowed, forbidden, License(db, pk).value))
    ensures r.Fail? && NODE_MODEL in ids ==> exists pk :: (
      && pk in ids[NODE_MODEL] && pk in Table(db, NODE_MODEL) && License(db, pk).Some?
      && !Permitted(allowed, forbidden, License(db, pk).value)
      && r.error in {NotAllowedLicense(pk, License(db, pk).value), ForbiddenLicense(pk, License(db, pk).value)})
  {
    if allowed.None? && forbidden.None? {
      return Pass;
    }
    if NODE_MODEL !in ids {
      return Fail(NoNodeSelection);
    }
    var licenses := NodeLicenses(db, ids[NODE_MODEL]);
    r := CheckLicenses(licenses, allowed, forbidden);
  }
}
