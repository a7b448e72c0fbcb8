/**
 * What a successful import_data leaves behind, and what importing the same
 * archive again then does: every entry of the archive is in the database
 * under its unique identifier, so a second import finds every entry
 * existing, creates no row and stores no link.
 */
module Reimport {
  import opened Wrappers
  import opened Values
  import opened Archive
  import opened Store
  import opened Checks
  import opened Creation
  import opened Linking
  import opened Grouping
  import opened Importer

  /**
   * The unique identifier of each model of the order is a plain text
   * column: deserialising an entry copies it unchanged (the 'uuid' of
   * nodes, computers and groups and the 'email' of users are such).
   */
  ghost predicate PlainIdentifiers(md: Metadata, data: Data) {
    forall j :: 0 <= j < |MODEL_ORDER| && IdentifierField(md, MODEL_ORDER[j]).Some? ==>
      var m := MODEL_ORDER[j];
      var f := IdentifierField(md, m).value;
      && PlainIdentifier(FieldsInfoOf(md, m), f)
      && forall k :: k in EntriesOf(data, m) && f in EntriesOf(data, m)[k] ==> EntriesOf(data, m)[k][f].Str?
  }

  /** Some row of the table carries every entry's identifier. */
  ghost predicate EntriesCarried(table: map<nat, Record>, entries: map<nat, Record>, f: string) {
    forall k :: k in entries ==> f in entries[k] && exists pk :: Carries(table, pk, f, entries[k][f])
  }

  /**
   * After one model was created, every entry of it, existing or new, is
   * carried by a row: an existing one by the row the reverse mapping
   * found, a new one by the row it was deserialised into.
   */
  lemma ModelEntriesCarried(
    before: map<nat, Record>, after: map<nat, Record>, md: Metadata, data: Data, m: string, f: string,
    existing: map<nat, Record>, additions: map<nat, Record>, uniqueIds: map<string, map<nat, Value>>,
    reverse: map<string, map<Value, nat>>, placed: map<nat, nat>)
    requires m in reverse && RowsKept(before, after)
    requires StoredAt(before, after, additions, placed, FieldsInfoOf(md, m), uniqueIds, reverse)
    requires ModelSplit(md, data, m, reverse[m], existing, additions) && IdentifierField(md, m) == Some(f)
    requires Matched(before, EntriesOf(data, m), f, reverse[m], additions)
    requires PlainIdentifier(FieldsInfoOf(md, m), f)
    requires forall k :: k in EntriesOf(data, m) && f in EntriesOf(data, m)[k] ==> EntriesOf(data, m)[k][f].Str?
    ensures EntriesCarried(after, EntriesOf(data, m), f)
  {
    var entries := EntriesOf(data, m);
    forall k | k in entries
      ensures f in entries[k] && exists pk :: Carries(after, pk, f, entries[k][f])
    {
      if k in existing {
        var u := existing[k][f];
        assert Carries(before, reverse[m][u], f, u);
        assert Carries(after, reverse[m][u], f, u);
      } else {
        assert k in additions;
        IdentifierCopied(additions[k], after[placed[k]], FieldsInfoOf(md, m), uniqueIds, reverse, f);
        assert Carries(after, placed[k], f, entries[k][f]);
      }
    }
  }

  /** The rows a created model's new entries went to, and that its old rows were kept. */
  lemma PlacedRows(
    before: map<nat, Record>, after: map<nat, Record>, pkg: Package, m: string,
    existing: map<nat, Record>, additions: map<nat, Record>, uniqueIds: map<string, map<nat, Value>>,
    reverse: map<string, map<Value, nat>>, rev': map<Value, nat>, pairs: Pairs)
    returns (placed: map<nat, nat>)
    requires ModelCreated(before, after, pkg, m, existing, additions, uniqueIds, reverse, rev', pairs)
    ensures m in reverse && RowsKept(before, after)
    ensures StoredAt(before, after, additions, placed, FieldsInfoOf(pkg.metadata, m), uniqueIds, reverse)
  {
    placed :| StoredAt(before, after, additions, placed, FieldsInfoOf(pkg.metadata, m), uniqueIds, reverse);
  }

  /**
   * The link and group phases keep every row the second loop left, change
   * no table but the group table, and leave the links the link phase
   * stored.
   */
  lemma ImportKeepsRows(
    db: Db, created: Db, db': Db, data: Data, ignoreUnknown: bool, newLinks: seq<(nat, nat)>,
    existingNodes: map<nat, Record>, newNodes: map<nat, Record>, reverseNode: map<Value, nat>,
    storedLinked: map<Value, nat>, nodes: map<Value, nat>, withLinks: Db)
    requires LinkedAndGrouped(db, created, db', data, ignoreUnknown, newLinks, existingNodes, newNodes, reverseNode, storedLinked, nodes, withLinks)
    ensures forall m :: RowsKept(Table(created, m), Table(db', m))
    ensures forall m :: m != GROUP_MODEL ==> Table(db', m) == Table(created, m)
    ensures db'.links == withLinks.links
  {
    var labels, inputs :| (
      && Indexes(created.links, labels, inputs)
      && QueueLinks(data.linksUuid, nodes, labels, inputs, ignoreUnknown).Ok?
      && var q := QueueLinks(data.linksUuid, nodes, labels, inputs, ignoreUnknown).value;
         withLinks == created.(links := created.links + QueuedSet(q)) && newLinks == LinkPairs(q));
    assert withLinks.tables == created.tables;
    forall m
      ensures RowsKept(Table(created, m), Table(db', m))
    {
      if m == GROUP_MODEL {
        assert RowsKept(Table(withLinks, m), Table(db', m));
      } else {
        assert Table(db', m) == Table(withLinks, m);
      }
    }
  }

  /** ImportKeepsRows for a whole import. */
  lemma ImportKept(db: Db, db': Db, repo': Repository, pkg: Package, ignoreUnknown: bool, report: Report, t: ImportTrace)
    requires ImportedBy(db, db', repo', pkg, ignoreUnknown, report, t)
    ensures forall m :: RowsKept(Table(t.created, m), Table(db', m))
    ensures forall m :: m != GROUP_MODEL ==> Table(db', m) == Table(t.created, m)
    ensures t.created.links == db.links && db'.links == t.withLinks.links
  {
    assert Grown(db, t.created);
    ImportKeepsRows(db, t.created, db', pkg.data, ignoreUnknown, report.newLinks,
      t.existing[NODE_MODEL], t.additions[NODE_MODEL], t.reverse[NODE_MODEL], t.storedLinked, t.nodes, t.withLinks);
  }

  /** Model j of the order as the second loop created it, with how the first loop split it. */
  lemma CreatedModel(db: Db, db': Db, repo': Repository, pkg: Package, ignoreUnknown: bool, report: Report, t: ImportTrace, j: nat)
    requires ImportedBy(db, db', repo', pkg, ignoreUnknown, report, t)
    requires j < |MODEL_ORDER|
    ensures var m := MODEL_ORDER[j];
      && m in t.existing && m in t.additions && m in t.reverse0 && IdentifierField(pkg.metadata, m).Some?
      && var reverse := ReverseBefore(t.reverse0, t.reverse, j);
      && m in reverse && reverse[m] == t.reverse0[m]
      && ModelCreated(Table(db, m), Table(t.created, m), pkg, m, t.existing[m], t.additions[m], t.uniqueIds,
           reverse, t.reverse[m], PairsOf(report.models, m))
      && ModelSplit(pkg.metadata, pkg.data, m, t.reverse0[m], t.existing[m], t.additions[m])
      && Matched(Table(db, m), EntriesOf(pkg.data, m), IdentifierField(pkg.metadata, m).value, t.reverse0[m], t.additions[m])
  {
    var m := MODEL_ORDER[j];
    ModelOrderDistinct();
    assert forall k :: 0 <= k < j ==> MODEL_ORDER[k] != m;
    ReverseBeforeUntouched(t.reverse0, t.reverse, j, m);
  }

  /**
   * After a successful import every entry of the archive, of every model
   * of the order, is carried by a row of the database under its unique
   * identifier.
   */
  lemma {:induction false} EntriesStored(db: Db, db': Db, repo': Repository, pkg: Package, ignoreUnknown: bool, report: Report, t: ImportTrace)
    requires ImportedBy(db, db', repo', pkg, ignoreUnknown, report, t)
    requires PlainIdentifiers(pkg.metadata, pkg.data)
    ensures forall j :: 0 <= j < |MODEL_ORDER| ==>
      && IdentifierField(pkg.metadata, MODEL_ORDER[j]).Some?
      && EntriesCarried(Table(db', MODEL_ORDER[j]), EntriesOf(pkg.data, MODEL_ORDER[j]), IdentifierField(pkg.metadata, MODEL_ORDER[j]).value)
  {
    ImportKept(db, db', repo', pkg, ignoreUnknown, report, t);
    forall j | 0 <= j < |MODEL_ORDER|
      ensures IdentifierField(pkg.metadata, MODEL_ORDER[j]).Some?
      ensures EntriesCarried(Table(db', MODEL_ORDER[j]), EntriesOf(pkg.data, MODEL_ORDER[j]), IdentifierField(pkg.metadata, MODEL_ORDER[j]).value)
    {
      var m := MODEL_ORDER[j];
      CreatedModel(db, db', repo', pkg, ignoreUnknown, report, t, j);
      var f := IdentifierField(pkg.metadata, m).value;
      var reverse := ReverseBefore(t.reverse0, t.reverse, j);
      var placed := PlacedRows(Table(db, m), Table(t.created, m), pkg, m, t.existing[m], t.additions[m], t.uniqueIds,
        reverse, t.reverse[m], PairsOf(report.models, m));
      ModelEntriesCarried(Table(db, m), Table(t.created, m), pkg.metadata, pkg.data, m, f, t.existing[m], t.additions[m], t.uniqueIds,
        reverse, placed);
      CarriedKept(Table(t.created, m), Table(db', m), EntriesOf(pkg.data, m), f);
    }
  }

  /** Rows that are kept keep carrying the entries. */
  lemma CarriedKept(table: map<nat, Record>, table': map<nat, Record>, entries: map<nat, Record>, f: string)
    requires EntriesCarried(table, entries, f) && RowsKept(table, table')
    ensures EntriesCarried(table', entries, f)
  {
    forall k | k in entries
      ensures exists pk :: Carries(table', pk, f, entries[k][f])
    {
      var pk :| Carries(table, pk, f, entries[k][f]);
      assert Carries(table', pk, f, entries[k][f]);
    }
  }

  /**
   * The first loop of a second import of the same archive, against the
   * database the first left, finds every entry existing and none new.
   */
  lemma {:induction false} ReimportFindsEntries(
    db: Db, db': Db, repo': Repository, pkg: Package, ignoreUnknown: bool, report: Report, t: ImportTrace,
    reverse2: map<string, map<Value, nat>>, existing2: map<string, map<nat, Record>>, additions2: map<string, map<nat, Record>>)
    requires ImportedBy(db, db', repo', pkg, ignoreUnknown, report, t)
    requires PlainIdentifiers(pkg.metadata, pkg.data)
    requires FirstPass(db', pkg.metadata, pkg.data, reverse2, existing2, additions2)
    ensures forall j :: 0 <= j < |MODEL_ORDER| ==>
      && MODEL_ORDER[j] in additions2 && additions2[MODEL_ORDER[j]] == map[]
      && MODEL_ORDER[j] in existing2 && existing2[MODEL_ORDER[j]] == EntriesOf(pkg.data, MODEL_ORDER[j])
  {
    EntriesStored(db, db', repo', pkg, ignoreUnknown, report, t);
    forall j | 0 <= j < |MODEL_ORDER|
      ensures MODEL_ORDER[j] in additions2 && additions2[MODEL_ORDER[j]] == map[]
      ensures MODEL_ORDER[j] in existing2 && existing2[MODEL_ORDER[j]] == EntriesOf(pkg.data, MODEL_ORDER[j])
    {
      var m := MODEL_ORDER[j];
      var f := IdentifierField(pkg.metadata, m).value;
      assert ModelSplit(pkg.metadata, pkg.data, m, reverse2[m], existing2[m], additions2[m]);
      assert Matched(Table(db', m), EntriesOf(pkg.data, m), f, reverse2[m], additions2[m]);
      FoundExisting(Table(db', m), EntriesOf(pkg.data, m), f, existing2[m], additions2[m]);
    }
  }

  /** A split against a table that carries every entry's identifier has no new entry. */
  lemma FoundExisting(
    table: map<nat, Record>, entries: map<nat, Record>, f: string, existing: map<nat, Record>, additions: map<nat, Record>)
    requires EntriesCarried(table, entries, f)
    requires existing.Keys + additions.Keys == entries.Keys
    requires forall k :: k in existing ==> existing[k] == entries[k]
    requires forall k :: k in additions ==> additions[k] == entries[k]
    requires forall k :: k in additions && f in additions[k] ==> forall pk :: !Carries(table, pk, f, additions[k][f])
    ensures additions == map[] && existing == entries
  {
    NoneNew(table, entries, f, additions);
    assert existing.Keys == entries.Keys;
  }

  /** No new entry has an identifier that a row carries, so none is new when all are carried. */
  lemma NoneNew(table: map<nat, Record>, entries: map<nat, Record>, f: string, additions: map<nat, Record>)
    requires EntriesCarried(table, entries, f)
    requires forall k :: k in additions ==> k in entries && additions[k] == entries[k]
    requires forall k :: k in additions && f in additions[k] ==> forall pk :: !Carries(table, pk, f, additions[k][f])
    ensures additions == map[]
  {
    assert additions.Keys == {};
  }

  /** The indexes and the queued links behind a link phase. */
  lemma QueuedOf(created: Db, withLinks: Db, ls: seq<LinkRef>, nodes: map<Value, nat>, ignoreUnknown: bool, newLinks: seq<(nat, nat)>)
    returns (labels: map<(nat, nat), string>, inputs: map<(nat, string), nat>)
    requires LinksQueued(created, withLinks, ls, nodes, ignoreUnknown, newLinks)
    ensures Indexes(created.links, labels, inputs) && QueueLinks(ls, nodes, labels, inputs, ignoreUnknown).Ok?
    ensures var q := QueueLinks(ls, nodes, labels, inputs, ignoreUnknown).value;
      withLinks == created.(links := created.links + QueuedSet(q)) && newLinks == LinkPairs(q)
  {
    labels, inputs :| (
      && Indexes(created.links, labels, inputs)
      && QueueLinks(ls, nodes, labels, inputs, ignoreUnknown).Ok?
      && var q := QueueLinks(ls, nodes, labels, inputs, ignoreUnknown).value;
         withLinks == created.(links := created.links + QueuedSet(q)) && newLinks == LinkPairs(q));
  }

  /**
   * The link ends of an import resolve against the node table the second
   * loop left: each to a row carrying its UUID, and every linked UUID that
   * a row carries is resolved. The archive's nodes resolve through the
   * reverse mapping, which the node creation extended with the new rows,
   * and the others through the stored linked nodes.
   */
  lemma NodesResolve(
    before: map<nat, Record>, after: map<nat, Record>, md: Metadata, data: Data,
    additions: map<nat, Record>, uniqueIds: map<string, map<nat, Value>>, reverse: map<string, map<Value, nat>>,
    placed: map<nat, nat>, rev0: map<Value, nat>, rev': map<Value, nat>, storedLinked: map<Value, nat>, linked: set<Value>)
    requires RowsKept(before, after) && EntriesIdentified(additions, "uuid")
    requires StoredAt(before, after, additions, placed, FieldsInfoOf(md, NODE_MODEL), uniqueIds, reverse)
    requires PlainIdentifier(FieldsInfoOf(md, NODE_MODEL), "uuid")
    requires forall k :: k in additions ==> additions[k]["uuid"].Str?
    requires forall u :: u in rev0 ==> Carries(before, rev0[u], "uuid", u)
    requires ReverseExtended(rev0, rev', additions, "uuid", after)
    requires LookedUp(before, "uuid", linked, storedLinked)
    ensures NodeResolution(after, linked, LinkEnds(rev', storedLinked))
  {
    var nodes := LinkEnds(rev', storedLinked);
    forall u | u in nodes
      ensures Carries(after, nodes[u], "uuid", u)
    {
      if u in rev' {
        if u in rev0 {
          assert Carries(before, rev0[u], "uuid", u);
        }
      } else {
        assert Carries(before, storedLinked[u], "uuid", u);
      }
    }
    forall u | u in linked && (exists pk :: Carries(after, pk, "uuid", u))
      ensures u in nodes
    {
      var pk :| Carries(after, pk, "uuid", u);
      if pk in before {
        assert Carries(before, pk, "uuid", u);
      } else {
        var k :| k in placed && placed[k] == pk;
        IdentifierCopied(additions[k], after[pk], FieldsInfoOf(md, NODE_MODEL), uniqueIds, reverse, "uuid");
        assert u in IdentifiersOf(additions, "uuid");
      }
    }
  }

  /** NodesResolve for a whole import whose node identifier is 'uuid'. */
  lemma ImportResolvesNodes(db: Db, db': Db, repo': Repository, pkg: Package, ignoreUnknown: bool, report: Report, t: ImportTrace)
    requires ImportedBy(db, db', repo', pkg, ignoreUnknown, report, t)
    requires PlainIdentifiers(pkg.metadata, pkg.data) && IdentifierField(pkg.metadata, NODE_MODEL) == Some("uuid")
    ensures NodeResolution(Table(t.created, NODE_MODEL), LinkedNodes(pkg.data.linksUuid), t.nodes)
  {
    assert MODEL_ORDER[2] == NODE_MODEL;
    CreatedModel(db, db', repo', pkg, ignoreUnknown, report, t, 2);
    var reverse := ReverseBefore(t.reverse0, t.reverse, 2);
    var before, after := Table(db, NODE_MODEL), Table(t.created, NODE_MODEL);
    var placed := PlacedRows(before, after, pkg, NODE_MODEL, t.existing[NODE_MODEL], t.additions[NODE_MODEL], t.uniqueIds,
      reverse, t.reverse[NODE_MODEL], PairsOf(report.models, NODE_MODEL));
    NodesResolve(before, after, pkg.metadata, pkg.data, t.additions[NODE_MODEL], t.uniqueIds, reverse, placed,
      t.reverse0[NODE_MODEL], t.reverse[NODE_MODEL], t.storedLinked, LinkedNodes(pkg.data.linksUuid));
  }

  /** A model with no new entry gets no new row and reports no new pair. */
  lemma NothingCreated(
    before: map<nat, Record>, after: map<nat, Record>, pkg: Package, m: string,
    existing: map<nat, Record>, uniqueIds: map<string, map<nat, Value>>,
    reverse: map<string, map<Value, nat>>, rev': map<Value, nat>, pairs: Pairs)
    requires ModelCreated(before, after, pkg, m, existing, map[], uniqueIds, reverse, rev', pairs)
    ensures after == before && pairs.newPairs == {}
  {
    var placed := PlacedRows(before, after, pkg, m, existing, map[], uniqueIds, reverse, rev', pairs);
    assert after.Keys == before.Keys;
  }

  /**
   * Importing the same archive a second time, into the database the first
   * import left, creates no row in any table but the group table, reports
   * no new pair for any model and stores no link: only the new import
   * group is added. This needs the node UUIDs of that database to be
   * unique and its links to be one per pair of nodes, as the database's
   * own unique constraints keep them.
   */
  lemma {:induction false} ReimportAddsNothing(
    db: Db, db': Db, db'': Db, repo': Repository, repo'': Repository, pkg: Package, ignoreUnknown: bool,
    report: Report, report2: Report, t: ImportTrace, t2: ImportTrace)
    requires ImportedBy(db, db', repo', pkg, ignoreUnknown, report, t)
    requires ImportedBy(db', db'', repo'', pkg, ignoreUnknown, report2, t2)
    requires PlainIdentifiers(pkg.metadata, pkg.data) && IdentifierField(pkg.metadata, NODE_MODEL) == Some("uuid")
    requires UniquelyCarried(Table(db', NODE_MODEL), "uuid") && LinksFunctional(db'.links)
    ensures forall m :: m != GROUP_MODEL ==> Table(db'', m) == Table(db', m)
    ensures forall j :: 0 <= j < |MODEL_ORDER| ==> PairsOf(report2.models, MODEL_ORDER[j]).newPairs == {}
    ensures report2.newLinks == [] && db''.links == db'.links
  {
    ReimportCreatesNothing(db, db', db'', repo', repo'', pkg, ignoreUnknown, report, report2, t, t2);
    ReimportStoresNoLink(db, db', db'', repo', repo'', pkg, ignoreUnknown, report, report2, t, t2);
  }

  /** The second loop of a second import creates no row and reports no new pair. */
  lemma ReimportCreatesNothing(
    db: Db, db': Db, db'': Db, repo': Repository, repo'': Repository, pkg: Package, ignoreUnknown: bool,
    report: Report, report2: Report, t: ImportTrace, t2: ImportTrace)
    requires ImportedBy(db, db', repo', pkg, ignoreUnknown, report, t)
    requires ImportedBy(db', db'', repo'', pkg, ignoreUnknown, report2, t2)
    requires PlainIdentifiers(pkg.metadata, pkg.data)
    ensures forall j :: 0 <= j < |MODEL_ORDER| ==> Table(t2.created, MODEL_ORDER[j]) == Table(db', MODEL_ORDER[j])
    ensures forall m :: m != GROUP_MODEL ==> Table(db'', m) == Table(db', m)
    ensures forall j :: 0 <= j < |MODEL_ORDER| ==> PairsOf(report2.models, MODEL_ORDER[j]).newPairs == {}
  {
    ReimportFindsEntries(db, db', repo', pkg, ignoreUnknown, report, t, t2.reverse0, t2.existing, t2.additions);
    forall j | 0 <= j < |MODEL_ORDER|
      ensures Table(t2.created, MODEL_ORDER[j]) == Table(db', MODEL_ORDER[j])
      ensures PairsOf(report2.models, MODEL_ORDER[j]).newPairs == {}
    {
      var m := MODEL_ORDER[j];
      CreatedModel(db', db'', repo'', pkg, ignoreUnknown, report2, t2, j);
      NothingCreated(Table(db', m), Table(t2.created, m), pkg, m, t2.existing[m], t2.uniqueIds,
        ReverseBefore(t2.reverse0, t2.reverse, j), t2.reverse[m], PairsOf(report2.models, m));
    }
    ImportKept(db', db'', repo'', pkg, ignoreUnknown, report2, t2);
    ReimportKeepsTables(db', t2.created, db'');
  }

  /** The link phase of a second import stores no link. */
  lemma ReimportStoresNoLink(
    db: Db, db': Db, db'': Db, repo': Repository, repo'': Repository, pkg: Package, ignoreUnknown: bool,
    report: Report, report2: Report, t: ImportTrace, t2: ImportTrace)
    requires ImportedBy(db, db', repo', pkg, ignoreUnknown, report, t)
    requires ImportedBy(db', db'', repo'', pkg, ignoreUnknown, report2, t2)
    requires PlainIdentifiers(pkg.metadata, pkg.data) && IdentifierField(pkg.metadata, NODE_MODEL) == Some("uuid")
    requires UniquelyCarried(Table(db', NODE_MODEL), "uuid") && LinksFunctional(db'.links)
    requires Table(t2.created, NODE_MODEL) == Table(db', NODE_MODEL)
    ensures report2.newLinks == [] && db''.links == db'.links
  {
    ImportKept(db, db', repo', pkg, ignoreUnknown, report, t);
    ImportKept(db', db'', repo'', pkg, ignoreUnknown, report2, t2);
    ImportResolvesNodes(db, db', repo', pkg, ignoreUnknown, report, t);
    ImportResolvesNodes(db', db'', repo'', pkg, ignoreUnknown, report2, t2);
    ReimportQueuesNothing(Table(db', NODE_MODEL), pkg.data.linksUuid, ignoreUnknown,
      t.created, t.withLinks, t.nodes, report.newLinks, t2.created, t2.withLinks, t2.nodes, report2.newLinks);
  }

  /** With every model of the order unchanged by the second loop, only the group table can differ. */
  lemma ReimportKeepsTables(db': Db, created: Db, db'': Db)
    requires forall j :: 0 <= j < |MODEL_ORDER| ==> Table(created, MODEL_ORDER[j]) == Table(db', MODEL_ORDER[j])
    requires forall n :: n !in MODEL_ORDER ==> Table(created, n) == Table(db', n)
    requires forall m :: m != GROUP_MODEL ==> Table(db'', m) == Table(created, m)
    ensures forall m :: m != GROUP_MODEL ==> Table(db'', m) == Table(db', m)
  {
    forall m | m != GROUP_MODEL
      ensures Table(db'', m) == Table(db', m)
    {
      if m in MODEL_ORDER {
        var j :| 0 <= j < |MODEL_ORDER| && MODEL_ORDER[j] == m;
      }
    }
  }

  /**
   * The link phase of a second import queues nothing: its link ends
   * resolve as the first import's did, against the same node table, and
   * the first stored every link it accepted.
   */
  lemma ReimportQueuesNothing(
    nodeTable: map<nat, Record>, ls: seq<LinkRef>, ignoreUnknown: bool,
    created: Db, withLinks: Db, nodes: map<Value, nat>, newLinks: seq<(nat, nat)>,
    created2: Db, withLinks2: Db, nodes2: map<Value, nat>, newLinks2: seq<(nat, nat)>)
    requires UniquelyCarried(nodeTable, "uuid") && LinksFunctional(withLinks.links)
    requires NodeResolution(nodeTable, LinkedNodes(ls), nodes) && NodeResolution(nodeTable, LinkedNodes(ls), nodes2)
    requires LinksQueued(created, withLinks, ls, nodes, ignoreUnknown, newLinks)
    requires LinksQueued(created2, withLinks2, ls, nodes2, ignoreUnknown, newLinks2)
    requires created2.links == withLinks.links
    ensures newLinks2 == [] && withLinks2.links == created2.links
  {
    ResolutionsAgree(nodeTable, ls, nodes, nodes2);
    var labels, inputs := QueuedOf(created, withLinks, ls, nodes, ignoreUnknown, newLinks);
    var labels2, inputs2 := QueuedOf(created2, withLinks2, ls, nodes2, ignoreUnknown, newLinks2);
    RequeueNothing(created.links, ls, nodes, labels, inputs, ignoreUnknown, nodes2, labels2, inputs2);
  }
}
