/**
 * The link phase of import_data: every link of links_uuid is resolved to
 * database pks and checked against the links already stored, and the new
 * ones are stored together at the end.
 */
module Linking {
  import opened Wrappers
  import opened Values
  import opened Archive
  import opened Store
  import opened Checks

  /** What the loop over links_uuid does with one link. */
  datatype LinkStep =
    | Skipped
    | Present
    | Queued(link: Link)
    | Refused(error: ImportError)

  /**
   * existing_links_labels and existing_input_links: the label of a link by
   * its ends, and the input of a link by its output and label.
   */
  ghost predicate Indexes(links: set<Link>, labels: map<(nat, nat), string>, inputs: map<(nat, string), nat>) {
    && (forall p :: p in labels <==> exists l :: l in links && (l.input, l.output) == p)
    && (forall p :: p in labels ==> Link(p.0, p.1, labels[p]) in links)
    && (forall q :: q in inputs <==> exists l :: l in links && (l.output, l.linkLabel) == q)
    && (forall q :: q in inputs ==> Link(inputs[q], q.0, q.1) in links)
  }

  /** The two dicts built from values_list('input', 'output', 'label'); a later row overwrites an earlier one. */
  method IndexLinks(links: set<Link>) returns (labels: map<(nat, nat), string>, inputs: map<(nat, string), nat>)
    ensures Indexes(links, labels, inputs)
  {
    labels, inputs := map[], map[];
    var todo := links;
    ghost var seen: set<Link> := {};
    while todo != {}
      invariant todo + seen == links && todo !! seen
      invariant Indexes(seen, labels, inputs)
      decreases todo
    {
      var l :| l in todo;
      labels := labels[(l.input, l.output) := l.linkLabel];
      inputs := inputs[(l.output, l.linkLabel) := l.input];
      todo, seen := todo - {l}, seen + {l};
    }
  }

  /**
   * One link of the archive: both ends must resolve, a link between the
   * same two nodes must carry the same label, and no other input may hold
   * the label on the output.
   */
  function ClassifyLink(
    l: LinkRef, nodes: map<Value, nat>, labels: map<(nat, nat), string>, inputs: map<(nat, string), nat>,
    ignoreUnknown: bool): LinkStep
  {
    if l.input !in nodes || l.output !in nodes then
      (if ignoreUnknown then Skipped else Refused(UnknownLinkEnd(l)))
    else
      var i, o := nodes[l.input], nodes[l.output];
      if (i, o) in labels then
        (if labels[(i, o)] != l.linkLabel then Refused(RelabelledLink(i, o, labels[(i, o)], l.linkLabel)) else Present)
      else if (o, l.linkLabel) in inputs then Refused(TakenInputLabel(o, l.linkLabel, i))
      else Queued(Link(i, o, l.linkLabel))
  }

  /** links_to_store: the queued links in order, or the first refusal. */
  function QueueLinks(
    ls: seq<LinkRef>, nodes: map<Value, nat>, labels: map<(nat, nat), string>, inputs: map<(nat, string), nat>,
    ignoreUnknown: bool): Result<seq<Link>, ImportError>
    decreases |ls|
  {
    if ls == [] then Ok([])
    else
      match QueueLinks(ls[..|ls| - 1], nodes, labels, inputs, ignoreUnknown)
      case Err(e) => Err(e)
      case Ok(queued) =>
        match ClassifyLink(ls[|ls| - 1], nodes, labels, inputs, ignoreUnknown)
        case Refused(e) => Err(e)
        case Queued(link) => Ok(queued + [link])
        case _ => Ok(queued)
  }

  /** Once a prefix of the links is refused, so is every longer prefix, with the same error. */
  lemma {:induction false} RefusalPersists(
    ls: seq<LinkRef>, k: nat, nodes: map<Value, nat>,
    labels: map<(nat, nat), string>, inputs: map<(nat, string), nat>, ignoreUnknown: bool)
    requires k <= |ls|
    requires QueueLinks(ls[..k], nodes, labels, inputs, ignoreUnknown).Err?
    ensures QueueLinks(ls, nodes, labels, inputs, ignoreUnknown) == QueueLinks(ls[..k], nodes, labels, inputs, ignoreUnknown)
    decreases |ls| - k
  {
    if k < |ls| {
      assert ls[..k + 1][..k] == ls[..k];
      RefusalPersists(ls, k + 1, nodes, labels, inputs, ignoreUnknown);
    } else {
      assert ls[..k] == ls;
    }
  }

  /** The links a queue holds. */
  function QueuedSet(q: seq<Link>): set<Link> {
    set j | 0 <= j < |q| :: q[j]
  }

  /** The (input, output) pairs the returned dict lists under DbLink. */
  function LinkPairs(q: seq<Link>): (r: seq<(nat, nat)>)
    ensures |r| == |q| && forall j :: 0 <= j < |q| ==> r[j] == (q[j].input, q[j].output)
  {
    seq(|q|, j requires 0 <= j < |q| => (q[j].input, q[j].output))
  }

  /** The loop over links_uuid followed by bulk_create of links_to_store. */
  method StoreLinks(
    db: Db, ls: seq<LinkRef>, nodes: map<Value, nat>,
    labels: map<(nat, nat), string>, inputs: map<(nat, string), nat>, ignoreUnknown: bool)
    returns (r: Result<(Db, seq<(nat, nat)>), ImportError>)
    ensures r.Ok? <==> QueueLinks(ls, nodes, labels, inputs, ignoreUnknown).Ok?
    ensures r.Err? ==> r.error == QueueLinks(ls, nodes, labels, inputs, ignoreUnknown).error
    ensures r.Ok? ==> var q := QueueLinks(ls, nodes, labels, inputs, ignoreUnknown).value;
      && r.value.0 == db.(links := db.links + QueuedSet(q))
      && r.value.1 == LinkPairs(q)
  {
    var queued: seq<Link> := [];
    for i := 0 to |ls|
      invariant QueueLinks(ls[..i], nodes, labels, inputs, ignoreUnknown) == Ok(queued)
    {
      assert ls[..i + 1][..i] == ls[..i];
      match ClassifyLink(ls[i], nodes, labels, inputs, ignoreUnknown)
      case Refused(e) =>
        RefusalPersists(ls, i + 1, nodes, labels, inputs, ignoreUnknown);
        return Err(e);
      case Queued(link) =>
        queued := queued + [link];
      case _ =>
    }
    assert ls[..|ls|] == ls;
    return Ok((db.(links := db.links + QueuedSet(queued)), LinkPairs(queued)));
  }

  /**
   * Against indexes of the stored links, a queued link has both ends among
   * the resolved nodes, and the database has no link between the same two
   * nodes and no input link of the output with the same label.
   */
  lemma {:induction false} QueuedLinksAreNew(
    links: set<Link>, ls: seq<LinkRef>, nodes: map<Value, nat>,
    labels: map<(nat, nat), string>, inputs: map<(nat, string), nat>, ignoreUnknown: bool)
    requires Indexes(links, labels, inputs)
    requires QueueLinks(ls, nodes, labels, inputs, ignoreUnknown).Ok?
    ensures var q := QueueLinks(ls, nodes, labels, inputs, ignoreUnknown).value;
      forall j :: 0 <= j < |q| ==>
        && q[j].input in nodes.Values && q[j].output in nodes.Values
        && (forall l :: l in links ==> (l.input, l.output) != (q[j].input, q[j].output))
        && (forall l :: l in links ==> (l.output, l.linkLabel) != (q[j].output, q[j].linkLabel))
  {
    if ls != [] {
      var init := ls[..|ls| - 1];
      QueuedLinksAreNew(links, init, nodes, labels, inputs, ignoreUnknown);
      var last := ls[|ls| - 1];
      if ClassifyLink(last, nodes, labels, inputs, ignoreUnknown).Queued? {
        assert nodes[last.input] in nodes.Values && nodes[last.output] in nodes.Values;
      }
    }
  }

  /** No two stored links join the same two nodes. */
  ghost predicate LinksFunctional(links: set<Link>) {
    forall a, b :: a in links && b in links && (a.input, a.output) == (b.input, b.output) ==> a == b
  }

  /**
   * Importing links that are all stored already queues nothing and raises
   * nothing: the link phase of a second import of the same archive is a
   * no-op.
   */
  lemma {:induction false} StoredLinksQueueNothing(
    links: set<Link>, ls: seq<LinkRef>, nodes: map<Value, nat>,
    labels: map<(nat, nat), string>, inputs: map<(nat, string), nat>, ignoreUnknown: bool)
    requires Indexes(links, labels, inputs) && LinksFunctional(links)
    requires forall j :: 0 <= j < |ls| ==> StoredOrSkipped(ls[j], nodes, links, ignoreUnknown)
    ensures QueueLinks(ls, nodes, labels, inputs, ignoreUnknown) == Ok([])
  {
    if ls != [] {
      var init := ls[..|ls| - 1];
      StoredLinksQueueNothing(links, init, nodes, labels, inputs, ignoreUnknown);
      var last := ls[|ls| - 1];
      assert StoredOrSkipped(last, nodes, links, ignoreUnknown);
      if last.input in nodes && last.output in nodes {
        var i, o := nodes[last.input], nodes[last.output];
        assert Link(i, o, labels[(i, o)]) in links;
      }
    }
  }

  /**
   * An archive link is in the table between its resolved ends with its own
   * label, or an end does not resolve and unknown nodes are ignored.
   */
  ghost predicate StoredOrSkipped(l: LinkRef, nodes: map<Value, nat>, links: set<Link>, ignoreUnknown: bool) {
    if l.input in nodes && l.output in nodes then Link(nodes[l.input], nodes[l.output], l.linkLabel) in links
    else ignoreUnknown
  }

  /**
   * After an accepted link phase every archive link is stored or skipped:
   * a link found with the same label was there already, and every other
   * resolved link was queued and is stored with the queue.
   */
  lemma {:induction false} AcceptedLinksStored(
    links: set<Link>, ls: seq<LinkRef>, nodes: map<Value, nat>,
    labels: map<(nat, nat), string>, inputs: map<(nat, string), nat>, ignoreUnknown: bool)
    requires Indexes(links, labels, inputs)
    requires QueueLinks(ls, nodes, labels, inputs, ignoreUnknown).Ok?
    ensures var stored := links + QueuedSet(QueueLinks(ls, nodes, labels, inputs, ignoreUnknown).value);
      forall j :: 0 <= j < |ls| ==> StoredOrSkipped(ls[j], nodes, stored, ignoreUnknown)
  {
    if ls != [] {
      var init := ls[..|ls| - 1];
      AcceptedLinksStored(links, init, nodes, labels, inputs, ignoreUnknown);
      var q0 := QueueLinks(init, nodes, labels, inputs, ignoreUnknown).value;
      var q := QueueLinks(ls, nodes, labels, inputs, ignoreUnknown).value;
      var last := ls[|ls| - 1];
      var step := ClassifyLink(last, nodes, labels, inputs, ignoreUnknown);
      assert QueuedSet(q0) <= QueuedSet(q) by {
        if step.Queued? {
          assert q == q0 + [step.link];
          assert forall j :: 0 <= j < |q0| ==> q0[j] == q[j];
        }
      }
      var stored := links + QueuedSet(q);
      forall j | 0 <= j < |ls|
        ensures StoredOrSkipped(ls[j], nodes, stored, ignoreUnknown)
      {
        if j < |ls| - 1 {
          assert ls[j] == init[j];
          assert StoredOrSkipped(init[j], nodes, links + QueuedSet(q0), ignoreUnknown);
        } else if last.input in nodes && last.output in nodes {
          var i, o := nodes[last.input], nodes[last.output];
          if step.Queued? {
            assert q[|q| - 1] == Link(i, o, last.linkLabel);
          } else {
            assert Link(i, o, labels[(i, o)]) in links;
          }
        }
      }
    }
  }

  /** Two resolutions send every end of the links to the same row, or leave it unresolved alike. */
  ghost predicate SameEnds(ls: seq<LinkRef>, nodes: map<Value, nat>, nodes': map<Value, nat>) {
    forall u :: u in LinkedNodes(ls) ==> (u in nodes <==> u in nodes') && (u in nodes ==> nodes[u] == nodes'[u])
  }

  /**
   * Importing the same links again, against the links the first import
   * left and with a resolution that agrees with the first on every link
   * end, queues nothing and raises nothing.
   */
  lemma RequeueNothing(
    links: set<Link>, ls: seq<LinkRef>, nodes: map<Value, nat>,
    labels: map<(nat, nat), string>, inputs: map<(nat, string), nat>, ignoreUnknown: bool,
    nodes': map<Value, nat>, labels': map<(nat, nat), string>, inputs': map<(nat, string), nat>)
    requires Indexes(links, labels, inputs)
    requires QueueLinks(ls, nodes, labels, inputs, ignoreUnknown).Ok?
    requires var after := links + QueuedSet(QueueLinks(ls, nodes, labels, inputs, ignoreUnknown).value);
      Indexes(after, labels', inputs') && LinksFunctional(after)
    requires SameEnds(ls, nodes, nodes')
    ensures QueueLinks(ls, nodes', labels', inputs', ignoreUnknown) == Ok([])
  {
    var after := links + QueuedSet(QueueLinks(ls, nodes, labels, inputs, ignoreUnknown).value);
    AcceptedLinksStored(links, ls, nodes, labels, inputs, ignoreUnknown);
    forall j | 0 <= j < |ls|
      ensures StoredOrSkipped(ls[j], nodes', after, ignoreUnknown)
    {
      assert ls[j].input in LinkedNodes(ls) && ls[j].output in LinkedNodes(ls);
      assert StoredOrSkipped(ls[j], nodes, after, ignoreUnknown);
    }
    StoredLinksQueueNothing(after, ls, nodes', labels', inputs', ignoreUnknown);
  }

  /**
   * A resolution of link ends against a node table: a resolved UUID goes
   * to a row that carries it, and every linked UUID some row carries is
   * resolved.
   */
  ghost predicate NodeResolution(table: map<nat, Record>, linked: set<Value>, nodes: map<Value, nat>) {
    && (forall u :: u in nodes ==> Carries(table, nodes[u], "uuid", u))
    && (forall u :: u in linked && (exists pk :: Carries(table, pk, "uuid", u)) ==> u in nodes)
  }

  /** Two resolutions against a table whose UUIDs are unique agree on every link end. */
  lemma ResolutionsAgree(table: map<nat, Record>, ls: seq<LinkRef>, nodes: map<Value, nat>, nodes': map<Value, nat>)
    requires UniquelyCarried(table, "uuid")
    requires NodeResolution(table, LinkedNodes(ls), nodes) && NodeResolution(table, LinkedNodes(ls), nodes')
    ensures SameEnds(ls, nodes, nodes')
  {
    forall u | u in LinkedNodes(ls) && u in nodes
      ensures u in nodes' && nodes[u] == nodes'[u]
    {
      assert Carries(table, nodes[u], "uuid", u);
      assert Carries(table, nodes'[u], "uuid", u);
    }
  }

  /** A refused relabelling names a stored link between the same nodes with the old label. */
  lemma RelabelNamesStoredLink(
    links: set<Link>, l: LinkRef, nodes: map<Value, nat>,
    labels: map<(nat, nat), string>, inputs: map<(nat, string), nat>, ignoreUnknown: bool)
    requires Indexes(links, labels, inputs)
    requires ClassifyLink(l, nodes, labels, inputs, ignoreUnknown).Refused?
    ensures var e := ClassifyLink(l, nodes, labels, inputs, ignoreUnknown).error;
      && (e.RelabelledLink? ==> Link(e.input, e.output, e.oldLabel) in links && e.oldLabel != e.newLabel && e.newLabel == l.linkLabel)
      && (e.TakenInputLabel? ==> exists i :: i != e.input && Link(i, e.output, e.linkLabel) in links)
      && (e.UnknownLinkEnd? ==> !ignoreUnknown && (l.input !in nodes || l.output !in nodes))
  {
    var e := ClassifyLink(l, nodes, labels, inputs, ignoreUnknown).error;
    if e.TakenInputLabel? {
      var o := nodes[l.output];
      var w := inputs[(o, l.linkLabel)];
      assert Link(w, o, l.linkLabel) in links;
      assert (w, o) in labels;
    }
  }

  // ---------------------------------------------------------------------------
  // Resolving link ends
  // ---------------------------------------------------------------------------

  /**
   * dbnode_reverse_mappings: what the code resolves link ends with, the
   * reverse mapping of the archive's own nodes only.
   */
  function LinkEndsAsWritten(reverseNode: map<Value, nat>, storedLinked: map<Value, nat>): map<Value, nat> {
    reverseNode
  }

  /**
   * What the pre-check promises: a link end the database already holds
   * (relevant_db_nodes, loaded "to store in a reverse table") resolves to
   * its row, and the archive's nodes to theirs.
   */
  function LinkEnds(reverseNode: map<Value, nat>, storedLinked: map<Value, nat>): (r: map<Value, nat>)
    ensures r.Keys == reverseNode.Keys + storedLinked.Keys
    ensures forall u :: u in reverseNode ==> r[u] == reverseNode[u]
  {
    storedLinked + reverseNode
  }

  /**
   * With the corrected resolution, a link the unknown-node check accepts
   * has both ends resolved, once the archive's nodes are in the reverse
   * mapping.
   */
  lemma AcceptedLinksResolve(db: Db, data: Data, reverseNode: map<Value, nat>, storedLinked: map<Value, nat>, j: int)
    requires UnknownNodeSet(db, data).Ok? && UnknownNodeSet(db, data).value == {}
    requires forall u :: u in ArchiveNodes(data).value ==> u in reverseNode
    requires forall u :: u in LinkedNodes(data.linksUuid) && (exists pk :: Carries(Table(db, NODE_MODEL), pk, "uuid", u)) ==> u in storedLinked
    requires 0 <= j < |data.linksUuid|
    ensures data.linksUuid[j].input in LinkEnds(reverseNode, storedLinked)
    ensures data.linksUuid[j].output in LinkEnds(reverseNode, storedLinked)
  {
    var l := data.linksUuid[j];
    assert l.input in LinkedNodes(data.linksUuid) && l.output in LinkedNodes(data.linksUuid);
    UnknownNodesAre(db, data, l.input);
    UnknownNodesAre(db, data, l.output);
  }

  /** A database holding node 'a', receiving an archive with node 'b' and the link a -> b. */
  const EXAMPLE_DB: Db := Db(map[NODE_MODEL := map[1 := map["uuid" := Str("a")]]], {}, map[], map[], {}, {})
  const EXAMPLE_LINK: LinkRef := LinkRef(Str("a"), Str("b"), "x")
  const EXAMPLE_DATA: Data := Data(map[NODE_MODEL := map[7 := map["uuid" := Str("b")]]], [EXAMPLE_LINK], map[], map[], map[])

  /**
   * As written, the link from a node that exists only in the receiving
   * database passes the unknown-node check and is then refused as a link
   * with an unknown end.
   */
  lemma StoredLinkEndRefused()
    ensures CheckUnknownNodes(EXAMPLE_DB, EXAMPLE_DATA, false) == Pass
    ensures ClassifyLink(EXAMPLE_LINK, LinkEndsAsWritten(map[Str("b") := 2], map[Str("a") := 1]), map[], map[], false)
      == Refused(UnknownLinkEnd(EXAMPLE_LINK))
  {
    var linked := LinkedNodes(EXAMPLE_DATA.linksUuid);
    assert linked == {Str("a"), Str("b")} by {
      assert EXAMPLE_DATA.linksUuid[0] == EXAMPLE_LINK;
    }
    var nodes := Table(EXAMPLE_DB, NODE_MODEL);
    assert nodes == map[1 := map["uuid" := Str("a")]];
    assert StoredNodes(EXAMPLE_DB, linked) == {Str("a")} by {
      assert nodes[1]["uuid"] == Str("a");
    }
    var archived := ArchiveNodes(EXAMPLE_DATA).value;
    assert archived == {Str("b")} by {
      assert EXAMPLE_DATA.exportData[NODE_MODEL][7]["uuid"] == Str("b");
    }
    assert GroupMembers(EXAMPLE_DATA.groupsUuid) == {};
  }

  /** With the corrected resolution the same link is queued between rows 1 and 2. */
  lemma StoredLinkEndQueued()
    ensures ClassifyLink(EXAMPLE_LINK, LinkEnds(map[Str("b") := 2], map[Str("a") := 1]), map[], map[], false)
      == Queued(Link(1, 2, "x"))
  {
    assert Str("a") != Str("b");
  }
}
