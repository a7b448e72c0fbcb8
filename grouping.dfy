/**
 * The group phase of import_data: the members that groups_uuid lists are
 * added to the groups, and every node of the archive is put in a new
 * import group named after the current time.
 */
module Grouping {
  import opened Wrappers
  import opened Values
  import opened Digits
  import opened Archive
  import opened Store

  // ---------------------------------------------------------------------------
  // Members of the archive's groups
  // ---------------------------------------------------------------------------

  /** DbGroup.objects.get(uuid=g) succeeds: exactly one group row carries g. */
  ghost predicate UniqueGroup(table: map<nat, Record>, g: Value) {
    && (exists pk :: Carries(table, pk, "uuid", g))
    && (forall a, b :: Carries(table, a, "uuid", g) && Carries(table, b, "uuid", g) ==> a == b)
  }

  method FindGroup(table: map<nat, Record>, g: Value) returns (r: Result<nat, ImportError>)
    ensures r.Ok? <==> UniqueGroup(table, g)
    ensures r.Ok? ==> Carries(table, r.value, "uuid", g)
    ensures r.Err? ==> r.error == NoSuchGroup(g)
  {
    var matches := set pk | pk in table && "uuid" in table[pk] && table[pk]["uuid"] == g;
    assert forall a :: Carries(table, a, "uuid", g) ==> a in matches;
    if matches == {} {
      return Err(NoSuchGroup(g));
    }
    var pk :| pk in matches;
    if matches - {pk} != {} {
      var other :| other in matches - {pk};
      assert Carries(table, other, "uuid", g) && Carries(table, pk, "uuid", g);
      return Err(NoSuchGroup(g));
    }
    assert matches == {pk};
    assert Carries(table, pk, "uuid", g);
    return Ok(pk);
  }

  /** The pks a list of resolved members holds. */
  function Members(pks: seq<nat>): set<nat> {
    set j | 0 <= j < |pks| :: pks[j]
  }

  /** [dbnode_reverse_mappings[u] for u in groupnodes]: a KeyError at the first member not in the mapping. */
  function ResolveMembersAsWritten(members: seq<Value>, nodes: map<Value, nat>): Result<seq<nat>, ImportError> {
    if members == [] then Ok([])
    else if members[0] !in nodes then Err(UnknownGroupMember(members[0]))
    else
      match ResolveMembersAsWritten(members[1..], nodes)
      case Err(e) => Err(e)
      case Ok(rest) => Ok([nodes[members[0]]] + rest)
  }

  /**
   * The members of a group that the mapping resolves; a member it does not
   * resolve is skipped when unknown nodes are ignored, and raises otherwise.
   */
  function ResolveMembers(members: seq<Value>, nodes: map<Value, nat>, ignoreUnknown: bool): Result<seq<nat>, ImportError> {
    if members == [] then Ok([])
    else if members[0] !in nodes then
      (if ignoreUnknown then ResolveMembers(members[1..], nodes, ignoreUnknown) else Err(UnknownGroupMember(members[0])))
    else
      match ResolveMembers(members[1..], nodes, ignoreUnknown)
      case Err(e) => Err(e)
      case Ok(rest) => Ok([nodes[members[0]]] + rest)
  }

  /**
   * Resolving succeeds unless a member is unknown and unknown nodes are not
   * ignored; the result holds exactly the pks of the resolved members, and
   * an error names an unresolved member.
   */
  lemma {:induction false} ResolveMembersSpec(members: seq<Value>, nodes: map<Value, nat>, ignoreUnknown: bool)
    ensures var r := ResolveMembers(members, nodes, ignoreUnknown);
      && (r.Ok? <==> ignoreUnknown || forall j :: 0 <= j < |members| ==> members[j] in nodes)
      && (r.Ok? ==> forall pk :: pk in Members(r.value) <==> exists j :: 0 <= j < |members| && members[j] in nodes && nodes[members[j]] == pk)
      && (r.Err? ==> exists j :: 0 <= j < |members| && members[j] !in nodes && r.error == UnknownGroupMember(members[j]))
  {
    if members != [] {
      var rest := members[1..];
      ResolveMembersSpec(rest, nodes, ignoreUnknown);
      var r := ResolveMembers(members, nodes, ignoreUnknown);
      var s := ResolveMembers(rest, nodes, ignoreUnknown);
      assert forall j :: 0 <= j < |rest| ==> rest[j] == members[j + 1];
      if r.Ok? {
        forall pk | pk in Members(r.value)
          ensures exists j :: 0 <= j < |members| && members[j] in nodes && nodes[members[j]] == pk
        {
          var i :| 0 <= i < |r.value| && r.value[i] == pk;
          if members[0] in nodes && i == 0 {
          } else {
            var i' := if members[0] in nodes then i - 1 else i;
            assert s.value[i'] == pk;
            assert pk in Members(s.value);
            var j :| 0 <= j < |rest| && rest[j] in nodes && nodes[rest[j]] == pk;
            assert members[j + 1] == rest[j];
          }
        }
        forall pk | exists j :: 0 <= j < |members| && members[j] in nodes && nodes[members[j]] == pk
          ensures pk in Members(r.value)
        {
          var j :| 0 <= j < |members| && members[j] in nodes && nodes[members[j]] == pk;
          if j == 0 {
            assert r.value[0] == pk;
          } else {
            assert rest[j - 1] == members[j];
            assert pk in Members(s.value);
            var i :| 0 <= i < |s.value| && s.value[i] == pk;
            if members[0] in nodes {
              assert r.value[i + 1] == pk;
            } else {
              assert r.value[i] == pk;
            }
          }
        }
      }
      if r.Err? && members[0] in nodes {
        var j :| 0 <= j < |rest| && rest[j] !in nodes && s.error == UnknownGroupMember(rest[j]);
        assert members[j + 1] == rest[j];
      }
    }
  }

  /** Without ignoring unknown nodes, the corrected resolution is the one written. */
  lemma {:induction false} ResolveMembersAsWrittenWithoutIgnore(members: seq<Value>, nodes: map<Value, nat>)
    ensures ResolveMembers(members, nodes, false) == ResolveMembersAsWritten(members, nodes)
  {
    if members != [] {
      ResolveMembersAsWrittenWithoutIgnore(members[1..], nodes);
    }
  }

  /**
   * As written, ignoring unknown nodes lets a group with an unknown member
   * pass the unknown-node check, and the member then raises a KeyError; the
   * corrected resolution skips it.
   */
  lemma IgnoredMemberRaises()
    ensures ResolveMembersAsWritten([Str("b"), Str("z")], map[Str("b") := 2]) == Err(UnknownGroupMember(Str("z")))
    ensures ResolveMembers([Str("b"), Str("z")], map[Str("b") := 2], true) == Ok([2])
  {
    var nodes := map[Str("b") := 2];
    assert [Str("b"), Str("z")][1..] == [Str("z")];
    assert [Str("z")][1..] == [];
    assert Str("z") !in nodes;
    assert ResolveMembers([Str("z")], nodes, true) == Ok([]);
    assert ResolveMembers([Str("b"), Str("z")], nodes, true) == Ok([2] + []);
    assert [2] + [] == [2];
  }

  /** The node set of a group; a group without nodes has none. */
  function GroupNodes(db: Db, gpk: nat): set<nat> {
    if gpk in db.groupNodes then db.groupNodes[gpk] else {}
  }

  /** Every listed group exists once and its members resolve; the group rows onto which they go. */
  ghost predicate GroupsFound(table: map<nat, Record>, groups: map<Value, seq<Value>>, nodes: map<Value, nat>, ignoreUnknown: bool) {
    forall g :: g in groups ==> UniqueGroup(table, g) && ResolveMembers(groups[g], nodes, ignoreUnknown).Ok?
  }

  /** After the phase a group holds the resolved members of its UUID's entry... */
  ghost predicate MembersAdded(table: map<nat, Record>, groups: map<Value, seq<Value>>, nodes: map<Value, nat>, ignoreUnknown: bool, after: Db) {
    forall g, gpk :: g in groups && Carries(table, gpk, "uuid", g) && ResolveMembers(groups[g], nodes, ignoreUnknown).Ok? ==>
      Members(ResolveMembers(groups[g], nodes, ignoreUnknown).value) <= GroupNodes(after, gpk)
  }

  /** ...and nothing else is added to any group. */
  ghost predicate OnlyMembersAdded(table: map<nat, Record>, groups: map<Value, seq<Value>>, nodes: map<Value, nat>, ignoreUnknown: bool, before: Db, after: Db) {
    forall gpk, n :: n in GroupNodes(after, gpk) ==>
      || n in GroupNodes(before, gpk)
      || exists g :: (
           && g in groups && Carries(table, gpk, "uuid", g)
           && ResolveMembers(groups[g], nodes, ignoreUnknown).Ok?
           && n in Members(ResolveMembers(groups[g], nodes, ignoreUnknown).value))
  }

  /** The loop over groups_uuid adding each group's resolved members to it. */
  method AddGroupMembers(db: Db, groups: map<Value, seq<Value>>, nodes: map<Value, nat>, ignoreUnknown: bool)
    returns (r: Result<Db, ImportError>)
    ensures r.Ok? ==> r.value == db.(groupNodes := r.value.groupNodes)
    ensures r.Ok? ==> GroupsFound(Table(db, GROUP_MODEL), groups, nodes, ignoreUnknown)
    ensures r.Ok? ==> MembersAdded(Table(db, GROUP_MODEL), groups, nodes, ignoreUnknown, r.value)
    ensures r.Ok? ==> OnlyMembersAdded(Table(db, GROUP_MODEL), groups, nodes, ignoreUnknown, db, r.value)
    ensures r.Err? ==> exists g :: (
      && g in groups
      && ((!UniqueGroup(Table(db, GROUP_MODEL), g) && r.error == NoSuchGroup(g)) || ResolveMembers(groups[g], nodes, ignoreUnknown) == Err(r.error)))
  {
    var table := Table(db, GROUP_MODEL);
    var cur := db;
    var todo := groups.Keys;
    ghost var seen: set<Value> := {};
    while todo != {}
      invariant todo + seen == groups.Keys && todo !! seen
      invariant cur == db.(groupNodes := cur.groupNodes)
      invariant GroupsFound(table, groups - todo, nodes, ignoreUnknown)
      invariant MembersAdded(table, groups - todo, nodes, ignoreUnknown, cur)
      invariant OnlyMembersAdded(table, groups - todo, nodes, ignoreUnknown, db, cur)
      decreases todo
    {
      var g :| g in todo;
      var found := FindGroup(table, g);
      if found.Err? {
        return Err(found.error);
      }
      var gpk := found.value;
      var resolved := ResolveMembers(groups[g], nodes, ignoreUnknown);
      if resolved.Err? {
        return Err(resolved.error);
      }
      var before := cur;
      if resolved.value != [] {
        cur := cur.(groupNodes := cur.groupNodes[gpk := GroupNodes(cur, gpk) + Members(resolved.value)]);
      }
      GroupStepKeeps(table, groups, todo, g, gpk, nodes, ignoreUnknown, db, before, cur);
      todo, seen := todo - {g}, seen + {g};
    }
    assert groups - {} == groups;
    return Ok(cur);
  }

  /** One group's step keeps the loop's three facts. */
  lemma GroupStepKeeps(
    table: map<nat, Record>, groups: map<Value, seq<Value>>, todo: set<Value>, g: Value, gpk: nat,
    nodes: map<Value, nat>, ignoreUnknown: bool, db: Db, before: Db, after: Db)
    requires g in todo && todo <= groups.Keys
    requires UniqueGroup(table, g) && Carries(table, gpk, "uuid", g)
    requires ResolveMembers(groups[g], nodes, ignoreUnknown).Ok?
    requires var added := Members(ResolveMembers(groups[g], nodes, ignoreUnknown).value);
      && (forall p :: p != gpk ==> GroupNodes(after, p) == GroupNodes(before, p))
      && GroupNodes(after, gpk) == GroupNodes(before, gpk) + added
    requires GroupsFound(table, groups - todo, nodes, ignoreUnknown)
    requires MembersAdded(table, groups - todo, nodes, ignoreUnknown, before)
    requires OnlyMembersAdded(table, groups - todo, nodes, ignoreUnknown, db, before)
    ensures GroupsFound(table, groups - (todo - {g}), nodes, ignoreUnknown)
    ensures MembersAdded(table, groups - (todo - {g}), nodes, ignoreUnknown, after)
    ensures OnlyMembersAdded(table, groups - (todo - {g}), nodes, ignoreUnknown, db, after)
  {
    var done := groups - (todo - {g});
    assert done.Keys == (groups - todo).Keys + {g};
    forall h | h in done
      ensures h in groups - todo || h == g
    {
    }
  }

  // ---------------------------------------------------------------------------
  // The import group
  // ---------------------------------------------------------------------------

  /**
   * existing_pk and new_pk: the store pk of every node entry through its
   * 'uuid'; a KeyError for an entry without one or one not in the mapping.
   */
  method NodePks(entries: map<nat, Record>, reverseNode: map<Value, nat>) returns (r: Result<set<nat>, ImportError>)
    ensures r.Ok? <==> forall k :: k in entries ==> "uuid" in entries[k] && entries[k]["uuid"] in reverseNode
    ensures r.Ok? ==> forall pk :: pk in r.value <==> exists k :: k in entries && reverseNode[entries[k]["uuid"]] == pk
    ensures r.Err? ==> exists k :: (
      && k in entries
      && (|| ("uuid" !in entries[k] && r.error == MissingField(NODE_MODEL, "uuid"))
          || ("uuid" in entries[k] && entries[k]["uuid"] !in reverseNode && r.error == UnsavedNode(entries[k]["uuid"]))))
  {
    var pks: set<nat> := {};
    var todo := entries.Keys;
    ghost var seen: set<nat> := {};
    while todo != {}
      invariant todo + seen == entries.Keys && todo !! seen
      invariant forall k :: k in seen ==> "uuid" in entries[k] && entries[k]["uuid"] in reverseNode
      invariant forall pk :: pk in pks <==> exists k :: k in seen && reverseNode[entries[k]["uuid"]] == pk
      decreases todo
    {
      var k :| k in todo;
      if "uuid" !in entries[k] {
        return Err(MissingField(NODE_MODEL, "uuid"));
      }
      if entries[k]["uuid"] !in reverseNode {
        return Err(UnsavedNode(entries[k]["uuid"]));
      }
      pks := pks + {reverseNode[entries[k]["uuid"]]};
      todo, seen := todo - {k}, seen + {k};
    }
    return Ok(pks);
  }

  /** timezone.localtime(now).strftime("%Y%m%d-%H%M%S"), for a clock reading already in local time. */
  function Stamp(now: Instant): string {
    Padded(now.year, 4) + Padded(now.month, 2) + Padded(now.day, 2) + "-" +
      Padded(now.hour, 2) + Padded(now.minute, 2) + Padded(now.second, 2)
  }

  /** The stamp is fifteen characters, and the clock reading it came from reads back from its fields. */
  lemma StampReadsBack(now: Instant)
    ensures var s := Stamp(now);
      && |s| == 15 && s[8] == '-'
      && ParseDigits(s[0..4]) == Some(now.year as nat)
      && ParseDigits(s[4..6]) == Some(now.month as nat)
      && ParseDigits(s[6..8]) == Some(now.day as nat)
      && ParseDigits(s[9..11]) == Some(now.hour as nat)
      && ParseDigits(s[11..13]) == Some(now.minute as nat)
      && ParseDigits(s[13..15]) == Some(now.second as nat)
  {
    var s := Stamp(now);
    assert s[0..4] == Padded(now.year, 4);
    assert s[4..6] == Padded(now.month, 2);
    assert s[6..8] == Padded(now.day, 2);
    assert s[9..11] == Padded(now.hour, 2);
    assert s[11..13] == Padded(now.minute, 2);
    assert s[13..15] == Padded(now.second, 2);
    ParsePadded(now.year, 4);
    ParsePadded(now.month, 2);
    ParsePadded(now.day, 2);
    ParsePadded(now.hour, 2);
    ParsePadded(now.minute, 2);
    ParsePadded(now.second, 2);
  }

  /** The name tried at a given counter: the basename, then basename_1, basename_2, ... */
  function ImportGroupName(basename: string, counter: nat): string {
    if counter == 0 then basename else basename + "_" + Decimal(counter)
  }

  /** Different counters give different names, so the loop tries a new name each time. */
  lemma ImportGroupNamesDistinct(basename: string, a: nat, b: nat)
    requires a != b
    ensures ImportGroupName(basename, a) != ImportGroupName(basename, b)
  {
    if a != 0 && b != 0 && ImportGroupName(basename, a) == ImportGroupName(basename, b) {
      var prefix := |basename| + 1;
      assert ImportGroupName(basename, a)[prefix..] == Decimal(a);
      assert ImportGroupName(basename, b)[prefix..] == Decimal(b);
      DecimalInjective(a, b);
    }
  }

  /** The names of the stored import groups, the ones a new import group's name may not repeat. */
  function TakenNames(table: map<nat, Record>): set<string> {
    set pk | pk in table && "type" in table[pk] && table[pk]["type"] == Str(IMPORTGROUP_TYPE) &&
      "name" in table[pk] && table[pk]["name"].Str? :: table[pk]["name"].text
  }

  /**
   * The `while not created` loop: the first name in the sequence basename,
   * basename_1, ... that no stored import group has.
   */
  method ChooseImportGroupName(taken: set<string>, basename: string) returns (name: string, ghost counter: nat)
    ensures name == ImportGroupName(basename, counter) && name !in taken
    ensures forall c :: 0 <= c < counter ==> ImportGroupName(basename, c) in taken
  {
    counter := 0;
    var c := 0;
    ghost var tried: set<string> := {};
    while ImportGroupName(basename, c) in taken
      invariant counter == c
      invariant tried == set i | 0 <= i < c :: ImportGroupName(basename, i)
      invariant tried <= taken
      decreases taken - tried
    {
      var next := ImportGroupName(basename, c);
      forall i | 0 <= i < c
        ensures ImportGroupName(basename, i) != next
      {
        ImportGroupNamesDistinct(basename, i, c);
      }
      assert next !in tried;
      assert (set i | 0 <= i < c + 1 :: ImportGroupName(basename, i)) == tried + {next};
      tried := tried + {next};
      c := c + 1;
      counter := c;
    }
    name := ImportGroupName(basename, c);
    assert forall i :: 0 <= i < c ==> ImportGroupName(basename, i) in tried;
  }

  /**
   * The import group: when the archive has nodes, a new group of type
   * aiida.import, named after the stamp, holding those of the pks the node
   * table has; with no nodes nothing is created.
   */
  method CreateImportGroup(db: Db, now: Instant, pks: set<nat>) returns (db': Db, created: Option<nat>)
    ensures pks == {} ==> db' == db && created == None
    ensures pks != {} ==> created.Some?
    ensures pks != {} ==>
      var table := Table(db, GROUP_MODEL);
      var gpk := created.value;
      && created.Some? && gpk !in table
      && GROUP_MODEL in db'.tables && gpk in db'.tables[GROUP_MODEL]
      && "name" in db'.tables[GROUP_MODEL][gpk]
      && db'.tables[GROUP_MODEL][gpk]["name"].Str?
      && db' == db.(tables := db.tables[GROUP_MODEL := table[gpk := db'.tables[GROUP_MODEL][gpk]]],
                    groupNodes := db.groupNodes[gpk := pks * Table(db, NODE_MODEL).Keys])
      && db'.tables[GROUP_MODEL][gpk] == map["name" := db'.tables[GROUP_MODEL][gpk]["name"], "type" := Str(IMPORTGROUP_TYPE)]
      && db'.tables[GROUP_MODEL][gpk]["name"].text !in TakenNames(table)
      && exists c: nat :: db'.tables[GROUP_MODEL][gpk]["name"].text == ImportGroupName(Stamp(now), c)
  {
    if pks == {} {
      return db, None;
    }
    var table := Table(db, GROUP_MODEL);
    var name, counter := ChooseImportGroupName(TakenNames(table), Stamp(now));
    var gpk := FreshPk(table.Keys);
    var row: Record := map["name" := Str(name), "type" := Str(IMPORTGROUP_TYPE)];
    db' := db.(tables := db.tables[GROUP_MODEL := table[gpk := row]],
               groupNodes := db.groupNodes[gpk := pks * Table(db, NODE_MODEL).Keys]);
    created := Some(gpk);
  }

  /** The name of the new import group is unstored, whatever the stored groups are called. */
  lemma ImportGroupNameIsNew(db: Db, now: Instant, pks: set<nat>, db': Db, gpk: nat)
    requires pks != {}
    requires gpk !in Table(db, GROUP_MODEL)
    requires GROUP_MODEL in db'.tables && gpk in db'.tables[GROUP_MODEL] && "name" in db'.tables[GROUP_MODEL][gpk]
    requires db'.tables[GROUP_MODEL] == Table(db, GROUP_MODEL)[gpk := db'.tables[GROUP_MODEL][gpk]]
    requires db'.tables[GROUP_MODEL][gpk] == map["name" := db'.tables[GROUP_MODEL][gpk]["name"], "type" := Str(IMPORTGROUP_TYPE)]
    requires db'.tables[GROUP_MODEL][gpk]["name"].Str?
    requires db'.tables[GROUP_MODEL][gpk]["name"].text !in TakenNames(Table(db, GROUP_MODEL))
    ensures forall p :: p in Table(db, GROUP_MODEL) && Carries(Table(db, GROUP_MODEL), p, "type", Str(IMPORTGROUP_TYPE)) ==>
      !Carries(db'.tables[GROUP_MODEL], p, "name", db'.tables[GROUP_MODEL][gpk]["name"])
    ensures TakenNames(db'.tables[GROUP_MODEL]) == TakenNames(Table(db, GROUP_MODEL)) + {db'.tables[GROUP_MODEL][gpk]["name"].text}
  {
    var before := Table(db, GROUP_MODEL);
    var after: map<nat, Record> := db'.tables[GROUP_MODEL];
    var name: string := after[gpk]["name"].text;
    forall p | p in before && Carries(before, p, "type", Str(IMPORTGROUP_TYPE))
      ensures !Carries(after, p, "name", Str(name))
    {
      assert p != gpk && after[p] == before[p];
      assert Carries(before, p, "name", Str(name)) ==> name in TakenNames(before);
    }
    assert name in TakenNames(after) by {
      assert after[gpk]["type"] == Str(IMPORTGROUP_TYPE);
    }
  }
}
