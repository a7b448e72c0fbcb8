/**
 * import_data once the archive is unpacked: the preliminary checks, then in
 * one transaction the two passes over the models of the import order, the
 * links, the group members and the import group.  The node folders are
 * copied outside the transaction and stay copied when it rolls back.
 */
module Importer {
  import opened Wrappers
  import opened Values
  import opened Archive
  import opened Store
  import opened Checks
  import opened Creation
  import opened Linking
  import opened Grouping

  /** The returned dict: per model its new and existing pairs, and the new links under DbLink. */
  datatype Report = Report(models: map<string, Pairs>, newLinks: seq<(nat, nat)>)

  /** The four models of the import order are four different models. */
  lemma ModelOrderDistinct()
    ensures forall i, j :: 0 <= i < j < |MODEL_ORDER| ==> MODEL_ORDER[i] != MODEL_ORDER[j]
  {
    assert |USER_MODEL| == 38 && |COMPUTER_MODEL| == 42 && |NODE_MODEL| == 38 && |GROUP_MODEL| == 39;
    assert USER_MODEL[34] == 'U' && NODE_MODEL[34] == 'N';
  }

  /** What every unique identifier the archive names needs: its model's entries carry it. */
  ghost predicate IdentifiedEntries(data: Data, md: Metadata) {
    forall m :: m in data.exportData && m in md.uniqueIdentifiers && md.uniqueIdentifiers[m].Some? ==>
      EntriesIdentified(data.exportData[m], md.uniqueIdentifiers[m].value)
  }

  /** The archive's entries of a model; a model the archive does not export has none. */
  function EntriesOf(data: Data, m: string): map<nat, Record> {
    if m in data.exportData then data.exportData[m] else map[]
  }

  /** One model's entries, split into existing and new ones by its reverse mapping. */
  ghost predicate ModelSplit(
    md: Metadata, data: Data, m: string, reverse: map<Value, nat>, existing: map<nat, Record>, additions: map<nat, Record>)
  {
    && Split(IdentifierField(md, m), existing, additions, reverse)
    && existing.Keys !! additions.Keys
    && existing.Keys + additions.Keys == EntriesOf(data, m).Keys
    && (forall k :: k in existing ==> existing[k] == EntriesOf(data, m)[k])
    && (forall k :: k in additions ==> additions[k] == EntriesOf(data, m)[k])
  }

  /** After the first pass over the first n models: each of them is split. */
  ghost predicate Partitioned(
    md: Metadata, data: Data, reverse: map<string, map<Value, nat>>,
    existing: map<string, map<nat, Record>>, additions: map<string, map<nat, Record>>, n: nat)
  {
    forall j :: 0 <= j < n && j < |MODEL_ORDER| ==>
      && MODEL_ORDER[j] in reverse && MODEL_ORDER[j] in existing && MODEL_ORDER[j] in additions
      && ModelSplit(md, data, MODEL_ORDER[j], reverse[MODEL_ORDER[j]], existing[MODEL_ORDER[j]], additions[MODEL_ORDER[j]])
  }

  /**
   * How the split of one model's entries reads the table: the reverse
   * mapping holds the entries' identifiers that some row carries, each
   * mapped to such a row, and no row carries a new entry's identifier.
   */
  ghost predicate Matched(
    table: map<nat, Record>, entries: map<nat, Record>, f: string, reverse: map<Value, nat>, additions: map<nat, Record>)
  {
    && EntriesIdentified(entries, f)
    && (forall u :: u in reverse <==> u in IdentifiersOf(entries, f) && exists pk :: Carries(table, pk, f, u))
    && (forall u :: u in reverse ==> Carries(table, reverse[u], f, u))
    && (forall k :: k in additions && f in additions[k] ==> forall pk :: !Carries(table, pk, f, additions[k][f]))
  }

  /** The first n models of the order are matched against the database. */
  ghost predicate MatchedUpTo(db: Db, md: Metadata, data: Data, reverse: map<string, map<Value, nat>>, additions: map<string, map<nat, Record>>, n: nat) {
    forall j :: 0 <= j < n && j < |MODEL_ORDER| && IdentifierField(md, MODEL_ORDER[j]).Some? ==>
      && MODEL_ORDER[j] in reverse && MODEL_ORDER[j] in additions
      && Matched(Table(db, MODEL_ORDER[j]), EntriesOf(data, MODEL_ORDER[j]), IdentifierField(md, MODEL_ORDER[j]).value,
           reverse[MODEL_ORDER[j]], additions[MODEL_ORDER[j]])
  }

  /** What the first loop leaves: every model of the order split, against the database it read. */
  ghost predicate FirstPass(
    db: Db, md: Metadata, data: Data, reverse: map<string, map<Value, nat>>,
    existing: map<string, map<nat, Record>>, additions: map<string, map<nat, Record>>)
  {
    && Partitioned(md, data, reverse, existing, additions, |MODEL_ORDER|)
    && MatchedUpTo(db, md, data, reverse, additions, |MODEL_ORDER|)
  }

  /** One pass of the first loop: a model without a unique identifier has only new entries. */
  method PartitionModel(db: Db, data: Data, md: Metadata, m: string)
    returns (reverse: map<Value, nat>, existing: map<nat, Record>, additions: map<nat, Record>)
    requires IdentifiedEntries(data, md)
    ensures ModelSplit(md, data, m, reverse, existing, additions)
    ensures IdentifierField(md, m).None? ==> reverse == map[] && existing == map[] && additions == EntriesOf(data, m)
    ensures IdentifierField(md, m).Some? ==> Matched(Table(db, m), EntriesOf(data, m), IdentifierField(md, m).value, reverse, additions)
  {
    reverse, existing, additions := map[], map[], map[];
    if m in data.exportData {
      var uid := IdentifierField(md, m);
      if uid.Some? {
        reverse, existing, additions := Partition(Table(db, m), data.exportData[m], uid.value);
      } else {
        additions := data.exportData[m];
      }
    }
  }

  /** The first loop over model_order. */
  method PartitionModels(db: Db, data: Data, md: Metadata)
    returns (reverse: map<string, map<Value, nat>>, existing: map<string, map<nat, Record>>, additions: map<string, map<nat, Record>>)
    requires IdentifiedEntries(data, md)
    ensures FirstPass(db, md, data, reverse, existing, additions)
    ensures NODE_MODEL in existing && NODE_MODEL in additions
  {
    reverse, existing, additions := map[], map[], map[];
    for i := 0 to |MODEL_ORDER|
      invariant Partitioned(md, data, reverse, existing, additions, i)
      invariant MatchedUpTo(db, md, data, reverse, additions, i)
    {
      var m := MODEL_ORDER[i];
      var rev, ex, add := PartitionModel(db, data, md, m);
      PartitionedStep(md, data, reverse, existing, additions, i, rev, ex, add);
      MatchedStep(db, md, data, reverse, additions, i, rev, add);
      reverse, existing, additions := reverse[m := rev], existing[m := ex], additions[m := add];
    }
    assert MODEL_ORDER[2] == NODE_MODEL;
  }

  /** Matching the next model keeps the earlier models matched. */
  lemma MatchedStep(
    db: Db, md: Metadata, data: Data, reverse: map<string, map<Value, nat>>, additions: map<string, map<nat, Record>>, i: nat,
    rev: map<Value, nat>, add: map<nat, Record>)
    requires i < |MODEL_ORDER| && MatchedUpTo(db, md, data, reverse, additions, i)
    requires var m := MODEL_ORDER[i];
      IdentifierField(md, m).Some? ==> Matched(Table(db, m), EntriesOf(data, m), IdentifierField(md, m).value, rev, add)
    ensures var m := MODEL_ORDER[i]; MatchedUpTo(db, md, data, reverse[m := rev], additions[m := add], i + 1)
  {
    ModelOrderDistinct();
  }

  /** Splitting the next model keeps the earlier models split. */
  lemma PartitionedStep(
    md: Metadata, data: Data, reverse: map<string, map<Value, nat>>,
    existing: map<string, map<nat, Record>>, additions: map<string, map<nat, Record>>, i: nat,
    rev: map<Value, nat>, ex: map<nat, Record>, add: map<nat, Record>)
    requires i < |MODEL_ORDER| && Partitioned(md, data, reverse, existing, additions, i)
    requires ModelSplit(md, data, MODEL_ORDER[i], rev, ex, add)
    ensures var m := MODEL_ORDER[i];
      Partitioned(md, data, reverse[m := rev], existing[m := ex], additions[m := add], i + 1)
  {
    ModelOrderDistinct();
  }

  /** What one model's creation leaves unchanged or only lets grow. */
  ghost predicate Grown(db: Db, db': Db) {
    && (forall m :: RowsKept(Table(db, m), Table(db', m)))
    && db'.links == db.links && db'.groupNodes == db.groupNodes && db'.paths == db.paths
    && db.calcStates <= db'.calcStates
  }

  /** A model is reported when it has an existing or a new entry. */
  ghost predicate ReportsEntries(models: map<string, Pairs>, existing: map<string, map<nat, Record>>) {
    forall m :: m in models ==>
      && m in MODEL_ORDER && m in existing
      && (models[m].newPairs != {} || models[m].existingPairs != {})
  }

  /** The pairs the returned dict holds for a model; a model it leaves out has none. */
  function PairsOf(models: map<string, Pairs>, m: string): Pairs {
    if m in models then models[m] else Pairs({}, {})
  }

  /**
   * What creating model m did to its table, as ImportModel states it, with
   * the rows placed for the new entries left unnamed: the old rows are
   * kept, each new entry got a new row that deserialises it, the existing
   * entries are reported with their rows, and the model's reverse mapping
   * rev' extends the first loop's with the new rows.
   */
  ghost predicate ModelCreated(
    before: map<nat, Record>, after: map<nat, Record>, pkg: Package, m: string,
    existing: map<nat, Record>, additions: map<nat, Record>, uniqueIds: map<string, map<nat, Value>>,
    reverse: map<string, map<Value, nat>>, rev': map<Value, nat>, pairs: Pairs)
  {
    && m in reverse && IdentifierField(pkg.metadata, m).Some?
    && var f := IdentifierField(pkg.metadata, m).value;
    && Split(Some(f), existing, additions, reverse[m])
    && RowsKept(before, after)
    && (exists placed :: StoredAt(before, after, additions, placed, FieldsInfoOf(pkg.metadata, m), uniqueIds, reverse))
    && pairs.existingPairs == ExistingPairs(existing, f, reverse[m])
    && ReverseExtended(reverse[m], rev', additions, f, after)
    && NewPairsReported(pairs.newPairs, additions, f, rev', after)
  }

  /** One pass of the second loop, with everything ImportModel states but the placement's name. */
  method ImportOne(
    db: Db, repo: Repository, pkg: Package, m: string,
    existing: map<nat, Record>, additions: map<nat, Record>,
    uniqueIds: map<string, map<nat, Value>>, reverse: map<string, map<Value, nat>>)
    returns (r: Result<Created, ImportError>, repo': Repository)
    requires m in reverse
    requires Split(IdentifierField(pkg.metadata, m), existing, additions, reverse[m])
    ensures FoldersFromArchive(repo, repo', pkg.folders)
    ensures m != NODE_MODEL ==> repo' == repo
    ensures r.Ok? ==> var c := r.value;
      && ModelCreated(Table(db, m), Table(c.db, m), pkg, m, existing, additions, uniqueIds, reverse, c.reverse, c.pairs)
      && OnlyTableChanged(db, c.db, m)
      && NodeStateSet(db, c.db, c.pairs.newPairs, pkg.data, m == NODE_MODEL)
      && (m == NODE_MODEL ==> NewFoldersCopied(Table(db, m), Table(c.db, m), repo', pkg.folders))
  {
    ghost var placed;
    r, repo', placed := ImportModel(db, repo, pkg, m, existing, additions, uniqueIds, reverse);
  }

  /**
   * The reverse mappings the second loop had when it reached model j: the
   * first loop's, with the mappings of the models before j as they ended.
   */
  function ReverseBefore(reverse0: map<string, map<Value, nat>>, reverse: map<string, map<Value, nat>>, j: nat): map<string, map<Value, nat>>
    requires j <= |MODEL_ORDER|
  {
    if j == 0 then reverse0
    else
      var m := MODEL_ORDER[j - 1];
      var earlier := ReverseBefore(reverse0, reverse, j - 1);
      if m in reverse then earlier[m := reverse[m]] else earlier
  }

  /** ReverseBefore only reads the mappings of the models before j. */
  lemma ReverseBeforeFrame(reverse0: map<string, map<Value, nat>>, a: map<string, map<Value, nat>>, b: map<string, map<Value, nat>>, j: nat)
    requires j <= |MODEL_ORDER|
    requires forall k :: 0 <= k < j ==> (MODEL_ORDER[k] in a <==> MODEL_ORDER[k] in b)
    requires forall k :: 0 <= k < j && MODEL_ORDER[k] in a ==> a[MODEL_ORDER[k]] == b[MODEL_ORDER[k]]
    ensures ReverseBefore(reverse0, a, j) == ReverseBefore(reverse0, b, j)
  {
  }

  /** A model the loop has not reached yet still has the first loop's mapping. */
  lemma ReverseBeforeUntouched(reverse0: map<string, map<Value, nat>>, reverse: map<string, map<Value, nat>>, j: nat, m: string)
    requires j <= |MODEL_ORDER| && m in reverse0
    requires forall k :: 0 <= k < j ==> MODEL_ORDER[k] != m
    ensures m in ReverseBefore(reverse0, reverse, j) && ReverseBefore(reverse0, reverse, j)[m] == reverse0[m]
  {
  }

  /**
   * What the second loop has done after its first i models: the later
   * models' tables are untouched, the reverse mappings are
   * the first loop's updated by the models done, and each model done was
   * created against the mappings it found.
   */
  ghost predicate CreatedUpTo(
    db: Db, cur: Db, pkg: Package,
    existing: map<string, map<nat, Record>>, additions: map<string, map<nat, Record>>, uniqueIds: map<string, map<nat, Value>>,
    reverse0: map<string, map<Value, nat>>, reverse: map<string, map<Value, nat>>, models: map<string, Pairs>, i: nat)
    requires i <= |MODEL_ORDER|
  {
    && (forall n :: n !in MODEL_ORDER[..i] ==> Table(cur, n) == Table(db, n))
    && reverse == ReverseBefore(reverse0, reverse, i)
    && ModelsUpTo(db, cur, pkg, existing, additions, uniqueIds, reverse0, reverse, models, i)
  }

  /** Each of the first i models was created against the mappings it found. */
  ghost predicate ModelsUpTo(
    db: Db, cur: Db, pkg: Package,
    existing: map<string, map<nat, Record>>, additions: map<string, map<nat, Record>>, uniqueIds: map<string, map<nat, Value>>,
    reverse0: map<string, map<Value, nat>>, reverse: map<string, map<Value, nat>>, models: map<string, Pairs>, i: nat)
    requires i <= |MODEL_ORDER|
    decreases i
  {
    i == 0 ||
    var m := MODEL_ORDER[i - 1];
    && ModelsUpTo(db, cur, pkg, existing, additions, uniqueIds, reverse0, reverse, models, i - 1)
    && m in existing && m in additions && m in reverse
    && ModelCreated(Table(db, m), Table(cur, m), pkg, m, existing[m], additions[m], uniqueIds,
         ReverseBefore(reverse0, reverse, i - 1), reverse[m], PairsOf(models, m))
  }

  /** The tables, mappings and pairs of the first i models are the same in both states. */
  ghost predicate SameUpTo(
    cur: Db, cur': Db, reverse: map<string, map<Value, nat>>, reverse': map<string, map<Value, nat>>,
    models: map<string, Pairs>, models': map<string, Pairs>, i: nat)
    requires i <= |MODEL_ORDER|
    decreases i
  {
    i == 0 ||
    var m := MODEL_ORDER[i - 1];
    && SameUpTo(cur, cur', reverse, reverse', models, models', i - 1)
    && Table(cur', m) == Table(cur, m)
    && (m in reverse <==> m in reverse') && (m in reverse ==> reverse'[m] == reverse[m])
    && PairsOf(models', m) == PairsOf(models, m)
  }

  lemma {:induction false} SameUpToIntro(
    cur: Db, cur': Db, reverse: map<string, map<Value, nat>>, reverse': map<string, map<Value, nat>>,
    models: map<string, Pairs>, models': map<string, Pairs>, i: nat)
    requires i <= |MODEL_ORDER|
    requires forall k :: 0 <= k < i ==> Table(cur', MODEL_ORDER[k]) == Table(cur, MODEL_ORDER[k])
    requires forall k :: 0 <= k < i ==> (MODEL_ORDER[k] in reverse <==> MODEL_ORDER[k] in reverse')
    requires forall k :: 0 <= k < i && MODEL_ORDER[k] in reverse ==> reverse'[MODEL_ORDER[k]] == reverse[MODEL_ORDER[k]]
    requires forall k :: 0 <= k < i ==> PairsOf(models', MODEL_ORDER[k]) == PairsOf(models, MODEL_ORDER[k])
    ensures SameUpTo(cur, cur', reverse, reverse', models, models', i)
  {
    if i > 0 {
      SameUpToIntro(cur, cur', reverse, reverse', models, models', i - 1);
    }
  }

  /**
   * ModelsUpTo only reads the tables, mappings and pairs of the first i
   * models, and so does the reverse mapping of turn i.
   */
  lemma {:induction false} ModelsUpToFrame(
    db: Db, cur: Db, cur': Db, pkg: Package,
    existing: map<string, map<nat, Record>>, additions: map<string, map<nat, Record>>, uniqueIds: map<string, map<nat, Value>>,
    reverse0: map<string, map<Value, nat>>, reverse: map<string, map<Value, nat>>, reverse': map<string, map<Value, nat>>,
    models: map<string, Pairs>, models': map<string, Pairs>, i: nat)
    requires i <= |MODEL_ORDER|
    requires ModelsUpTo(db, cur, pkg, existing, additions, uniqueIds, reverse0, reverse, models, i)
    requires SameUpTo(cur, cur', reverse, reverse', models, models', i)
    ensures ModelsUpTo(db, cur', pkg, existing, additions, uniqueIds, reverse0, reverse', models', i)
    ensures ReverseBefore(reverse0, reverse', i) == ReverseBefore(reverse0, reverse, i)
  {
    if i > 0 {
      ModelsUpToFrame(db, cur, cur', pkg, existing, additions, uniqueIds, reverse0, reverse, reverse', models, models', i - 1);
    }
  }

  /** Every model counted by ModelsUpTo was created against the mappings of its turn. */
  lemma {:induction false} ModelsUpToAt(
    db: Db, cur: Db, pkg: Package,
    existing: map<string, map<nat, Record>>, additions: map<string, map<nat, Record>>, uniqueIds: map<string, map<nat, Value>>,
    reverse0: map<string, map<Value, nat>>, reverse: map<string, map<Value, nat>>, models: map<string, Pairs>, i: nat, j: nat)
    requires j < i <= |MODEL_ORDER|
    requires ModelsUpTo(db, cur, pkg, existing, additions, uniqueIds, reverse0, reverse, models, i)
    ensures var m := MODEL_ORDER[j];
      && m in existing && m in additions && m in reverse
      && ModelCreated(Table(db, m), Table(cur, m), pkg, m, existing[m], additions[m], uniqueIds,
           ReverseBefore(reverse0, reverse, j), reverse[m], PairsOf(models, m))
  {
    if j < i - 1 {
      ModelsUpToAt(db, cur, pkg, existing, additions, uniqueIds, reverse0, reverse, models, i - 1, j);
    }
  }

  /** The reverse mappings after model i are the first loop's updated by the first i + 1 models. */
  lemma ReverseUpToStep(reverse0: map<string, map<Value, nat>>, reverse: map<string, map<Value, nat>>, i: nat, rev: map<Value, nat>)
    requires i < |MODEL_ORDER| && reverse == ReverseBefore(reverse0, reverse, i)
    ensures var reverse' := reverse[MODEL_ORDER[i] := rev];
      reverse' == ReverseBefore(reverse0, reverse', i + 1) && ReverseBefore(reverse0, reverse', i) == reverse
  {
    ModelOrderDistinct();
    var reverse' := reverse[MODEL_ORDER[i] := rev];
    ReverseBeforeFrame(reverse0, reverse', reverse, i);
  }

  /** Creating model i keeps the earlier models created and adds model i. */
  lemma ModelsUpToStep(
    db: Db, cur: Db, pkg: Package,
    existing: map<string, map<nat, Record>>, additions: map<string, map<nat, Record>>, uniqueIds: map<string, map<nat, Value>>,
    reverse0: map<string, map<Value, nat>>, reverse: map<string, map<Value, nat>>, models: map<string, Pairs>, models': map<string, Pairs>,
    i: nat, c: Created)
    requires i < |MODEL_ORDER|
    requires ModelsUpTo(db, cur, pkg, existing, additions, uniqueIds, reverse0, reverse, models, i)
    requires var m := MODEL_ORDER[i];
      && Table(cur, m) == Table(db, m) && ReverseBefore(reverse0, reverse[m := c.reverse], i) == reverse
      && m in existing && m in additions
      && ModelCreated(Table(cur, m), Table(c.db, m), pkg, m, existing[m], additions[m], uniqueIds, reverse, c.reverse, c.pairs)
      && OnlyTableChanged(cur, c.db, m)
      && PairsOf(models', m) == c.pairs
      && forall n :: n != m ==> PairsOf(models', n) == PairsOf(models, n)
    ensures ModelsUpTo(db, c.db, pkg, existing, additions, uniqueIds, reverse0, reverse[MODEL_ORDER[i] := c.reverse], models', i + 1)
  {
    ModelOrderDistinct();
    var m := MODEL_ORDER[i];
    var reverse' := reverse[m := c.reverse];
    forall k | 0 <= k < i
      ensures Table(c.db, MODEL_ORDER[k]) == Table(cur, MODEL_ORDER[k])
      ensures MODEL_ORDER[k] in reverse <==> MODEL_ORDER[k] in reverse'
      ensures MODEL_ORDER[k] in reverse ==> reverse'[MODEL_ORDER[k]] == reverse[MODEL_ORDER[k]]
      ensures PairsOf(models', MODEL_ORDER[k]) == PairsOf(models, MODEL_ORDER[k])
    {
      assert MODEL_ORDER[k] != m;
    }
    SameUpToIntro(cur, c.db, reverse, reverse', models, models', i);
    ModelsUpToFrame(db, cur, c.db, pkg, existing, additions, uniqueIds, reverse0, reverse, reverse', models, models', i);
    assert ReverseBefore(reverse0, reverse', i) == reverse && reverse'[m] == c.reverse && Table(cur, m) == Table(db, m);
  }

  /** Creating model i keeps what the loop knows of the models before it and adds model i. */
  lemma CreatedStep(
    db: Db, cur: Db, pkg: Package,
    existing: map<string, map<nat, Record>>, additions: map<string, map<nat, Record>>, uniqueIds: map<string, map<nat, Value>>,
    reverse0: map<string, map<Value, nat>>, reverse: map<string, map<Value, nat>>, models: map<string, Pairs>, models': map<string, Pairs>,
    i: nat, c: Created)
    requires i < |MODEL_ORDER|
    requires CreatedUpTo(db, cur, pkg, existing, additions, uniqueIds, reverse0, reverse, models, i)
    requires var m := MODEL_ORDER[i];
      && m in existing && m in additions && m in reverse && m !in models
      && ModelCreated(Table(cur, m), Table(c.db, m), pkg, m, existing[m], additions[m], uniqueIds, reverse, c.reverse, c.pairs)
      && OnlyTableChanged(cur, c.db, m)
      && models' == (if c.pairs.newPairs != {} || c.pairs.existingPairs != {} then models[m := c.pairs] else models)
    ensures CreatedUpTo(db, c.db, pkg, existing, additions, uniqueIds, reverse0, reverse[MODEL_ORDER[i] := c.reverse], models', i + 1)
  {
    var m := MODEL_ORDER[i];
    OtherTablesStep(db, cur, c.db, m, i);
    ReverseUpToStep(reverse0, reverse, i, c.reverse);
    PairsStep(models, models', m, c.pairs);
    ModelsUpToStep(db, cur, pkg, existing, additions, uniqueIds, reverse0, reverse, models, models', i, c);
  }

  /** Model i was not done yet, and after it the models done are one more. */
  lemma OtherTablesStep(db: Db, cur: Db, next: Db, m: string, i: nat)
    requires i < |MODEL_ORDER| && m == MODEL_ORDER[i]
    requires forall n :: n !in MODEL_ORDER[..i] ==> Table(cur, n) == Table(db, n)
    requires OnlyTableChanged(cur, next, m)
    ensures Table(cur, m) == Table(db, m)
    ensures forall n :: n !in MODEL_ORDER[..i + 1] ==> Table(next, n) == Table(db, n)
  {
    ModelOrderDistinct();
    assert MODEL_ORDER[..i + 1] == MODEL_ORDER[..i] + [m];
    assert m !in MODEL_ORDER[..i];
  }

  /** Reporting model m's pairs only when it has some leaves the pairs of every model as they were or as created. */
  lemma PairsStep(models: map<string, Pairs>, models': map<string, Pairs>, m: string, pairs: Pairs)
    requires m !in models
    requires models' == (if pairs.newPairs != {} || pairs.existingPairs != {} then models[m := pairs] else models)
    ensures PairsOf(models', m) == pairs
    ensures forall n :: n != m ==> PairsOf(models', n) == PairsOf(models, n)
  {
  }

  /**
   * The node step sets the states and attributes of its new nodes, and the
   * other models' steps leave them: over the loop the new nodes reported
   * for the node model are the ones set.
   */
  lemma NodeStateStep(db: Db, cur: Db, next: Db, models: map<string, Pairs>, models': map<string, Pairs>, m: string, pairs: Pairs, data: Data)
    requires NodeStateSet(db, cur, PairsOf(models, NODE_MODEL).newPairs, data, true)
    requires NodeStateSet(cur, next, pairs.newPairs, data, m == NODE_MODEL)
    requires m == NODE_MODEL ==> PairsOf(models, NODE_MODEL).newPairs == {} && PairsOf(models', NODE_MODEL) == pairs
    requires m != NODE_MODEL ==> PairsOf(models', NODE_MODEL) == PairsOf(models, NODE_MODEL)
    ensures NodeStateSet(db, next, PairsOf(models', NODE_MODEL).newPairs, data, true)
  {
  }

  /** Setting the new nodes' states only adds states. */
  lemma NodeStateCalcStates(db: Db, db': Db, pairs: set<(nat, nat)>, data: Data, isNode: bool)
    requires NodeStateSet(db, db', pairs, data, isNode)
    ensures db.calcStates <= db'.calcStates
  {
  }

  /**
   * The models the second loop created, between the database before it and
   * after it: tables of other models untouched, every model of the order
   * created against the reverse mappings of its turn, the new nodes' states
   * and attributes set and their folders copied, and the models with
   * entries reported.
   */
  ghost predicate ModelsCreated(
    db: Db, db': Db, repo': Repository, pkg: Package,
    existing: map<string, map<nat, Record>>, additions: map<string, map<nat, Record>>, uniqueIds: map<string, map<nat, Value>>,
    reverse0: map<string, map<Value, nat>>, reverse': map<string, map<Value, nat>>, models: map<string, Pairs>)
  {
    && Grown(db, db')
    && (forall n :: n !in MODEL_ORDER ==> Table(db', n) == Table(db, n))
    && (forall j :: 0 <= j < |MODEL_ORDER| ==>
         && MODEL_ORDER[j] in existing && MODEL_ORDER[j] in additions && MODEL_ORDER[j] in reverse'
         && ModelCreated(Table(db, MODEL_ORDER[j]), Table(db', MODEL_ORDER[j]), pkg, MODEL_ORDER[j],
              existing[MODEL_ORDER[j]], additions[MODEL_ORDER[j]], uniqueIds,
              ReverseBefore(reverse0, reverse', j), reverse'[MODEL_ORDER[j]], PairsOf(models, MODEL_ORDER[j])))
    && NodeStateSet(db, db', PairsOf(models, NODE_MODEL).newPairs, pkg.data, true)
    && NewFoldersCopied(Table(db, NODE_MODEL), Table(db', NODE_MODEL), repo', pkg.folders)
    && ReportsEntries(models, existing)
  }

  /**
   * What the second loop keeps after its first i models besides the models
   * created: the files only come from the archive, rows only grow, the
   * reverse mappings of later models are untouched, and later models are
   * not reported yet.
   */
  ghost predicate LoopKept(
    db: Db, cur: Db, repo: Repository, repo': Repository, pkg: Package,
    existing: map<string, map<nat, Record>>,
    reverse0: map<string, map<Value, nat>>, reverse: map<string, map<Value, nat>>, models: map<string, Pairs>, i: nat)
  {
    && FoldersFromArchive(repo, repo', pkg.folders)
    && Grown(db, cur)
    && ReverseGrown(reverse0, reverse, i)
    && (forall j :: 0 <= j < i && j < |MODEL_ORDER| ==> IdentifierField(pkg.metadata, MODEL_ORDER[j]).Some?)
    && ReportsEntries(models, existing)
    && (forall j :: i <= j < |MODEL_ORDER| ==> MODEL_ORDER[j] !in models)
  }

  /** The new nodes reported so far have their states, attributes and, once the node model is done, folders. */
  ghost predicate NodesDone(db: Db, cur: Db, repo': Repository, pkg: Package, models: map<string, Pairs>, i: nat) {
    && NodeStateSet(db, cur, PairsOf(models, NODE_MODEL).newPairs, pkg.data, true)
    && (2 < i ==> NewFoldersCopied(Table(db, NODE_MODEL), Table(cur, NODE_MODEL), repo', pkg.folders))
  }

  /** One pass of the second loop keeps NodesDone. */
  lemma NodesDoneStep(
    db: Db, cur: Db, repoMid: Repository, repo': Repository, pkg: Package,
    models: map<string, Pairs>, models': map<string, Pairs>, i: nat, c: Created)
    requires i < |MODEL_ORDER| && NodesDone(db, cur, repoMid, pkg, models, i)
    requires MODEL_ORDER[i] !in models
    requires var m := MODEL_ORDER[i];
      && (m != NODE_MODEL ==> repo' == repoMid)
      && Table(cur, m) == Table(db, m)
      && OnlyTableChanged(cur, c.db, m)
      && NodeStateSet(cur, c.db, c.pairs.newPairs, pkg.data, m == NODE_MODEL)
      && (m == NODE_MODEL ==> NewFoldersCopied(Table(cur, m), Table(c.db, m), repo', pkg.folders))
      && models' == (if c.pairs.newPairs != {} || c.pairs.existingPairs != {} then models[m := c.pairs] else models)
    ensures NodesDone(db, c.db, repo', pkg, models', i + 1)
  {
    ModelOrderDistinct();
    var m := MODEL_ORDER[i];
    assert MODEL_ORDER[2] == NODE_MODEL;
    NodeStateStep(db, cur, c.db, models, models', m, c.pairs, pkg.data);
    if 2 < i {
      assert m != NODE_MODEL;
      assert Table(c.db, NODE_MODEL) == Table(cur, NODE_MODEL);
    }
  }

  /** One pass of the second loop keeps LoopKept. */
  lemma LoopKeptStep(
    db: Db, cur: Db, next: Db, repo: Repository, repoMid: Repository, repo': Repository, pkg: Package,
    existing: map<string, map<nat, Record>>,
    reverse0: map<string, map<Value, nat>>, reverse: map<string, map<Value, nat>>, models: map<string, Pairs>, models': map<string, Pairs>,
    i: nat, c: Created)
    requires i < |MODEL_ORDER| && MODEL_ORDER[i] in existing
    requires LoopKept(db, cur, repo, repoMid, pkg, existing, reverse0, reverse, models, i)
    requires var m := MODEL_ORDER[i];
      && IdentifierField(pkg.metadata, m).Some?
      && FoldersFromArchive(repoMid, repo', pkg.folders)
      && RowsKept(Table(cur, m), Table(c.db, m))
      && cur.calcStates <= c.db.calcStates
      && (forall u :: u in reverse[m] ==> u in c.reverse && c.reverse[u] == reverse[m][u])
      && OnlyTableChanged(cur, c.db, m)
      && models' == (if c.pairs.newPairs != {} || c.pairs.existingPairs != {} then models[m := c.pairs] else models)
    ensures LoopKept(db, c.db, repo, repo', pkg, existing, reverse0, reverse[MODEL_ORDER[i] := c.reverse], models', i + 1)
  {
    ModelOrderDistinct();
    var m := MODEL_ORDER[i];
    ReverseStep(reverse0, reverse, i, c.reverse);
    if c.pairs.newPairs != {} || c.pairs.existingPairs != {} {
      ReportsStep(models, existing, m, c.pairs);
    }
    KeptAcrossModel(db, cur, c.db, m);
    FoldersCompose(repo, repoMid, repo', pkg.folders);
  }

  /** The second loop over model_order. */
  method CreateModels(
    db: Db, repo: Repository, pkg: Package,
    existing: map<string, map<nat, Record>>, additions: map<string, map<nat, Record>>,
    uniqueIds: map<string, map<nat, Value>>, reverse0: map<string, map<Value, nat>>)
    returns (r: Result<(Db, map<string, map<Value, nat>>, map<string, Pairs>), ImportError>, repo': Repository)
    requires Partitioned(pkg.metadata, pkg.data, reverse0, existing, additions, |MODEL_ORDER|)
    ensures FoldersFromArchive(repo, repo', pkg.folders)
    ensures r.Ok? ==> forall j :: 0 <= j < |MODEL_ORDER| ==> IdentifierField(pkg.metadata, MODEL_ORDER[j]).Some?
    ensures r.Ok? ==> var (db', reverse', models) := r.value;
      ModelsCreated(db, db', repo', pkg, existing, additions, uniqueIds, reverse0, reverse', models)
  {
    var cur := db;
    var reverse := reverse0;
    var models: map<string, Pairs> := map[];
    repo' := repo;
    LoopStart(db, repo, pkg, existing, additions, uniqueIds, reverse0);
    for i := 0 to |MODEL_ORDER|
      invariant LoopKept(db, cur, repo, repo', pkg, existing, reverse0, reverse, models, i)
      invariant CreatedUpTo(db, cur, pkg, existing, additions, uniqueIds, reverse0, reverse, models, i)
      invariant NodesDone(db, cur, repo', pkg, models, i)
    {
      var m := MODEL_ORDER[i];
      var repoMid := repo';
      var created;
      created, repo' := ImportOne(cur, repoMid, pkg, m, existing[m], additions[m], uniqueIds, reverse);
      if created.Err? {
        return Err(created.error), repo';
      }
      var c := created.value;
      var models' := if c.pairs.newPairs != {} || c.pairs.existingPairs != {} then models[m := c.pairs] else models;
      PassDone(db, cur, repo, repoMid, repo', pkg, existing, additions, uniqueIds, reverse0, reverse, models, models', i, c);
      cur, reverse, models := c.db, reverse[m := c.reverse], models';
    }
    LoopDone(db, cur, repo, repo', pkg, existing, additions, uniqueIds, reverse0, reverse, models);
    return Ok((cur, reverse, models)), repo';
  }

  /** Before the second loop nothing is created and nothing changed. */
  lemma LoopStart(
    db: Db, repo: Repository, pkg: Package,
    existing: map<string, map<nat, Record>>, additions: map<string, map<nat, Record>>, uniqueIds: map<string, map<nat, Value>>,
    reverse0: map<string, map<Value, nat>>)
    requires Partitioned(pkg.metadata, pkg.data, reverse0, existing, additions, |MODEL_ORDER|)
    ensures LoopKept(db, db, repo, repo, pkg, existing, reverse0, reverse0, map[], 0)
    ensures CreatedUpTo(db, db, pkg, existing, additions, uniqueIds, reverse0, reverse0, map[], 0)
    ensures NodesDone(db, db, repo, pkg, map[], 0)
  {
    assert MODEL_ORDER[2] == NODE_MODEL;
    assert MODEL_ORDER[..0] == [];
  }

  /** One pass of the second loop, from what ImportModel states to both loop invariants. */
  lemma PassDone(
    db: Db, cur: Db, repo: Repository, repoMid: Repository, repo': Repository, pkg: Package,
    existing: map<string, map<nat, Record>>, additions: map<string, map<nat, Record>>, uniqueIds: map<string, map<nat, Value>>,
    reverse0: map<string, map<Value, nat>>, reverse: map<string, map<Value, nat>>, models: map<string, Pairs>, models': map<string, Pairs>,
    i: nat, c: Created)
    requires i < |MODEL_ORDER|
    requires Partitioned(pkg.metadata, pkg.data, reverse0, existing, additions, |MODEL_ORDER|)
    requires LoopKept(db, cur, repo, repoMid, pkg, existing, reverse0, reverse, models, i)
    requires CreatedUpTo(db, cur, pkg, existing, additions, uniqueIds, reverse0, reverse, models, i)
    requires NodesDone(db, cur, repoMid, pkg, models, i)
    requires var m := MODEL_ORDER[i];
      && m in existing && m in additions
      && FoldersFromArchive(repoMid, repo', pkg.folders)
      && (m != NODE_MODEL ==> repo' == repoMid)
      && ModelCreated(Table(cur, m), Table(c.db, m), pkg, m, existing[m], additions[m], uniqueIds, reverse, c.reverse, c.pairs)
      && OnlyTableChanged(cur, c.db, m)
      && NodeStateSet(cur, c.db, c.pairs.newPairs, pkg.data, m == NODE_MODEL)
      && (m == NODE_MODEL ==> NewFoldersCopied(Table(cur, m), Table(c.db, m), repo', pkg.folders))
      && models' == (if c.pairs.newPairs != {} || c.pairs.existingPairs != {} then models[m := c.pairs] else models)
    ensures LoopKept(db, c.db, repo, repo', pkg, existing, reverse0, reverse[MODEL_ORDER[i] := c.reverse], models', i + 1)
    ensures CreatedUpTo(db, c.db, pkg, existing, additions, uniqueIds, reverse0, reverse[MODEL_ORDER[i] := c.reverse], models', i + 1)
    ensures NodesDone(db, c.db, repo', pkg, models', i + 1)
  {
    var m := MODEL_ORDER[i];
    CreatedFacts(Table(cur, m), Table(c.db, m), pkg, m, existing[m], additions[m], uniqueIds, reverse, c.reverse, c.pairs);
    assert m !in MODEL_ORDER[..i] by {
      ModelOrderDistinct();
    }
    assert m !in models;
    assert Table(cur, m) == Table(db, m);
    NodeStateCalcStates(cur, c.db, c.pairs.newPairs, pkg.data, m == NODE_MODEL);
    LoopKeptStep(db, cur, c.db, repo, repoMid, repo', pkg, existing, reverse0, reverse, models, models', i, c);
    NodesDoneStep(db, cur, repoMid, repo', pkg, models, models', i, c);
    CreatedStep(db, cur, pkg, existing, additions, uniqueIds, reverse0, reverse, models, models', i, c);
  }

  /** The plain facts a created model gives the loop. */
  lemma CreatedFacts(
    before: map<nat, Record>, after: map<nat, Record>, pkg: Package, m: string,
    existing: map<nat, Record>, additions: map<nat, Record>, uniqueIds: map<string, map<nat, Value>>,
    reverse: map<string, map<Value, nat>>, rev': map<Value, nat>, pairs: Pairs)
    requires ModelCreated(before, after, pkg, m, existing, additions, uniqueIds, reverse, rev', pairs)
    ensures m in reverse && IdentifierField(pkg.metadata, m).Some? && RowsKept(before, after)
    ensures forall u :: u in reverse[m] ==> u in rev' && rev'[u] == reverse[m][u]
  {
  }

  /** After the last pass the loop has created every model of the order. */
  lemma LoopDone(
    db: Db, cur: Db, repo: Repository, repo': Repository, pkg: Package,
    existing: map<string, map<nat, Record>>, additions: map<string, map<nat, Record>>, uniqueIds: map<string, map<nat, Value>>,
    reverse0: map<string, map<Value, nat>>, reverse: map<string, map<Value, nat>>, models: map<string, Pairs>)
    requires LoopKept(db, cur, repo, repo', pkg, existing, reverse0, reverse, models, |MODEL_ORDER|)
    requires NodesDone(db, cur, repo', pkg, models, |MODEL_ORDER|)
    requires CreatedUpTo(db, cur, pkg, existing, additions, uniqueIds, reverse0, reverse, models, |MODEL_ORDER|)
    ensures forall j :: 0 <= j < |MODEL_ORDER| ==> IdentifierField(pkg.metadata, MODEL_ORDER[j]).Some?
    ensures ModelsCreated(db, cur, repo', pkg, existing, additions, uniqueIds, reverse0, reverse, models)
  {
    assert MODEL_ORDER[..|MODEL_ORDER|] == MODEL_ORDER;
    forall j | 0 <= j < |MODEL_ORDER|
      ensures var m := MODEL_ORDER[j];
        && m in existing && m in additions && m in reverse
        && ModelCreated(Table(db, m), Table(cur, m), pkg, m, existing[m], additions[m], uniqueIds,
             ReverseBefore(reverse0, reverse, j), reverse[m], PairsOf(models, m))
    {
      ModelsUpToAt(db, cur, pkg, existing, additions, uniqueIds, reverse0, reverse, models, |MODEL_ORDER|, j);
    }
  }

  /**
   * The reverse mappings while the second loop has done the first i models:
   * the later models still have the mapping of the first loop, and the
   * node mapping only grew.
   */
  ghost predicate ReverseGrown(reverse0: map<string, map<Value, nat>>, reverse: map<string, map<Value, nat>>, i: nat) {
    && (forall j :: 0 <= j < |MODEL_ORDER| ==> MODEL_ORDER[j] in reverse)
    && (forall j :: i <= j < |MODEL_ORDER| ==> MODEL_ORDER[j] in reverse0 && reverse[MODEL_ORDER[j]] == reverse0[MODEL_ORDER[j]])
    && NODE_MODEL in reverse0 && NODE_MODEL in reverse
    && (forall u :: u in reverse0[NODE_MODEL] ==> u in reverse[NODE_MODEL] && reverse[NODE_MODEL][u] == reverse0[NODE_MODEL][u])
  }

  /** Replacing model i's mapping by one that extends it. */
  lemma ReverseStep(reverse0: map<string, map<Value, nat>>, reverse: map<string, map<Value, nat>>, i: nat, rev: map<Value, nat>)
    requires i < |MODEL_ORDER| && ReverseGrown(reverse0, reverse, i)
    requires forall u :: u in reverse[MODEL_ORDER[i]] ==> u in rev && rev[u] == reverse[MODEL_ORDER[i]][u]
    ensures ReverseGrown(reverse0, reverse[MODEL_ORDER[i] := rev], i + 1)
  {
    ModelOrderDistinct();
    assert MODEL_ORDER[2] == NODE_MODEL;
  }

  /** Reporting one more model of the import order that has entries. */
  lemma ReportsStep(models: map<string, Pairs>, existing: map<string, map<nat, Record>>, m: string, pairs: Pairs)
    requires ReportsEntries(models, existing) && m in MODEL_ORDER && m in existing
    requires pairs.newPairs != {} || pairs.existingPairs != {}
    ensures ReportsEntries(models[m := pairs], existing)
  {
  }

  /** Creating one model keeps what earlier models left. */
  lemma KeptAcrossModel(db: Db, before: Db, after: Db, m: string)
    requires Grown(db, before)
    requires OnlyTableChanged(before, after, m) && RowsKept(Table(before, m), Table(after, m))
    requires before.calcStates <= after.calcStates
    ensures Grown(db, after)
  {
    forall n
      ensures RowsKept(Table(db, n), Table(after, n))
    {
      assert RowsKept(Table(db, n), Table(before, n));
      if n != m {
        assert Table(after, n) == Table(before, n);
      }
    }
  }

  /** Two repository steps that take folders from the archive make one. */
  lemma FoldersCompose(a: Repository, b: Repository, c: Repository, folders: map<Value, Folder>)
    requires FoldersFromArchive(a, b, folders) && FoldersFromArchive(b, c, folders)
    ensures FoldersFromArchive(a, c, folders)
  {
  }

  /** Every node entry has a 'uuid' that the reverse mapping resolves. */
  ghost predicate UuidsSaved(entries: map<nat, Record>, reverseNode: map<Value, nat>) {
    forall k :: k in entries ==> "uuid" in entries[k] && entries[k]["uuid"] in reverseNode
  }

  /** existing_pk + new_pk: the rows of the node entries, through their UUIDs. */
  ghost function ImportedPks(existing: map<nat, Record>, additions: map<nat, Record>, reverseNode: map<Value, nat>): set<nat>
    requires UuidsSaved(existing, reverseNode) && UuidsSaved(additions, reverseNode)
  {
    (set k | k in existing :: reverseNode[existing[k]["uuid"]]) + (set k | k in additions :: reverseNode[additions[k]["uuid"]])
  }

  /** The node entries' pks for the import group: existing_pk + new_pk. */
  method ImportedNodePks(existing: map<nat, Record>, additions: map<nat, Record>, reverseNode: map<Value, nat>)
    returns (r: Result<set<nat>, ImportError>)
    ensures r.Ok? <==> UuidsSaved(existing, reverseNode) && UuidsSaved(additions, reverseNode)
    ensures r.Ok? ==> forall pk :: pk in r.value <==>
      || (exists k :: k in existing && reverseNode[existing[k]["uuid"]] == pk)
      || (exists k :: k in additions && reverseNode[additions[k]["uuid"]] == pk)
  {
    var kept := NodePks(existing, reverseNode);
    if kept.Err? {
      return Err(kept.error);
    }
    var added := NodePks(additions, reverseNode);
    if added.Err? {
      return Err(added.error);
    }
    return Ok(kept.value + added.value);
  }

  /**
   * The preliminary checks in the order import_data makes them; the
   * identifier mappings they end with.
   */
  method Preliminary(db: Db, pkg: Package, ignoreUnknown: bool) returns (r: Result<map<string, map<nat, Value>>, ImportError>)
    ensures CheckVersion(pkg.metadata).Fail? ==> r == Err(CheckVersion(pkg.metadata).error)
    ensures CheckVersion(pkg.metadata).Pass? && CheckUnknownNodes(db, pkg.data, ignoreUnknown).Fail? ==>
      r == Err(CheckUnknownNodes(db, pkg.data, ignoreUnknown).error)
    ensures r.Ok? ==>
      && CheckVersion(pkg.metadata).Pass?
      && CheckUnknownNodes(db, pkg.data, ignoreUnknown).Pass?
      && (forall m :: m in pkg.metadata.allFieldsInfo ==> KnownModel(m))
      && DependenciesOrdered(pkg.metadata.allFieldsInfo)
      && IdentifiedEntries(pkg.data, pkg.metadata)
      && IdsMapped(pkg.data, pkg.metadata, r.value)
  {
    var md := pkg.metadata;
    var version := CheckVersion(md);
    if version.Fail? {
      return Err(version.error);
    }
    var unknown := CheckUnknownNodes(db, pkg.data, ignoreUnknown);
    if unknown.Fail? {
      return Err(unknown.error);
    }
    var known := CheckKnownModels(md.allFieldsInfo);
    if known.Fail? {
      return Err(known.error);
    }
    var ordered := CheckDependencyOrder(md.allFieldsInfo);
    if ordered.Fail? {
      return Err(ordered.error);
    }
    r := UniqueIdMappings(pkg.data, md);
    if r.Ok? {
      forall m | m in pkg.data.exportData && m in md.uniqueIdentifiers && md.uniqueIdentifiers[m].Some?
        ensures EntriesIdentified(pkg.data.exportData[m], md.uniqueIdentifiers[m].value)
      {
        assert m in r.value;
      }
    }
  }

  /** The database only grew: every row kept, links and states only added, paths untouched. */
  ghost predicate Extends(db: Db, db': Db) {
    && (forall m :: RowsKept(Table(db, m), Table(db', m)))
    && db.links <= db'.links
    && db.calcStates <= db'.calcStates
    && db'.paths == db.paths
  }

  lemma ExtendsCompose(a: Db, b: Db, c: Db)
    requires Extends(a, b) && Extends(b, c)
    ensures Extends(a, c)
  {
    forall m
      ensures RowsKept(Table(a, m), Table(c, m))
    {
      assert RowsKept(Table(a, m), Table(b, m)) && RowsKept(Table(b, m), Table(c, m));
    }
  }

  /**
   * The link phase against indexes of the stored links: nothing was
   * refused, the link table gained exactly the queued links and nothing
   * else changed, and the queued links are reported as (input, output).
   */
  ghost predicate LinksQueued(before: Db, after: Db, ls: seq<LinkRef>, nodes: map<Value, nat>, ignoreUnknown: bool, newLinks: seq<(nat, nat)>) {
    exists labels, inputs :: (
      && Indexes(before.links, labels, inputs)
      && QueueLinks(ls, nodes, labels, inputs, ignoreUnknown).Ok?
      && var q := QueueLinks(ls, nodes, labels, inputs, ignoreUnknown).value;
         after == before.(links := before.links + QueuedSet(q)) && newLinks == LinkPairs(q))
  }

  /** The second loop only let the database grow, and reported only models of the order. */
  lemma CreatedExtends(
    db: Db, db': Db, repo': Repository, pkg: Package,
    existing: map<string, map<nat, Record>>, additions: map<string, map<nat, Record>>, uniqueIds: map<string, map<nat, Value>>,
    reverse0: map<string, map<Value, nat>>, reverse': map<string, map<Value, nat>>, models: map<string, Pairs>)
    requires ModelsCreated(db, db', repo', pkg, existing, additions, uniqueIds, reverse0, reverse', models)
    ensures Extends(db, db') && forall m :: m in models ==> m in MODEL_ORDER
  {
  }

  /** The link phase: index the stored links, then check and store the archive's. */
  method LinkPhase(db: Db, links: seq<LinkRef>, nodes: map<Value, nat>, ignoreUnknown: bool)
    returns (r: Result<(Db, seq<(nat, nat)>), ImportError>)
    ensures r.Ok? ==> LinksQueued(db, r.value.0, links, nodes, ignoreUnknown, r.value.1) && Extends(db, r.value.0)
    ensures r.Err? ==> exists labels, inputs :: (
      && Indexes(db.links, labels, inputs)
      && QueueLinks(links, nodes, labels, inputs, ignoreUnknown) == Err(r.error))
  {
    var labels, inputs := IndexLinks(db.links);
    r := StoreLinks(db, links, nodes, labels, inputs, ignoreUnknown);
  }

  /** The import group: a new group row of the import type holding the imported nodes. */
  ghost predicate ImportGroupAt(before: Db, after: Db, gpk: nat, pks: set<nat>) {
    var table := Table(before, GROUP_MODEL);
    && gpk !in table && gpk in Table(after, GROUP_MODEL)
    && "type" in Table(after, GROUP_MODEL)[gpk] && Table(after, GROUP_MODEL)[gpk]["type"] == Str(IMPORTGROUP_TYPE)
    && "name" in Table(after, GROUP_MODEL)[gpk] && Table(after, GROUP_MODEL)[gpk]["name"].Str?
    && Table(after, GROUP_MODEL)[gpk]["name"].text !in TakenNames(table)
    && GroupNodes(after, gpk) == pks * Table(before, NODE_MODEL).Keys
  }

  /**
   * The group phase: every listed group was found once and got its
   * resolved members, the import group holds the imported nodes, and no
   * group gained anything else; only group rows and memberships changed.
   */
  ghost predicate GroupsAdded(before: Db, after: Db, groups: map<Value, seq<Value>>, nodes: map<Value, nat>, ignoreUnknown: bool, pks: set<nat>) {
    var table := Table(before, GROUP_MODEL);
    && GroupsFound(table, groups, nodes, ignoreUnknown)
    && MembersAdded(table, groups, nodes, ignoreUnknown, after)
    && after.links == before.links && after.calcStates == before.calcStates
    && after.attributes == before.attributes && after.paths == before.paths
    && (forall m :: m != GROUP_MODEL ==> Table(after, m) == Table(before, m))
    && RowsKept(table, Table(after, GROUP_MODEL))
    && (pks == {} ==> Table(after, GROUP_MODEL) == table)
    && (pks != {} ==> exists gpk :: ImportGroupAt(before, after, gpk, pks))
    && (forall gpk, n :: n in GroupNodes(after, gpk) ==>
         || n in GroupNodes(before, gpk)
         || (gpk !in table && n in pks)
         || exists g :: (
              && g in groups && Carries(table, gpk, "uuid", g)
              && ResolveMembers(groups[g], nodes, ignoreUnknown).Ok?
              && n in Members(ResolveMembers(groups[g], nodes, ignoreUnknown).value)))
  }

  /** The group phase: the archive's group members, then the import group. */
  method GroupPhase(
    db: Db, groups: map<Value, seq<Value>>, nodes: map<Value, nat>, ignoreUnknown: bool,
    existingNodes: map<nat, Record>, newNodes: map<nat, Record>, reverseNode: map<Value, nat>, now: Instant)
    returns (r: Result<Db, ImportError>)
    ensures r.Ok? ==> Extends(db, r.value)
    ensures r.Ok? ==> UuidsSaved(existingNodes, reverseNode) && UuidsSaved(newNodes, reverseNode)
    ensures r.Ok? ==> GroupsAdded(db, r.value, groups, nodes, ignoreUnknown, ImportedPks(existingNodes, newNodes, reverseNode))
  {
    var grouped := AddGroupMembers(db, groups, nodes, ignoreUnknown);
    if grouped.Err? {
      return Err(grouped.error);
    }
    var withMembers := grouped.value;
    var pks := ImportedNodePks(existingNodes, newNodes, reverseNode);
    if pks.Err? {
      return Err(pks.error);
    }
    assert pks.value == ImportedPks(existingNodes, newNodes, reverseNode);
    var final, created := CreateImportGroup(withMembers, now, pks.value);
    GroupsAddedFrom(db, withMembers, final, created, groups, nodes, ignoreUnknown, pks.value);
    return Ok(final);
  }

  /** From what AddGroupMembers and CreateImportGroup state to the group phase as a whole. */
  lemma GroupsAddedFrom(
    db: Db, withMembers: Db, final: Db, created: Option<nat>,
    groups: map<Value, seq<Value>>, nodes: map<Value, nat>, ignoreUnknown: bool, pks: set<nat>)
    requires withMembers == db.(groupNodes := withMembers.groupNodes)
    requires GroupsFound(Table(db, GROUP_MODEL), groups, nodes, ignoreUnknown)
    requires MembersAdded(Table(db, GROUP_MODEL), groups, nodes, ignoreUnknown, withMembers)
    requires OnlyMembersAdded(Table(db, GROUP_MODEL), groups, nodes, ignoreUnknown, db, withMembers)
    requires pks == {} ==> final == withMembers
    requires pks != {} ==> created.Some? && ImportGroupCreated(withMembers, final, created.value, pks)
    ensures Extends(db, final)
    ensures GroupsAdded(db, final, groups, nodes, ignoreUnknown, pks)
  {
    if pks != {} {
      ImportGroupFrame(db, withMembers, final, created.value, pks);
      ImportGroupAdded(db, withMembers, final, created.value, groups, nodes, ignoreUnknown, pks);
    }
  }

  /** What CreateImportGroup states when there are nodes to group. */
  ghost predicate ImportGroupCreated(db: Db, db': Db, gpk: nat, pks: set<nat>) {
    var table := Table(db, GROUP_MODEL);
    && gpk !in table
    && GROUP_MODEL in db'.tables && gpk in db'.tables[GROUP_MODEL]
    && "name" in db'.tables[GROUP_MODEL][gpk]
    && db'.tables[GROUP_MODEL][gpk]["name"].Str?
    && db' == db.(tables := db.tables[GROUP_MODEL := table[gpk := db'.tables[GROUP_MODEL][gpk]]],
                  groupNodes := db.groupNodes[gpk := pks * Table(db, NODE_MODEL).Keys])
    && db'.tables[GROUP_MODEL][gpk] == map["name" := db'.tables[GROUP_MODEL][gpk]["name"], "type" := Str(IMPORTGROUP_TYPE)]
    && db'.tables[GROUP_MODEL][gpk]["name"].text !in TakenNames(table)
  }

  /** What adding the import group after the members changes: one new group row and its members. */
  lemma ImportGroupFrame(db: Db, withMembers: Db, final: Db, gpk: nat, pks: set<nat>)
    requires withMembers == db.(groupNodes := withMembers.groupNodes)
    requires ImportGroupCreated(withMembers, final, gpk, pks)
    ensures gpk !in Table(db, GROUP_MODEL) && ImportGroupAt(db, final, gpk, pks)
    ensures final.links == db.links && final.calcStates == db.calcStates
    ensures final.attributes == db.attributes && final.paths == db.paths
    ensures forall m :: RowsKept(Table(db, m), Table(final, m))
    ensures forall m :: m != GROUP_MODEL ==> Table(final, m) == Table(db, m)
    ensures forall k :: k != gpk ==> GroupNodes(final, k) == GroupNodes(withMembers, k)
    ensures GroupNodes(final, gpk) <= pks
  {
    assert withMembers.tables == db.tables;
    ImportGroupKeepsRows(withMembers, final, gpk);
    assert ImportGroupAt(db, final, gpk, pks);
  }

  /** The group phase when the import group was created. */
  lemma ImportGroupAdded(
    db: Db, withMembers: Db, final: Db, gpk: nat,
    groups: map<Value, seq<Value>>, nodes: map<Value, nat>, ignoreUnknown: bool, pks: set<nat>)
    requires pks != {}
    requires GroupsFound(Table(db, GROUP_MODEL), groups, nodes, ignoreUnknown)
    requires MembersAdded(Table(db, GROUP_MODEL), groups, nodes, ignoreUnknown, withMembers)
    requires OnlyMembersAdded(Table(db, GROUP_MODEL), groups, nodes, ignoreUnknown, db, withMembers)
    requires gpk !in Table(db, GROUP_MODEL) && ImportGroupAt(db, final, gpk, pks)
    requires final.links == db.links && final.calcStates == db.calcStates
    requires final.attributes == db.attributes && final.paths == db.paths
    requires forall m :: RowsKept(Table(db, m), Table(final, m))
    requires forall m :: m != GROUP_MODEL ==> Table(final, m) == Table(db, m)
    requires forall k :: k != gpk ==> GroupNodes(final, k) == GroupNodes(withMembers, k)
    requires GroupNodes(final, gpk) <= pks
    ensures Extends(db, final)
    ensures GroupsAdded(db, final, groups, nodes, ignoreUnknown, pks)
  {
    var table := Table(db, GROUP_MODEL);
    MembersStillAdded(table, groups, nodes, ignoreUnknown, withMembers, final, gpk);
    OnlyImportGroupAdded(table, groups, nodes, ignoreUnknown, db, withMembers, final, gpk, pks);
  }

  /** Adding the import group, a row not in the table, keeps the listed groups' members. */
  lemma MembersStillAdded(
    table: map<nat, Record>, groups: map<Value, seq<Value>>, nodes: map<Value, nat>, ignoreUnknown: bool,
    withMembers: Db, final: Db, gpk: nat)
    requires gpk !in table
    requires MembersAdded(table, groups, nodes, ignoreUnknown, withMembers)
    requires forall k :: k != gpk ==> GroupNodes(final, k) == GroupNodes(withMembers, k)
    ensures MembersAdded(table, groups, nodes, ignoreUnknown, final)
  {
    forall g, k | g in groups && Carries(table, k, "uuid", g) && ResolveMembers(groups[g], nodes, ignoreUnknown).Ok?
      ensures Members(ResolveMembers(groups[g], nodes, ignoreUnknown).value) <= GroupNodes(final, k)
    {
      assert k != gpk;
    }
  }

  /** After the import group is added, a group's new members are listed ones or the import group's. */
  lemma OnlyImportGroupAdded(
    table: map<nat, Record>, groups: map<Value, seq<Value>>, nodes: map<Value, nat>, ignoreUnknown: bool,
    db: Db, withMembers: Db, final: Db, gpk: nat, pks: set<nat>)
    requires gpk !in table
    requires OnlyMembersAdded(table, groups, nodes, ignoreUnknown, db, withMembers)
    requires forall k :: k != gpk ==> GroupNodes(final, k) == GroupNodes(withMembers, k)
    requires GroupNodes(final, gpk) <= pks
    ensures forall k, n :: n in GroupNodes(final, k) ==>
      || n in GroupNodes(db, k)
      || (k !in table && n in pks)
      || exists g :: (
           && g in groups && Carries(table, k, "uuid", g)
           && ResolveMembers(groups[g], nodes, ignoreUnknown).Ok?
           && n in Members(ResolveMembers(groups[g], nodes, ignoreUnknown).value))
  {
    forall k, n | n in GroupNodes(final, k) && k != gpk
      ensures n in GroupNodes(withMembers, k)
    {
    }
  }

  /** Adding the import group's row under a fresh pk keeps every stored row. */
  lemma ImportGroupKeepsRows(db: Db, db': Db, gpk: nat)
    requires gpk !in Table(db, GROUP_MODEL)
    requires GROUP_MODEL in db'.tables && gpk in db'.tables[GROUP_MODEL]
    requires db'.tables == db.tables[GROUP_MODEL := Table(db, GROUP_MODEL)[gpk := db'.tables[GROUP_MODEL][gpk]]]
    ensures forall m :: RowsKept(Table(db, m), Table(db', m))
  {
  }

  /** The values a successful import goes through, from the identifier mappings to the links. */
  datatype ImportTrace = ImportTrace(
    uniqueIds: map<string, map<nat, Value>>,
    reverse0: map<string, map<Value, nat>>, existing: map<string, map<nat, Record>>, additions: map<string, map<nat, Record>>,
    created: Db, reverse: map<string, map<Value, nat>>,
    storedLinked: map<Value, nat>, nodes: map<Value, nat>, withLinks: Db)

  /**
   * A successful import_data from db to db', step by step through t: the
   * first loop split the entries against db; the second created every
   * model of the order; link ends resolve to the archive's nodes and the
   * stored linked nodes; the links were queued and stored; the groups got
   * their members and the import group its nodes.
   */
  ghost predicate ImportedBy(db: Db, db': Db, repo': Repository, pkg: Package, ignoreUnknown: bool, report: Report, t: ImportTrace) {
    var md, data := pkg.metadata, pkg.data;
    && IdsMapped(data, md, t.uniqueIds)
    && FirstPass(db, md, data, t.reverse0, t.existing, t.additions)
    && ModelsCreated(db, t.created, repo', pkg, t.existing, t.additions, t.uniqueIds, t.reverse0, t.reverse, report.models)
    && NODE_MODEL in t.reverse && NODE_MODEL in t.existing && NODE_MODEL in t.additions
    && LinkedAndGrouped(db, t.created, db', data, ignoreUnknown, report.newLinks,
         t.existing[NODE_MODEL], t.additions[NODE_MODEL], t.reverse[NODE_MODEL], t.storedLinked, t.nodes, t.withLinks)
  }

  /**
   * The link and group phases from the database the second loop left:
   * link ends resolve to the archive's nodes and the stored linked nodes;
   * the links were queued and stored; the groups got their members and the
   * import group its nodes.
   */
  ghost predicate LinkedAndGrouped(
    db: Db, created: Db, db': Db, data: Data, ignoreUnknown: bool, newLinks: seq<(nat, nat)>,
    existingNodes: map<nat, Record>, newNodes: map<nat, Record>, reverseNode: map<Value, nat>,
    storedLinked: map<Value, nat>, nodes: map<Value, nat>, withLinks: Db)
  {
    && LookedUp(Table(db, NODE_MODEL), "uuid", LinkedNodes(data.linksUuid), storedLinked)
    && nodes == LinkEnds(reverseNode, storedLinked)
    && LinksQueued(created, withLinks, data.linksUuid, nodes, ignoreUnknown, newLinks)
    && UuidsSaved(existingNodes, reverseNode) && UuidsSaved(newNodes, reverseNode)
    && GroupsAdded(withLinks, db', data.groupsUuid, nodes, ignoreUnknown, ImportedPks(existingNodes, newNodes, reverseNode))
  }

  /** The link and group phases of import_data. */
  method LinkAndGroup(
    db: Db, created: Db, data: Data, ignoreUnknown: bool, now: Instant,
    existingNodes: map<nat, Record>, newNodes: map<nat, Record>, reverseNode: map<Value, nat>)
    returns (r: Result<(Db, seq<(nat, nat)>), ImportError>, storedLinked: map<Value, nat>, nodes: map<Value, nat>, withLinks: Db)
    ensures r.Ok? ==> Extends(created, r.value.0)
    ensures r.Ok? ==> LinkedAndGrouped(db, created, r.value.0, data, ignoreUnknown, r.value.1,
      existingNodes, newNodes, reverseNode, storedLinked, nodes, withLinks)
  {
    storedLinked := LookupByIdentifier(Table(db, NODE_MODEL), "uuid", LinkedNodes(data.linksUuid));
    nodes := LinkEnds(reverseNode, storedLinked);
    var linked := LinkPhase(created, data.linksUuid, nodes, ignoreUnknown);
    if linked.Err? {
      return Err(linked.error), storedLinked, nodes, created;
    }
    var newLinks;
    withLinks, newLinks := linked.value.0, linked.value.1;
    var grouped := GroupPhase(withLinks, data.groupsUuid, nodes, ignoreUnknown, existingNodes, newNodes, reverseNode, now);
    if grouped.Err? {
      return Err(grouped.error), storedLinked, nodes, withLinks;
    }
    ExtendsCompose(created, withLinks, grouped.value);
    r := Ok((grouped.value, newLinks));
  }

  /**
   * import_data: on an error the transaction rolls back and the database
   * is as it was; on success every check passed and the import went
   * through every phase as ImportedBy describes.
   */
  method ImportData(db: Db, repo: Repository, pkg: Package, ignoreUnknown: bool, now: Instant)
    returns (r: Result<Report, ImportError>, db': Db, repo': Repository)
    ensures r.Err? ==> db' == db
    ensures FoldersFromArchive(repo, repo', pkg.folders)
    ensures CheckVersion(pkg.metadata).Fail? ==> r == Err(VersionMismatch(pkg.metadata.exportVersion)) && repo' == repo
    ensures CheckVersion(pkg.metadata).Pass? && CheckUnknownNodes(db, pkg.data, ignoreUnknown).Fail? ==>
      r == Err(CheckUnknownNodes(db, pkg.data, ignoreUnknown).error) && repo' == repo
    ensures r.Ok? ==>
      && CheckVersion(pkg.metadata).Pass?
      && CheckUnknownNodes(db, pkg.data, ignoreUnknown).Pass?
      && (forall m :: m in pkg.metadata.allFieldsInfo ==> KnownModel(m))
      && DependenciesOrdered(pkg.metadata.allFieldsInfo)
      && (forall j :: 0 <= j < |MODEL_ORDER| ==> IdentifierField(pkg.metadata, MODEL_ORDER[j]).Some?)
    ensures r.Ok? ==> Extends(db, db') && forall m :: m in r.value.models ==> m in MODEL_ORDER
    ensures r.Ok? ==> exists t :: ImportedBy(db, db', repo', pkg, ignoreUnknown, r.value, t)
  {
    repo' := repo;
    var prelim := Preliminary(db, pkg, ignoreUnknown);
    if prelim.Err? {
      return Err(prelim.error), db, repo';
    }
    var uniqueIds := prelim.value;
    var reverse0, existing, additions := PartitionModels(db, pkg.data, pkg.metadata);
    var created;
    created, repo' := CreateModels(db, repo, pkg, existing, additions, uniqueIds, reverse0);
    if created.Err? {
      return Err(created.error), db, repo';
    }
    var (cur, reverse, models) := created.value;
    assert MODEL_ORDER[2] == NODE_MODEL;
    var phases, storedLinked, nodes, withLinks := LinkAndGroup(db, cur, pkg.data, ignoreUnknown, now,
      existing[NODE_MODEL], additions[NODE_MODEL], reverse[NODE_MODEL]);
    if phases.Err? {
      return Err(phases.error), db, repo';
    }
    CreatedExtends(db, cur, repo', pkg, existing, additions, uniqueIds, reverse0, reverse, models);
    ExtendsCompose(db, cur, phases.value.0);
    db' := phases.value.0;
    r := Ok(Report(models, phases.value.1));
    ghost var t := ImportTrace(uniqueIds, reverse0, existing, additions, cur, reverse, storedLinked, nodes, withLinks);
    assert ImportedBy(db, db', repo', pkg, ignoreUnknown, r.value, t);
  }

  /** An archive holding node b, the link a -> b from node a of EXAMPLE_DB, and group g listing a. */
  const MEMBER_DATA: Data := Data(map[NODE_MODEL := map[7 := map["uuid" := Str("b")]]], [EXAMPLE_LINK], map[Str("g") := [Str("a")]], map[], map[])

  /**
   * As written, with ignore_unknown_nodes set: the pre-check accepts a as
   * a stored link end, the link phase skips the link from a, and the group
   * phase raises on member a, since only the archive's nodes resolve.
   */
  lemma StoredMemberRaises()
    ensures CheckUnknownNodes(EXAMPLE_DB, MEMBER_DATA, false) == Pass
    ensures QueueLinks(MEMBER_DATA.linksUuid, LinkEndsAsWritten(map[Str("b") := 2], map[Str("a") := 1]), map[], map[], true) == Ok([])
    ensures ResolveMembersAsWritten(MEMBER_DATA.groupsUuid[Str("g")], LinkEndsAsWritten(map[Str("b") := 2], map[Str("a") := 1]))
      == Err(UnknownGroupMember(Str("a")))
  {
    var linked := LinkedNodes(MEMBER_DATA.linksUuid);
    assert linked == {Str("a"), Str("b")} by {
      assert MEMBER_DATA.linksUuid[0] == EXAMPLE_LINK;
    }
    assert GroupMembers(MEMBER_DATA.groupsUuid) == {Str("a")} by {
      assert MEMBER_DATA.groupsUuid[Str("g")][0] == Str("a");
    }
    assert StoredNodes(EXAMPLE_DB, linked) == {Str("a")} by {
      assert Table(EXAMPLE_DB, NODE_MODEL)[1]["uuid"] == Str("a");
    }
    assert ArchiveNodes(MEMBER_DATA).value == {Str("b")} by {
      assert MEMBER_DATA.exportData[NODE_MODEL][7]["uuid"] == Str("b");
    }
    var ls := MEMBER_DATA.linksUuid;
    assert ls[..|ls| - 1] == [];
  }

  /** With the corrected resolution the link is queued between rows 1 and 2 and group g gets row 1. */
  lemma StoredMemberResolves()
    ensures QueueLinks(MEMBER_DATA.linksUuid, LinkEnds(map[Str("b") := 2], map[Str("a") := 1]), map[], map[], true) == Ok([Link(1, 2, "x")])
    ensures ResolveMembers(MEMBER_DATA.groupsUuid[Str("g")], LinkEnds(map[Str("b") := 2], map[Str("a") := 1]), true) == Ok([1])
  {
    var nodes := LinkEnds(map[Str("b") := 2], map[Str("a") := 1]);
    assert Str("a") in nodes && nodes[Str("a")] == 1;
    assert Str("b") in nodes && nodes[Str("b")] == 2;
    var ls := MEMBER_DATA.linksUuid;
    assert ls[..|ls| - 1] == [];
    assert QueueLinks(ls[..|ls| - 1], nodes, map[], map[], true) == Ok([]);
    assert ClassifyLink(ls[|ls| - 1], nodes, map[], map[], true) == Queued(Link(1, 2, "x"));
    assert ls != [];
    assert QueueLinks(ls, nodes, map[], map[], true) == Ok([] + [Link(1, 2, "x")]);
    assert [] + [Link(1, 2, "x")] == [Link(1, 2, "x")];
    var members := MEMBER_DATA.groupsUuid[Str("g")];
    assert members == [Str("a")];
    assert ResolveMembers(members[1..], nodes, true) == Ok([]);
    assert members[0] in nodes;
    assert ResolveMembers(members, nodes, true).Ok?;
    assert ResolveMembers(members, nodes, true).value == [1];
  }
}
