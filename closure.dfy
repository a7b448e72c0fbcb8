/**
 * The `while entries_to_add` loop of export_tree: each round serialises
 * the rows its queries match, per model, and queues for every foreign key
 * of the newly serialised rows a query for the rows they point to, until a
 * round queues nothing.
 */
module Closure {
  import opened Wrappers
  import opened Values
  import opened Digits
  import opened Attributes
  import opened Archive
  import opened Fields
  import opened Store
  import opened Selection

  /** A Q object of entries_to_add. */
  datatype Query =
    /** Q(id__in=ids) */
    | IdIn(ids: set<nat>)
    /** Q(related_name__in=ids) on a target model: the rows that these rows of source point to through field. */
    | PointedBy(source: string, field: string, ids: set<nat>)

  /** export_data: the serialised entries per model, by pk. */
  type Export = map<string, map<nat, Record>>

  /** entries_to_add: the queries per model. */
  type Pending = map<string, set<Query>>

  /** The pk a row's foreign key column holds, if any. */
  function FkOf(row: Record, k: string): Option<nat> {
    var c := ForeignKeyColumn(k);
    if c in row && row[c].Int? && row[c].i >= 0 then Some(row[c].i as nat) else None
  }

  /** The rows of the model a query selects. */
  function Matches(db: Db, model: string, q: Query): set<nat> {
    match q
    case IdIn(ids) => ids * Table(db, model).Keys
    case PointedBy(source, field, ids) =>
      set t | t in Table(db, model) && exists pk :: pk in ids && pk in Table(db, source) && FkOf(Table(db, source)[pk], field) == Some(t)
  }

  /** db_ids: the union of what the queries select. */
  function MatchAll(db: Db, model: string, qs: set<Query>): (r: set<nat>)
    ensures r <= Table(db, model).Keys
  {
    set q, pk | q in qs && pk in Matches(db, model, q) :: pk
  }

  /** The value that values() gives for a field: the pk column for a foreign key. */
  function Column(row: Record, k: string, info: FieldInfo): Value {
    var c := if info.target.Some? then ForeignKeyColumn(k) else k;
    if c in row then row[c] else Null
  }

  /** dbentries.values('id', *all_fields_info[model].keys()) for one row. */
  function EntryValues(row: Record, pk: nat, fields: map<string, FieldInfo>): map<string, Value> {
    (map k | k in fields :: Column(row, k, fields[k]))["id" := Int(pk)]
  }

  /** serialize_dict(v, remove_fields=['id']) of one row. */
  function SerializeEntry(db: Db, fields: map<string, FieldInfo>, model: string, pk: nat): Result<Record, ExportError>
    requires pk in Table(db, model)
  {
    var v := EntryValues(Table(db, model)[pk], pk, fields);
    match SerializeDict(v, {"id"}, map[])
    case Ok(sd) => Ok(sd.data)
    case Err(_) => Err(Unserializable(model))
  }

  /** The `serialized` dict of a model in a round: every given row serialised, or the error of one. */
  function SerializeEntries(db: Db, fields: map<string, FieldInfo>, model: string, ids: set<nat>): (r: Result<map<nat, Record>, ExportError>)
    requires ids <= Table(db, model).Keys
    ensures r.Ok? <==> forall pk :: pk in ids ==> SerializeEntry(db, fields, model, pk).Ok?
    ensures r.Ok? ==> r.value.Keys == ids && forall pk :: pk in ids ==> SerializeEntry(db, fields, model, pk) == Ok(r.value[pk])
    ensures r.Err? ==> r.error == Unserializable(model)
  {
    var results := EntryResults(db, fields, model, ids);
    if forall pk :: pk in ids ==> results[pk].Ok? then
      Ok(map pk | pk in ids :: results[pk].value)
    else Err(Unserializable(model))
  }

  /** serialize_dict applied to each given row. */
  function EntryResults(db: Db, fields: map<string, FieldInfo>, model: string, ids: set<nat>): (r: map<nat, Result<Record, ExportError>>)
    requires ids <= Table(db, model).Keys
    ensures r.Keys == ids && forall pk :: pk in ids ==> r[pk] == SerializeEntry(db, fields, model, pk)
  {
    map pk | pk in ids :: SerializeEntry(db, fields, model, pk)
  }

  /** The models the model's foreign keys point to. */
  function TargetsOf(fields: map<string, FieldInfo>): set<string> {
    set k | k in fields && fields[k].target.Some? :: fields[k].target.value
  }

  /** new_entries_to_add from one model: per target model, one query per foreign key to it. */
  function ForeignQueries(model: string, fields: map<string, FieldInfo>, ids: set<nat>): (r: Pending)
    ensures r.Keys == TargetsOf(fields)
    ensures forall k :: k in fields && fields[k].target.Some? ==> PointedBy(model, k, ids) in r[fields[k].target.value]
  {
    map t | t in TargetsOf(fields) :: set k | k in fields && fields[k].target == Some(t) :: PointedBy(model, k, ids)
  }

  function Get(p: Pending, m: string): set<Query> {
    if m in p then p[m] else {}
  }

  /** Appending queries to new_entries_to_add. */
  function Merge(a: Pending, b: Pending): (r: Pending)
    ensures r.Keys == a.Keys + b.Keys
    ensures forall m :: m in r ==> r[m] == Get(a, m) + Get(b, m)
  {
    map m | m in a.Keys + b.Keys :: Get(a, m) + Get(b, m)
  }

  function Rows(e: Export, m: string): map<nat, Record> {
    if m in e then e[m] else map[]
  }

  predicate Exported(e: Export, m: string, pk: nat) {
    m in e && pk in e[m]
  }

  // ---------------------------------------------------------------------------
  // Which ids a round serialises
  // ---------------------------------------------------------------------------

  /** str(v['id']): the keys of export_data are the decimal text of the pks. */
  function StoredKeys(rows: map<nat, Record>): set<Value> {
    set pk | pk in rows :: Str(Decimal(pk))
  }

  /** As written: `v['id'] not in export_data[model_name]` asks whether an integer is among text keys. */
  function UnexportedAsWritten(matched: set<nat>, rows: map<nat, Record>): set<nat> {
    set pk | pk in matched && Int(pk) !in StoredKeys(rows)
  }

  /** As intended: only the rows not already exported. */
  function Unexported(matched: set<nat>, rows: map<nat, Record>): (r: set<nat>)
    ensures forall pk :: pk in r <==> pk in matched && pk !in rows
  {
    matched - rows.Keys
  }

  /** As written the filter never drops a row: every matched row is serialised again. */
  lemma AsWrittenFilterKeepsAll(matched: set<nat>, rows: map<nat, Record>)
    ensures UnexportedAsWritten(matched, rows) == matched
  {
    forall pk | pk in matched
      ensures Int(pk) !in StoredKeys(rows)
    {
    }
  }

  /** One model of a round: serialise the ids, add them to export_data, queue what their foreign keys point to. */
  function StepModel(db: Db, info: map<string, map<string, FieldInfo>>, e: Export, m: string, ids: set<nat>): (r: Result<(Export, Pending), ExportError>)
    requires m in info && ids <= Table(db, m).Keys
    ensures r.Ok? <==> SerializeEntries(db, info[m], m, ids).Ok?
    ensures r.Err? ==> r.error == Unserializable(m)
  {
    match SerializeEntries(db, info[m], m, ids)
    case Err(err) => Err(err)
    case Ok(serialized) =>
      Ok((e[m := Rows(e, m) + serialized], if serialized == map[] then map[] else ForeignQueries(m, info[m], ids)))
  }

  // ---------------------------------------------------------------------------
  // Invariants of the export
  // ---------------------------------------------------------------------------

  /** Every exported entry is a row of a described model. */
  ghost predicate InDatabase(db: Db, info: map<string, map<string, FieldInfo>>, e: Export) {
    forall m, pk :: Exported(e, m, pk) ==> m in info && pk in Table(db, m)
  }

  /** Every exported entry is a row of the database, serialised. */
  ghost predicate ExportedRows(db: Db, info: map<string, map<string, FieldInfo>>, e: Export) {
    && InDatabase(db, info, e)
    && forall m, pk :: Exported(e, m, pk) && m in info && pk in Table(db, m) ==> SerializeEntry(db, info[m], m, pk) == Ok(e[m][pk])
  }

  /** The entries exported before are exported still, unchanged. */
  ghost predicate KeptEntries(e: Export, e': Export) {
    forall m, pk :: Exported(e, m, pk) ==> Exported(e', m, pk) && e'[m][pk] == e[m][pk]
  }

  /** The row an exported entry's foreign key k points to, when the database has it. */
  ghost predicate PointsTo(db: Db, info: map<string, map<string, FieldInfo>>, m: string, pk: nat, k: string, x: nat) {
    && m in info && k in info[m] && info[m][k].target.Some?
    && pk in Table(db, m) && FkOf(Table(db, m)[pk], k) == Some(x)
    && x in Table(db, info[m][k].target.value)
  }

  /** A query for what the entry's foreign key k points to is pending. */
  ghost predicate Queued(p: Pending, m: string, pk: nat, k: string, t: string) {
    t in p && exists s :: PointedBy(m, k, s) in p[t] && pk in s
  }

  /** Every row an exported entry points to is exported, or a pending query will select it. */
  ghost predicate Awaited(db: Db, info: map<string, map<string, FieldInfo>>, e: Export, p: Pending) {
    forall m, pk, k, x :: Exported(e, m, pk) && PointsTo(db, info, m, pk, k, x) ==>
      Exported(e, info[m][k].target.value, x) || Queued(p, m, pk, k, info[m][k].target.value)
  }

  /** The export is closed under foreign keys. */
  ghost predicate Closed(db: Db, info: map<string, map<string, FieldInfo>>, e: Export) {
    forall m, pk, k, x :: Exported(e, m, pk) && PointsTo(db, info, m, pk, k, x) ==> Exported(e, info[m][k].target.value, x)
  }

  /** Every row the queries select is exported. */
  ghost predicate Covered(db: Db, e: Export, p: Pending) {
    forall m, pk :: m in p && pk in MatchAll(db, m, p[m]) ==> Exported(e, m, pk)
  }

  /** Each entry new in e' has a pending query in p' for every foreign key. */
  ghost predicate Announced(info: map<string, map<string, FieldInfo>>, e: Export, e': Export, p': Pending) {
    forall m, pk, k :: Exported(e', m, pk) && !Exported(e, m, pk) && m in info && k in info[m] && info[m][k].target.Some? ==>
      Queued(p', m, pk, k, info[m][k].target.value)
  }

  /** Every row a round adds was selected by one of its queries. */
  ghost predicate NewRowsMatched(db: Db, e: Export, e': Export, p: Pending) {
    forall m, pk :: Exported(e', m, pk) && !Exported(e, m, pk) ==> m in p && pk in MatchAll(db, m, p[m])
  }

  /** Every pending query asks for what exported entries point to through a foreign key of theirs. */
  ghost predicate FromExported(info: map<string, map<string, FieldInfo>>, e: Export, p: Pending) {
    forall t, q :: t in p && q in p[t] ==>
      && q.PointedBy? && q.source in info && q.field in info[q.source] && info[q.source][q.field].target == Some(t)
      && forall x :: x in q.ids ==> Exported(e, q.source, x)
  }

  /** Every exported entry was selected at the start, or an exported entry points to it. */
  ghost predicate Justified(db: Db, info: map<string, map<string, FieldInfo>>, start: Pending, e: Export) {
    forall m, pk :: Exported(e, m, pk) ==> Reached(db, info, start, e, m, pk)
  }

  /** The row was selected at the start, or an exported entry points to it. */
  ghost predicate Reached(db: Db, info: map<string, map<string, FieldInfo>>, start: Pending, e: Export, m: string, pk: nat) {
    || pk in MatchAll(db, m, Get(start, m))
    || exists n, src, k :: Exported(e, n, src) && PointsTo(db, info, n, src, k, pk) && info[n][k].target == Some(m)
  }

  /** The queries select no row. */
  ghost predicate Idle(db: Db, p: Pending) {
    forall m :: m in p ==> MatchAll(db, m, p[m]) == {}
  }

  /** No entry is exported: the sum of the lengths of export_data's values is 0. */
  predicate NoEntries(e: Export) {
    forall m :: m in e ==> e[m] == map[]
  }

  /** The database rows of described models not exported yet: what bounds the number of rounds. */
  ghost function NotExported(db: Db, info: map<string, map<string, FieldInfo>>, e: Export): set<(string, nat)> {
    set m, pk | m in info && pk in Table(db, m) && !Exported(e, m, pk) :: (m, pk)
  }

  // ---------------------------------------------------------------------------
  // A round and the loop
  // ---------------------------------------------------------------------------

  /** One model of a round, with only the rows not exported yet. */
  method RoundModel(db: Db, info: map<string, map<string, FieldInfo>>, e: Export, cur: Export, queued: Pending, m: string, qs: set<Query>)
    returns (r: Result<(Export, Pending), ExportError>)
    requires m in info
    requires ExportedRows(db, info, cur) && KeptEntries(e, cur)
    requires Announced(info, e, cur, queued) && FromExported(info, cur, queued)
    ensures r.Err? ==> r.error == Unserializable(m)
    ensures r.Ok? ==> ExportedRows(db, info, r.value.0) && KeptEntries(e, r.value.0) && KeptEntries(cur, r.value.0)
    ensures r.Ok? ==> forall n :: n != m ==> Rows(r.value.0, n) == Rows(cur, n)
    ensures r.Ok? ==> forall pk :: pk in MatchAll(db, m, qs) ==> Exported(r.value.0, m, pk)
    ensures r.Ok? ==> Announced(info, e, r.value.0, r.value.1)
    ensures r.Ok? && r.value.1 != map[] ==>
      queued != map[] || exists pk :: Exported(r.value.0, m, pk) && pk !in Rows(cur, m)
    ensures r.Ok? ==> forall pk :: Exported(r.value.0, m, pk) && pk !in Rows(cur, m) ==> pk in MatchAll(db, m, qs)
    ensures r.Ok? ==> FromExported(info, r.value.0, r.value.1)
  {
    var matched := MatchAll(db, m, qs);
    var ids := Unexported(matched, Rows(cur, m));
    var step := StepModel(db, info, cur, m, ids);
    if step.Err? {
      return Err(step.error);
    }
    var serialized := SerializeEntries(db, info[m], m, ids).value;
    assert serialized.Keys == ids;
    var after := step.value.0;
    var added := step.value.1;
    assert added == if serialized == map[] then map[] else ForeignQueries(m, info[m], ids);
    assert ids != {} ==> added == ForeignQueries(m, info[m], ids) by {
      if ids != {} {
        var pk :| pk in ids;
        assert pk in serialized;
      }
    }
    RoundStepKeeps(cur, after, m, ids, serialized);
    RoundStepRows(db, info, cur, after, m, ids, serialized);
    KeptEntriesCompose(e, cur, after);
    if ids != {} {
      var pk :| pk in ids;
      assert Exported(after, m, pk) && pk !in Rows(cur, m);
    }
    var merged := Merge(queued, added);
    AnnouncedStep(info, e, cur, after, queued, added, m, ids);
    FromExportedStep(info, cur, after, queued, added, m, ids);
    return Ok((after, merged));
  }

  /** The body of `while entries_to_add`: the loop over its models. */
  method ExportRound(db: Db, info: map<string, map<string, FieldInfo>>, e: Export, p: Pending)
    returns (r: Result<(Export, Pending), ExportError>)
    requires ExportedRows(db, info, e)
    ensures r.Ok? ==> ExportedRows(db, info, r.value.0) && KeptEntries(e, r.value.0)
    ensures r.Ok? ==> (forall m :: m in p ==> m in info) && Covered(db, r.value.0, p)
    ensures r.Ok? ==> Announced(info, e, r.value.0, r.value.1)
    ensures r.Ok? && r.value.1 != map[] ==> exists m, pk :: Exported(r.value.0, m, pk) && !Exported(e, m, pk)
    ensures r.Ok? ==> NewRowsMatched(db, e, r.value.0, p) && FromExported(info, r.value.0, r.value.1)
    ensures r.Err? ==> exists m :: m in p && (r.error == UnknownExportModel(m) || r.error == Unserializable(m))
  {
    var cur := e;
    var queued: Pending := map[];
    var todo := p.Keys;
    ghost var seen: set<string> := {};
    while todo != {}
      invariant todo + seen == p.Keys && todo !! seen
      invariant ExportedRows(db, info, cur) && KeptEntries(e, cur)
      invariant forall m :: m !in seen ==> Rows(cur, m) == Rows(e, m)
      invariant forall m :: m in seen ==> m in info
      invariant Covered(db, cur, p - todo)
      invariant Announced(info, e, cur, queued)
      invariant queued != map[] ==> exists m, pk :: Exported(cur, m, pk) && !Exported(e, m, pk)
      invariant NewRowsMatched(db, e, cur, p) && FromExported(info, cur, queued)
      decreases todo
    {
      var m :| m in todo;
      if m !in info {
        return Err(UnknownExportModel(m));
      }
      var step := RoundModel(db, info, e, cur, queued, m, p[m]);
      if step.Err? {
        return Err(step.error);
      }
      ghost var before, queuedBefore := cur, queued;
      cur, queued := step.value.0, step.value.1;
      NewEntryWitness(e, before, cur, queuedBefore, queued, m);
      NewRowsStep(db, e, before, cur, p, m);
      CoveredStep(db, p, todo, m, before, cur, MatchAll(db, m, p[m]));
      todo, seen := todo - {m}, seen + {m};
    }
    assert p - todo == p;
    return Ok((cur, queued));
  }

  /** The rows a model's step adds were selected by that model's queries. */
  lemma NewRowsStep(db: Db, e: Export, before: Export, after: Export, p: Pending, m: string)
    requires m in p && NewRowsMatched(db, e, before, p) && KeptEntries(before, after)
    requires forall n :: n != m ==> Rows(after, n) == Rows(before, n)
    requires forall pk :: Exported(after, m, pk) && pk !in Rows(before, m) ==> pk in MatchAll(db, m, p[m])
    ensures NewRowsMatched(db, e, after, p)
  {
    forall n, pk | Exported(after, n, pk) && !Exported(e, n, pk)
      ensures n in p && pk in MatchAll(db, n, p[n])
    {
      if n != m {
        assert pk in Rows(before, n);
      } else if pk in Rows(before, m) {
        assert Exported(before, m, pk);
      }
    }
  }

  /** The queries of a model's step ask for what its exported rows point to. */
  lemma FromExportedStep(
    info: map<string, map<string, FieldInfo>>, before: Export, after: Export,
    queued: Pending, added: Pending, m: string, ids: set<nat>)
    requires m in info && FromExported(info, before, queued) && KeptEntries(before, after)
    requires forall pk :: pk in ids ==> Exported(after, m, pk)
    requires added == map[] || added == ForeignQueries(m, info[m], ids)
    ensures FromExported(info, after, Merge(queued, added))
  {
    var merged := Merge(queued, added);
    forall t: string, q: Query | t in merged && q in merged[t]
      ensures && q.PointedBy? && q.source in info && q.field in info[q.source] && info[q.source][q.field].target == Some(t)
              && forall x :: x in q.ids ==> Exported(after, q.source, x)
    {
      if q !in Get(queued, t) {
        assert t in added && q in added[t];
        var k :| k in info[m] && info[m][k].target == Some(t) && q == PointedBy(m, k, ids);
      }
    }
  }

  /** A round that queued something has exported a new entry. */
  lemma NewEntryWitness(e: Export, before: Export, after: Export, queuedBefore: Pending, queuedAfter: Pending, m: string)
    requires KeptEntries(before, after) && Rows(before, m) == Rows(e, m)
    requires queuedBefore != map[] ==> exists n, pk :: Exported(before, n, pk) && !Exported(e, n, pk)
    requires queuedAfter != map[] ==> queuedBefore != map[] || exists pk :: Exported(after, m, pk) && pk !in Rows(before, m)
    ensures queuedAfter != map[] ==> exists n, pk :: Exported(after, n, pk) && !Exported(e, n, pk)
  {
    if queuedAfter != map[] {
      if queuedBefore != map[] {
        var n, pk :| Exported(before, n, pk) && !Exported(e, n, pk);
        assert Exported(after, n, pk);
      } else {
        var pk :| Exported(after, m, pk) && pk !in Rows(before, m);
        assert !Exported(e, m, pk);
      }
    }
  }

  /** Adding a model's serialised rows keeps every entry exported before, and nothing else changes. */
  lemma RoundStepKeeps(before: Export, after: Export, m: string, ids: set<nat>, serialized: map<nat, Record>)
    requires ids !! Rows(before, m).Keys && serialized.Keys == ids
    requires after == before[m := Rows(before, m) + serialized]
    ensures KeptEntries(before, after)
    ensures forall n :: n != m ==> Rows(after, n) == Rows(before, n)
    ensures forall pk :: Exported(after, m, pk) <==> Exported(before, m, pk) || pk in ids
  {
    forall n, pk | Exported(before, n, pk)
      ensures Exported(after, n, pk) && after[n][pk] == before[n][pk]
    {
      if n == m {
        assert pk !in ids;
      }
    }
  }

  /** The entries added by a model's step are its rows, serialised. */
  lemma RoundStepRows(
    db: Db, info: map<string, map<string, FieldInfo>>, before: Export, after: Export,
    m: string, ids: set<nat>, serialized: map<nat, Record>)
    requires m in info && ids <= Table(db, m).Keys
    requires ExportedRows(db, info, before)
    requires SerializeEntries(db, info[m], m, ids) == Ok(serialized)
    requires after == before[m := Rows(before, m) + serialized]
    ensures ExportedRows(db, info, after)
  {
    forall n, pk | Exported(after, n, pk)
      ensures n in info && pk in Table(db, n) && SerializeEntry(db, info[n], n, pk) == Ok(after[n][pk])
    {
      if n != m || pk !in ids {
        assert Exported(before, n, pk);
      }
    }
  }

  /** KeptEntries composes. */
  lemma KeptEntriesCompose(a: Export, b: Export, c: Export)
    requires KeptEntries(a, b) && KeptEntries(b, c)
    ensures KeptEntries(a, c)
  {
  }

  /** The queries queued for a model's new rows announce every foreign key of them. */
  lemma AnnouncedStep(
    info: map<string, map<string, FieldInfo>>, e: Export, before: Export, after: Export,
    queued: Pending, added: Pending, m: string, ids: set<nat>)
    requires m in info
    requires Announced(info, e, before, queued)
    requires forall pk :: Exported(after, m, pk) <==> Exported(before, m, pk) || pk in ids
    requires forall n :: n != m ==> Rows(after, n) == Rows(before, n)
    requires ids != {} ==> added == ForeignQueries(m, info[m], ids)
    ensures Announced(info, e, after, Merge(queued, added))
  {
    var merged := Merge(queued, added);
    forall n, pk, k | Exported(after, n, pk) && !Exported(e, n, pk) && n in info && k in info[n] && info[n][k].target.Some?
      ensures Queued(merged, n, pk, k, info[n][k].target.value)
    {
      var t := info[n][k].target.value;
      if n != m {
        assert pk in Rows(after, n);
      }
      if Exported(before, n, pk) {
        var s :| PointedBy(n, k, s) in queued[t] && pk in s;
        assert PointedBy(n, k, s) in merged[t];
      } else {
        assert n == m && pk in ids;
        assert PointedBy(m, k, ids) in merged[t];
      }
    }
  }

  /** This model's queries are covered after its step, and earlier models' stay covered. */
  lemma CoveredStep(db: Db, p: Pending, todo: set<string>, m: string, before: Export, after: Export, matched: set<nat>)
    requires m in todo && todo <= p.Keys
    requires matched == MatchAll(db, m, p[m])
    requires Covered(db, before, p - todo)
    requires forall n, pk :: Exported(before, n, pk) ==> Exported(after, n, pk)
    requires forall pk :: pk in matched ==> Exported(after, m, pk)
    ensures Covered(db, after, p - (todo - {m}))
  {
    forall n, pk | n in p - (todo - {m}) && pk in MatchAll(db, n, (p - (todo - {m}))[n])
      ensures Exported(after, n, pk)
    {
      if n != m {
        assert n in p - todo;
      }
    }
  }

  /** After a round every row an entry points to is exported, or queued for the next round. */
  lemma AwaitedAfterRound(db: Db, info: map<string, map<string, FieldInfo>>, e: Export, e': Export, p: Pending, p': Pending)
    requires Awaited(db, info, e, p) && KeptEntries(e, e')
    requires Covered(db, e', p) && Announced(info, e, e', p')
    ensures Awaited(db, info, e', p')
  {
    forall m, pk, k, x | Exported(e', m, pk) && PointsTo(db, info, m, pk, k, x)
      ensures Exported(e', info[m][k].target.value, x) || Queued(p', m, pk, k, info[m][k].target.value)
    {
      var t := info[m][k].target.value;
      if Exported(e, m, pk) && !Exported(e, t, x) {
        var s :| PointedBy(m, k, s) in p[t] && pk in s;
        assert x in Matches(db, t, PointedBy(m, k, s));
        assert x in MatchAll(db, t, p[t]);
      }
    }
  }

  /** A round exports no row twice: the rows not exported shrink, strictly when it queued more. */
  lemma NotExportedShrinks(db: Db, info: map<string, map<string, FieldInfo>>, e: Export, e': Export, p': Pending)
    requires KeptEntries(e, e') && InDatabase(db, info, e')
    requires p' != map[] ==> exists m, pk :: Exported(e', m, pk) && !Exported(e, m, pk)
    ensures NotExported(db, info, e') <= NotExported(db, info, e)
    ensures p' != map[] ==> NotExported(db, info, e') < NotExported(db, info, e)
  {
    forall x | x in NotExported(db, info, e')
      ensures x in NotExported(db, info, e)
    {
      assert !Exported(e', x.0, x.1);
    }
    if p' != map[] {
      var m: string, pk: nat :| Exported(e', m, pk) && !Exported(e, m, pk);
      assert (m, pk) in NotExported(db, info, e);
      assert (m, pk) !in NotExported(db, info, e');
    }
  }

  /** The state of `while entries_to_add` between rounds. */
  ghost predicate Progress(db: Db, info: map<string, map<string, FieldInfo>>, start: Pending, e: Export, p: Pending, first: bool) {
    && ExportedRows(db, info, e) && Awaited(db, info, e, p)
    && (first ==> p == start && e == map[])
    && (!first ==> Covered(db, e, start) && FromExported(info, e, p))
    && Justified(db, info, start, e)
    && (Idle(db, start) ==> NoEntries(e) && (first || p == map[]))
  }

  /**
   * The whole `while entries_to_add` loop: it ends, and then every row the
   * start queries select is exported, every exported entry is its row
   * serialised, the export is closed under foreign keys, and every entry is
   * there because the start selects it or an entry points to it; nothing
   * is exported exactly when the start selects nothing.
   */
  method CollectEntries(db: Db, info: map<string, map<string, FieldInfo>>, start: Pending) returns (r: Result<Export, ExportError>)
    ensures r.Ok? ==> ExportedRows(db, info, r.value) && Closed(db, info, r.value) && Covered(db, r.value, start)
    ensures r.Ok? ==> Justified(db, info, start, r.value)
    ensures r.Ok? ==> (NoEntries(r.value) <==> Idle(db, start))
    ensures r.Err? ==> r.error.UnknownExportModel? || r.error.Unserializable?
  {
    var e: Export := map[];
    var p := start;
    ghost var first := true;
    ProgressAtStart(db, info, start);
    while p != map[]
      invariant Progress(db, info, start, e, p, first)
      decreases NotExported(db, info, e), if p == map[] then 0 else 1
    {
      var round := Advance(db, info, start, e, p, first);
      if round.Err? {
        return Err(round.error);
      }
      e, p, first := round.value.0, round.value.1, false;
    }
    CollectDone(db, info, start, e, first);
    return Ok(e);
  }

  /** Before the first round nothing is exported and the start queries are pending. */
  lemma ProgressAtStart(db: Db, info: map<string, map<string, FieldInfo>>, start: Pending)
    ensures Progress(db, info, start, map[], start, true)
  {
    assert NoEntries(map[]);
  }

  /** One round, with what it keeps of the loop's state and how it makes progress. */
  method Advance(db: Db, info: map<string, map<string, FieldInfo>>, start: Pending, e: Export, p: Pending, ghost first: bool)
    returns (r: Result<(Export, Pending), ExportError>)
    requires Progress(db, info, start, e, p, first)
    ensures r.Ok? ==> Progress(db, info, start, r.value.0, r.value.1, false)
    ensures r.Ok? ==> NotExported(db, info, r.value.0) <= NotExported(db, info, e)
    ensures r.Ok? ==> (NotExported(db, info, r.value.0) < NotExported(db, info, e)
      || (NotExported(db, info, r.value.0) == NotExported(db, info, e) && r.value.1 == map[]))
    ensures r.Err? ==> r.error.UnknownExportModel? || r.error.Unserializable?
  {
    var round := ExportRound(db, info, e, p);
    if round.Err? {
      return Err(round.error);
    }
    var e', p' := round.value.0, round.value.1;
    CollectStep(db, info, start, e, e', p, p', first);
    return Ok((e', p'));
  }

  /** The invariants of `while entries_to_add` survive a round, and fewer rows remain to export. */
  lemma CollectStep(
    db: Db, info: map<string, map<string, FieldInfo>>, start: Pending, e: Export, e': Export, p: Pending, p': Pending, first: bool)
    requires Progress(db, info, start, e, p, first)
    requires ExportedRows(db, info, e') && KeptEntries(e, e')
    requires Covered(db, e', p) && Announced(info, e, e', p')
    requires p' != map[] ==> exists m, pk :: Exported(e', m, pk) && !Exported(e, m, pk)
    requires NewRowsMatched(db, e, e', p) && FromExported(info, e', p')
    ensures Progress(db, info, start, e', p', false)
    ensures NotExported(db, info, e') <= NotExported(db, info, e)
    ensures p' != map[] ==> NotExported(db, info, e') < NotExported(db, info, e)
  {
    AwaitedAfterRound(db, info, e, e', p, p');
    NotExportedShrinks(db, info, e, e', p');
    JustifiedAfterRound(db, info, start, e, e', p, first);
    if !first {
      CoveredKept(db, e, e', start);
    }
    if Idle(db, start) {
      IdleRound(db, e, e', p, p');
    }
  }

  /** When nothing is pending, the export is closed; it is empty exactly when the start selects nothing. */
  lemma CollectDone(db: Db, info: map<string, map<string, FieldInfo>>, start: Pending, e: Export, first: bool)
    requires Progress(db, info, start, e, map[], first)
    ensures ExportedRows(db, info, e) && Closed(db, info, e) && Covered(db, e, start) && Justified(db, info, start, e)
    ensures NoEntries(e) <==> Idle(db, start)
  {
    if !Idle(db, start) {
      var m, pk :| m in start && pk in MatchAll(db, m, start[m]);
      assert Exported(e, m, pk);
      assert e[m] != map[];
    }
  }

  /** A round keeps every entry justified. */
  lemma JustifiedAfterRound(
    db: Db, info: map<string, map<string, FieldInfo>>, start: Pending, e: Export, e': Export, p: Pending, first: bool)
    requires Justified(db, info, start, e) && KeptEntries(e, e') && NewRowsMatched(db, e, e', p)
    requires first ==> p == start
    requires !first ==> FromExported(info, e, p)
    ensures Justified(db, info, start, e')
  {
    forall m, pk | Exported(e', m, pk)
      ensures Reached(db, info, start, e', m, pk)
    {
      if Exported(e, m, pk) {
        ReachedKept(db, info, start, e, e', m, pk);
      } else {
        ReachedNew(db, info, start, e, e', p, first, m, pk);
      }
    }
  }

  /** An entry reached before is reached still: what pointed to it stays exported. */
  lemma ReachedKept(db: Db, info: map<string, map<string, FieldInfo>>, start: Pending, e: Export, e': Export, m: string, pk: nat)
    requires Reached(db, info, start, e, m, pk) && KeptEntries(e, e')
    ensures Reached(db, info, start, e', m, pk)
  {
    if pk !in MatchAll(db, m, Get(start, m)) {
      var n, src, k :| Exported(e, n, src) && PointsTo(db, info, n, src, k, pk) && info[n][k].target == Some(m);
      assert Exported(e', n, src);
    }
  }

  /** A new entry was matched by the start queries, or by a query for what an exported entry points to. */
  lemma ReachedNew(db: Db, info: map<string, map<string, FieldInfo>>, start: Pending, e: Export, e': Export, p: Pending, first: bool, m: string, pk: nat)
    requires KeptEntries(e, e') && NewRowsMatched(db, e, e', p)
    requires first ==> p == start
    requires !first ==> FromExported(info, e, p)
    requires Exported(e', m, pk) && !Exported(e, m, pk)
    ensures Reached(db, info, start, e', m, pk)
  {
    var q :| q in p[m] && pk in Matches(db, m, q);
    if !first {
      PendingQuery(info, e, p, m, q);
      var src :| src in q.ids && src in Table(db, q.source) && FkOf(Table(db, q.source)[src], q.field) == Some(pk);
      assert Exported(e, q.source, src);
      assert PointsTo(db, info, q.source, src, q.field, pk);
    }
  }

  /** What FromExported says of one pending query. */
  lemma PendingQuery(info: map<string, map<string, FieldInfo>>, e: Export, p: Pending, t: string, q: Query)
    requires FromExported(info, e, p) && t in p && q in p[t]
    ensures q.PointedBy? && q.source in info && q.field in info[q.source] && info[q.source][q.field].target == Some(t)
    ensures forall x :: x in q.ids ==> Exported(e, q.source, x)
  {
  }

  /** From a start that selects nothing, a round exports nothing and queues nothing. */
  lemma IdleRound(db: Db, e: Export, e': Export, p: Pending, p': Pending)
    requires Idle(db, p) && NoEntries(e) && NewRowsMatched(db, e, e', p)
    requires p' != map[] ==> exists m, pk :: Exported(e', m, pk) && !Exported(e, m, pk)
    ensures NoEntries(e') && p' == map[]
  {
    forall m | m in e'
      ensures e'[m] == map[]
    {
      if e'[m] != map[] {
        var pk :| pk in e'[m];
        assert Exported(e', m, pk);
      }
    }
  }

  /** Covered survives a round. */
  lemma CoveredKept(db: Db, e: Export, e': Export, p: Pending)
    requires Covered(db, e, p) && KeptEntries(e, e')
    ensures Covered(db, e', p)
  {
  }

  // ---------------------------------------------------------------------------
  // A foreign key to its own model
  // ---------------------------------------------------------------------------

  /** One node whose foreign key `parent` points to itself. */
  const CYCLE_DB: Db := Db(map[NODE_MODEL := map[1 := map["parent_id" := Int(1)]]], {}, map[], map[], {}, {})
  const CYCLE_INFO: map<string, map<string, FieldInfo>> := map[NODE_MODEL := map["parent" := FieldInfo(Some(NODE_MODEL), Null, Some("children"))]]
  const CYCLE_QUERY: Query := PointedBy(NODE_MODEL, "parent", {1})

  /** Both start and foreign-key queries select node 1 and only it. */
  lemma CycleMatches()
    ensures MatchAll(CYCLE_DB, NODE_MODEL, {IdIn({1})}) == {1}
    ensures MatchAll(CYCLE_DB, NODE_MODEL, {CYCLE_QUERY}) == {1}
  {
    var nodes := Table(CYCLE_DB, NODE_MODEL);
    assert nodes == map[1 := map["parent_id" := Int(1)]];
    assert ForeignKeyColumn("parent") == "parent_id";
    assert FkOf(nodes[1], "parent") == Some(1);
    assert 1 in Matches(CYCLE_DB, NODE_MODEL, IdIn({1}));
    assert 1 in Matches(CYCLE_DB, NODE_MODEL, CYCLE_QUERY);
  }

  /** Node 1 serialises. */
  lemma CycleSerializes()
    ensures SerializeEntries(CYCLE_DB, CYCLE_INFO[NODE_MODEL], NODE_MODEL, {1}).Ok?
  {
    var v := EntryValues(Table(CYCLE_DB, NODE_MODEL)[1], 1, CYCLE_INFO[NODE_MODEL]);
    assert ForeignKeyColumn("parent") == "parent_id";
    assert v == map["parent" := Int(1), "id" := Int(1)];
    assert SerializeDict(v, {"id"}, map[]).Ok?;
  }

  /** What a step that serialises gives. */
  lemma StepModelOk(db: Db, info: map<string, map<string, FieldInfo>>, e: Export, m: string, ids: set<nat>, serialized: map<nat, Record>)
    requires m in info && ids <= Table(db, m).Keys
    requires SerializeEntries(db, info[m], m, ids) == Ok(serialized)
    ensures StepModel(db, info, e, m, ids)
      == Ok((e[m := Rows(e, m) + serialized], if ids == {} then map[] else ForeignQueries(m, info[m], ids)))
  {
    if ids != {} {
      var pk :| pk in ids;
      assert pk in serialized;
    }
  }

  /** The queries for the foreign keys of node 1. */
  lemma CycleQueries()
    ensures ForeignQueries(NODE_MODEL, CYCLE_INFO[NODE_MODEL], {1}) == map[NODE_MODEL := {CYCLE_QUERY}]
  {
    var fields := CYCLE_INFO[NODE_MODEL];
    assert fields.Keys == {"parent"} && fields["parent"].target == Some(NODE_MODEL);
    assert TargetsOf(fields) == {NODE_MODEL};
    assert (set k | k in fields && fields[k].target == Some(NODE_MODEL) :: PointedBy(NODE_MODEL, k, {1})) == {CYCLE_QUERY};
  }

  /**
   * A model whose serialised rows queue a query selecting the same rows:
   * once they are exported, as written the round leaves the export and
   * the queue as they were, so `while entries_to_add` never ends.
   */
  lemma SelfReferenceRepeatsAsWritten(
    db: Db, info: map<string, map<string, FieldInfo>>, e: Export, m: string, q: Query, ids: set<nat>, serialized: map<nat, Record>)
    requires m in info && ids <= Table(db, m).Keys && ids != {}
    requires SerializeEntries(db, info[m], m, ids) == Ok(serialized)
    requires ForeignQueries(m, info[m], ids) == map[m := {q}] && MatchAll(db, m, {q}) == ids
    requires m in e && e[m] == serialized
    ensures StepModel(db, info, e, m, UnexportedAsWritten(MatchAll(db, m, {q}), Rows(e, m))) == Ok((e, map[m := {q}]))
  {
    AsWrittenFilterKeepsAll(ids, Rows(e, m));
    StepModelOk(db, info, e, m, ids, serialized);
    SameRows(e, m, serialized);
  }

  /** With the intended filter the same round serialises nothing and queues nothing. */
  lemma SelfReferenceEndsIntended(
    db: Db, info: map<string, map<string, FieldInfo>>, e: Export, m: string, q: Query, ids: set<nat>, serialized: map<nat, Record>)
    requires m in info && ids <= Table(db, m).Keys
    requires SerializeEntries(db, info[m], m, ids) == Ok(serialized)
    requires MatchAll(db, m, {q}) == ids
    requires m in e && e[m] == serialized
    ensures StepModel(db, info, e, m, Unexported(MatchAll(db, m, {q}), Rows(e, m))) == Ok((e, map[]))
  {
    assert Unexported(ids, Rows(e, m)) == {};
    StepModelOk(db, info, e, m, {}, map[]);
    SameRows(e, m, map[]);
  }

  /** Storing again rows that are exported already leaves the export as it was. */
  lemma SameRows(e: Export, m: string, rows: map<nat, Record>)
    requires m in e && rows.Keys <= e[m].Keys && forall pk :: pk in rows ==> rows[pk] == e[m][pk]
    ensures e[m := Rows(e, m) + rows] == e
  {
    assert Rows(e, m) + rows == e[m];
  }

  /** Node 1 of CYCLE_DB meets both lemmas: the start query and its parent query select it alone. */
  lemma CycleIsSelfReference()
    ensures MatchAll(CYCLE_DB, NODE_MODEL, {IdIn({1})}) == {1}
    ensures SerializeEntries(CYCLE_DB, CYCLE_INFO[NODE_MODEL], NODE_MODEL, {1}).Ok?
    ensures ForeignQueries(NODE_MODEL, CYCLE_INFO[NODE_MODEL], {1}) == map[NODE_MODEL := {CYCLE_QUERY}]
    ensures MatchAll(CYCLE_DB, NODE_MODEL, {CYCLE_QUERY}) == {1}
  {
    CycleMatches();
    CycleSerializes();
    CycleQueries();
  }

  /** The first round of the export of node 1 stores it and queues the query for its parent. */
  lemma CycleFirstRound()
    ensures var serialized := SerializeEntries(CYCLE_DB, CYCLE_INFO[NODE_MODEL], NODE_MODEL, {1}).value;
      StepModel(CYCLE_DB, CYCLE_INFO, map[], NODE_MODEL, Unexported(MatchAll(CYCLE_DB, NODE_MODEL, {IdIn({1})}), map[]))
        == Ok((map[NODE_MODEL := serialized], map[NODE_MODEL := {CYCLE_QUERY}]))
  {
    CycleIsSelfReference();
    FirstRound(CYCLE_DB, CYCLE_INFO, NODE_MODEL, {1}, SerializeEntries(CYCLE_DB, CYCLE_INFO[NODE_MODEL], NODE_MODEL, {1}).value);
  }

  /** A first round stores exactly the rows its query selects. */
  lemma FirstRound(db: Db, info: map<string, map<string, FieldInfo>>, m: string, ids: set<nat>, serialized: map<nat, Record>)
    requires m in info && ids <= Table(db, m).Keys
    requires SerializeEntries(db, info[m], m, ids) == Ok(serialized)
    ensures StepModel(db, info, map[], m, Unexported(ids, map[]))
      == Ok((map[m := serialized], if ids == {} then map[] else ForeignQueries(m, info[m], ids)))
  {
    assert Unexported(ids, map[]) == ids;
    StepModelOk(db, info, map[], m, ids, serialized);
    FirstRows(m, serialized);
  }

  /** Rows stored into an empty export are all it holds. */
  lemma FirstRows(m: string, rows: map<nat, Record>)
    ensures map[][m := Rows(map[], m) + rows] == map[m := rows]
  {
    assert Rows(map[], m) + rows == rows;
  }
}
