/**
 * The receiving (or exporting) database, reduced to what importexport.py
 * reads and writes: rows per model by pk, the link table, group membership,
 * node attributes, calculation states and the DbPath closure of parents,
 * plus the file repository of node folders.
 */
module Store {
  import opened Wrappers
  import opened Values
  import opened Archive

  datatype Link = Link(input: nat, output: nat, linkLabel: string)

  datatype Db = Db(
    /** Model class string -> pk -> row. */
    tables: map<string, map<nat, Record>>,
    links: set<Link>,
    /** DbGroup pk -> the pks of its nodes (DbGroup.dbnodes). */
    groupNodes: map<nat, set<nat>>,
    /** DbNode pk -> its attributes (DbAttribute rows, as one dict). */
    attributes: map<nat, Value>,
    /** DbCalcState rows: (node pk, state). */
    calcStates: set<(nat, string)>,
    /** DbPath rows: (parent pk, child pk), the transitive closure of links. */
    paths: set<(nat, nat)>)

  /** The node repository: RepositoryFolder per node UUID.  It is outside the database transaction. */
  type Repository = map<Value, Folder>

  /** The rows of a model; a model without rows reads as an empty table. */
  function Table(db: Db, model: string): map<nat, Record> {
    if model in db.tables then db.tables[model] else map[]
  }

  /** The row with this pk carries this value in this field. */
  predicate Carries(table: map<nat, Record>, pk: nat, field: string, u: Value) {
    pk in table && field in table[pk] && table[pk][field] == u
  }

  /** No two rows of the table carry the same value of the field. */
  ghost predicate UniquelyCarried(table: map<nat, Record>, field: string) {
    forall a, b, u :: Carries(table, a, field, u) && Carries(table, b, field, u) ==> a == b
  }

  /** found holds exactly the values of uids that some row carries, each with a row carrying it. */
  ghost predicate LookedUp(table: map<nat, Record>, field: string, uids: set<Value>, found: map<Value, nat>) {
    && (forall u :: u in found <==> u in uids && exists pk :: Carries(table, pk, field, u))
    && (forall u :: u in found ==> Carries(table, found[u], field, u))
  }

  /**
   * {getattr(n, field): n.pk for n in Model.objects.filter(field__in=uids)}:
   * every value of uids that some row carries, mapped to the pk of one such
   * row (the last one the query returns).
   */
  method LookupByIdentifier(table: map<nat, Record>, field: string, uids: set<Value>) returns (found: map<Value, nat>)
    ensures LookedUp(table, field, uids, found)
  {
    found := map[];
    var rows := table.Keys;
    ghost var seen: set<nat> := {};
    while rows != {}
      invariant rows + seen == table.Keys && rows !! seen
      invariant forall u :: u in found <==> u in uids && exists pk :: pk in seen && Carries(table, pk, field, u)
      invariant forall u :: u in found ==> Carries(table, found[u], field, u)
      decreases rows
    {
      var pk :| pk in rows;
      rows, seen := rows - {pk}, seen + {pk};
      if field in table[pk] && table[pk][field] in uids {
        found := found[table[pk][field] := pk];
      }
    }
  }

  /** bulk_create leaves the choice of pks to the database: here, one above every pk in use. */
  method FreshPk(used: set<nat>) returns (pk: nat)
    ensures pk >= 1 && pk !in used
  {
    pk := 1;
    var rest := used;
    ghost var seen: set<nat> := {};
    while rest != {}
      invariant rest + seen == used && pk >= 1
      invariant forall k :: k in seen ==> k < pk
      decreases rest
    {
      var k :| k in rest;
      rest, seen := rest - {k}, seen + {k};
      if k >= pk {
        pk := k + 1;
      }
    }
  }
}
