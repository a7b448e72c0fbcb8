/**
 * deserialize_field: one field of an archive record turned into the column
 * and value the new database row gets, with foreign keys moved from the
 * exporting database's pks to the receiving database's pks.
 */
module Fields {
  import opened Wrappers
  import opened Values
  import opened Attributes
  import opened Archive

  /** "{}_id".format(k): the column that holds a foreign key's pk. */
  function ForeignKeyColumn(k: string): (c: string)
    ensures |c| == |k| + 3 && c[..|k|] == k && c[|k|..] == "_id"
  {
    k + "_id"
  }

  /**
   * deserialize_field(k, v, fields_info, import_unique_ids_mappings,
   * foreign_ids_reverse_mappings).  uniqueIds maps, per model, an archive pk
   * to the entry's unique identifier; reverse maps, per model, a unique
   * identifier to the pk of the row in the receiving database.
   */
  function DeserializeField(
    k: string, v: Value, fieldsInfo: map<string, FieldInfo>,
    uniqueIds: map<string, map<nat, Value>>, reverse: map<string, map<Value, nat>>): (r: Result<(string, Value), ImportError>)
    ensures k !in fieldsInfo ==> r == Err(UnknownField(k))
    ensures k in fieldsInfo && (k == "id" || k == "pk") ==> r == Err(ExplicitId)
    ensures r.Ok? ==> r.value.0 != "id" && r.value.0 != "pk"
    ensures r.Ok? ==> r.value.0 == (if fieldsInfo[k].target.None? then k else ForeignKeyColumn(k))
  {
    if k !in fieldsInfo then Err(UnknownField(k))
    else if k == "id" || k == "pk" then Err(ExplicitId)
    else match fieldsInfo[k].target
      case None =>
        (match DeserializeAttributes(v, fieldsInfo[k].convertType)
         case Ok(x) => Ok((k, x))
         case Err(e) => Err(BadAttributes(e)))
      case Some(target) =>
        if v == Null then Ok((ForeignKeyColumn(k), Null))
        else if !v.Int? || v.i < 0 || target !in uniqueIds || v.i !in uniqueIds[target] then Err(UnresolvedForeignKey(k))
        else
          var uid := uniqueIds[target][v.i];
          if target !in reverse || uid !in reverse[target] then Err(UnresolvedForeignKey(k))
          else Ok((ForeignKeyColumn(k), Int(reverse[target][uid])))
  }

  /** A plain field written by serialize_field comes back as the value it was, tuples as lists. */
  lemma PlainFieldRoundTrip(
    k: string, v: Value, fieldsInfo: map<string, FieldInfo>,
    uniqueIds: map<string, map<nat, Value>>, reverse: map<string, map<Value, nat>>)
    requires k in fieldsInfo && k != "id" && k != "pk"
    requires fieldsInfo[k].target.None? && fieldsInfo[k].convertType == SerializeConv(v)
    requires Formattable(v)
    ensures DeserializeField(k, SerializeData(v), fieldsInfo, uniqueIds, reverse) == Ok((k, Normalize(v)))
  {
    RoundTrip(v);
  }

  /** A datetime column, described with convert_type 'date', reads its strftime text back. */
  lemma DateFieldRoundTrip(
    k: string, d: Instant, fieldsInfo: map<string, FieldInfo>,
    uniqueIds: map<string, map<nat, Value>>, reverse: map<string, map<Value, nat>>)
    requires k in fieldsInfo && k != "id" && k != "pk"
    requires fieldsInfo[k].target.None? && fieldsInfo[k].convertType == Str(DATE_MARKER)
    ensures DeserializeField(k, Str(FormatDate(d)), fieldsInfo, uniqueIds, reverse) == Ok((k, Date(d)))
  {
    ParseFormatDate(d);
  }

  /** A None foreign key stays None, whatever the mappings hold. */
  lemma NullForeignKey(
    k: string, fieldsInfo: map<string, FieldInfo>,
    uniqueIds: map<string, map<nat, Value>>, reverse: map<string, map<Value, nat>>)
    requires k in fieldsInfo && k != "id" && k != "pk" && fieldsInfo[k].target.Some?
    ensures DeserializeField(k, Null, fieldsInfo, uniqueIds, reverse) == Ok((ForeignKeyColumn(k), Null))
  {
  }

  /**
   * When the reverse mapping of the target model sends each unique
   * identifier to a row of the receiving table that carries it, a remapped
   * foreign key points at the row with the same unique identifier as the
   * archive entry it named.
   */
  lemma ForeignKeyKeepsIdentity(
    k: string, i: nat, fieldsInfo: map<string, FieldInfo>,
    uniqueIds: map<string, map<nat, Value>>, reverse: map<string, map<Value, nat>>,
    table: map<nat, Record>, uidField: string)
    requires k in fieldsInfo && fieldsInfo[k].target.Some?
    requires var t := fieldsInfo[k].target.value;
      t in reverse && forall u :: u in reverse[t] ==>
        reverse[t][u] in table && uidField in table[reverse[t][u]] && table[reverse[t][u]][uidField] == u
    requires DeserializeField(k, Int(i), fieldsInfo, uniqueIds, reverse).Ok?
    ensures var t := fieldsInfo[k].target.value;
      var r := DeserializeField(k, Int(i), fieldsInfo, uniqueIds, reverse).value;
      && r.0 == ForeignKeyColumn(k) && r.1.Int?
      && t in uniqueIds && i in uniqueIds[t]
      && r.1.i in table && table[r.1.i][uidField] == uniqueIds[t][i]
  {
  }

  /** A foreign key the mappings cannot resolve raises KeyError, reported as UnresolvedForeignKey. */
  lemma UnresolvedForeignKeyRaises(
    k: string, i: nat, fieldsInfo: map<string, FieldInfo>,
    uniqueIds: map<string, map<nat, Value>>, reverse: map<string, map<Value, nat>>)
    requires k in fieldsInfo && k != "id" && k != "pk" && fieldsInfo[k].target.Some?
    requires var t := fieldsInfo[k].target.value;
      !(t in uniqueIds && i in uniqueIds[t] && t in reverse && uniqueIds[t][i] in reverse[t])
    ensures DeserializeField(k, Int(i), fieldsInfo, uniqueIds, reverse) == Err(UnresolvedForeignKey(k))
  {
  }
}
