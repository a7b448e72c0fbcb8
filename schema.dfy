/**
 * get_all_fields_info: the description of every exported model's fields
 * (all_fields_info) and of its unique identifier (unique_identifiers),
 * read off Django's model metadata.  Model._meta.fields is given as a
 * schema: the declared fields of each model, in declaration order.
 */
module Schema {
  import opened Wrappers
  import opened Values
  import opened Attributes
  import opened Archive

  datatype FieldKind =
    | AutoField
    /** CharField, TextField, IntegerField, FloatField, BooleanField, NullBooleanField, UUIDField */
    | PlainField
    | DateTimeField
    | ForeignKey(to: string, relatedName: Option<string>)
    /** any other field class */
    | OtherField

  datatype FieldDecl = FieldDecl(name: string, kind: FieldKind)

  /** Model._meta.fields of each model, by class string. */
  type ModelSchema = map<string, seq<FieldDecl>>

  /** The models the walk starts from. */
  const SEED_MODELS: set<string> := {NODE_MODEL, ATTRIBUTE_MODEL, LINK_MODEL, GROUP_MODEL}

  /** all_exclude_fields: the user's credentials and login bookkeeping are never exported. */
  const USER_EXCLUDED: set<string> := {"password", "is_staff", "is_superuser", "is_active", "last_login", "date_joined"}

  function Excluded(model: string): set<string> {
    if model == USER_MODEL then USER_EXCLUDED else {}
  }

  datatype SchemaError =
    /** get_object_from_string fails: a foreign key leads to a model the schema does not have. */
    | NoSuchModel(model: string)
    /** A field of a class export does not handle: the NotImplementedError meant at
        line 931 (as written, formatting its message raises IndexError instead). */
    | UnsupportedField(model: string, field: string)
    /** ValueError: a model with no 'uuid' field and no fixed identifier. */
    | NoIdentifierField(model: string)

  /** The entry a field of this kind gets; AutoField and OtherField get none. */
  function InfoOf(kind: FieldKind): FieldInfo
    requires kind.PlainField? || kind.DateTimeField? || kind.ForeignKey?
  {
    match kind
    case PlainField => FieldInfo(None, Null, None)
    case DateTimeField => FieldInfo(None, Str(DATE_MARKER), None)
    case ForeignKey(to, rn) => FieldInfo(Some(to), Null, rn)
  }

  predicate Described(d: FieldDecl, exclude: set<string>) {
    d.name !in exclude && (d.kind.PlainField? || d.kind.DateTimeField? || d.kind.ForeignKey?)
  }

  predicate Unsupported(d: FieldDecl, exclude: set<string>) {
    d.name !in exclude && d.kind.OtherField?
  }

  /**
   * thisinfo for one model: the fields in declaration order, a later field
   * with the same name replacing an earlier one; the first field of an
   * unsupported class raises, and its name is returned.
   */
  function Describe(decls: seq<FieldDecl>, exclude: set<string>): (r: Result<map<string, FieldInfo>, string>)
    ensures r.Ok? <==> forall i :: 0 <= i < |decls| ==> !Unsupported(decls[i], exclude)
    ensures r.Err? ==> exists i :: 0 <= i < |decls| && Unsupported(decls[i], exclude) && decls[i].name == r.error
  {
    if decls == [] then Ok(map[])
    else
      var last := decls[|decls| - 1];
      match Describe(decls[..|decls| - 1], exclude)
      case Err(f) => Err(f)
      case Ok(info) =>
        if last.name in exclude || last.kind.AutoField? then Ok(info)
        else if last.kind.OtherField? then Err(last.name)
        else Ok(info[last.name := InfoOf(last.kind)])
  }

  /** Field i is the last described field of its name. */
  predicate LastOfName(decls: seq<FieldDecl>, exclude: set<string>, i: int)
    requires 0 <= i < |decls|
  {
    Described(decls[i], exclude) && forall j :: i < j < |decls| && Described(decls[j], exclude) ==> decls[j].name != decls[i].name
  }

  /**
   * thisinfo has one entry per described field name, and the entry is the
   * one of the last field of that name.
   */
  lemma {:induction false} DescribeEntries(decls: seq<FieldDecl>, exclude: set<string>)
    requires Describe(decls, exclude).Ok?
    ensures var info := Describe(decls, exclude).value;
      forall n :: n in info <==> exists i :: 0 <= i < |decls| && Described(decls[i], exclude) && decls[i].name == n
    ensures var info := Describe(decls, exclude).value;
      forall i :: 0 <= i < |decls| && LastOfName(decls, exclude, i) ==> info[decls[i].name] == InfoOf(decls[i].kind)
  {
    if decls != [] {
      var init := decls[..|decls| - 1];
      var last := decls[|decls| - 1];
      DescribeEntries(init, exclude);
      var info := Describe(decls, exclude).value;
      var before := Describe(init, exclude).value;
      assert forall i :: 0 <= i < |init| ==> init[i] == decls[i];
      forall n ensures n in info <==> exists i :: 0 <= i < |decls| && Described(decls[i], exclude) && decls[i].name == n {
        if n in info && !(Described(last, exclude) && last.name == n) {
          assert n in before;
          var i :| 0 <= i < |init| && Described(init[i], exclude) && init[i].name == n;
          assert Described(decls[i], exclude) && decls[i].name == n;
        }
      }
      forall i | 0 <= i < |decls| && LastOfName(decls, exclude, i)
        ensures info[decls[i].name] == InfoOf(decls[i].kind)
      {
        if i < |init| {
          assert LastOfName(init, exclude, i);
        }
      }
    }
  }

  /** The models this model's exported foreign keys lead to. */
  function Targets(decls: seq<FieldDecl>, exclude: set<string>): (t: set<string>)
    ensures forall m :: m in t <==> exists i :: 0 <= i < |decls| && decls[i].name !in exclude && decls[i].kind.ForeignKey? && decls[i].kind.to == m
  {
    set i | 0 <= i < |decls| && decls[i].name !in exclude && decls[i].kind.ForeignKey? :: decls[i].kind.to
  }

  /** Every model the walk can meet: the seeds, the schema's models and every foreign-key target. */
  function Universe(schema: ModelSchema): set<string> {
    SEED_MODELS + schema.Keys +
      (set m, i | m in schema && 0 <= i < |schema[m]| && schema[m][i].kind.ForeignKey? :: schema[m][i].kind.to)
  }

  /** A set of models that contains the targets of each of its models. */
  ghost predicate Closed(schema: ModelSchema, s: set<string>) {
    forall m :: m in s && m in schema ==> Targets(schema[m], Excluded(m)) <= s
  }

  /** Django puts an AutoField 'id' on every model, so no model has only excluded fields. */
  ghost predicate HasKeptField(schema: ModelSchema) {
    forall m :: m in schema ==> exists i :: 0 <= i < |schema[m]| && schema[m][i].name !in Excluded(m)
  }

  lemma TargetsInUniverse(schema: ModelSchema, m: string)
    requires m in schema
    ensures Targets(schema[m], Excluded(m)) <= Universe(schema)
  {
    forall t | t in Targets(schema[m], Excluded(m)) ensures t in Universe(schema) {
      var i :| 0 <= i < |schema[m]| && schema[m][i].name !in Excluded(m) && schema[m][i].kind.ForeignKey? && schema[m][i].kind.to == t;
    }
  }

  /** e lies inside every closed set of models that holds the seeds. */
  ghost predicate Least(schema: ModelSchema, e: set<string>) {
    forall s: set<string> {:trigger Closed(schema, s)} :: SEED_MODELS <= s && Closed(schema, s) ==> e <= s
  }

  /** What the worklist keeps: exportModels e and all_fields_info info so far. */
  ghost predicate WalkInv(schema: ModelSchema, e: set<string>, info: map<string, map<string, FieldInfo>>) {
    && SEED_MODELS <= e <= Universe(schema)
    && info.Keys <= e
    && (forall m :: m in info ==> m in schema && Describe(schema[m], Excluded(m)) == Ok(info[m]))
    && (forall m :: m in info ==> Targets(schema[m], Excluded(m)) <= e)
    && Least(schema, e)
  }

  /** Describing one more model of exportModels and adding its targets keeps the invariant. */
  lemma WalkStep(schema: ModelSchema, e: set<string>, info: map<string, map<string, FieldInfo>>, m: string, d: map<string, FieldInfo>)
    requires WalkInv(schema, e, info) && m in e && m in schema
    requires Describe(schema[m], Excluded(m)) == Ok(d)
    ensures WalkInv(schema, e + Targets(schema[m], Excluded(m)), info[m := d])
  {
    TargetsInUniverse(schema, m);
    var e' := e + Targets(schema[m], Excluded(m));
    var info' := info[m := d];
    forall x | x in info'
      ensures x in schema && Describe(schema[x], Excluded(x)) == Ok(info'[x]) && Targets(schema[x], Excluded(x)) <= e'
    {
      if x != m {
        assert x in info && info'[x] == info[x];
      }
    }
    forall s: set<string> | SEED_MODELS <= s && Closed(schema, s) ensures e' <= s {
      assert e <= s;
    }
  }

  /** Once nothing is missing, the described models are closed and least. */
  lemma WalkDone(schema: ModelSchema, e: set<string>, info: map<string, map<string, FieldInfo>>)
    requires WalkInv(schema, e, info) && e - info.Keys == {}
    ensures info.Keys == e && SEED_MODELS <= info.Keys && Closed(schema, info.Keys) && Least(schema, info.Keys)
  {
    forall x | x in e ensures x in info.Keys {
      assert x !in e - info.Keys;
    }
  }

  /**
   * One pass of the for-loop over missing_models: each is described and its
   * foreign-key targets join exportModels.
   */
  method DescribeRound(schema: ModelSchema, e: set<string>, info: map<string, map<string, FieldInfo>>, missing: set<string>)
    returns (r: Result<(set<string>, map<string, map<string, FieldInfo>>), SchemaError>)
    requires WalkInv(schema, e, info) && missing == e - info.Keys
    ensures r.Ok? ==> WalkInv(schema, r.value.0, r.value.1) && r.value.1.Keys == info.Keys + missing
    ensures r.Err? && r.error.NoSuchModel? ==> r.error.model !in schema && Least(schema, {r.error.model})
    ensures r.Err? && r.error.UnsupportedField? ==>
      && r.error.model in schema && Least(schema, {r.error.model})
      && Describe(schema[r.error.model], Excluded(r.error.model)) == Err(r.error.field)
    ensures r.Err? ==> !r.error.NoIdentifierField?
  {
    var exportModels, described, todo := e, info, missing;
    while todo != {}
      invariant todo <= missing
      invariant described.Keys == info.Keys + (missing - todo)
      invariant e <= exportModels
      invariant WalkInv(schema, exportModels, described)
      decreases todo
    {
      var m :| m in todo;
      todo := todo - {m};
      assert Least(schema, {m}) by {
        assert {m} <= e;
      }
      if m !in schema {
        return Err(NoSuchModel(m));
      }
      var d := Describe(schema[m], Excluded(m));
      if d.Err? {
        return Err(UnsupportedField(m, d.error));
      }
      WalkStep(schema, exportModels, described, m, d.value);
      described := described[m := d.value];
      exportModels := exportModels + Targets(schema[m], Excluded(m));
    }
    return Ok((exportModels, described));
  }

  /** A round that describes the missing models leaves fewer models of the universe undescribed. */
  lemma RoundShrinks(schema: ModelSchema, e: set<string>, info: map<string, map<string, FieldInfo>>,
                     e': set<string>, info': map<string, map<string, FieldInfo>>)
    requires WalkInv(schema, e, info) && WalkInv(schema, e', info')
    requires e - info.Keys != {} && info'.Keys == info.Keys + (e - info.Keys)
    ensures |Universe(schema) - info'.Keys| < |Universe(schema) - info.Keys|
  {
    var u := Universe(schema);
    var m :| m in e - info.Keys;
    assert m in u - info.Keys && m !in u - info'.Keys;
    assert u - info'.Keys < u - info.Keys;
  }

  /**
   * The worklist of get_all_fields_info: describe every model not yet
   * described, adding the targets of its foreign keys, until nothing is
   * missing.  The result describes exactly the least set of models that
   * holds the seeds and is closed under foreign keys.
   */
  method CollectFieldsInfo(schema: ModelSchema) returns (r: Result<map<string, map<string, FieldInfo>>, SchemaError>)
    requires HasKeptField(schema)
    ensures r.Ok? ==> SEED_MODELS <= r.value.Keys && Closed(schema, r.value.Keys) && Least(schema, r.value.Keys)
    ensures r.Ok? ==> forall m :: m in r.value ==> m in schema && Describe(schema[m], Excluded(m)) == Ok(r.value[m])
    ensures r.Err? && r.error.NoSuchModel? ==> r.error.model !in schema && Least(schema, {r.error.model})
    ensures r.Err? && r.error.UnsupportedField? ==>
      && r.error.model in schema && Least(schema, {r.error.model})
      && Describe(schema[r.error.model], Excluded(r.error.model)) == Err(r.error.field)
    ensures r.Err? ==> !r.error.NoIdentifierField?
  {
    var exportModels := SEED_MODELS;
    var info: map<string, map<string, FieldInfo>> := map[];
    while true
      invariant WalkInv(schema, exportModels, info)
      decreases |Universe(schema) - info.Keys|
    {
      var missing := exportModels - info.Keys;
      if missing == {} {
        WalkDone(schema, exportModels, info);
        return Ok(info);
      }
      var next := DescribeRound(schema, exportModels, info, missing);
      if next.Err? {
        return Err(next.error);
      }
      RoundShrinks(schema, exportModels, info, next.value.0, next.value.1);
      exportModels, info := next.value.0, next.value.1;
    }
  }

  /** The identifier unique_identifiers gives a described model; None means ValueError. */
  function IdentifierOf(schema: ModelSchema, model: string): Option<Option<string>>
    requires model in schema
  {
    if model == USER_MODEL then Some(Some("email"))
    else if model == ATTRIBUTE_MODEL || model == LINK_MODEL || model == EXTRA_MODEL then Some(None)
    else if exists i :: 0 <= i < |schema[model]| && schema[model][i].name == "uuid" then Some(Some("uuid"))
    else None
  }

  /** The loop that fills unique_identifiers, in the dict order of all_fields_info. */
  method UniqueIdentifiers(schema: ModelSchema, described: set<string>) returns (r: Result<map<string, Option<string>>, SchemaError>)
    requires described <= schema.Keys
    ensures r.Ok? <==> forall m :: m in described ==> IdentifierOf(schema, m).Some?
    ensures r.Ok? ==> r.value.Keys == described && forall m :: m in described ==> r.value[m] == IdentifierOf(schema, m).value
    ensures r.Err? ==> r.error.NoIdentifierField? && r.error.model in described && IdentifierOf(schema, r.error.model).None?
  {
    var ids: map<string, Option<string>> := map[];
    var todo := described;
    while todo != {}
      invariant todo <= described
      invariant ids.Keys == described - todo
      invariant forall m :: m in ids ==> IdentifierOf(schema, m) == Some(ids[m])
      decreases todo
    {
      var m :| m in todo;
      todo := todo - {m};
      var id := IdentifierOf(schema, m);
      if id.None? {
        return Err(NoIdentifierField(m));
      }
      ids := ids[m := id.value];
    }
    return Ok(ids);
  }

  /**
   * What makes get_all_fields_info raise: a model the walk reaches is
   * missing from the schema, has a field of an unsupported class, or has
   * no identifier.
   */
  ghost predicate SchemaRefused(schema: ModelSchema, e: SchemaError) {
    && Least(schema, {e.model})
    && match e
       case NoSuchModel(m) => m !in schema
       case UnsupportedField(m, f) => m in schema && Describe(schema[m], Excluded(m)) == Err(f)
       case NoIdentifierField(m) => m in schema && IdentifierOf(schema, m).None?
  }

  /** get_all_fields_info(): both dictionaries, or the exception the walk raised. */
  method GetAllFieldsInfo(schema: ModelSchema) returns (r: Result<(map<string, map<string, FieldInfo>>, map<string, Option<string>>), SchemaError>)
    requires HasKeptField(schema)
    ensures r.Ok? ==> SEED_MODELS <= r.value.0.Keys && Closed(schema, r.value.0.Keys)
    ensures r.Ok? ==> forall s: set<string> :: SEED_MODELS <= s && Closed(schema, s) ==> r.value.0.Keys <= s
    ensures r.Ok? ==> forall m :: m in r.value.0 ==> m in schema && Describe(schema[m], Excluded(m)) == Ok(r.value.0[m])
    ensures r.Ok? ==> r.value.1.Keys == r.value.0.Keys
    ensures r.Ok? ==> forall m :: m in r.value.1 ==> Some(r.value.1[m]) == IdentifierOf(schema, m)
    ensures r.Err? ==> SchemaRefused(schema, r.error)
  {
    var fields := CollectFieldsInfo(schema);
    if fields.Err? {
      return Err(fields.error);
    }
    var ids := UniqueIdentifiers(schema, fields.value.Keys);
    if ids.Err? {
      return Err(ids.error);
    }
    return Ok((fields.value, ids.value));
  }

  /** A datetime column is described with the marker deserialize_field needs to read it back. */
  lemma DateTimeColumnsCarryMarker(decls: seq<FieldDecl>, exclude: set<string>, i: int)
    requires 0 <= i < |decls| && decls[i].name !in exclude && decls[i].kind.DateTimeField?
    requires forall j :: i < j < |decls| ==> decls[j].name != decls[i].name
    requires Describe(decls, exclude).Ok?
    ensures decls[i].name in Describe(decls, exclude).value
    ensures Describe(decls, exclude).value[decls[i].name] == FieldInfo(None, Str(DATE_MARKER), None)
  {
    DescribeEntries(decls, exclude);
    assert LastOfName(decls, exclude, i);
  }

  // ---------------------------------------------------------------------------
  // The message of the NotImplementedError for an unsupported field
  // ---------------------------------------------------------------------------

  /** The format string at line 931, and the one-field text it evidently meant. */
  const UNSUPPORTED_PREFIX: string := "Export not implemented for field of type "
  const UNSUPPORTED_MESSAGE: string := UNSUPPORTED_PREFIX + "{}.{}"
  const UNSUPPORTED_INTENDED: string := UNSUPPORTED_PREFIX + "{}"

  /** The number of '{}' replacement fields in a format string. */
  function Placeholders(t: string): nat
    decreases |t|
  {
    if |t| < 2 then 0
    else if t[..2] == "{}" then 1 + Placeholders(t[2..])
    else Placeholders(t[1..])
  }

  /**
   * str.format for a string whose replacement fields are all '{}': the
   * arguments in turn, extra ones ignored; None where Python raises
   * IndexError because a field has no argument left.
   */
  function FormatPositional(t: string, args: seq<string>): (r: Option<string>)
    ensures r.Some? <==> Placeholders(t) <= |args|
    decreases |t|
  {
    if |t| < 2 then Some(t)
    else if t[..2] == "{}" then
      if args == [] then None
      else match FormatPositional(t[2..], args[1..])
        case None => None
        case Some(rest) => Some(args[0] + rest)
    else match FormatPositional(t[1..], args)
      case None => None
      case Some(rest) => Some([t[0]] + rest)
  }

  /** Text without a '{' is copied through and adds no field. */
  lemma {:induction false} FormatPlainPrefix(p: string, t: string, args: seq<string>)
    requires forall i :: 0 <= i < |p| ==> p[i] != '{'
    ensures Placeholders(p + t) == Placeholders(t)
    ensures FormatPositional(t, args).Some? ==> FormatPositional(p + t, args) == Some(p + FormatPositional(t, args).value)
    decreases |p|
  {
    if p != [] {
      var whole := p + t;
      if |whole| < 2 {
        assert t == [] && whole == p;
      } else {
        assert whole[0] == p[0] && whole[..2] != "{}";
        assert whole[1..] == p[1..] + t;
        FormatPlainPrefix(p[1..], t, args);
        if FormatPositional(t, args).Some? {
          assert [p[0]] + (p[1..] + FormatPositional(t, args).value) == p + FormatPositional(t, args).value;
        }
      }
    } else {
      assert p + t == t;
      if FormatPositional(t, args).Some? {
        assert p + FormatPositional(t, args).value == FormatPositional(t, args).value;
      }
    }
  }

  /** As written: two fields and one argument, so the message itself raises IndexError. */
  lemma UnsupportedMessageRaises(classString: string)
    ensures FormatPositional(UNSUPPORTED_MESSAGE, [classString]).None?
  {
    FormatPlainPrefix(UNSUPPORTED_PREFIX, "{}.{}", [classString]);
    assert Placeholders("{}.{}") == 2 by {
      assert "{}.{}"[2..] == ".{}";
      assert ".{}"[1..] == "{}";
    }
  }

  /** Intended: the message names the field's class, as Describe's error names the field. */
  lemma UnsupportedMessageNamesClass(classString: string)
    ensures FormatPositional(UNSUPPORTED_INTENDED, [classString]) == Some(UNSUPPORTED_PREFIX + classString)
  {
    FormatPlainPrefix(UNSUPPORTED_PREFIX, "{}", [classString]);
    assert FormatPositional("{}", [classString]) == Some(classString) by {
      assert "{}"[..2] == "{}" && "{}"[2..] == [];
      assert [classString][1..] == [] && classString + [] == classString;
    }
  }
}
