/** The introspection strategy of the model metadata: it classifies the
    columns a table description returns into the metadata arrays, and
    inverts a model's column map. The database is not consulted here:
    whether the table exists and its column description are inputs. */
module MetadataIntrospection {
  import opened Wrappers
  import opened Php

  /** What a column description answers. */
  datatype Column = Column(
    name: string,
    isPrimary: bool,
    isNumeric: bool,
    isNotNull: bool,
    isAutoIncrement: bool,
    columnType: int,
    bindType: int,
    defaultValue: Value)

  /** The metadata array, one field per `MODELS_*` index. Keyed arrays are
      maps from field name; both automatic-default entries hold the same
      array. */
  datatype MetaData = MetaData(
    attributes: seq<string>,
    primaryKeys: seq<string>,
    nonPrimaryKeys: seq<string>,
    notNull: seq<string>,
    dataTypes: map<string, int>,
    dataTypesNumeric: map<string, bool>,
    identityColumn: Value,
    dataTypesBind: map<string, int>,
    automaticDefaultInsert: map<string, Value>,
    automaticDefaultUpdate: map<string, Value>,
    defaultValues: map<string, Value>,
    emptyStringValues: map<string, Value>)

  /** Why no metadata could be read, with the table as the message names it
      and the model's class. */
  datatype MetaDataError =
    | TableMissing(completeTable: string, modelClass: string)
    | NoColumns(completeTable: string, modelClass: string)
    | ColumnMapNotArray

  /** The part of each message the model states; the table messages go on
      to name the model's class. */
  function Message(e: MetaDataError): string {
    match e
    case TableMissing(completeTable, _) => "Table '" + completeTable + "'"
    case NoColumns(completeTable, _) => "Cannot obtain table columns foreach ( the mapped source '" + completeTable + "'"
    case ColumnMapNotArray => "columnMap() not returned an array"
  }

  /** `schema'.'table` when the schema is truthy, else the table alone. */
  function CompleteTable(schema: string, table: string): string {
    if TruthyString(schema) then schema + "'.'" + table else table
  }

  /** Whether a column's default enters `defaultValues`: it has a non-null
      default or is nullable, and it is not auto-increment. */
  predicate HasDefault(c: Column) {
    (c.defaultValue != Null || !c.isNotNull) && !c.isAutoIncrement
  }

  /** The name lists of the metadata, as column selections. */
  datatype Selection = Everyone | Primary | NonPrimary | NotNullable

  predicate Selects(sel: Selection, c: Column) {
    match sel
    case Everyone => true
    case Primary => c.isPrimary
    case NonPrimary => !c.isPrimary
    case NotNullable => c.isNotNull
  }

  /** The names of the selected columns, in column order. */
  function NamesWhere(cols: seq<Column>, sel: Selection): (r: seq<string>)
    ensures |r| <= |cols|
    decreases |cols|
  {
    if |cols| == 0 then []
    else NamesWhere(cols[..|cols| - 1], sel) + (if Selects(sel, cols[|cols| - 1]) then [cols[|cols| - 1].name] else [])
  }

  /** The field-name maps, later columns overwriting earlier ones. */
  function TypesOf(cols: seq<Column>): map<string, int>
    decreases |cols|
  {
    if |cols| == 0 then map[] else TypesOf(cols[..|cols| - 1])[cols[|cols| - 1].name := cols[|cols| - 1].columnType]
  }

  function BindTypesOf(cols: seq<Column>): map<string, int>
    decreases |cols|
  {
    if |cols| == 0 then map[] else BindTypesOf(cols[..|cols| - 1])[cols[|cols| - 1].name := cols[|cols| - 1].bindType]
  }

  function NumericOf(cols: seq<Column>): map<string, bool>
    decreases |cols|
  {
    if |cols| == 0 then map[]
    else
      var before := NumericOf(cols[..|cols| - 1]);
      if cols[|cols| - 1].isNumeric then before[cols[|cols| - 1].name := true] else before
  }

  function DefaultsOf(cols: seq<Column>): map<string, Value>
    decreases |cols|
  {
    if |cols| == 0 then map[]
    else
      var before := DefaultsOf(cols[..|cols| - 1]);
      var c := cols[|cols| - 1];
      if HasDefault(c) then before[c.name := c.defaultValue] else before
  }

  function IdentityOf(cols: seq<Column>): Value
    decreases |cols|
  {
    if |cols| == 0 then Bool(false)
    else if cols[|cols| - 1].isAutoIncrement then Str(cols[|cols| - 1].name)
    else IdentityOf(cols[..|cols| - 1])
  }

  /** `getMetaData`: fails when the table is missing or has no columns;
      otherwise one pass over the columns fills every metadata array. */
  method GetMetaData(schema: string, table: string, modelClass: string, tableExists: bool, columns: seq<Column>)
    returns (r: Result<MetaData, MetaDataError>)
    ensures !tableExists ==> r == Failure(TableMissing(CompleteTable(schema, table), modelClass))
    ensures tableExists && |columns| == 0 ==> r == Failure(NoColumns(CompleteTable(schema, table), modelClass))
    ensures r.Success? <==> tableExists && |columns| > 0
    ensures r.Success? ==>
              && r.value.attributes == NamesWhere(columns, Everyone)
              && r.value.primaryKeys == NamesWhere(columns, Primary)
              && r.value.nonPrimaryKeys == NamesWhere(columns, NonPrimary)
              && r.value.notNull == NamesWhere(columns, NotNullable)
              && r.value.dataTypes == TypesOf(columns)
              && r.value.dataTypesBind == BindTypesOf(columns)
              && r.value.dataTypesNumeric == NumericOf(columns)
              && r.value.identityColumn == IdentityOf(columns)
              && r.value.defaultValues == DefaultsOf(columns)
              && r.value.automaticDefaultInsert == map[]
              && r.value.automaticDefaultUpdate == map[]
              && r.value.emptyStringValues == map[]
  {
    if !tableExists {
      return Failure(TableMissing(CompleteTable(schema, table), modelClass));
    }
    if |columns| == 0 {
      return Failure(NoColumns(CompleteTable(schema, table), modelClass));
    }
    var attributes: seq<string> := [];
    var primaryKeys: seq<string> := [];
    var nonPrimaryKeys: seq<string> := [];
    var numericTyped: map<string, bool> := map[];
    var notNull: seq<string> := [];
    var fieldTypes: map<string, int> := map[];
    var fieldBindTypes: map<string, int> := map[];
    var automaticDefault: map<string, Value> := map[];
    var identityField: Value := Bool(false);
    var defaultValues: map<string, Value> := map[];
    var emptyStringValues: map<string, Value> := map[];
    var i := 0;
    while i < |columns|
      invariant 0 <= i <= |columns|
      invariant attributes == NamesWhere(columns[..i], Everyone)
      invariant primaryKeys == NamesWhere(columns[..i], Primary)
      invariant nonPrimaryKeys == NamesWhere(columns[..i], NonPrimary)
      invariant notNull == NamesWhere(columns[..i], NotNullable)
      invariant fieldTypes == TypesOf(columns[..i])
      invariant fieldBindTypes == BindTypesOf(columns[..i])
      invariant numericTyped == NumericOf(columns[..i])
      invariant identityField == IdentityOf(columns[..i])
      invariant defaultValues == DefaultsOf(columns[..i])
    {
      var column := columns[i];
      ColumnStep(columns, i);
      var fieldName := column.name;
      attributes := attributes + [fieldName];
      if column.isPrimary {
        primaryKeys := primaryKeys + [fieldName];
      } else {
        nonPrimaryKeys := nonPrimaryKeys + [fieldName];
      }
      if column.isNumeric {
        numericTyped := numericTyped[fieldName := true];
      }
      if column.isNotNull {
        notNull := notNull + [fieldName];
      }
      if column.isAutoIncrement {
        identityField := Str(fieldName);
      }
      fieldTypes := fieldTypes[fieldName := column.columnType];
      fieldBindTypes := fieldBindTypes[fieldName := column.bindType];
      var defaultValue := column.defaultValue;
      if defaultValue != Null || !column.isNotNull {
        if !column.isAutoIncrement {
          defaultValues := defaultValues[fieldName := defaultValue];
        }
      }
      i := i + 1;
    }
    assert columns[..i] == columns;
    return Success(MetaData(attributes, primaryKeys, nonPrimaryKeys, notNull, fieldTypes, numericTyped,
                            identityField, fieldBindTypes, automaticDefault, automaticDefault,
                            defaultValues, emptyStringValues));
  }

  /** What one more column adds to each reference definition. */
  lemma ColumnStep(cols: seq<Column>, i: nat)
    requires i < |cols|
    ensures var p := cols[..i];
            var q := cols[..i + 1];
            var c := cols[i];
            && NamesWhere(q, Everyone) == NamesWhere(p, Everyone) + [c.name]
            && NamesWhere(q, Primary) == NamesWhere(p, Primary) + (if c.isPrimary then [c.name] else [])
            && NamesWhere(q, NonPrimary) == NamesWhere(p, NonPrimary) + (if c.isPrimary then [] else [c.name])
            && NamesWhere(q, NotNullable) == NamesWhere(p, NotNullable) + (if c.isNotNull then [c.name] else [])
            && TypesOf(q) == TypesOf(p)[c.name := c.columnType]
            && BindTypesOf(q) == BindTypesOf(p)[c.name := c.bindType]
            && NumericOf(q) == (if c.isNumeric then NumericOf(p)[c.name := true] else NumericOf(p))
            && IdentityOf(q) == (if c.isAutoIncrement then Str(c.name) else IdentityOf(p))
            && DefaultsOf(q) == (if HasDefault(c) then DefaultsOf(p)[c.name := c.defaultValue] else DefaultsOf(p))
  {
    var q := cols[..i + 1];
    assert q[..i] == cols[..i];
    assert q[i] == cols[i];
  }

  /** A selection lists exactly the selected columns' names, in order. */
  lemma {:induction false} NamesWhereSelects(cols: seq<Column>, sel: Selection)
    ensures NamesWhere(cols, Everyone) == seq(|cols|, i requires 0 <= i < |cols| => cols[i].name)
    ensures forall n :: n in NamesWhere(cols, sel) <==> exists i :: 0 <= i < |cols| && cols[i].name == n && Selects(sel, cols[i])
    decreases |cols|
  {
    if |cols| > 0 {
      var prefix := cols[..|cols| - 1];
      NamesWhereSelects(prefix, sel);
      forall n | n in NamesWhere(cols, sel)
        ensures exists i :: 0 <= i < |cols| && cols[i].name == n && Selects(sel, cols[i])
      {
        if n in NamesWhere(prefix, sel) {
          var i :| 0 <= i < |prefix| && prefix[i].name == n && Selects(sel, prefix[i]);
          assert cols[i] == prefix[i];
        }
      }
      forall n | exists i :: 0 <= i < |cols| && cols[i].name == n && Selects(sel, cols[i])
        ensures n in NamesWhere(cols, sel)
      {
        var i :| 0 <= i < |cols| && cols[i].name == n && Selects(sel, cols[i]);
        if i < |cols| - 1 {
          assert prefix[i] == cols[i];
        }
      }
    }
  }

  /** Primary and non-primary keys split the attributes: together, counted
      with multiplicity, they are exactly the attributes. */
  lemma {:induction false} KeysPartitionAttributes(cols: seq<Column>)
    ensures multiset(NamesWhere(cols, Primary)) + multiset(NamesWhere(cols, NonPrimary)) ==
            multiset(NamesWhere(cols, Everyone))
    ensures |NamesWhere(cols, Primary)| + |NamesWhere(cols, NonPrimary)| == |cols|
    decreases |cols|
  {
    if |cols| > 0 {
      KeysPartitionAttributes(cols[..|cols| - 1]);
      NamesWhereSelects(cols, Everyone);
    }
  }

  /** The last column named `n`, by index, among those satisfying `HasDefault`
      when `withDefault` holds and among all columns otherwise. */
  predicate IsLastNamed(cols: seq<Column>, n: string, i: int, withDefault: bool) {
    && 0 <= i < |cols|
    && cols[i].name == n
    && (withDefault ==> HasDefault(cols[i]))
    && forall j :: i < j < |cols| && cols[j].name == n ==> (withDefault && !HasDefault(cols[j]))
  }

  /** Types and bind types: a name is a key iff some column has it, and it
      maps to what the last column of that name says. */
  lemma {:induction false} TypesAreLastWins(cols: seq<Column>, n: string)
    ensures n in TypesOf(cols) <==> n in BindTypesOf(cols)
    ensures n in TypesOf(cols) <==> exists i :: 0 <= i < |cols| && cols[i].name == n
    ensures n in TypesOf(cols) ==>
              exists i :: IsLastNamed(cols, n, i, false) && TypesOf(cols)[n] == cols[i].columnType &&
                          BindTypesOf(cols)[n] == cols[i].bindType
    decreases |cols|
  {
    if |cols| > 0 {
      var prefix := cols[..|cols| - 1];
      var last := |cols| - 1;
      TypesAreLastWins(prefix, n);
      if n == cols[last].name {
        assert IsLastNamed(cols, n, last, false);
      } else {
        assert TypesOf(cols) == TypesOf(prefix)[cols[last].name := cols[last].columnType];
        assert BindTypesOf(cols) == BindTypesOf(prefix)[cols[last].name := cols[last].bindType];
        if n in TypesOf(prefix) {
          var i :| IsLastNamed(prefix, n, i, false) && TypesOf(prefix)[n] == prefix[i].columnType &&
                   BindTypesOf(prefix)[n] == prefix[i].bindType;
          assert IsLastNamed(cols, n, i, false);
        } else {
          assert forall i :: 0 <= i < |prefix| ==> prefix[i] == cols[i];
        }
      }
    }
  }

  /** Default values: a name is a key iff some column of that name has a
      default in the sense of `HasDefault`, and it maps to the default of
      the last such column. */
  lemma {:induction false} DefaultsAreLastWins(cols: seq<Column>, n: string)
    ensures n in DefaultsOf(cols) <==> exists i :: 0 <= i < |cols| && cols[i].name == n && HasDefault(cols[i])
    ensures n in DefaultsOf(cols) ==>
              exists i :: IsLastNamed(cols, n, i, true) && DefaultsOf(cols)[n] == cols[i].defaultValue
    decreases |cols|
  {
    if |cols| > 0 {
      var prefix := cols[..|cols| - 1];
      var last := |cols| - 1;
      DefaultsAreLastWins(prefix, n);
      DefaultsStep(cols, n);
      if n == cols[last].name && HasDefault(cols[last]) {
        assert IsLastNamed(cols, n, last, true);
      } else if n in DefaultsOf(prefix) {
        var i :| IsLastNamed(prefix, n, i, true) && DefaultsOf(prefix)[n] == prefix[i].defaultValue;
        LastDefaultExtends(cols, n, i);
      } else {
        NoDefaultExtends(cols, prefix, n);
      }
    }
  }

  /** One more column changes the default of `n` only when it is named `n`
      and has a default. */
  lemma DefaultsStep(cols: seq<Column>, n: string)
    requires |cols| > 0
    ensures var prefix := cols[..|cols| - 1];
            var c := cols[|cols| - 1];
            if c.name == n && HasDefault(c) then n in DefaultsOf(cols) && DefaultsOf(cols)[n] == c.defaultValue
            else (n in DefaultsOf(cols) <==> n in DefaultsOf(prefix)) &&
                 (n in DefaultsOf(prefix) ==> DefaultsOf(cols)[n] == DefaultsOf(prefix)[n])
  {
  }

  lemma LastDefaultExtends(cols: seq<Column>, n: string, i: int)
    requires |cols| > 0 && IsLastNamed(cols[..|cols| - 1], n, i, true)
    requires !(cols[|cols| - 1].name == n && HasDefault(cols[|cols| - 1]))
    ensures IsLastNamed(cols, n, i, true) && cols[i] == cols[..|cols| - 1][i]
  {
    var prefix := cols[..|cols| - 1];
    forall j | i < j < |cols| && cols[j].name == n
      ensures !HasDefault(cols[j])
    {
      if j < |prefix| {
        assert prefix[j] == cols[j];
      }
    }
  }

  lemma NoDefaultExtends(cols: seq<Column>, prefix: seq<Column>, n: string)
    requires |cols| > 0 && prefix == cols[..|cols| - 1]
    requires forall i :: 0 <= i < |prefix| && prefix[i].name == n ==> !HasDefault(prefix[i])
    requires !(cols[|cols| - 1].name == n && HasDefault(cols[|cols| - 1]))
    ensures forall i :: 0 <= i < |cols| && cols[i].name == n ==> !HasDefault(cols[i])
  {
    forall i | 0 <= i < |cols| && cols[i].name == n
      ensures !HasDefault(cols[i])
    {
      if i < |prefix| {
        assert prefix[i] == cols[i];
      }
    }
  }

  /** The numeric map holds `true` for exactly the numeric columns' names. */
  lemma {:induction false} NumericMarksNumericColumns(cols: seq<Column>, n: string)
    ensures n in NumericOf(cols) <==> exists i :: 0 <= i < |cols| && cols[i].name == n && cols[i].isNumeric
    ensures n in NumericOf(cols) ==> NumericOf(cols)[n]
    decreases |cols|
  {
    if |cols| > 0 {
      var prefix := cols[..|cols| - 1];
      var last := |cols| - 1;
      NumericMarksNumericColumns(prefix, n);
      if !(n == cols[last].name && cols[last].isNumeric) {
        assert forall i :: 0 <= i < |prefix| ==> prefix[i] == cols[i];
      }
    }
  }

  /** The identity column is the last auto-increment column, or false when
      there is none. */
  lemma {:induction false} IdentityIsLastAutoIncrement(cols: seq<Column>)
    ensures IdentityOf(cols) == Bool(false) <==> forall i :: 0 <= i < |cols| ==> !cols[i].isAutoIncrement
    ensures IdentityOf(cols) != Bool(false) ==>
              exists i :: (&& 0 <= i < |cols| && cols[i].isAutoIncrement
                           && IdentityOf(cols) == Str(cols[i].name)
                           && forall j :: i < j < |cols| ==> !cols[j].isAutoIncrement)
    decreases |cols|
  {
    if |cols| > 0 {
      var prefix := cols[..|cols| - 1];
      IdentityIsLastAutoIncrement(prefix);
      if !cols[|cols| - 1].isAutoIncrement {
        if IdentityOf(prefix) != Bool(false) {
          var i :| (&& 0 <= i < |prefix| && prefix[i].isAutoIncrement
                    && IdentityOf(prefix) == Str(prefix[i].name)
                    && forall j :: i < j < |prefix| ==> !prefix[j].isAutoIncrement);
          assert cols[i] == prefix[i];
        } else {
          assert forall i :: 0 <= i < |prefix| ==> prefix[i] == cols[i];
        }
      }
    }
  }

  /** The column maps: the user's map as given, and its inversion. */
  datatype ColumnMaps = ColumnMaps(ordered: Value, reversed: Value)

  /** `$reversed[userName] = name` over `entries`, in order; a user name
      that is not a legal key is skipped. */
  function Reverse(entries: seq<Entry>): (r: seq<Entry>)
    decreases |entries|
  {
    if |entries| == 0 then []
    else
      var before := Reverse(entries[..|entries| - 1]);
      var e := entries[|entries| - 1];
      match KeyOf(e.val)
      case Some(k) => Put(before, k, KeyValue(e.key))
      case None => before
  }

  /** `getColumnMaps`: without a `columnMap()` method both maps are null;
      a non-array column map is an error. */
  function GetColumnMaps(columnMap: Option<Value>): (r: Result<ColumnMaps, MetaDataError>)
    ensures columnMap.None? ==> r == Success(ColumnMaps(Null, Null))
    ensures columnMap.Some? && !columnMap.value.Arr? ==> r == Failure(ColumnMapNotArray)
    ensures columnMap.Some? && columnMap.value.Arr? ==>
              r.Success? && r.value.ordered == columnMap.value && r.value.reversed.Arr?
    // the reversed map is the inversion `ReverseSendsBack` characterises
    ensures columnMap.Some? && columnMap.value.Arr? ==>
              r.Success? && r.value.reversed == Arr(Reverse(columnMap.value.entries))
  {
    match columnMap
    case None => Success(ColumnMaps(Null, Null))
    case Some(userColumnMap) =>
      if !userColumnMap.Arr? then Failure(ColumnMapNotArray)
      else Success(ColumnMaps(userColumnMap, Arr(Reverse(userColumnMap.entries))))
  }

  /** Through `getColumnMaps`: a user name is a key of the reversed map
      exactly when some column is mapped to it, and it sends that user name
      back to the last such column. */
  lemma ColumnMapsSendBack(columnMap: Value, k: Key)
    requires columnMap.Arr?
    ensures var reversed := GetColumnMaps(Some(columnMap)).value.reversed;
            var es := columnMap.entries;
            && (Fetch(reversed, k).Some? <==> exists i :: 0 <= i < |es| && KeyOf(es[i].val) == Some(k))
            && (Fetch(reversed, k).Some? ==>
                  exists i :: (&& 0 <= i < |es| && KeyOf(es[i].val) == Some(k)
                               && Fetch(reversed, k) == Some(KeyValue(es[i].key))
                               && forall j :: i < j < |es| ==> KeyOf(es[j].val) != Some(k)))
  {
    ReverseSendsBack(columnMap.entries, k);
  }

  /** The reversed map sends each user name back to the column it names
      (the last one, when two columns share a user name), and holds no
      other key. */
  lemma ReverseSendsBack(entries: seq<Entry>, k: Key)
    ensures Find(Reverse(entries), k).Some? <==> exists i :: 0 <= i < |entries| && KeyOf(entries[i].val) == Some(k)
    ensures Find(Reverse(entries), k).Some? ==>
              exists i :: (&& 0 <= i < |entries| && KeyOf(entries[i].val) == Some(k)
                           && Find(Reverse(entries), k) == Some(KeyValue(entries[i].key))
                           && forall j :: i < j < |entries| ==> KeyOf(entries[j].val) != Some(k))
  {
    if Find(Reverse(entries), k).Some? {
      var i := ReverseWitness(entries, k);
    }
    if i :| 0 <= i < |entries| && KeyOf(entries[i].val) == Some(k) {
      ReversePresent(entries, i, k);
    }
  }

  /** The entry a reversed key came from: the last one naming it. */
  lemma {:induction false} ReverseWitness(entries: seq<Entry>, k: Key) returns (i: nat)
    requires Find(Reverse(entries), k).Some?
    ensures i < |entries| && KeyOf(entries[i].val) == Some(k)
    ensures Find(Reverse(entries), k) == Some(KeyValue(entries[i].key))
    ensures forall j :: i < j < |entries| ==> KeyOf(entries[j].val) != Some(k)
    decreases |entries|
  {
    var last := |entries| - 1;
    var prefix := entries[..last];
    if KeyOf(entries[last].val) == Some(k) {
      assert Reverse(entries) == Put(Reverse(prefix), k, KeyValue(entries[last].key));
      i := last;
    } else {
      ReverseKeepsOtherKeys(entries, k);
      i := ReverseWitness(prefix, k);
      forall j | i < j < |entries|
        ensures KeyOf(entries[j].val) != Some(k)
      {
        if j < last {
          assert prefix[j] == entries[j];
        }
      }
    }
  }

  /** Every user name that is a valid key is a key of the reversed map. */
  lemma {:induction false} ReversePresent(entries: seq<Entry>, i: nat, k: Key)
    requires i < |entries| && KeyOf(entries[i].val) == Some(k)
    ensures Find(Reverse(entries), k).Some?
    decreases |entries|
  {
    var last := |entries| - 1;
    var prefix := entries[..last];
    if KeyOf(entries[last].val) == Some(k) {
      assert Reverse(entries) == Put(Reverse(prefix), k, KeyValue(entries[last].key));
    } else {
      assert i < last;
      assert prefix[i] == entries[i];
      ReversePresent(prefix, i, k);
      ReverseKeepsOtherKeys(entries, k);
    }
  }

  /** One step of `Reverse` leaves every key but the last entry's own. */
  lemma ReverseKeepsOtherKeys(entries: seq<Entry>, k: Key)
    requires |entries| > 0 && KeyOf(entries[|entries| - 1].val) != Some(k)
    ensures Find(Reverse(entries), k) == Find(Reverse(entries[..|entries| - 1]), k)
  {
    var before := Reverse(entries[..|entries| - 1]);
    var e := entries[|entries| - 1];
    match KeyOf(e.val)
    case Some(k') =>
      assert Reverse(entries) == Put(before, k', KeyValue(e.key));
    case None =>
  }
}
