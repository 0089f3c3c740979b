/** A database index description: a name, its columns and a type. */
module DbIndex {
  import opened Wrappers
  import opened Php

  datatype Index = Index(name: Value, columns: Value, indexType: string)

  datatype IndexError = NameRequired | ColumnsRequired

  function Message(e: IndexError): string {
    match e
    case NameRequired => "_name parameter is required"
    case ColumnsRequired => "_columns parameter is required"
  }

  /** The constructor: name and columns as given, the type cast to a
      string, so that no type (null) becomes "". */
  function NewIndex(name: Value, columns: Value, indexType: Value := Null): (r: Index)
    ensures r.name == name && r.columns == columns
    ensures indexType == Null ==> r.indexType == ""
    ensures indexType.Str? ==> r.indexType == indexType.s
  {
    Index(name, columns, StrOf(indexType))
  }

  /** `__set_state(data)`: `_name` and `_columns` must be present (a
      present null counts); a missing `_type` is "". */
  function SetState(data: Value): (r: Result<Index, IndexError>)
    ensures Field(data, "_name").None? ==> r == Failure(NameRequired)
    ensures Field(data, "_name").Some? && Field(data, "_columns").None? ==> r == Failure(ColumnsRequired)
    ensures r.Success? <==> Field(data, "_name").Some? && Field(data, "_columns").Some?
    ensures r.Success? ==> r.value.name == Field(data, "_name").value && r.value.columns == Field(data, "_columns").value
    ensures r.Success? && Field(data, "_type").None? ==> r.value.indexType == ""
  {
    match Field(data, "_name")
    case None => Failure(NameRequired)
    case Some(indexName) =>
      match Field(data, "_columns")
      case None => Failure(ColumnsRequired)
      case Some(columns) =>
        var indexType := Field(data, "_type").GetOr(Str(""));
        Success(NewIndex(indexName, columns, indexType))
  }

  /** What `var_export` writes for an index: its three properties. */
  function Export(i: Index): Value {
    Arr([Entry(StrKey("_name"), i.name), Entry(StrKey("_columns"), i.columns), Entry(StrKey("_type"), Str(i.indexType))])
  }

  /** Restoring an exported index gives the same index. */
  lemma SetStateOfExport(i: Index)
    ensures SetState(Export(i)) == Success(i)
  {
    var es := Export(i).entries;
    assert es[0].key != StrKey("_columns") && es[0].key != StrKey("_type") && es[1].key != StrKey("_type");
    FindFirst(es, 0, StrKey("_name"));
    FindFirst(es, 1, StrKey("_columns"));
    FindFirst(es, 2, StrKey("_type"));
  }
}
