/** `get_schema_from_config`, the same in all three scripts: the declared
    warehouse columns of a table, read from the schema file, whose entries
    are lists of JSON objects with a "name" and a "type" member.
 */
module Schema {
  import opened Outcomes

  datatype SchemaField = SchemaField(name: string, fieldType: string)

  /** The schema file: table name to its list of field objects. */
  type Registry = map<string, seq<map<string, string>>>

  /** A field object the comprehension can read without a `KeyError`. */
  predicate HasNameAndType(decl: map<string, string>)
  {
    "name" in decl && "type" in decl
  }

  /** `[SchemaField(f["name"], f["type"]) for f in decls]`, or `None` when a
      field object lacks a member. */
  function Fields(decls: seq<map<string, string>>): (r: Option<seq<SchemaField>>)
    ensures r.Some? <==> forall i :: 0 <= i < |decls| ==> HasNameAndType(decls[i])
    ensures r.Some? ==> |r.value| == |decls|
    ensures r.Some? ==> forall i :: 0 <= i < |decls| ==>
              r.value[i] == SchemaField(decls[i]["name"], decls[i]["type"])
  {
    if |decls| == 0 then Some([])
    else if !HasNameAndType(decls[0]) then None
    else
      match Fields(decls[1..])
      case None => None
      case Some(rest) => Some([SchemaField(decls[0]["name"], decls[0]["type"])] + rest)
  }

  /** A table the file does not list raises `ValueError`; a listed table
      yields its fields in declared order, or a `KeyError` when one of its
      field objects lacks "name" or "type". */
  function Lookup(registry: Registry, table: string): (r: Result<seq<SchemaField>>)
    ensures r == Err(SchemaNotFound(table)) <==> table !in registry
    ensures table in registry ==> r.Err? == exists i :: 0 <= i < |registry[table]| && !HasNameAndType(registry[table][i])
    ensures r.Err? ==> r.failure == SchemaNotFound(table) || r.failure == MalformedSchema(table)
    ensures r.Ok? ==> table in registry && |r.value| == |registry[table]|
    ensures r.Ok? ==> forall i :: 0 <= i < |r.value| ==>
              r.value[i] == SchemaField(registry[table][i]["name"], registry[table][i]["type"])
  {
    if table !in registry then Err(SchemaNotFound(table))
    else
      match Fields(registry[table])
      case None => Err(MalformedSchema(table))
      case Some(fields) => Ok(fields)
  }
}
