/** Schema-qualified table names for SQL text (backend/db_helpers.py). */
module DbHelpers {
  import opened Wrappers
  import opened PyStr

  /** The schema the queries run against when `DB_SCHEMA` is not set. */
  const DefaultSchema: string := "public"

  /** `os.getenv("DB_SCHEMA", "public")`: the environment value, an empty one included. */
  function SchemaOf(env: Option<string>): (schema: string)
    ensures env.None? ==> schema == DefaultSchema
    ensures env.Some? ==> schema == env.value
  {
    env.GetOr(DefaultSchema)
  }

  /** `table_name`: the bare table for the public schema, `schema.table` otherwise. */
  function TableName(schema: string, table: string): (name: string)
    ensures schema == DefaultSchema ==> name == table
    ensures schema != DefaultSchema ==> name == schema + "." + table
  {
    if schema == DefaultSchema then table else schema + "." + table
  }

  /** The qualified name always ends with the table; a non-public one starts with the schema and a dot. */
  lemma QualifiedNameShape(schema: string, table: string)
    ensures var name := TableName(schema, table);
      |name| >= |table| && name[|name| - |table|..] == table
    ensures schema != DefaultSchema ==>
      var name := TableName(schema, table);
      |name| == |schema| + 1 + |table| && name[|schema|] == '.' && StartsWith(name, schema)
  {
    var name := TableName(schema, table);
    if schema != DefaultSchema {
      assert name[|name| - |table|..] == table;
      assert name[..|schema|] == schema;
    } else {
      assert name[|name| - |table|..] == name[0..];
    }
  }

  /** Under one schema, distinct tables get distinct qualified names. */
  lemma TableNameInjective(schema: string, t1: string, t2: string)
    requires TableName(schema, t1) == TableName(schema, t2)
    ensures t1 == t2
  {
    if schema != DefaultSchema {
      var n := TableName(schema, t1);
      assert t1 == n[|schema| + 1..];
      assert t2 == n[|schema| + 1..];
    }
  }

  /** With `DB_SCHEMA` unset the queries name the bare tables. */
  lemma UnsetSchemaLeavesNamesBare(table: string)
    ensures TableName(SchemaOf(None), table) == table
  {
  }
}
