/**
 * The schema grammar overrides of the Caché dialect: the table-existence
 * query, drop-if-exists decided from whether the table exists, and
 * identifier wrapping that returns names unquoted.
 */
module SchemaGrammar {
  import opened Php

  const TableExistsQuery := "select * from information_schema.tables where table_name = ?"

  /**
   * compileTableExists.  `schema` is the configured
   * `database.connections.odbc.schema` value (Null when not configured).
   */
  function CompileTableExists(schema: Value): (sql: string)
    ensures !Truthy(schema) ==> sql == TableExistsQuery
    ensures Truthy(schema) ==> sql == TableExistsQuery + " and table_schema = '" + ToStr(schema) + "'"
  {
    var sql := TableExistsQuery;
    if Truthy(schema) then sql + " and table_schema = '" + ToStr(schema) + "'" else sql
  }

  /**
   * The schema name is embedded verbatim and unescaped, between the last
   * pair of single quotes, after the unchanged base query.
   */
  lemma TableExistsSchemaVerbatim(schema: Value)
    requires Truthy(schema)
    ensures var sql := CompileTableExists(schema);
      var n := |TableExistsQuery + " and table_schema = '"|;
      && |sql| == n + |ToStr(schema)| + 1
      && sql[..|TableExistsQuery|] == TableExistsQuery
      && sql[n - 1] == '\'' && sql[|sql| - 1] == '\''
      && sql[n..|sql| - 1] == ToStr(schema)
  {
    var head := TableExistsQuery + " and table_schema = '";
    var sql := CompileTableExists(schema);
    assert sql == head + ToStr(schema) + "'";
    assert sql[..|TableExistsQuery|] == head[..|TableExistsQuery|];
    assert sql[|head| - 1] == head[|head| - 1];
    assert sql[|head|..|sql| - 1] == ToStr(schema);
  }

  /** A table argument: a Blueprint, or anything else (a name, an expression). */
  datatype TableArg = Blueprint(table: string) | Other(text: string)

  /** wrapTable: the Blueprint's table name, anything else as it is. */
  function WrapTable(table: TableArg): (r: string)
    ensures table.Blueprint? ==> r == table.table
    ensures table.Other? ==> r == table.text
  {
    match table
    case Blueprint(name) => name
    case Other(text) => text
  }

  /** A value to wrap: a Fluent command or column definition, or anything else. */
  datatype WrapArg = Fluent(name: string) | Plain(text: string)

  /** wrap: the Fluent's name, anything else as it is; prefixAlias plays no part. */
  function Wrap(value: WrapArg, prefixAlias: bool): (r: string)
    ensures value.Fluent? ==> r == value.name
    ensures value.Plain? ==> r == value.text
  {
    if value.Fluent? then value.name else value.text
  }

  /**
   * The base grammar's compileDrop, with this grammar's table wrapping:
   * the table name follows `drop table ` verbatim, unquoted.
   */
  function CompileDrop(blueprint: string): (r: string)
    ensures |r| == 11 + |blueprint| && r[..11] == "drop table " && r[11..] == blueprint
  {
    var head := "drop table ";
    assert |head| == 11;
    head + WrapTable(Blueprint(blueprint))
  }

  /**
   * compileDropIfExists.  `tableExists` is what the information-schema
   * lookup for the blueprint's table found.
   */
  function CompileDropIfExists(blueprint: string, tableExists: bool): (sql: string)
    ensures !tableExists ==> sql == ""
    ensures tableExists ==> sql == "drop table " + blueprint
  {
    if tableExists then CompileDrop(blueprint) else ""
  }

  lemma WrapIgnoresPrefixAlias(value: WrapArg)
    ensures Wrap(value, true) == Wrap(value, false)
  {
  }

  /** Reserved words stay unquoted. */
  lemma ReservedColumnUnquoted()
    ensures Wrap(Fluent("group"), false) == "group"
    ensures CompileDropIfExists("users", true) == "drop table users"
  {
  }
}
