# laracache core, modelled in Dafny

laracache connects Laravel's database layer to InterSystems Caché through
ODBC. This project models the six pieces of the adapter that hold real
logic, and proves what they promise:

- **Query grammar.** Caché has no `OFFSET`/`FETCH`. A select with an
  offset becomes `select *, %vid from (<inner>) where %vid <constraint>`.
  The inner query is `select top all <columns> ...`, ordered by `order by 1`
  when the caller gave no ordering. The constraint is
  `between offset+1 and offset+limit` with a positive limit, and
  `>= offset+1` otherwise. Identifiers are not quoted
  (`query_grammar.dfy`, module `QueryGrammar`).
- **Schema grammar.** The table-existence query, with an optional
  `table_schema` clause. Drop-if-exists, decided by whether the table
  exists. Identifier wrapping that returns names unquoted
  (`schema_grammar.dfy`, module `SchemaGrammar`).
- **Statement adapter.** Class `Statement` (`statement.dfy`, module
  `CacheStatement`):
  - an ordered table of named parameter slots taken from the SQL text;
  - the rewrite of `:name` placeholders to `?`;
  - `bindValue` and `execute`;
  - fetch-mode validation;
  - lowercase folding of field names;
  - `fetchAll`, which splices in the rows of a nested cursor.
- **Connection.** Class `Cache` (`cache.dfy`, module `CachePdo`):
  - the `odbc:` prefix of the DSN;
  - the choice of the persistent or plain connect;
  - the options `prepare` passes on;
  - `exec`, `quote`;
  - the transaction flag kept by `beginTransaction`, `commit`, `rollBack`
    and `inTransaction`.
- **Connector.** `buildDsn` makes the driver connection string from the
  configuration. `connect` composes it with the connection
  (`connector.dfy`, module `Connector`).
- **CacheException.** Its message normalisation deletes `"` and turns
  every newline into ` - ` (`exceptions.dfy`, module `Exceptions`).

Two support modules hold the PHP semantics the code relies on:

- `php.dfy`, module `Php`: truthiness, string conversion, the `(int)` cast,
  `explode`/`implode`, ASCII `strtolower`, and the characters of `\s`.
- `ordered_table.dfy`, module `OrderedTable`: a PHP array as an ordered
  table of key/value pairs. `$a[$k] = $v` overwrites the value in place
  when the key exists and appends the pair when it does not.

The native ODBC layer is an oracle. It becomes parameters and datatypes in
the model:

- the handles `odbc_connect`/`odbc_pconnect` return;
- a prepare error;
- the outcome of `odbc_execute` and the result set as a sequence of fetch
  steps (a row, or a failure with the driver's error);
- the error flag `odbc_error($this->dbh)` that commit reads (src/Pdo/Cache.php:101), and the rollback status;
- the exception PDO's own constructor raises before the native connect.

The native calls the connection makes are recorded in a `trace` field.
The class invariant `Cache.Valid()` says the transaction flag equals
"the last autocommit call switched autocommit off". The class invariant
`Statement.Valid()` says the stored fetch mode is one of ASSOC, BOTH and OBJ
and the slot names are distinct. `Statement.Open` establishes it, and every
method of the class requires it and keeps it.

Several other inputs are parameters too:

- what the base SQL Server grammar compiles: the select without an offset,
  and the clauses of `compileComponents`;
- the connection attributes `fetch` consults;
- the configured schema;
- whether the table exists;
- whether PHP runs on Windows;
- the options from the framework's `getOptions`.

Behaviour of the code that the model keeps:

- `exec` returns `execute`'s boolean, not an affected-row count.
- In object mode the null-to-string and empty-to-null rewrites change only
  a local array. The object carries the raw values
  (`CacheStatement.Statement.BuildObject`).
- `fetchAll` looks only at the first field of a row for a cursor handle,
  not at a row whose only field is one. It splices the nested cursor's rows
  one level deep: a row of the nested cursor is not itself expanded.
- `beginTransaction` returns `setAutoCommit`'s result, which is null.
- `commit` applies its error check before the native commit. When the
  error flag is set it returns `rollBack()`'s result.

## Model

| member | source | states |
|---|---|---|
| QueryGrammar.WrapValue | src/Cache/Query/Grammars/Grammar.php:10-13 | identifier quoting returns the identifier unchanged |
| QueryGrammar.Concatenate | src/Cache/Query/Grammars/Grammar.php:28 | the concatenation is empty exactly when every clause is empty |
| QueryGrammar.ConcatenateIsImplode | src/Cache/Query/Grammars/Grammar.php:28 | the concatenation is the non-empty clauses, in the base grammar's order, imploded with single spaces |
| QueryGrammar.Columnize | src/Cache/Query/Grammars/Grammar.php:27 | the column text is the columns, each as written, imploded with `, `; no columns give the empty text and a single column is itself |
| QueryGrammar.CompileOver | src/Cache/Query/Grammars/Grammar.php:33-36 | the result is `select top all ` followed by the column text verbatim |
| QueryGrammar.OffsetLimit | src/Cache/Query/Grammars/Grammar.php:17-19 | the limit left on the query is always set; a falsy limit (unset or 0) becomes `'all'`; a limit that was set to a non-zero number is kept |
| QueryGrammar.RowConstraint | src/Cache/Query/Grammars/Grammar.php:38-45 | the window starts at offset+1; it is bounded exactly when the limit is a positive number; a bounded window ends at offset+limit and covers exactly limit positions |
| QueryGrammar.RowConstraintAsWritten | src/Cache/Query/Grammars/Grammar.php:38-45 | under PHP 8 the `'all'` limit passes `'all' > 0` and `offset + 'all'` raises a TypeError; every numeric limit gives RowConstraint's window |
| QueryGrammar.OffsetWithoutLimitRaises | src/Cache/Query/Grammars/Grammar.php:17-45 | an offset without a limit raises as written, where the tests expect the window from offset+1 on |
| QueryGrammar.FromReadsBack | src/Cache/Query/Grammars/Grammar.php:44 | the open constraint is `>= ` followed by a number that the `(int)` cast reads back as the start |
| QueryGrammar.BetweenReadsBack | src/Cache/Query/Grammars/Grammar.php:41-42 | the bounded constraint is `between `, the start, ` and `, the finish, each bound read back by the `(int)` cast |
| QueryGrammar.TableExpressionEmbeds | src/Cache/Query/Grammars/Grammar.php:47-53 | the wrapping select is `select *, %vid from (`, then the inner query verbatim, then `) where %vid ` and the constraint |
| QueryGrammar.InnerComponents | src/Cache/Query/Grammars/Grammar.php:21-27 | the columns clause becomes `select top all <columns>`; an empty ordering becomes `order by 1` and clears the limit and offset clauses; a given ordering keeps all three; every other clause is unchanged |
| QueryGrammar.DefaultColumns | src/Cache/Query/Grammars/Grammar.php:74-76 | null columns become `['*']`; given columns are kept |
| QueryGrammar.CompileAnsiOffset | src/Cache/Query/Grammars/Grammar.php:15-31 | the text is the wrapping select over the concatenated inner clauses; the query's limit becomes `'all'` when unset; columns and offset are untouched |
| QueryGrammar.CompileSelect | src/Cache/Query/Grammars/Grammar.php:65-82 | offset 0: the base grammar's text, and the query unchanged; otherwise the wrapped text, with null columns set to `['*']` and the limit as compileAnsiOffset leaves it |
| QueryGrammar.NoOffsetIsParent | src/Cache/Query/Grammars/Grammar.php:67-69 | without an offset the base grammar's output is returned untouched, whatever the limit |
| QueryGrammar.OffsetIsWrapped | src/Cache/Query/Grammars/Grammar.php:47-53 | with an offset the text is exactly `select *, %vid from (` + inner + `) where %vid ` + constraint |
| QueryGrammar.BoundedConstraintText | src/Cache/Query/Grammars/Grammar.php:38-43 | a positive limit gives `between <offset+1> and <offset+limit>` |
| QueryGrammar.UnboundedConstraintText | src/Cache/Query/Grammars/Grammar.php:38-44 | an unset or zero limit, turned into `'all'`, gives `>= <offset+1>` |
| QueryGrammar.UnorderedIgnoresLimitClauses | src/Cache/Query/Grammars/Grammar.php:21-25 | without an ordering, the base grammar's limit and offset clauses have no effect on the text |
| QueryGrammar.ColumnsClauseReplaced | src/Cache/Query/Grammars/Grammar.php:27 | the base grammar's columns clause has no effect on the text |
| QueryGrammar.WindowIsOffsetLimit | src/Cache/Query/Grammars/Grammar.php:38-52 | the `%vid` filter over rows numbered from 1 keeps exactly the rows OFFSET/LIMIT would: positions offset to offset+limit-1 with a positive limit, every row from offset otherwise, cut at the end of the result |
| QueryGrammar.OffsetOnlyExample | tests/CacheQueryBuilderTest.php:491-496 | `offset(10)` gives `... where %vid >= 11` |
| QueryGrammar.OffsetAndLimitExample | tests/CacheQueryBuilderTest.php:505-510 | `offset(5)->limit(10)` gives `... where %vid between 6 and 15` |
| QueryGrammar.SecondPageExample | tests/CacheQueryBuilderTest.php:535-540 | `forPage(2, 15)` gives `... where %vid between 16 and 30` |
| QueryGrammar.PaginateOneExample | tests/CacheQueryBuilderTest.php:571-576 | `offset(1)->limit(1)` gives `... where %vid between 2 and 2` |
| QueryGrammar.ReservedWordsUnquoted | tests/CacheQueryBuilderTest.php:25-31 | the columns `exists, drop, group` are emitted unquoted |
| SchemaGrammar.CompileTableExists | src/Cache/Schema/Grammars/Grammar.php:12-22 | no configured schema gives exactly the information-schema query; a configured schema appends ` and table_schema = '<schema>'` |
| SchemaGrammar.TableExistsSchemaVerbatim | src/Cache/Schema/Grammars/Grammar.php:16-19 | the base query is a prefix, and the schema text stands unescaped between the last two single quotes |
| SchemaGrammar.CompileDrop | src/Cache/Schema/Grammars/Grammar.php:27-34 | `drop table ` followed by the table name verbatim, unquoted |
| SchemaGrammar.CompileDropIfExists | src/Cache/Schema/Grammars/Grammar.php:24-29 | an absent table gives the empty text; an existing one gives `drop table <name>` |
| SchemaGrammar.WrapTable | src/Cache/Schema/Grammars/Grammar.php:31-34 | a Blueprint gives its table name; anything else is returned unchanged |
| SchemaGrammar.Wrap | src/Cache/Schema/Grammars/Grammar.php:36-41 | a Fluent gives its name; anything else is returned unchanged |
| SchemaGrammar.WrapIgnoresPrefixAlias | src/Cache/Schema/Grammars/Grammar.php:36 | the prefixAlias flag never changes the result |
| SchemaGrammar.ReservedColumnUnquoted | tests/CacheSchemaGrammarTest.php:170-179 | the reserved column `group` stays unquoted, and dropping `users` gives `drop table users` |
| Exceptions.Replace | src/Pdo/Cache/Exceptions/CacheException.php:13 | the replaced character is absent from the result when the replacement does not contain it |
| Exceptions.ReplaceLength | src/Pdo/Cache/Exceptions/CacheException.php:13 | each occurrence of the searched character costs one character and adds the replacement's length |
| Exceptions.Normalize | src/Pdo/Cache/Exceptions/CacheException.php:13 | the stored message contains no `"` and no newline |
| Exceptions.NormalizeLength | src/Pdo/Cache/Exceptions/CacheException.php:13 | length = input length - number of `"` + 2 * number of newlines |
| Exceptions.NormalizeIsPerChar | src/Pdo/Cache/Exceptions/CacheException.php:13 | the two replacement passes equal a one-pass, character-by-character rewrite (`"` dropped, newline to ` - `, all else kept in order) |
| Exceptions.NormalizeClean | src/Pdo/Cache/Exceptions/CacheException.php:13 | a message without `"` or newline is stored as it is |
| Exceptions.NormalizeIdempotent | src/Pdo/Cache/Exceptions/CacheException.php:13 | normalising twice equals normalising once |
| Exceptions.NewCacheException | src/Pdo/Cache/Exceptions/CacheException.php:10-17 | the code is passed through; the message is single-line, free of `"`, and of the stated length |
| Exceptions.FromNative | src/Pdo/Cache.php:181-184 | the code is the `(int)` cast of the SQLSTATE; the message is the driver's, normalised character by character |
| Php.Explode | src/Pdo/Cache/Statement.php:231 | splitting on one character gives at least one piece, none containing the separator |
| Php.ImplodeExplode | src/Pdo/Cache/Statement.php:231 | gluing the pieces back with the separator restores the text |
| Php.IntCastOfIntToString | src/Pdo/Cache/Statement.php:252 | the `(int)` cast reads back every integer PHP writes out |
| Php.IntCastPrefix | src/Cache/Query/Grammars/Grammar.php:42 | the `(int)` cast reads back an integer PHP writes out even when other text that does not start with a digit follows it |
| OrderedTable.Put | src/Pdo/Cache/Statement.php:187 | the key now maps to the value; other keys read as before; an existing key keeps its position; a new key is appended; distinct keys stay distinct |
| OrderedTable.PutAllFirstAppearance | src/Pdo/Cache/Statement.php:234-240 | assigning pairs one by one into an empty array keeps one slot per distinct key, ordered by first appearance |
| CacheStatement.UnsupportedModeIsCacheException | src/Pdo/Cache/Statement.php:216-217 | the raised error is what `new CacheException` builds from the fixed message: the message is unchanged by normalisation and the code is 0 |
| CacheStatement.Slots | src/Pdo/Cache/Statement.php:234-237 | every slot assignment is a null under a name that starts with `:` |
| CacheStatement.SlotsKeys | src/Pdo/Cache/Statement.php:234-237 | a name gets a slot exactly when it is one of the tokens and starts with `:` |
| CacheStatement.ParameterSlotsShape | src/Pdo/Cache/Statement.php:228-243 | one slot per distinct `:`-token between single spaces, ordered by first appearance, each initialised to null |
| CacheStatement.Statement.Parameters | src/Pdo/Cache/Statement.php:228-243 | the loop over the tokens builds exactly the slot table ParameterSlots describes |
| CacheStatement.NameRun | src/Pdo/Cache/Statement.php:36 | a placeholder name is the longest run of characters that are neither white space nor `:` |
| CacheStatement.Rewrite | src/Pdo/Cache/Statement.php:36 | for a text without `?`, putting the placeholders back in place of the markers, in order, restores the text |
| CacheStatement.RewriteRoundTrip | src/Pdo/Cache/Statement.php:36 | the rewrite changes only the placeholders: every character outside them is kept in place and order |
| CacheStatement.RewriteNoPlaceholders | src/Pdo/Cache/Statement.php:36 | a text without placeholders is handed to the native prepare unchanged |
| CacheStatement.RewriteMarkers | src/Pdo/Cache/Statement.php:36 | for a text without `?`, the rewritten text holds exactly one `?` per placeholder occurrence |
| CacheStatement.RewriteIdempotent | src/Pdo/Cache/Statement.php:36 | no placeholder survives: rewriting the rewritten text changes nothing |
| CacheStatement.RepeatedNameExample | src/Pdo/Cache/Statement.php:33-36 | for `:a = :a` the native text gets two markers but the table has one slot |
| CacheStatement.ChangeKeyCaseKeys | src/Pdo/Cache/Statement.php:109 | the folded keys are distinct and lowercase, and they are exactly the lowercase forms of the original keys |
| CacheStatement.ShapeDistinct | src/Pdo/Cache/Statement.php:98-110 | fetched fields have distinct names, and a row has fields exactly when the driver returned columns |
| CacheStatement.ShapeLowercase | src/Pdo/Cache/Statement.php:108-110 | with CASE_LOWER every returned field name is lowercase |
| CacheStatement.ChangeKeyCaseOfLower | src/Pdo/Cache/Statement.php:109 | folding distinct, already-lowercase names changes nothing |
| CacheStatement.ChangeKeyCaseIdempotent | src/Pdo/Cache/Statement.php:125-127 | folding a fetched row again changes nothing |
| CacheStatement.FetchRow | src/Pdo/Cache/Statement.php:85-147 | an unknown mode returns false without reading the cursor; an exhausted cursor returns false; otherwise exactly one step is consumed: a failing step raises the driver's error, a row gives an object (OBJ) or an array (ASSOC, BOTH) of its fields, case-folded as the attributes say |
| CacheStatement.BothIsAssoc | src/Pdo/Cache/Statement.php:96-112 | BOTH behaves exactly like ASSOC |
| CacheStatement.ObjectIsArray | src/Pdo/Cache/Statement.php:114-143 | an object carries exactly the fields and raw values the associative array would |
| CacheStatement.Drain | src/Pdo/Cache/Statement.php:171-173 | the nested loop collects at most one row per step, and only rows that keep the loop going |
| CacheStatement.Expand | src/Pdo/Cache/Statement.php:164-176 | a row without a cursor handle in its first field contributes itself alone |
| CacheStatement.CollectRowsContinue | src/Pdo/Cache/Statement.php:163-176 | every row fetchAll collects is one the loop condition accepts |
| CacheStatement.CollectRestSuffix | src/Pdo/Cache/Statement.php:163 | the steps fetchAll leaves unread are a suffix of the cursor |
| CacheStatement.CollectAsWritten | src/Pdo/Cache/Statement.php:163-176 | with `get_mangled_object_vars` applied to array rows, ASSOC and BOTH never collect a row |
| CacheStatement.CollectAsWrittenObjects | src/Pdo/Cache/Statement.php:163-176 | in OBJ mode the loop as written collects what the corrected loop collects |
| CacheStatement.ArrayRowRaises | src/Pdo/Cache/Statement.php:164 | in ASSOC and BOTH a first row with fields raises a TypeError as written, with nothing collected |
| CacheStatement.AssocRowExample | src/Pdo/Cache/Statement.php:164 | `fetchAll(FETCH_ASSOC)` over one row `id = 1` collects that row in the corrected loop and raises as written |
| CacheStatement.CollectFault | src/Pdo/Cache/Statement.php:163 | a failing fetch ends fetchAll with the driver's error |
| CacheStatement.CollectAppend | src/Pdo/Cache/Statement.php:163-177 | across a cut in the result set with no error and no stopping row before it, the collected rows are those before the cut followed by those after it |
| CacheStatement.SpliceOne | src/Pdo/Cache/Statement.php:164-173 | a row whose first field is a cursor handle is replaced by the nested cursor's rows, in order |
| CacheStatement.Statement.Open | src/Pdo/Cache/Statement.php:30-55 | slots from the text and the rewritten text for the native prepare; a prepare error or an unsupported default mode raises; otherwise the default mode when set, OBJ when not, and the class invariant holds |
| CacheStatement.Statement.BindValue | src/Pdo/Cache/Statement.php:185-190 | the table becomes the array assignment of the value, and true is returned |
| CacheStatement.Statement.Execute | src/Pdo/Cache/Statement.php:64-74 | the native call gets the slot values in table order; the table is emptied even when the driver's error is then raised |
| CacheStatement.Statement.SetFetchMode | src/Pdo/Cache/Statement.php:207-221 | exactly ASSOC, BOTH and OBJ are stored and return true; any other mode raises and leaves the mode unchanged |
| CacheStatement.Statement.BuildObject | src/Pdo/Cache/Statement.php:129-141 | the object's fields equal the fetched fields, raw values included, whatever the null policies |
| CacheStatement.Statement.Fetch | src/Pdo/Cache/Statement.php:85-147 | the result and the remaining cursor are FetchRow's, in the given mode or the stored one when none is given; in the stored mode false comes back exactly when the cursor is exhausted |
| CacheStatement.Statement.AppendNested | src/Pdo/Cache/Statement.php:166-173 | the results gain exactly the nested cursor's rows, and the outer cursor is untouched |
| CacheStatement.Statement.FetchAll | src/Pdo/Cache/Statement.php:158-180 | an unsupported mode raises before anything changes; otherwise results are reset and become Collect's rows, with the error when one is raised |
| CachePdo.PdoDsn | src/Pdo/Cache.php:36-38 | the parent constructor always sees an `odbc:` prefix; a prefixed DSN is kept, another gains the prefix |
| CachePdo.StripOdbcPrefix | src/Pdo/Cache.php:43 | exactly one leading `odbc:` is removed; a DSN without it is unchanged |
| CachePdo.ConnectDsnStripsOnce | src/Pdo/Cache.php:36-43 | the native connect gets a DSN without the prefix unchanged, and a prefixed DSN minus one prefix |
| CachePdo.PdoDsnIdempotent | src/Pdo/Cache.php:36-38 | adding the prefix twice equals adding it once |
| CachePdo.EffectiveOptions | src/Pdo/Cache.php:59-65 | null options mean the stored ones; an array is used as given; any other value means no options |
| CachePdo.Quote | src/Pdo/Cache.php:171-174 | the argument is returned unchanged, with no escaping |
| CachePdo.Cache.Open | src/Pdo/Cache.php:34-47 | the parent sees the prefixed DSN, the native connect the stripped one; an exception of the parent constructor propagates before any connect; a failed connect raises the driver's error; the options are stored; a new connection is not in a transaction |
| CachePdo.Cache.ConnectWith | src/Pdo/Cache.php:147-157 | the persistent connect exactly when ATTR_PERSISTENT is present and truthy; a missing handle raises the driver's error |
| CachePdo.Cache.Prepare | src/Pdo/Cache.php:57-68 | options as EffectiveOptions says; the prepare error is raised, or a set but unsupported default fetch mode raises the unsupported-mode CacheException; otherwise the statement has the text's slots and rewritten text, the default mode when set and OBJ when not, and no results or cursor yet |
| CachePdo.Cache.Exec | src/Pdo/Cache.php:77-80 | a prepare error, or a set but unsupported default fetch mode, is raised with nothing sent; otherwise the result is execute's, and the native execute gets one null per distinct slot of the text |
| CachePdo.Cache.SetAutoCommit | src/Pdo/Cache.php:162-166 | the native switch is called and the flag becomes its negation |
| CachePdo.Cache.BeginTransaction | src/Pdo/Cache.php:87-90 | autocommit is switched off, the flag is set, and null is returned |
| CachePdo.Cache.Commit | src/Pdo/Cache.php:97-104 | autocommit goes back on and the flag is cleared first; a clear error flag gives the native commit's status and no rollback; a set one gives rollBack's outcome |
| CachePdo.Cache.RollBack | src/Pdo/Cache.php:111-122 | the outcome is RollbackResult's; the transaction flag is not changed |
| CachePdo.Cache.InTransaction | src/Pdo/Cache.php:129-132 | the flag read equals whether the last native autocommit call switched autocommit off |
| CachePdo.RollbackResult | src/Pdo/Cache.php:113-121 | raises exactly when the rollback fails with an error pending; otherwise returns the status, so a failure without an error is false |
| CachePdo.RollbackSucceeds | src/Pdo/Cache.php:113-121 | a successful rollback returns true whatever the error flag says |
| Connector.BuildDsn | src/Cache/Connectors/Connector.php:26-55 | Windows: a truthy `win_dsn` verbatim, otherwise "DSN not set"; elsewhere an invalid-configuration error exactly when one of the four fields is falsy, otherwise `Driver={d};Server=h;PORT=p;DATABASE=db` |
| Connector.WindowsReadsOnlyWinDsn | src/Cache/Connectors/Connector.php:29-35 | on Windows the result depends on `win_dsn` alone |
| Connector.UnixReadsOnlyUnixFields | src/Cache/Connectors/Connector.php:37-54 | elsewhere the result depends on `unix_driver`, `host`, `port` and `database` alone |
| Connector.UnixDsnAttributes | src/Cache/Connectors/Connector.php:49-54 | fields without `;` split back out of the string as exactly the four attributes, each verbatim |
| Connector.UnixDsnReachesDriver | src/Cache/Connectors/Connector.php:49-54 | the Unix connection string carries no `odbc:` prefix, so the native connect receives it unchanged |
| Connector.Connect | src/Cache/Connectors/Connector.php:13-19 | a configuration error is raised before any connect; an exception of PDO's constructor propagates; otherwise the connection is opened over the built string with the configured credentials, and fails exactly when the native connect does |

## Left out

- The native ODBC functions are oracle inputs, as described above. `odbc_num_rows` is one of them, and `rowCount` only passes it through, so `rowCount` is not modelled.
- Most of the base Laravel SQL Server grammars is outside the model. `compileComponents`, the column types and the no-offset `compileSelect` (with its `top N`) give inputs. Three base methods are modelled as Laravel defines them: `concatenate` (the non-empty clauses joined by single spaces), `columnize` (the wrapped columns joined by `, `) and `compileDrop` (`drop table ` and the wrapped table).
- QueryGrammar.Columnize: each column is taken as a plain name that the identity `wrapValue` returns unchanged. Laravel's `wrap()` does more before it reaches `wrapValue`, and the model leaves that out: it rewrites JSON selectors (`a->b`), adds the table prefix to qualified names, splits ` as ` aliases, and unwraps `Expression` objects.
- Laravel's query builder clamps a negative offset to 0 before the grammar sees it (`skip(-5)`). The model takes the offset as given.
- QueryGrammar.RowConstraint: follows the builder tests' expectation, not PHP 8's evaluation. For the `'all'` sentinel the model takes the `>=` branch. PHP 8 compares `'all' > 0` as strings, which is true, so the code takes the `between` branch and `offset + 'all'` raises a TypeError. QueryGrammar.RowConstraintAsWritten models that; see Findings.
- QueryGrammar.Concatenate: assumes the base SQL Server grammar's clause order, with `offset` before `limit` and no `indexHint` clause. The base grammar is not part of this model, so that order is taken as given. Later Laravel versions add an `indexHint` clause after `from`; the model leaves it out.
- QueryGrammar.InnerComponents: when the base grammar gave no `orders` clause at all, PHP appends the new key after `lock`. The model keeps the clauses in their usual order. The text is the same, because this grammar's `lock` clause is always empty.
- CacheStatement.RewriteMarkers: stated only for texts without `?`, because a `?` inside a placeholder name disappears with the name.
- CacheStatement.Rewrite: the round trip is stated only for texts without `?`, for the same reason; a `?` already in the text could not be told apart from a marker.
- The rewrite's `\s` is PCRE's ASCII white space. Unicode white space under the `u` flag is not modelled, nor are the `m` flag's line starts that follow a newline (a newline already counts as white space).
- PHP arrays normalise numeric-string keys to integers. Parameter names come from `:`-tokens, so this cannot happen to them. The framework's positional keys are a separate `Position` key.
- Values are null, booleans, integers and strings. Floats, arrays and objects as field values are not modelled. A nested cursor is a `Cursor` cell.
- The nested statement that `fetchAll` builds at src/Pdo/Cache/Statement.php:167 passes the cursor handle in the connection-handle slot and the options in the statement slot. The model does not follow that construction. It models the splice as a new statement over the nested cursor's steps.
- CacheStatement.Statement.FetchAll: applies the cursor test to array rows and object rows alike, as the code's `is_array || is_object` condition intends. In PHP 8 `get_mangled_object_vars` takes only objects, so an array row raises a TypeError there. CacheStatement.CollectAsWritten models that; see Findings.
- The texts of PHP's TypeError messages are not modelled. The model uses fixed placeholder messages.
- `fetch` ignores its cursor-orientation and offset arguments, and so does the model. `execute` ignores its input parameters, and so does the model.
- `createConnection`'s retry logic, `getOptions` and the framework wiring are not modelled. That wiring is the service provider, the connection class, the Eloquent model and the config file.
- The schema builder's `dropAllTables` and the processor's last-insert-id run database queries, so they are not modelled.
- Schema lookups through the `DB` facade (`tableExists`) and `config()` reads are inputs.
- An exception is an `Err` result. A PHP `throw` that unwinds several frames is an early return at each level.

## Findings

| source | as written | input that shows it | evidently intended | confidence | as-written member | corrected member |
|---|---|---|---|---|---|---|
| src/Pdo/Cache/Statement.php:164 | `get_mangled_object_vars($row)` is applied to every row that passes `is_array \|\| is_object`, but under PHP 8 it accepts only objects | `fetchAll(PDO::FETCH_ASSOC)` over a result set with one row `id = 1` | the cursor test for array rows and object rows alike, so the row is returned | not executed; medium, rests on PHP 8's argument type check | CacheStatement.CollectAsWritten | CacheStatement.Collect |
| src/Cache/Query/Grammars/Grammar.php:40-41 | with the `'all'` limit that line 18 sets, `'all' > 0` is true under PHP 8 and `$query->offset + $query->limit` raises a TypeError | `offset(10)` with no limit | `where %vid >= 11`, as tests/CacheQueryBuilderTest.php:491-496 expects | not executed; medium, rests on PHP 8's comparison and arithmetic rules | QueryGrammar.RowConstraintAsWritten | QueryGrammar.RowConstraint |
