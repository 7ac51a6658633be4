# PostGisTools core, modelled in Dafny

PostGisTools is a desktop tool for PostgreSQL/PostGIS databases. It has three screens:

- **Connection form.** It validates host, port, database and user name. It tests a connection and remembers the settings that worked, without the password.
- **Schema browser.** It shows a schema → table → column tree read from `information_schema.columns`. It lays locally stored display settings (the *field configs*) over the columns and saves them back. It also adds and drops columns, adds a column to every base table of a schema, converts the spatial columns of a table to another SRID, and creates schemas.
- **Data explorer.** It lists schemas and tables and shows up to 200 rows of the selected table, leaving out the geometry/geography columns. Adding, deleting and saving rows are allowed only when the table has a primary key.

This project models those parts of the program. The database is replaced by plain data:

- Catalog query results become inputs of each operation (`SchemaReply`, `ColumnRecord` lists, `DataReply`, `NamesReply`).
- Every DDL statement a command sends is appended to a statement log (`executed`).
- A statement the server refuses is looked up in a `rejected` map from statement text to error message.
- The connection probe is a function parameter returning `(ok, message)`.
- The delete confirmation dialog is a `confirmed` flag.
- Status messages are status datatypes, not localized strings.

Modules, one per file:

- `Wrappers` (`wrappers.dfy`): `Option`, `Result`.
- `Text` (`text.dfy`): the .NET string semantics the code relies on: `Trim`, `IsNullOrWhiteSpace`, `OrdinalIgnoreCase` comparison, `int.TryParse` and `int.ToString`, and `string.Join`.
- `AppConfigModels` (`app_config_models.dfy`): `FieldConfig`, `ConnectionSettings` and `AppConfig` as datatypes. The constants `DefaultFieldConfig`, `DefaultConnectionSettings` and `DefaultAppConfig` are the property initialisers of `PostGisTools/Models/AppConfigModels.cs:5-30`. `FreshTable` and `FreshSchema` in `SchemaModels` are those of the tree nodes.
- `SchemaModels` (`schema_models.dfy`): the tree nodes. `Schema` and `Table` are values. The column node is the class `ColumnItem`, whose `View()` is the `Column` value.
- `FieldOverlay` (`field_overlay.dfy`): the field-config key, the override map, applying it to a column, and projecting the tree into the records to save.
- `MetadataTree` (`metadata_tree.dfy`): the tree-building loop of the schema load, as a fold over the catalog rows, and the column reload.
- `Ddl` (`ddl.dfy`): identifier quoting, the add-field specification, the ADD/DROP/ALTER/CREATE statements, the batch-add and coordinate-conversion plans, and their loops.
- `Services` (`services.dfy`): the current connection and the configuration store.
- `SchemaBrowser` (`schema_view_model.dfy`): the schema browser's state (`ViewState`) and one transition function per command. The class `SchemaViewModel` has one method per command, each proved equal to its transition.
- `SchemaLaws` (`schema_laws.dfy`): what the schema browser's commands promise, stated over those transitions.
- `ConnectionForm` (`connection_view_model.dfy`): the connection form.
- `DataExplorer` (`data_view_model.dfy`): the data explorer's state (`DataState`), its transitions, the class `DataViewModel`, and the laws.

## Model

| member | source | states |
|---|---|---|
| SchemaModels.InitFromDbFacts | PostGisTools/Models/SchemaModels.cs:70-77 | InitFromDb sets the database type and the local type to the reported type, the length and the local length to the reported length, and the local default to the reported default or ""; the name, nullability, visibility and alias are kept |
| SchemaModels.InitFromDbForgetsEarlierValues | PostGisTools/Models/SchemaModels.cs:70-77 | two columns that agree on name, nullability, visibility and alias are equal after InitFromDb with the same arguments: the five fields it writes keep nothing of their earlier values |
| SchemaModels.ColumnItem.constructor | PostGisTools/Models/SchemaModels.cs:19-68 | a new column node is visible, with empty name, types, alias and default, not nullable, and without lengths |
| SchemaModels.ColumnItem.InitFromDb | PostGisTools/Models/SchemaModels.cs:70-77 | the node's new value is its old value with InitFromDb applied |
| SchemaModels.WithColumns | PostGisTools/ViewModels/SchemaViewModel.cs:820-824 | replacing one table's column list changes that table's columns only and leaves every other schema and table as they were |
| SchemaModels.WithTable | PostGisTools/ViewModels/SchemaViewModel.cs:286-294 | adding a table node appends it to the one schema's tables and leaves the other schemas as they were |
| Ddl.QuoteIdentifier | PostGisTools/ViewModels/SchemaViewModel.cs:975-976 | the quoted identifier starts and ends with a double quote |
| Ddl.DoubleQuotesFacts | PostGisTools/ViewModels/SchemaViewModel.cs:975-976 | doubling adds one character per quote in the text, leaves every quote paired, and un-doubling gives the text back |
| Ddl.QuoteRoundTrip | PostGisTools/ViewModels/SchemaViewModel.cs:975-976 | removing the outer quotes and un-doubling a quoted identifier gives the identifier back |
| Ddl.QuoteInjective | PostGisTools/ViewModels/SchemaViewModel.cs:975-976 | two identifiers with the same quoted form are equal |
| Ddl.FieldSpecificationErrors | PostGisTools/ViewModels/SchemaViewModel.cs:400-431 | the name error comes exactly when the name box is blank; the length error exactly when the name is given and a non-blank length does not parse or is not above zero; the type error exactly when both pass and the type ("text" when blank) is not in the list, ignoring case; success exactly when all three pass |
| Ddl.FieldSpecificationAccepted | PostGisTools/ViewModels/SchemaViewModel.cs:400-431 | an accepted request has a non-blank name with no white space at either end, a type from the list (ignoring case) that is "text" when no type was given, and a length exactly when the length box is not blank, above zero and equal to the parsed box |
| Ddl.AcceptedName | PostGisTools/ViewModels/SchemaViewModel.cs:402-412 | the accepted name is not blank and has no white space at either end |
| Ddl.AcceptedType | PostGisTools/ViewModels/SchemaViewModel.cs:413-428 | the accepted type is in the allowed list, compared ignoring case, and is "text" when the type box is blank |
| Ddl.AcceptedLength | PostGisTools/ViewModels/SchemaViewModel.cs:414-421 | the accepted length is absent for a blank length box and otherwise is the parsed, positive value |
| Ddl.TypeCheckIgnoresCase | PostGisTools/ViewModels/SchemaViewModel.cs:402-428 | two type boxes whose trims differ only in letter case are accepted or refused alike, with the same error, name and length; an accepted type is kept as typed (trimmed), not as the list spells it |
| Ddl.AddColumnSqlInjective | PostGisTools/ViewModels/SchemaViewModel.cs:733-736 | two ADD COLUMN statements for the same schema and field but different tables differ |
| Ddl.BatchTargets | PostGisTools/ViewModels/SchemaViewModel.cs:721-742 | the batch never targets more tables than the schema has |
| Ddl.BatchConservation | PostGisTools/ViewModels/SchemaViewModel.cs:721-742 | tables altered plus tables skipped equals the number of base tables |
| Ddl.BatchTargetsMembers | PostGisTools/ViewModels/SchemaViewModel.cs:721-742 | a table is altered exactly when it is a base table of the schema that is not in the existing set (ignoring case) |
| Ddl.BatchTargetsInOrder | PostGisTools/ViewModels/SchemaViewModel.cs:721-742 | the altered tables come in the order of the table list |
| Ddl.NoStatementForExisting | PostGisTools/ViewModels/SchemaViewModel.cs:726-736 | no ADD COLUMN is planned for a table that already has the column (ignoring case) |
| Ddl.ExistingIgnoresCase | PostGisTools/ViewModels/SchemaViewModel.cs:705-731 | for every table list, replacing a reported table name (of a table that already has the column) by one that differs only in letter case changes no batch target |
| Ddl.ConvertConservation | PostGisTools/ViewModels/SchemaViewModel.cs:596-626 | columns converted plus columns skipped equals the number of spatial columns |
| Ddl.ConvertTargetsMembers | PostGisTools/ViewModels/SchemaViewModel.cs:598-607 | a spatial column is converted exactly when its SRID differs from the target |
| Ddl.ConvertNothingToDo | PostGisTools/ViewModels/SchemaViewModel.cs:598-607 | when every column already has the target SRID, nothing is converted and all are skipped |
| Ddl.AlterSridShape | PostGisTools/ViewModels/SchemaViewModel.cs:609-615 | the ALTER for a geography column goes through geometry and casts back to geography (`ST_Transform(col::geometry, srid)::geography`); for a geometry column it is `ST_Transform(col, srid)` |
| Ddl.RunFacts | PostGisTools/ViewModels/SchemaViewModel.cs:616-621 | the statements run are a prefix of those planned; with no error all ran, and with an error the next statement is the refused one and the message is its error |
| Ddl.RunStops | PostGisTools/ViewModels/SchemaViewModel.cs:616-621 | once a statement is refused, later statements change nothing |
| Ddl.ConvertLoopRuns | PostGisTools/ViewModels/SchemaViewModel.cs:596-626 | the conversion loop, statement by statement, runs exactly the statements of the plan and counts as the plan does |
| Ddl.RunConversion | PostGisTools/ViewModels/SchemaViewModel.cs:596-626 | the conversion loop runs the plan's statements up to the first refusal and, with none, counts the converted and the skipped columns as the plan does |
| Ddl.BatchLoopRuns | PostGisTools/ViewModels/SchemaViewModel.cs:721-742 | the batch loop, table by table, runs exactly the statements of the plan and counts as the plan does |
| Ddl.RunBatch | PostGisTools/ViewModels/SchemaViewModel.cs:721-742 | the batch loop runs the plan's statements up to the first refusal and, with none, counts the added and the skipped tables as the plan does |
| FieldOverlay.BuildIndexLastWins | PostGisTools/ViewModels/SchemaViewModel.cs:324-333 | the override map, built from an empty map, has a key exactly when some record has it, and maps it to the last such record |
| FieldOverlay.BuildIndexDistinct | PostGisTools/ViewModels/SchemaViewModel.cs:324-333 | with distinct keys, every record is found under its own key |
| FieldOverlay.ApplyWithoutOverride | PostGisTools/ViewModels/SchemaViewModel.cs:335-338 | a column without an override is left unchanged |
| FieldOverlay.ApplyKeepsDatabaseFacts | PostGisTools/ViewModels/SchemaViewModel.cs:335-346 | applying an override never changes the name, database type, nullability or maximum length |
| FieldOverlay.ApplyFallbacks | PostGisTools/ViewModels/SchemaViewModel.cs:339-345 | with an override, visibility is copied; the alias is copied, or the column name when it is blank; the local type only when it is not blank; the local length only when present; and the local default whenever present, including ""; otherwise the column's own values stay |
| FieldOverlay.ApplyIdempotent | PostGisTools/ViewModels/SchemaViewModel.cs:335-346 | applying the overrides twice is applying them once |
| FieldOverlay.ProjectColumnsMembers | PostGisTools/ViewModels/SchemaViewModel.cs:355-371 | a record is saved for a table exactly when it is the record of a column whose name is not blank |
| FieldOverlay.ProjectColumnsComplete | PostGisTools/ViewModels/SchemaViewModel.cs:355-371 | every column with a non-blank name gets its record |
| FieldOverlay.ProjectTablesComplete | PostGisTools/ViewModels/SchemaViewModel.cs:352-371 | every eligible column of every table of a schema gets its record |
| FieldOverlay.ProjectTablesSound | PostGisTools/ViewModels/SchemaViewModel.cs:352-371 | every saved record of a schema is the record of one eligible column |
| FieldOverlay.ProjectTreeMembers | PostGisTools/ViewModels/SchemaViewModel.cs:348-379 | a record is saved exactly when it is the record of a column whose schema, table and column names are all non-blank, with its current display settings |
| FieldOverlay.ProjectTreeSound | PostGisTools/ViewModels/SchemaViewModel.cs:348-379 | every saved record is the record of one eligible column of the tree |
| FieldOverlay.ProjectTreeComplete | PostGisTools/ViewModels/SchemaViewModel.cs:348-379 | every eligible column of the tree is saved |
| FieldOverlay.ProjectTreeOrder | PostGisTools/ViewModels/SchemaViewModel.cs:348-379 | the saved records correspond one to one with the eligible columns, in schema, table, column order: record m is the record of eligible position m, the positions strictly increase, and every eligible position is listed; so the count in the status is the number of eligible columns |
| FieldOverlay.ApplyRestores | PostGisTools/ViewModels/SchemaViewModel.cs:335-346 | applying a column's own saved record to a column of that name restores all five display settings, provided the saved alias and type are not blank and the length is set |
| FieldOverlay.SaveLoadRoundTrip | PostGisTools/ViewModels/SchemaViewModel.cs:324-379 | saving the tree, building the map from what was saved and applying it to a freshly loaded column restores its display settings, when no two saved keys collide |
| FieldOverlay.KeysCanCollide | PostGisTools/ViewModels/SchemaViewModel.cs:978-979 | the keys of ("a.b","c","x") and ("a","b.c","x") are equal, which is why the round trip needs distinct keys |
| MetadataTree.NewColumnFacts | PostGisTools/ViewModels/SchemaViewModel.cs:296-303 | a column made from a catalog row has the row's name and nullability, InitFromDb's facts, and the stored overrides applied; without an override it is the fresh column after InitFromDb |
| MetadataTree.NameIndexFacts | PostGisTools/ViewModels/SchemaViewModel.cs:267 | the dictionary of the queried schemas maps each name to its unique position |
| MetadataTree.AddRowFacts | PostGisTools/ViewModels/SchemaViewModel.cs:276-304 | one row adds its schema node if missing (at the end), its table node if missing (at the end of that schema), and exactly one column at the end of its table; nothing else changes |
| MetadataTree.BuildIndexed | PostGisTools/ViewModels/SchemaViewModel.cs:267-306 | after any sequence of rows the two dictionaries index exactly the schema and table nodes of the tree |
| MetadataTree.BuildKeepsQueriedSchemas | PostGisTools/ViewModels/SchemaViewModel.cs:239-284 | the schemas of the first query come first, in their order |
| MetadataTree.BuildCoversRows | PostGisTools/ViewModels/SchemaViewModel.cs:276-294 | every row's schema and table have a node |
| MetadataTree.BuildAddsOnlyRowSchemas | PostGisTools/ViewModels/SchemaViewModel.cs:280-284 | every schema node after the queried ones comes from some row |
| MetadataTree.BuildGroupsColumns | PostGisTools/ViewModels/SchemaViewModel.cs:286-304 | each table node holds exactly the columns of the rows with its key, in row order |
| MetadataTree.BuildUnique | PostGisTools/ViewModels/SchemaViewModel.cs:267-294 | there is at most one schema node per name and one table node per table key |
| MetadataTree.SameKeySharesNode | PostGisTools/ViewModels/SchemaViewModel.cs:286-294 | two rows with the same table key land in one table node |
| MetadataTree.TableKeysCollide | PostGisTools/ViewModels/SchemaViewModel.cs:286-287 | the table keys of ("a.b","c") and ("a","b.c") are equal, so such rows share a node |
| MetadataTree.ReloadColumns | PostGisTools/ViewModels/SchemaViewModel.cs:775-814 | a reload makes one column per catalog record |
| MetadataTree.ReloadMatchesLoad | PostGisTools/ViewModels/SchemaViewModel.cs:775-814 | a reloaded column is the column the full load makes from the same record |
| Services.TrimIdempotent | PostGisTools/Services/DbConnectionService.cs:24-27 | trimming twice is trimming once |
| Services.BuildConnectionStringStable | PostGisTools/Services/DbConnectionService.cs:20-38 | building again from a built connection's parameters gives the same parameters |
| Services.DbConnectionService.constructor | PostGisTools/Services/DbConnectionService.cs:18 | there is no current connection at first |
| Services.AppConfigService.constructor | PostGisTools/Services/AppConfigService.cs:34-47 | a store without a usable file holds the default configuration |
| Services.AppConfigService.SaveConnection | PostGisTools/Services/AppConfigService.cs:61-66 | the settings are replaced and the field configs kept |
| Services.AppConfigService.SaveFieldConfigs | PostGisTools/Services/AppConfigService.cs:71-76 | the field configs are replaced and the settings kept |
| SchemaBrowser.FirstNamedFacts | PostGisTools/ViewModels/SchemaViewModel.cs:828-831 | the column to select is found exactly when one has the name (ignoring case), and is the first such column |
| SchemaBrowser.AfterLoad | PostGisTools/ViewModels/SchemaViewModel.cs:213-322 | a schema load keeps the state valid |
| SchemaBrowser.AfterReload | PostGisTools/ViewModels/SchemaViewModel.cs:773-832 | a reload keeps the state valid |
| SchemaBrowser.AfterAddField | PostGisTools/ViewModels/SchemaViewModel.cs:433-512 | an add-field command keeps the state valid |
| SchemaBrowser.AfterAddFieldOnServer | PostGisTools/ViewModels/SchemaViewModel.cs:456-512 | the server part of add-field keeps the state valid |
| SchemaBrowser.AfterConvert | PostGisTools/ViewModels/SchemaViewModel.cs:514-644 | a conversion keeps the state valid |
| SchemaBrowser.AfterConvertOnServer | PostGisTools/ViewModels/SchemaViewModel.cs:537-644 | the server part of a conversion keeps the state valid |
| SchemaBrowser.AfterBatchAdd | PostGisTools/ViewModels/SchemaViewModel.cs:646-771 | a batch add keeps the state valid |
| SchemaBrowser.AfterBatchAddOnServer | PostGisTools/ViewModels/SchemaViewModel.cs:670-771 | the server part of a batch add keeps the state valid |
| SchemaBrowser.AfterBatchDone | PostGisTools/ViewModels/SchemaViewModel.cs:744-753 | the reload and schema load after a batch keep the state valid |
| SchemaBrowser.AfterDeleteField | PostGisTools/ViewModels/SchemaViewModel.cs:837-902 | a delete command keeps the state valid |
| SchemaBrowser.AfterDeleteFieldOnServer | PostGisTools/ViewModels/SchemaViewModel.cs:864-902 | the server part of a delete keeps the state valid |
| SchemaBrowser.AfterAddSchema | PostGisTools/ViewModels/SchemaViewModel.cs:907-973 | creating a schema keeps the state valid |
| SchemaBrowser.AfterAddSchemaOnServer | PostGisTools/ViewModels/SchemaViewModel.cs:921-973 | the server part of creating a schema keeps the state valid |
| SchemaBrowser.SchemaViewModel.constructor | PostGisTools/ViewModels/SchemaViewModel.cs:189-205 | the browser starts with an empty tree, nothing selected, the ready status and "text" as the new field's type |
| SchemaBrowser.SchemaViewModel.BuildFieldConfigMap | PostGisTools/ViewModels/SchemaViewModel.cs:324-333 | the map becomes the index of the stored field configs, and nothing else changes |
| SchemaBrowser.SchemaViewModel.ApplyFieldConfig | PostGisTools/ViewModels/SchemaViewModel.cs:335-346 | the column node's new value is Apply of its old value |
| SchemaBrowser.SchemaViewModel.MakeColumn | PostGisTools/ViewModels/SchemaViewModel.cs:296-303 | a new column node whose value is NewColumn of the row |
| SchemaBrowser.SchemaViewModel.AddRowToTree | PostGisTools/ViewModels/SchemaViewModel.cs:276-304 | one pass of the loop body: the tree and both dictionaries become AddRow of the old ones |
| SchemaBrowser.SchemaViewModel.SchemaNodes | PostGisTools/ViewModels/SchemaViewModel.cs:239-268 | the schema nodes of the first query and their dictionary are the initial tree state |
| SchemaBrowser.SchemaViewModel.BuildTree | PostGisTools/ViewModels/SchemaViewModel.cs:267-306 | the loop over the rows leaves the tree and dictionaries equal to Build of the rows |
| SchemaBrowser.SchemaViewModel.LoadSchema | PostGisTools/ViewModels/SchemaViewModel.cs:213-322 | the new state is AfterLoad of the old one |
| SchemaBrowser.SchemaViewModel.LoadConnected | PostGisTools/ViewModels/SchemaViewModel.cs:221-318 | with a connection set, the new state is AfterLoad of the old one |
| SchemaBrowser.SchemaViewModel.LoadTree | PostGisTools/ViewModels/SchemaViewModel.cs:258-306 | only the tree changes, to the one Build makes from the reply |
| SchemaBrowser.SchemaViewModel.SaveFieldConfigs | PostGisTools/ViewModels/SchemaViewModel.cs:348-380 | the stored field configs become the projection of the tree and the status gives their count |
| SchemaBrowser.SchemaViewModel.ReadColumns | PostGisTools/ViewModels/SchemaViewModel.cs:776-814 | the loop over the records yields ReloadColumns of them |
| SchemaBrowser.SchemaViewModel.ReloadSelectedTableColumns | PostGisTools/ViewModels/SchemaViewModel.cs:773-832 | the new state is AfterReload of the old one |
| SchemaBrowser.SchemaViewModel.AddField | PostGisTools/ViewModels/SchemaViewModel.cs:433-512 | the new state is AfterAddField of the old one |
| SchemaBrowser.SchemaViewModel.AddFieldOnServer | PostGisTools/ViewModels/SchemaViewModel.cs:456-512 | the new state is AfterAddFieldOnServer of the old one |
| SchemaBrowser.SchemaViewModel.ResetAfterAdd | PostGisTools/ViewModels/SchemaViewModel.cs:490-494 | the form is reset and the added status set |
| SchemaBrowser.SchemaViewModel.ConvertCoordinateSystem | PostGisTools/ViewModels/SchemaViewModel.cs:514-644 | the new state is AfterConvert of the old one |
| SchemaBrowser.SchemaViewModel.ConvertOnServer | PostGisTools/ViewModels/SchemaViewModel.cs:537-644 | the new state is AfterConvertOnServer of the old one |
| SchemaBrowser.SchemaViewModel.FinishBatch | PostGisTools/ViewModels/SchemaViewModel.cs:744-753 | the new state is AfterBatchDone of the old one |
| SchemaBrowser.SchemaViewModel.BatchAddField | PostGisTools/ViewModels/SchemaViewModel.cs:646-771 | the new state is AfterBatchAdd of the old one |
| SchemaBrowser.SchemaViewModel.BatchAddOnServer | PostGisTools/ViewModels/SchemaViewModel.cs:670-771 | the new state is AfterBatchAddOnServer of the old one |
| SchemaBrowser.SchemaViewModel.DeleteField | PostGisTools/ViewModels/SchemaViewModel.cs:837-902 | the new state is AfterDeleteField of the old one |
| SchemaBrowser.SchemaViewModel.DeleteFieldOnServer | PostGisTools/ViewModels/SchemaViewModel.cs:864-902 | the new state is AfterDeleteFieldOnServer of the old one |
| SchemaBrowser.SchemaViewModel.AddSchema | PostGisTools/ViewModels/SchemaViewModel.cs:907-973 | the new state is AfterAddSchema of the old one |
| SchemaBrowser.SchemaViewModel.AddSchemaOnServer | PostGisTools/ViewModels/SchemaViewModel.cs:921-973 | the new state is AfterAddSchemaOnServer of the old one |
| SchemaLaws.GuardedAddHasName | PostGisTools/ViewModels/SchemaViewModel.cs:382-386 | a command started from the enabled add-field button never ends on the missing-name status |
| SchemaLaws.AddFieldServerStatus | PostGisTools/ViewModels/SchemaViewModel.cs:456-512 | the server part of add-field ends on "exists", a create error or "added" |
| SchemaLaws.GuardedBatchHasName | PostGisTools/ViewModels/SchemaViewModel.cs:388-393 | a batch started from its enabled button never fails on a missing name |
| SchemaLaws.AddFieldChecksMemoryFirst | PostGisTools/ViewModels/SchemaViewModel.cs:443-455 | a name the selected table already has (ignoring case) ends the command with "field exists", connected or not, with no statement sent |
| SchemaLaws.AddFieldSendsAtMostOne | PostGisTools/ViewModels/SchemaViewModel.cs:433-512 | add-field sends nothing, or exactly the one ADD COLUMN for the selected table, and that only when the request is valid, the table has no such column in memory, a connection is set and the server reports no such column |
| SchemaLaws.AddFieldServerSends | PostGisTools/ViewModels/SchemaViewModel.cs:456-512 | the server part sends nothing and leaves the tree, or sends the ADD COLUMN and ends on "added" |
| SchemaLaws.AddFieldSuccess | PostGisTools/ViewModels/SchemaViewModel.cs:483-494 | after a successful add the selected table's columns are reloaded with the overrides, the new column is selected if listed, the form is reset, and no other table changes |
| SchemaLaws.ReloadFrame | PostGisTools/ViewModels/SchemaViewModel.cs:773-832 | a reload rebuilds the override map and changes only the selected table's columns and, when a name is given, the selected column |
| SchemaLaws.ConvertNoSpatialColumns | PostGisTools/ViewModels/SchemaViewModel.cs:588-594 | with no spatial column, only the "no spatial columns" status is set: no statement and no reload |
| SchemaLaws.ConvertSends | PostGisTools/ViewModels/SchemaViewModel.cs:596-644 | a conversion sends, in column order, a prefix of the planned ALTERs, and ends converted exactly when the server accepts all of them |
| SchemaLaws.ConvertSucceeds | PostGisTools/ViewModels/SchemaViewModel.cs:596-626 | when all ALTERs run, converted plus skipped is the number of spatial columns, all were sent and the table is reloaded |
| SchemaLaws.ConvertFails | PostGisTools/ViewModels/SchemaViewModel.cs:616-640 | a refused ALTER shows its error, stops the statements after it, and leaves the tree |
| SchemaLaws.ConvertStatementShape | PostGisTools/ViewModels/SchemaViewModel.cs:598-615 | each sent ALTER belongs to a column whose SRID differs from the target and ends with the geometry or geography transform |
| SchemaLaws.BatchNoTables | PostGisTools/ViewModels/SchemaViewModel.cs:697-701 | a schema without base tables ends with the "no tables" status and no statement |
| SchemaLaws.BatchOutcome | PostGisTools/ViewModels/SchemaViewModel.cs:697-771 | a batch sends, in table order, the ADD COLUMN of each table without the column, up to the first refusal; when all run, the tree is loaded again (selection cleared, load status shown); a refusal shows its error and keeps the tree |
| SchemaLaws.DeleteNeedsConfirmation | PostGisTools/ViewModels/SchemaViewModel.cs:837-902 | without confirmation nothing changes; the only statement ever sent is the DROP COLUMN of the selected column, after which no column is selected |
| SchemaLaws.AddSchemaKeepsTree | PostGisTools/ViewModels/SchemaViewModel.cs:907-973 | creating a schema never removes or alters a node; it adds one empty node at the end only when no node has the name (ignoring case); after success the tree has the schema and the CREATE SCHEMA was sent |
| SchemaLaws.LoadRefreshIdempotent | PostGisTools/ViewModels/SchemaViewModel.cs:213-322 | loading twice from the same reply is loading once; a load clears the selection and sends nothing |
| SchemaLaws.LoadNeedsConnection | PostGisTools/ViewModels/SchemaViewModel.cs:215-219 | without a connection a load only sets the no-connection status |
| ConnectionForm.RestoredPortRoundTrip | PostGisTools/ViewModels/ConnectionViewModel.cs:86-88 | a positive saved port is shown as text that reads back as the same port |
| ConnectionForm.DefaultPortValid | PostGisTools/ViewModels/ConnectionViewModel.cs:23-71 | the default port text "5432" is the text of 5432 and a valid port |
| ConnectionForm.RestoredFormTestable | PostGisTools/ViewModels/ConnectionViewModel.cs:79-97 | a form restored from complete settings lets the connection test start at once |
| ConnectionForm.RestoredPortAlwaysValid | PostGisTools/ViewModels/ConnectionViewModel.cs:86-97 | whatever the saved port up to 65535, the restored port box is valid |
| ConnectionForm.RestoredFromDefaults | PostGisTools/ViewModels/ConnectionViewModel.cs:79-91 | a form restored from the default settings shows localhost, 5432, and empty database and user name |
| ConnectionForm.PasswordOnlyInConnection | PostGisTools/Services/DbConnectionService.cs:20-38 | the password reaches the built connection unchanged, and two builds that differ only in the password differ in nothing else |
| ConnectionForm.ConnectionViewModel.constructor | PostGisTools/ViewModels/ConnectionViewModel.cs:79-91 | a blank saved host keeps "localhost", a port not above zero keeps "5432", a missing database or user name becomes "", the password is empty and nothing is connected |
| ConnectionForm.ConnectionViewModel.TestConnection | PostGisTools/ViewModels/ConnectionViewModel.cs:99-129 | with an invalid port: not connected, invalid-port status, nothing built or saved; otherwise connected exactly when the probe succeeds, and then the built connection becomes current and the settings without the password are saved; on failure neither changes |
| DataExplorer.SpatialByUdtName | PostGisTools/ViewModels/DataViewModel.cs:411-420 | a column is spatial exactly when its udt_name is geometry or geography (ignoring case); the data-type disjunct adds nothing |
| DataExplorer.SelectableColumns | PostGisTools/ViewModels/DataViewModel.cs:411-420 | there are never more selectable columns than columns |
| DataExplorer.SelectableAtPositions | PostGisTools/ViewModels/DataViewModel.cs:411-420 | the selectable columns are the names of non-spatial columns at strictly increasing positions, so ordinal order is kept |
| DataExplorer.NonSpatialPositionsComplete | PostGisTools/ViewModels/DataViewModel.cs:411-420 | every non-spatial column is among the selected |
| DataExplorer.SelectSqlLimit | PostGisTools/ViewModels/DataViewModel.cs:279-284 | the SELECT starts with "SELECT " and ends with " LIMIT 200" |
| DataExplorer.NoQuoteNoDoubling | PostGisTools/ViewModels/SchemaViewModel.cs:975-976 | doubling quotes does nothing to text without quotes |
| DataExplorer.SelectSqlQuotesCleanNames | PostGisTools/ViewModels/DataViewModel.cs:279-284 | when no name contains a quote, the SELECT equals the properly quoted one |
| DataExplorer.SelectSqlAmbiguous | PostGisTools/ViewModels/DataViewModel.cs:281-282 | the SELECT does not double quotes, so two different tables can give the same text |
| DataExplorer.AfterSelectTable | PostGisTools/ViewModels/DataViewModel.cs:63-77 | changing the table keeps the state valid |
| DataExplorer.AfterSelectSchema | PostGisTools/ViewModels/DataViewModel.cs:44-61 | changing the schema keeps the state valid |
| DataExplorer.AfterLoadSchemas | PostGisTools/ViewModels/DataViewModel.cs:147-195 | a schema load keeps the state valid |
| DataExplorer.AfterLoadData | PostGisTools/ViewModels/DataViewModel.cs:246-310 | a data load keeps the state valid |
| DataExplorer.LoadedData | PostGisTools/ViewModels/DataViewModel.cs:263-299 | after the metadata queries, the key list and flag follow the reply, and the state stays valid |
| DataExplorer.FilledData | PostGisTools/ViewModels/DataViewModel.cs:279-299 | filling the grid keeps the state valid and shows the table exactly when the fill succeeds |
| DataExplorer.AfterLoadTables | PostGisTools/ViewModels/DataViewModel.cs:197-241 | a table load keeps the state valid |
| DataExplorer.FirstTableSelected | PostGisTools/ViewModels/DataViewModel.cs:224-231 | selecting the first table under suppression keeps the state valid |
| DataExplorer.AfterSaveChanges | PostGisTools/ViewModels/DataViewModel.cs:312-350 | saving keeps the state valid |
| DataExplorer.AfterAddRow | PostGisTools/ViewModels/DataViewModel.cs:352-368 | adding a row keeps the state valid |
| DataExplorer.AfterDeleteSelectedRow | PostGisTools/ViewModels/DataViewModel.cs:370-386 | deleting a row keeps the state valid |
| DataExplorer.DataViewModel.constructor | PostGisTools/ViewModels/DataViewModel.cs:124-139 | the explorer starts empty and, when a connection is already set, runs the schema load |
| DataExplorer.DataViewModel.SetSelectedSchema | PostGisTools/ViewModels/DataViewModel.cs:44-61 | the new state is AfterSelectSchema of the old one, and a table load is started when SelectSchemaStartsLoad says so |
| DataExplorer.DataViewModel.SetSelectedTable | PostGisTools/ViewModels/DataViewModel.cs:63-77 | the new state is AfterSelectTable of the old one, and a data load is started when SelectTableStartsLoad says so |
| DataExplorer.DataViewModel.SetSelectedRow | PostGisTools/ViewModels/DataViewModel.cs:84-88 | only the selected row changes |
| DataExplorer.DataViewModel.LoadSchemas | PostGisTools/ViewModels/DataViewModel.cs:147-195 | the new state is AfterLoadSchemas of the old one |
| DataExplorer.DataViewModel.ReadSelectableColumns | PostGisTools/ViewModels/DataViewModel.cs:404-421 | the read loop yields SelectableColumns of the catalog rows |
| DataExplorer.DataViewModel.LoadData | PostGisTools/ViewModels/DataViewModel.cs:246-310 | the new state is AfterLoadData of the old one |
| DataExplorer.DataViewModel.LoadFromMetadata | PostGisTools/ViewModels/DataViewModel.cs:258-305 | the new state is LoadedData of the old one |
| DataExplorer.DataViewModel.FillTable | PostGisTools/ViewModels/DataViewModel.cs:279-299 | the new state is FilledData of the old one |
| DataExplorer.DataViewModel.LoadTables | PostGisTools/ViewModels/DataViewModel.cs:197-241 | the new state is AfterLoadTables of the old one |
| DataExplorer.DataViewModel.SaveChanges | PostGisTools/ViewModels/DataViewModel.cs:312-350 | the new state is AfterSaveChanges of the old one |
| DataExplorer.DataViewModel.AddRow | PostGisTools/ViewModels/DataViewModel.cs:352-368 | the new state is AfterAddRow of the old one |
| DataExplorer.DataViewModel.DeleteSelectedRow | PostGisTools/ViewModels/DataViewModel.cs:370-386 | the new state is AfterDeleteSelectedRow of the old one |
| DataExplorer.DefaultSchemaFacts | PostGisTools/ViewModels/DataViewModel.cs:177-185 | the default schema is "public" exactly when listed, else the first schema, and none exactly when the list is empty |
| DataExplorer.LoadSchemasSelectsDefault | PostGisTools/ViewModels/DataViewModel.cs:170-194 | a successful schema load lists the schemas and selects the default; a changed selection empties the tables, hides the grid and starts a table load |
| DataExplorer.SelectSchemaCascade | PostGisTools/ViewModels/DataViewModel.cs:49-58 | a new schema clears the tables, the grid and the table selection, changes nothing else, and starts a table load exactly when it is not empty; the same schema changes nothing |
| DataExplorer.SelectTableAutoLoad | PostGisTools/ViewModels/DataViewModel.cs:63-77 | the table setter starts a data load exactly when the table changes to a non-empty name while auto-load is not suppressed |
| DataExplorer.LoadTablesSelectsFirst | PostGisTools/ViewModels/DataViewModel.cs:224-238 | a table load selects the first table with auto-load suppressed, so the setter starts nothing, then loads its data exactly once with the flag reset |
| DataExplorer.LoadTablesResetsFlags | PostGisTools/ViewModels/DataViewModel.cs:236-240 | however a table load ends, auto-load is not left suppressed and nothing is loading |
| DataExplorer.LoadDataPrimaryKey | PostGisTools/ViewModels/DataViewModel.cs:263-277 | after the metadata, the primary-key flag holds exactly when the key list is non-empty; with no selectable column the grid is cleared and no SELECT made |
| DataExplorer.LoadDataBounded | PostGisTools/ViewModels/DataViewModel.cs:279-299 | a load shows at most 200 unmarked rows from the SELECT of the selectable columns, with the status for keyed or keyless tables |
| DataExplorer.AddRowGrows | PostGisTools/ViewModels/DataViewModel.cs:352-368 | with a loaded, keyed table one unmarked row is appended and the others kept; otherwise only the status changes |
| DataExplorer.DeleteMarksSelectedRow | PostGisTools/ViewModels/DataViewModel.cs:370-386 | deleting marks exactly the selected row; without a selected row or a key only the status changes |
| DataExplorer.SaveChangesGuards | PostGisTools/ViewModels/DataViewModel.cs:312-324 | saving never changes the rows; it is refused without a table and adapter, then without a key |
| DataExplorer.EnabledRowCommandsProceed | PostGisTools/ViewModels/DataViewModel.cs:116-132 | an enabled add, delete or save button never meets the command's own refusal |

## Left out

- Npgsql I/O: connections, readers and commands. Catalog results are inputs, the queries themselves are not modelled, and every statement sent is appended to a log.
- Query failures during a load: a failed catalog query is a load error status (`SchemaReply`, `NamesReply`, `DataReply`).
- Failed reloads: a reload of the selected table's columns always succeeds in the model. In the source the reload runs inside the same `try` as the statement, after it has executed (`SchemaViewModel.cs:486-489`, `619-625`, `738-746`, `878-881`). A failed reload there ends with the statement executed, the catch's error status, and the add-field form not reset. The model cannot produce that outcome: a `rejected` entry stops the statement itself.
- Node identity: tables and schemas are values reached by position. The in-place updates of the observable collections, and aliasing between identical nodes, are not modelled.
- The "…ing" statuses (loading, creating, converting, deleting, testing). Each is always replaced before the command ends, so only the final status is kept.
- Async plumbing. `AsyncRelayCommand`, `Task.Run`, `CommandManager.InvalidateRequerySuggested`, and the fire-and-forget loads in the setters and the constructor are left out. A load the setters would start is returned as a flag (`SelectSchemaStartsLoad`, `SelectTableStartsLoad`, `LoadSchemasStartsLoad`).
- The delete confirmation dialog (`MessageBox`) is the `confirmed` input.
- ADO.NET change tracking:
  - the rows of the data grid are abstract (`Row` with a deletion mark; no cell values);
  - `Fill` only yields a row count;
  - `Update` leaves the rows as they are;
  - a failed `Fill` leaves an empty table.
- `SelectedRow`: the view model never resets it; the data grid's selection binding does that when `TableData` is replaced, and that view is not part of this model. The model folds the binding's effect into the transitions: `selectedRow` becomes `None` whenever the table is replaced or hidden (`AfterSelectTable`, `AfterSelectSchema`, the metadata-error path of `AfterLoadData`, `LoadedData`, `FilledData`).
- LoadData without a connection: it is modelled as the metadata error, because the source's catch gives the same visible outcome.
- `CanLoadData` is modelled but `LoadData` does not check it, as in the source.
- GetPrimaryKeyColumnsAsync: its query is not modelled; its result is `reply.primaryKeys`.
- Case folding: `OrdinalIgnoreCase` is modelled for ASCII letters only.
- Number parsing: `int.TryParse` uses the current culture's sign symbols; the model (`ParseInt32`) accepts only "-" and "+", as the invariant culture does.
- DataExplorer.SelectSql: wraps names in quotes without doubling embedded quotes, as written. `SelectSqlAmbiguous` shows the consequence; this is not claimed as a defect.
- AppConfigService's JSON serialization, file I/O and locking. The store is an abstract `AppConfig` value, and an unreadable or empty file is `None`.
- Services.BuildConnectionString: models the connection string as the parameters it carries. The pooling, timeout and SSL options are the same for every connection and are left out.
- Integers from outside are `Int32` values. Counters are `nat`, since no count can reach 2^31.
- MetadataTree.Build: requires the first query's schema names to be distinct. The source's `ToDictionary` would throw on duplicate names.
- The UI: `PasswordBoxAssistant`, `SchemaView.xaml.cs`, `MainViewModel` and the resource strings (`Strings.cs`) are not part of this model.
