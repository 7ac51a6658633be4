/** The persisted configuration records: the saved connection settings and the per-column
    display overrides (field configs). Plain records with default values. */
module AppConfigModels {
  import opened Wrappers
  import opened Text

  /** A persisted display override for the column `schema.table.column`.
      `alias` and `localType` are only ever checked for blankness, where a null string read
      from the store behaves like an empty one, so they are plain strings; a null
      `localDefault` is told apart from an empty one, so it is nullable. */
  datatype FieldConfig = FieldConfig(
    schema: string,
    table: string,
    column: string,
    isVisible: bool,
    alias: string,
    localType: string,
    localLength: Option<Int32>,
    localDefault: Option<string>)

  /** The saved connection settings. There is no password field: a password is never
      persisted. A null `database` or `username` read from the store is `None`. */
  datatype ConnectionSettings = ConnectionSettings(
    host: string,
    port: Int32,
    database: Option<string>,
    username: Option<string>)

  datatype AppConfig = AppConfig(connection: ConnectionSettings, fieldConfigs: seq<FieldConfig>)

  /** `new FieldConfig()`: empty key, visible, empty alias/type/default, no length. */
  const DefaultFieldConfig := FieldConfig("", "", "", true, "", "", None, Some(""))

  /** `new ConnectionSettings()`: localhost:5432, empty database and user name. */
  const DefaultConnectionSettings := ConnectionSettings("localhost", 5432, Some(""), Some(""))

  /** `new AppConfig()`: default connection settings and no field configs. */
  const DefaultAppConfig := AppConfig(DefaultConnectionSettings, [])
}
