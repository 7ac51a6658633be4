/** The two services the view-models share: the current database connection and the
    configuration store. */
module Services {
  import opened Wrappers
  import opened Text
  import opened AppConfigModels

  /** What BuildConnectionString writes into a connection string. The pooling, timeout and
      SSL options it adds are the same for every connection and are not kept here. */
  datatype ConnectionParameters = ConnectionParameters(host: string, port: Int32, database: string, username: string, password: string)

  /** BuildConnectionString: host, database and user name trimmed, the password as given. */
  function BuildConnectionString(host: string, port: Int32, database: string, username: string, password: string): ConnectionParameters {
    ConnectionParameters(Trim(host), port, Trim(database), Trim(username), password)
  }

  /** Trimming twice is trimming once. */
  lemma TrimIdempotent(s: string)
    ensures Trim(Trim(s)) == Trim(s)
  {
    var t := Trim(s);
    TrimShape(s);
    if t != [] {
      TrimWhereNoOp(t, UnicodeWhite);
    }
  }

  /** Building from the parameters of a built connection string gives the same parameters:
      the fields are already trimmed. */
  lemma BuildConnectionStringStable(host: string, port: Int32, database: string, username: string, password: string)
    ensures var p := BuildConnectionString(host, port, database, username, password);
      BuildConnectionString(p.host, p.port, p.database, p.username, p.password) == p
  {
    TrimIdempotent(host);
    TrimIdempotent(database);
    TrimIdempotent(username);
  }

  /** DbConnectionService. A built connection string is never blank, so the empty current
      connection string is `None`. */
  class DbConnectionService {
    var currentConnection: Option<ConnectionParameters>

    constructor ()
      ensures currentConnection == None
    {
      currentConnection := None;
    }
  }

  /** AppConfigService over the stored configuration. A missing or blank file, or one that
      reads as null, is `None` and loads as the default configuration. */
  class AppConfigService {
    var config: AppConfig

    constructor (stored: Option<AppConfig>)
      ensures config == stored.GetOr(DefaultAppConfig)
    {
      config := stored.GetOr(DefaultAppConfig);
    }

    function LoadConnection(): ConnectionSettings
      reads this
    {
      config.connection
    }

    function LoadFieldConfigs(): seq<FieldConfig>
      reads this
    {
      config.fieldConfigs
    }

    /** Replaces the connection settings and keeps the field configs. */
    method SaveConnection(settings: ConnectionSettings)
      modifies this
      ensures config == AppConfig(settings, old(config.fieldConfigs))
      ensures LoadConnection() == settings && LoadFieldConfigs() == old(LoadFieldConfigs())
    {
      config := config.(connection := settings);
    }

    /** Replaces the field configs and keeps the connection settings. */
    method SaveFieldConfigs(configs: seq<FieldConfig>)
      modifies this
      ensures config == AppConfig(old(config.connection), configs)
      ensures LoadFieldConfigs() == configs && LoadConnection() == old(LoadConnection())
    {
      config := config.(fieldConfigs := configs);
    }
  }
}
