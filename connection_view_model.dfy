/** The connection form: host, port, database, user name and password boxes, the test
    button's guard, and the connection test, whose probe of the server is a parameter. */
module ConnectionForm {
  import opened Wrappers
  import opened Text
  import opened AppConfigModels
  import opened Services

  /** The status line. The "testing" message shown while the probe runs is always replaced
      before the command ends and is left out. */
  datatype ConnectionStatus = NoStatus | InvalidPort | ConnectionSucceeded(message: string) | ConnectionFailed(message: string)

  const DefaultHost := "localhost"
  const DefaultPortText := "5432"

  /** The port box as a port number: it must parse as an int and lie in 1..65535. */
  function PortOf(portText: string): (r: Option<Int32>)
    ensures r.Some? ==> 0 < r.value <= 65535 && ParseInt32(portText) == r
    ensures r.None? ==> ParseInt32(portText).None? || ParseInt32(portText).value <= 0 || ParseInt32(portText).value > 65535
  {
    var p := ParseInt32(portText);
    if p.None? || p.value <= 0 || p.value > 65535 then None else p
  }

  /** The test button is enabled when host, database and user name are not blank and the
      port box holds a valid port. */
  predicate CanTestConnection(host: string, portText: string, database: string, username: string) {
    !IsBlank(host) && PortOf(portText).Some? && !IsBlank(database) && !IsBlank(username)
  }

  /** What a successful test saves: the four boxes as typed, the password not among them. */
  function SettingsToSave(host: string, port: Int32, database: string, username: string): ConnectionSettings {
    ConnectionSettings(host, port, Some(database), Some(username))
  }

  /** The form's initial host, port text, database and user name from the saved settings:
      a blank host keeps "localhost", a port that is not above zero keeps "5432", a missing
      database or user name becomes empty. */
  function RestoredHost(saved: ConnectionSettings): string {
    if IsBlank(saved.host) then DefaultHost else saved.host
  }

  function RestoredPortText(saved: ConnectionSettings): string {
    if saved.port > 0 then IntToString(saved.port as int) else DefaultPortText
  }

  /** A positive saved port comes back as the same port. */
  lemma RestoredPortRoundTrip(saved: ConnectionSettings)
    requires 0 < saved.port <= 65535
    ensures PortOf(RestoredPortText(saved)) == Some(saved.port)
  {
    ParseIntToString(saved.port);
  }

  /** "5432" is a valid port, and the text of the port 5432. */
  lemma DefaultPortValid()
    ensures PortOf(DefaultPortText) == Some(5432)
    ensures IntToString(5432) == DefaultPortText
  {
    assert NatToString(5) == "5";
    assert NatToString(54) == NatToString(5) + [DigitChar(4)] == "54";
    assert NatToString(543) == NatToString(54) + [DigitChar(3)] == "543";
    assert NatToString(5432) == NatToString(543) + [DigitChar(2)] == "5432";
    ParseIntToString(5432);
  }

  /** A form restored from complete saved settings lets the connection test start at once; and a form
      restored from settings whose port is not above zero still has the valid default port. */
  lemma RestoredFormTestable(saved: ConnectionSettings)
    requires !IsBlank(saved.host) && 0 < saved.port <= 65535
    requires saved.database.Some? && !IsBlank(saved.database.value)
    requires saved.username.Some? && !IsBlank(saved.username.value)
    ensures CanTestConnection(RestoredHost(saved), RestoredPortText(saved), saved.database.value, saved.username.value)
  {
    RestoredPortRoundTrip(saved);
  }

  lemma RestoredPortAlwaysValid(saved: ConnectionSettings)
    requires saved.port <= 65535
    ensures PortOf(RestoredPortText(saved)).Some?
  {
    if saved.port > 0 {
      RestoredPortRoundTrip(saved);
    } else {
      DefaultPortValid();
    }
  }

  /** A form restored from the default settings shows localhost, port 5432 and empty
      database and user name boxes, and its port box is valid. */
  lemma RestoredFromDefaults()
    ensures RestoredHost(DefaultConnectionSettings) == DefaultHost
    ensures RestoredPortText(DefaultConnectionSettings) == DefaultPortText
    ensures PortOf(RestoredPortText(DefaultConnectionSettings)) == Some(5432)
    ensures DefaultConnectionSettings.database.GetOr("") == "" && DefaultConnectionSettings.username.GetOr("") == ""
  {
    var d := DefaultConnectionSettings;
    assert d.port == 5432 && d.host == "localhost";
    DefaultPortValid();
    assert RestoredPortText(d) == IntToString(5432);
    assert !IsBlank(d.host) by {
      assert !IsWhite(UnicodeWhite, d.host[0]);
    }
  }

  /** The password reaches the built connection unchanged, and two builds that differ in
      the password differ in nothing else. */
  lemma PasswordOnlyInConnection(host: string, port: Int32, database: string, username: string, p1: string, p2: string)
    ensures BuildConnectionString(host, port, database, username, p1).(password := p2)
         == BuildConnectionString(host, port, database, username, p2)
    ensures BuildConnectionString(host, port, database, username, p1).password == p1
  {
  }

  class ConnectionViewModel {
    const db: DbConnectionService
    const config: AppConfigService
    var host: string
    var portText: string
    var database: string
    var username: string
    /** Kept in memory only. */
    var password: string
    var status: ConnectionStatus
    var isConnected: bool

    /** The form starts from the saved settings, with an empty password. */
    constructor (db: DbConnectionService, config: AppConfigService)
      ensures this.db == db && this.config == config
      ensures host == RestoredHost(config.LoadConnection()) && portText == RestoredPortText(config.LoadConnection())
      ensures database == config.LoadConnection().database.GetOr("") && username == config.LoadConnection().username.GetOr("")
      ensures password == "" && status == NoStatus && !isConnected
    {
      this.db := db;
      this.config := config;
      var saved := config.LoadConnection();
      host, portText := DefaultHost, DefaultPortText;
      host := if IsBlank(saved.host) then host else saved.host;
      portText := if saved.port > 0 then IntToString(saved.port as int) else portText;
      database := saved.database.GetOr("");
      username := saved.username.GetOr("");
      password, status, isConnected := "", NoStatus, false;
    }

    predicate CanTest()
      reads this
    {
      CanTestConnection(host, portText, database, username)
    }

    /** TestConnectionAsync. `probe` answers whether the server accepts a connection with
      the given parameters, and with what message. With an invalid port nothing is built,
      probed or saved. After a successful probe the built connection becomes the current
      one and the boxes other than the password are saved; after a failed one neither
      changes. */
    method TestConnection(probe: ConnectionParameters -> (bool, string))
      modifies this, db, config
      ensures host == old(host) && portText == old(portText) && database == old(database)
      ensures username == old(username) && password == old(password)
      ensures PortOf(portText).None? ==>
        && !isConnected && status == InvalidPort
        && db.currentConnection == old(db.currentConnection) && config.config == old(config.config)
      ensures PortOf(portText).Some? ==>
        var cs := BuildConnectionString(host, PortOf(portText).value, database, username, password);
        && isConnected == probe(cs).0
        && status == (if probe(cs).0 then ConnectionSucceeded(probe(cs).1) else ConnectionFailed(probe(cs).1))
        && db.currentConnection == (if probe(cs).0 then Some(cs) else old(db.currentConnection))
        && config.config == (if probe(cs).0 then old(config.config).(connection := SettingsToSave(host, PortOf(portText).value, database, username))
                             else old(config.config))
    {
      isConnected := false;
      var port := PortOf(portText);
      if port.None? {
        status := InvalidPort;
        return;
      }
      var cs := BuildConnectionString(host, port.value, database, username, password);
      var (ok, message) := probe(cs);
      if ok {
        db.currentConnection := Some(cs);
        config.SaveConnection(SettingsToSave(host, port.value, database, username));
      }
      isConnected := ok;
      status := if ok then ConnectionSucceeded(message) else ConnectionFailed(message);
    }
  }
}
