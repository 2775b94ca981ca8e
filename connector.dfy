/**
 * The connector: builds the driver connection string from the connection
 * configuration, then opens the connection.  Whether PHP runs on Windows
 * is a parameter.
 */
module Connector {
  import opened Php
  import opened Exceptions
  import opened CachePdo

  type Config = map<string, Value>

  /** `$config[$key]`: a missing key reads as null. */
  function Get(config: Config, key: string): Value {
    if key in config then config[key] else Null
  }

  const DsnNotSet := "DSN not set in configuration."
  const InvalidConfiguration := "Invalid configuration. Driver path, host, port and namespace are required."

  /** The Unix connection string. */
  function UnixDsn(driver: string, host: string, port: string, database: string): string {
    "Driver={" + driver + "};" + "Server=" + host + ";" + "PORT=" + port + ";" + "DATABASE=" + database
  }

  /** buildDsn. */
  function BuildDsn(config: Config, onWindows: bool): (r: Result<string>)
    ensures onWindows && Truthy(Get(config, "win_dsn")) ==> r == Ok(ToStr(Get(config, "win_dsn")))
    ensures onWindows && !Truthy(Get(config, "win_dsn")) ==> r == Err(InvalidArgument(DsnNotSet))
    ensures !onWindows ==>
      (r.Err? <==> !Truthy(Get(config, "unix_driver")) || !Truthy(Get(config, "host"))
                   || !Truthy(Get(config, "port")) || !Truthy(Get(config, "database")))
    ensures !onWindows && r.Err? ==> r.error == InvalidArgument(InvalidConfiguration)
    ensures !onWindows && r.Ok? ==>
      r.value == UnixDsn(ToStr(Get(config, "unix_driver")), ToStr(Get(config, "host")),
                         ToStr(Get(config, "port")), ToStr(Get(config, "database")))
  {
    if onWindows then
      if !Truthy(Get(config, "win_dsn")) then Err(InvalidArgument(DsnNotSet))
      else Ok(ToStr(Get(config, "win_dsn")))
    else if !Truthy(Get(config, "unix_driver")) || !Truthy(Get(config, "host"))
         || !Truthy(Get(config, "port")) || !Truthy(Get(config, "database")) then
      Err(InvalidArgument(InvalidConfiguration))
    else
      var dsn := "Driver={" + ToStr(Get(config, "unix_driver")) + "};";
      var dsn := dsn + "Server=" + ToStr(Get(config, "host")) + ";";
      var dsn := dsn + "PORT=" + ToStr(Get(config, "port")) + ";";
      var dsn := dsn + "DATABASE=" + ToStr(Get(config, "database"));
      Ok(dsn)
  }

  /** On Windows only `win_dsn` is read. */
  lemma WindowsReadsOnlyWinDsn(c1: Config, c2: Config)
    requires Get(c1, "win_dsn") == Get(c2, "win_dsn")
    ensures BuildDsn(c1, true) == BuildDsn(c2, true)
  {
  }

  /** Elsewhere only the four Unix fields are read. */
  lemma UnixReadsOnlyUnixFields(c1: Config, c2: Config)
    requires forall key :: key in {"unix_driver", "host", "port", "database"} ==> Get(c1, key) == Get(c2, key)
    ensures BuildDsn(c1, false) == BuildDsn(c2, false)
  {
    assert Get(c1, "unix_driver") == Get(c2, "unix_driver");
    assert Get(c1, "host") == Get(c2, "host");
    assert Get(c1, "port") == Get(c2, "port");
    assert Get(c1, "database") == Get(c2, "database");
  }

  /**
   * When no field contains a `;`, the connection string splits on `;`
   * into exactly the four attributes, each holding its field verbatim.
   */
  lemma UnixDsnAttributes(driver: string, host: string, port: string, database: string)
    requires ';' !in driver && ';' !in host && ';' !in port && ';' !in database
    ensures Explode(';', UnixDsn(driver, host, port, database))
         == ["Driver={" + driver + "}", "Server=" + host, "PORT=" + port, "DATABASE=" + database]
  {
    var a, b, c, d := "Driver={" + driver + "}", "Server=" + host, "PORT=" + port, "DATABASE=" + database;
    assert ';' !in a by { assert a == "Driver={" + driver + "}"; assert ';' !in "Driver={" && ';' !in "}"; }
    assert ';' !in b by { assert ';' !in "Server="; }
    assert ';' !in c by { assert ';' !in "PORT="; }
    assert ';' !in d by { assert ';' !in "DATABASE="; }
    assert UnixDsn(driver, host, port, database) == a + [';'] + (b + [';'] + (c + [';'] + d));
    ExplodeNoSep(';', d);
    ExplodeCons(';', c, d);
    ExplodeCons(';', b, c + [';'] + d);
    ExplodeCons(';', a, b + [';'] + (c + [';'] + d));
  }

  /** The Unix connection string carries no `odbc:` prefix, so the driver receives it unchanged. */
  lemma UnixDsnReachesDriver(config: Config)
    requires BuildDsn(config, false).Ok?
    ensures ConnectDsn(BuildDsn(config, false).value) == BuildDsn(config, false).value
  {
    var d := BuildDsn(config, false).value;
    assert d[..5] == "Drive";
    ConnectDsnStripsOnce(d);
  }

  /**
   * connect: the connection string from buildDsn, then a connection over
   * it.  The driver options come from the framework's getOptions and are
   * an input.
   */
  method Connect(config: Config, onWindows: bool, options: Options,
                 parentError: Option<NativeError>, native: ConnectOutcome)
    returns (r: Result<Cache>)
    ensures BuildDsn(config, onWindows).Err? ==> r == Err(BuildDsn(config, onWindows).error)
    ensures BuildDsn(config, onWindows).Ok? && parentError.Some? ==> r == Err(PdoException(parentError.value))
    ensures BuildDsn(config, onWindows).Ok? ==>
      (r.Err? <==> parentError.Some? || (if Persistent(options) then native.pconnect else native.connect).None?)
    ensures r.Ok? ==> fresh(r.value) && r.value.Valid() && !r.value.inTransaction
    ensures r.Ok? ==> BuildDsn(config, onWindows).Ok? && r.value.trace == [
      var dsn := ConnectDsn(BuildDsn(config, onWindows).value);
      var username, password := ToStr(Get(config, "username")), ToStr(Get(config, "password"));
      if Persistent(options) then PConnect(dsn, username, password) else NativeCall.Connect(dsn, username, password)]
  {
    var dsn := BuildDsn(config, onWindows);
    if dsn.Err? {
      return Err(dsn.error);
    }
    var username, password := ToStr(Get(config, "username")), ToStr(Get(config, "password"));
    var connection, pdoDsn := Cache.Open(dsn.value, username, password, options, parentError, native);
    return connection;
  }
}
