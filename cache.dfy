/**
 * The connection: DSN prefix handling, the connect primitive chosen from
 * the options, statement preparation and the transaction flag.  The
 * native ODBC layer is an oracle: what each primitive returns is an
 * input, and the calls the connection makes are recorded in `trace`.
 */
module CachePdo {
  import opened Php
  import opened OrderedTable
  import opened Exceptions
  import opened CacheStatement

  /** PDO::ATTR_PERSISTENT. */
  const AttrPersistent := 12

  /** Driver options, keyed by PDO attribute number. */
  type Options = map<int, Value>

  /** A native connection handle. */
  datatype Handle = Handle(id: nat)

  /** A call made to the native layer. */
  datatype NativeCall =
    | PConnect(dsn: string, username: string, password: string)
    | Connect(dsn: string, username: string, password: string)
    | AutoCommit(on: bool)
    | CommitCall
    | RollbackCall

  /** What the two connect primitives would return, and the error reported on failure. */
  datatype ConnectOutcome = ConnectOutcome(pconnect: Option<Handle>, connect: Option<Handle>, lastError: NativeError)

  /**
   * What the native layer reports during commit or rollBack: the error
   * flag commit reads, the statuses of commit and rollback, the error
   * flag after a rollback and the error then reported.
   */
  datatype Driver = Driver(
    errorPending: bool, commitStatus: bool, rollbackStatus: bool,
    errorAfterRollback: bool, lastError: NativeError)

  /** The options argument of prepare: an array, or any other value (null included). */
  datatype OptionsArg = Array(entries: Options) | NotArray(value: Value)

  const OdbcPrefix := "odbc:"

  /** `mb_substr($dsn, 0, 5) === 'odbc:'`. */
  predicate HasOdbcPrefix(dsn: string) {
    |dsn| >= 5 && dsn[..5] == OdbcPrefix
  }

  /** The DSN handed to the parent PDO constructor. */
  function PdoDsn(dsn: string): (d: string)
    ensures HasOdbcPrefix(d)
    ensures HasOdbcPrefix(dsn) ==> d == dsn
    ensures !HasOdbcPrefix(dsn) ==> d[5..] == dsn
  {
    if HasOdbcPrefix(dsn) then dsn else
      var d := OdbcPrefix + dsn;
      assert d[..5] == OdbcPrefix;
      d
  }

  /** `preg_replace('/^odbc:/', '', $dsn)`: one leading prefix removed. */
  function StripOdbcPrefix(dsn: string): (d: string)
    ensures HasOdbcPrefix(dsn) ==> OdbcPrefix + d == dsn
    ensures !HasOdbcPrefix(dsn) ==> d == dsn
  {
    if HasOdbcPrefix(dsn) then
      assert dsn == dsn[..5] + dsn[5..];
      dsn[5..]
    else dsn
  }

  /** The DSN the native connect receives. */
  function ConnectDsn(dsn: string): string {
    StripOdbcPrefix(PdoDsn(dsn))
  }

  /** A DSN without the prefix reaches the driver unchanged; a prefixed one loses exactly one prefix. */
  lemma ConnectDsnStripsOnce(dsn: string)
    ensures !HasOdbcPrefix(dsn) ==> ConnectDsn(dsn) == dsn
    ensures HasOdbcPrefix(dsn) ==> OdbcPrefix + ConnectDsn(dsn) == dsn
    ensures ConnectDsn(OdbcPrefix + dsn) == dsn
  {
    var p := OdbcPrefix + dsn;
    assert p[..5] == OdbcPrefix && p[5..] == dsn;
  }

  /** Prefixing is idempotent. */
  lemma PdoDsnIdempotent(dsn: string)
    ensures PdoDsn(PdoDsn(dsn)) == PdoDsn(dsn)
  {
  }

  /** Whether connect uses the persistent primitive. */
  predicate Persistent(options: Options) {
    AttrPersistent in options && Truthy(options[AttrPersistent])
  }

  /** The options prepare passes on: the stored ones for null, none for a non-array. */
  function EffectiveOptions(arg: OptionsArg, stored: Options): (used: Options)
    ensures arg == NotArray(Null) ==> used == stored
    ensures arg.Array? ==> used == arg.entries
    ensures arg.NotArray? && arg.value != Null ==> used == map[]
  {
    var options := if arg == NotArray(Null) then Array(stored) else arg;
    if !options.Array? then map[] else options.entries
  }

  /** quote: the argument is returned as it is, whatever the type. */
  function Quote(s: string, paramType: int): (r: string)
    ensures r == s
  {
    s
  }

  /** Whether the last autocommit call on the trace switched autocommit off. */
  function AutoCommitOff(trace: seq<NativeCall>): bool {
    if trace == [] then false
    else if trace[|trace| - 1].AutoCommit? then !trace[|trace| - 1].on
    else AutoCommitOff(trace[..|trace| - 1])
  }

  lemma AutoCommitOffAppend(trace: seq<NativeCall>, call: NativeCall)
    ensures call.AutoCommit? ==> AutoCommitOff(trace + [call]) == !call.on
    ensures !call.AutoCommit? ==> AutoCommitOff(trace + [call]) == AutoCommitOff(trace)
  {
    assert (trace + [call])[..|trace|] == trace;
  }

  /** A connection trace holds no autocommit call. */
  lemma {:induction false} AutoCommitOffWithout(trace: seq<NativeCall>)
    requires forall i :: 0 <= i < |trace| ==> !trace[i].AutoCommit?
    ensures !AutoCommitOff(trace)
  {
    if trace != [] {
      AutoCommitOffWithout(trace[..|trace| - 1]);
    }
  }

  class Cache {
    var dbh: Option<Handle>
    var options: Options
    var inTransaction: bool
    /** The calls made to the native layer, oldest first. */
    var trace: seq<NativeCall>

    /** The transaction flag says whether the driver's autocommit is off. */
    predicate Valid()
      reads this
    {
      inTransaction == AutoCommitOff(trace)
    }

    constructor (options: Options)
      ensures this.options == options && dbh == None && !inTransaction && trace == []
      ensures Valid()
    {
      this.options := options;
      dbh := None;
      inTransaction := false;
      trace := [];
    }

    /**
     * The constructor: the DSN gains the prefix for the parent PDO
     * constructor, loses it again for the native connect, and the
     * options are stored.  `parentError` is what the parent PDO
     * constructor reports when it fails (a missing driver, a refused
     * connection): its PDOException propagates before the native connect.
     */
    static method Open(dsn: string, username: string, password: string, options: Options,
                       parentError: Option<NativeError>, native: ConnectOutcome)
      returns (r: Result<Cache>, pdoDsn: string)
      ensures pdoDsn == PdoDsn(dsn)
      ensures parentError.Some? ==> r == Err(PdoException(parentError.value))
      ensures r.Err? <==> parentError.Some? || (if Persistent(options) then native.pconnect else native.connect).None?
      ensures r.Err? && parentError.None? ==> r.error == FromNative(native.lastError)
      ensures r.Ok? ==> fresh(r.value) && r.value.Valid() && r.value.options == options && !r.value.inTransaction
      ensures r.Ok? ==> r.value.dbh == (if Persistent(options) then native.pconnect else native.connect)
      ensures r.Ok? ==> r.value.trace == [
        if Persistent(options) then PConnect(ConnectDsn(dsn), username, password)
        else Connect(ConnectDsn(dsn), username, password)]
    {
      pdoDsn := dsn;
      if !HasOdbcPrefix(pdoDsn) {
        pdoDsn := OdbcPrefix + pdoDsn;
        assert pdoDsn[..5] == OdbcPrefix;
      }
      if parentError.Some? {
        return Err(PdoException(parentError.value)), pdoDsn;
      }
      var connectDsn := StripOdbcPrefix(pdoDsn);
      var c := new Cache(options);
      var connected := c.ConnectWith(connectDsn, username, password, options, native);
      if connected.Err? {
        return Err(connected.error), pdoDsn;
      }
      AutoCommitOffWithout(c.trace);
      return Ok(c), pdoDsn;
    }

    /** connect: the persistent primitive exactly when ATTR_PERSISTENT is present and truthy. */
    method ConnectWith(dsn: string, username: string, password: string, options: Options, native: ConnectOutcome)
      returns (r: Result<bool>)
      modifies this
      ensures Persistent(options) ==> dbh == native.pconnect && trace == old(trace) + [PConnect(dsn, username, password)]
      ensures !Persistent(options) ==> dbh == native.connect && trace == old(trace) + [Connect(dsn, username, password)]
      ensures r == if dbh.None? then Err(FromNative(native.lastError)) else Ok(true)
      ensures this.options == old(this.options) && inTransaction == old(inTransaction)
    {
      var handle, call;
      if AttrPersistent in options && Truthy(options[AttrPersistent]) {
        handle, call := native.pconnect, PConnect(dsn, username, password);
      } else {
        handle, call := native.connect, Connect(dsn, username, password);
      }
      dbh := handle;
      trace := trace + [call];
      if handle.None? {
        return Err(FromNative(native.lastError));
      }
      return Ok(true);
    }

    /** prepare: a statement over this connection with the effective options. */
    method Prepare(sql: string, arg: OptionsArg, defaultFetchMode: int, prepareError: Option<NativeError>)
      returns (r: Result<Statement>, used: Options)
      ensures used == EffectiveOptions(arg, options)
      ensures r.Ok? <==> prepareError.None? && (defaultFetchMode == 0 || SupportedMode(defaultFetchMode))
      ensures r.Ok? ==> fresh(r.value) && r.value.Valid()
      ensures r.Ok? ==> r.value.parameters == ParameterSlots(sql) && r.value.prepared == Rewrite(sql)
      ensures prepareError.Some? ==> r == Err(FromNative(prepareError.value))
      ensures prepareError.None? && defaultFetchMode != 0 && !SupportedMode(defaultFetchMode)
        ==> r == Err(UnsupportedMode())
      ensures r.Ok? ==> r.value.fetchMode == (if defaultFetchMode != 0 then defaultFetchMode else FetchObj)
      ensures r.Ok? ==> r.value.results == [] && r.value.cursor == []
    {
      used := if arg == NotArray(Null) then options else (if arg.Array? then arg.entries else map[]);
      r := Statement.Open(defaultFetchMode, sql, prepareError);
    }

    /**
     * exec: prepare with the stored options, then execute; the result is
     * execute's, and the native execute gets one null per distinct slot.
     */
    method Exec(sql: string, defaultFetchMode: int, prepareError: Option<NativeError>, native: ExecOutcome)
      returns (r: Result<bool>, sent: seq<Value>)
      ensures prepareError.Some? ==> r == Err(FromNative(prepareError.value)) && sent == []
      ensures prepareError.None? && defaultFetchMode != 0 && !SupportedMode(defaultFetchMode)
        ==> r == Err(UnsupportedMode()) && sent == []
      ensures prepareError.None? && (defaultFetchMode == 0 || SupportedMode(defaultFetchMode)) ==>
        && sent == Values(ParameterSlots(sql))
        && r == if native.error.Some? then Err(FromNative(native.error.value)) else Ok(native.status)
      ensures forall v :: v in sent ==> v == Null
    {
      var prepared, used := Prepare(sql, NotArray(Null), defaultFetchMode, prepareError);
      if prepared.Err? {
        return Err(prepared.error), [];
      }
      ParameterSlotsShape(sql);
      r, sent := prepared.value.Execute(native);
    }

    /** setAutoCommit: the native switch, then the flag set to its negation. */
    method SetAutoCommit(on: bool)
      modifies this
      ensures trace == old(trace) + [AutoCommit(on)] && inTransaction == !on
      ensures dbh == old(dbh) && options == old(options)
      ensures Valid()
    {
      trace := trace + [AutoCommit(on)];
      inTransaction := !on;
      AutoCommitOffAppend(old(trace), AutoCommit(on));
    }

    /** beginTransaction: autocommit off; it returns setAutoCommit's null. */
    method BeginTransaction() returns (r: Value)
      modifies this
      ensures inTransaction && trace == old(trace) + [AutoCommit(false)]
      ensures r == Null
      ensures dbh == old(dbh) && options == old(options)
      ensures Valid()
    {
      SetAutoCommit(false);
      return Null;
    }

    /**
     * commit: autocommit back on first; with the error flag clear the
     * native commit's status, otherwise rollBack's outcome.
     */
    method Commit(native: Driver) returns (r: Result<bool>)
      modifies this
      ensures !inTransaction && Valid()
      ensures !native.errorPending ==> r == Ok(native.commitStatus)
      ensures !native.errorPending ==> trace == old(trace) + [AutoCommit(true), CommitCall]
      ensures native.errorPending ==> r == RollbackResult(native)
      ensures native.errorPending ==> trace == old(trace) + [AutoCommit(true), RollbackCall]
      ensures dbh == old(dbh) && options == old(options)
    {
      SetAutoCommit(true);
      if !native.errorPending {
        trace := trace + [CommitCall];
        AutoCommitOffAppend(old(trace) + [AutoCommit(true)], CommitCall);
        return Ok(native.commitStatus);
      }
      r := RollBack(native);
    }

    /** rollBack: raises only when the native rollback fails with an error pending. */
    method RollBack(native: Driver) returns (r: Result<bool>)
      requires Valid()
      modifies this
      ensures r == RollbackResult(native)
      ensures trace == old(trace) + [RollbackCall]
      ensures inTransaction == old(inTransaction) && Valid()
      ensures dbh == old(dbh) && options == old(options)
    {
      var status := native.rollbackStatus;
      trace := trace + [RollbackCall];
      AutoCommitOffAppend(old(trace), RollbackCall);
      if !status && native.errorAfterRollback {
        return Err(FromNative(native.lastError));
      }
      return Ok(status);
    }

    function InTransaction(): (r: bool)
      reads this
      requires Valid()
      ensures r == AutoCommitOff(trace)
    {
      inTransaction
    }
  }

  /** What rollBack returns or raises for the given native responses. */
  function RollbackResult(native: Driver): (r: Result<bool>)
    ensures r.Err? <==> !native.rollbackStatus && native.errorAfterRollback
    ensures r.Err? ==> r.error == FromNative(native.lastError)
    ensures r.Ok? ==> r.value == native.rollbackStatus
  {
    if !native.rollbackStatus && native.errorAfterRollback then Err(FromNative(native.lastError))
    else Ok(native.rollbackStatus)
  }

  /** A successful rollback reports true, whatever the error flag says. */
  lemma RollbackSucceeds(native: Driver)
    requires native.rollbackStatus
    ensures RollbackResult(native) == Ok(true)
  {
  }
}
