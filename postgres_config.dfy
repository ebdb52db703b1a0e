/** Database configuration checks of internal/pkg/repository/postgres/repository.go:
    Config.Validate and the SSL mode default New applies before connecting. */
module PostgresConfig {

  import opened Wrappers

  const MaxPort: int := 65535
  const DefaultSslMode: string := "disable"

  datatype ConfigError = ErrEmptyHost | ErrInvalidPort | ErrEmptyUser | ErrEmptyPassword | ErrEmptyDBName {
    function Message(): string {
      match this
      case ErrEmptyHost => "empty host"
      case ErrInvalidPort => "invalid port"
      case ErrEmptyUser => "empty user"
      case ErrEmptyPassword => "empty password"
      case ErrEmptyDBName => "empty db name"
    }
  }

  datatype Config = Config(host: string, port: int, user: string, password: string, dbName: string, sslMode: string) {

    /** Validate: the first failing check in the order host, port, user, password,
        database name; Pass when all hold. The SSL mode is not checked. */
    function Validate(): (r: Outcome<ConfigError>)
      ensures r == Pass <==> host != "" && 0 < port <= MaxPort && user != "" && password != "" && dbName != ""
      ensures host == "" ==> r == Fail(ErrEmptyHost)
    {
      if host == "" then Fail(ErrEmptyHost)
      else if port <= 0 || port > MaxPort then Fail(ErrInvalidPort)
      else if user == "" then Fail(ErrEmptyUser)
      else if password == "" then Fail(ErrEmptyPassword)
      else if dbName == "" then Fail(ErrEmptyDBName)
      else Pass
    }

    /** The checks in order, each with the error it reports: an independent
        statement of Validate's priority. */
    function Checks(): seq<(bool, ConfigError)> {
      [ (host != "", ErrEmptyHost),
        (0 < port <= MaxPort, ErrInvalidPort),
        (user != "", ErrEmptyUser),
        (password != "", ErrEmptyPassword),
        (dbName != "", ErrEmptyDBName) ]
    }
  }

  /** The error of the first failed check of a list, Pass when none fails. */
  function FirstFailure(checks: seq<(bool, ConfigError)>): Outcome<ConfigError> {
    if checks == [] then Pass
    else if !checks[0].0 then Fail(checks[0].1)
    else FirstFailure(checks[1..])
  }

  /** Validate reports exactly the first failing check. */
  lemma ValidateReportsFirstFailure(c: Config)
    ensures c.Validate() == FirstFailure(c.Checks())
  {
    var cs := c.Checks();
    assert cs[4..][1..] == [];
    assert cs[3..][1..] == cs[4..];
    assert cs[2..][1..] == cs[3..];
    assert cs[1..][1..] == cs[2..];
    assert FirstFailure(cs[4..]) == if !cs[4].0 then Fail(cs[4].1) else Pass;
    assert FirstFailure(cs[3..]) == if !cs[3].0 then Fail(cs[3].1) else FirstFailure(cs[4..]);
    assert FirstFailure(cs[2..]) == if !cs[2].0 then Fail(cs[2].1) else FirstFailure(cs[3..]);
    assert FirstFailure(cs[1..]) == if !cs[1].0 then Fail(cs[1].1) else FirstFailure(cs[2..]);
  }

  /** A reported error means every earlier check held and this one failed. */
  lemma ReportedErrorIsFirst(c: Config, i: int)
    requires 0 <= i < 5
    requires c.Validate() == Fail(c.Checks()[i].1)
    ensures !c.Checks()[i].0
    ensures forall j :: 0 <= j < i ==> c.Checks()[j].0
  {
    ValidateReportsFirstFailure(c);
  }

  /** Port boundaries: 0 and 65536 are rejected, 1 and 65535 accepted. */
  lemma PortBoundaries(c: Config)
    requires c.host != "" && c.user != "" && c.password != "" && c.dbName != ""
    ensures c.(port := 0).Validate() == Fail(ErrInvalidPort)
    ensures c.(port := 65536).Validate() == Fail(ErrInvalidPort)
    ensures c.(port := 1).Validate() == Pass && c.(port := 65535).Validate() == Pass
  {
  }

  /** The SSL mode New connects with: "disable" when none is configured. */
  function EffectiveSslMode(c: Config): (m: string)
    ensures m != ""
    ensures c.sslMode == "" ==> m == DefaultSslMode
    ensures c.sslMode != "" ==> m == c.sslMode
  {
    if c.sslMode == "" then DefaultSslMode else c.sslMode
  }

  /** The part of New before connecting: the validation error, or the settings
      to connect with, which are the configuration with its SSL mode defaulted. */
  function PrepareConnection(c: Config): (r: Result<Config, ConfigError>)
    ensures r.Failure? <==> c.Validate().Fail?
    ensures r.Failure? ==> Fail(r.error) == c.Validate()
    ensures r.Success? ==> r.value == c.(sslMode := EffectiveSslMode(c)) && r.value.Validate() == Pass
  {
    match c.Validate()
    case Fail(e) => Failure(e)
    case Pass => Success(c.(sslMode := EffectiveSslMode(c)))
  }

  /** New's message for a configuration error wraps the sentinel's text. */
  function InvalidConfigMessage(e: ConfigError): string {
    "invalid config: " + e.Message()
  }
}
