/** Post-unmarshal validation of the service configuration. YAML decoding
    is the library's job and enters as a parameter: the record it produced
    and the error it reported, if any. */
module Configuration {
  import opened Wrappers

  datatype Server = Server(host: string, port: int)

  datatype Auth = Auth(publicKeyPath: string, privateKeyPath: string, refreshTokenLifespan: int, accessTokenLifespan: int)

  datatype Database = Database(name: string, username: string, password: string)

  datatype APIs = APIs(sendGrid: string)

  datatype Config = Config(server: Server, auth: Auth, database: Database, apis: APIs)

  /** The settings used when no file is read; lifespans are in seconds. */
  const DefaultConfig: Config := Config(
    Server("localhost", 8080),
    Auth("rsa.app.pub", "rsa.app", 60 * 3, 30),
    Database("--my-placeholder-database--", "--my-placeholder-username--", "--my-placeholder-password--"),
    APIs("--sendgrid--"))

  /** The fields that must be specified. Password and the two lifespans are
      not among them. */
  datatype Field = Host | Port | PublicKeyPath | PrivateKeyPath | DatabaseName | DatabaseUsername | SendGrid

  datatype ConfigError =
    | Missing(field: Field)
    | ReadFailed(message: string)
    | UnmarshalFailed(message: string)

  /** The position of a field in the order the checks run. */
  function Rank(f: Field): nat {
    match f
    case Host => 0
    case Port => 1
    case PublicKeyPath => 2
    case PrivateKeyPath => 3
    case DatabaseName => 4
    case DatabaseUsername => 5
    case SendGrid => 6
  }

  /** A field counts as specified unless it holds its zero value. */
  predicate Specified(c: Config, f: Field) {
    match f
    case Host => c.server.host != ""
    case Port => c.server.port != 0
    case PublicKeyPath => c.auth.publicKeyPath != ""
    case PrivateKeyPath => c.auth.privateKeyPath != ""
    case DatabaseName => c.database.name != ""
    case DatabaseUsername => c.database.username != ""
    case SendGrid => c.apis.sendGrid != ""
  }

  /** The text of each error. */
  function Message(e: ConfigError): string {
    match e
    case Missing(Host) => "server:host not specified in config"
    case Missing(Port) => "server:port not specified in config"
    case Missing(PublicKeyPath) => "authentication:publicKeyPath not specified in config"
    case Missing(PrivateKeyPath) => "authentication:privateKeyPath not specified in config"
    case Missing(DatabaseName) => "database:name not specified in config"
    case Missing(DatabaseUsername) => "database:username not specified in config"
    case Missing(SendGrid) => "api_keys:sendgrid not specified in config"
    case ReadFailed(m) => m
    case UnmarshalFailed(m) => m
  }

  /** The field checks after unmarshalling, first failure wins. The
      reported field is unspecified and every field ranked before it is
      specified; the unmarshal error surfaces only when every field passes. */
  function Validate(c: Config, unmarshalError: Option<string>): (r: Option<ConfigError>)
    ensures r.None? <==> (forall f: Field :: Specified(c, f)) && unmarshalError.None?
    ensures r.Some? && r.value.Missing? ==>
      && !Specified(c, r.value.field)
      && forall g: Field :: Rank(g) < Rank(r.value.field) ==> Specified(c, g)
    ensures (exists f: Field :: !Specified(c, f)) ==> r.Some? && r.value.Missing?
    ensures (forall f: Field :: Specified(c, f)) && unmarshalError.Some? ==>
      r == Some(UnmarshalFailed(unmarshalError.value))
  {
    if c.server.host == "" then assert !Specified(c, Host); Some(Missing(Host))
    else if c.server.port == 0 then assert !Specified(c, Port); Some(Missing(Port))
    else if c.auth.publicKeyPath == "" then assert !Specified(c, PublicKeyPath); Some(Missing(PublicKeyPath))
    else if c.auth.privateKeyPath == "" then assert !Specified(c, PrivateKeyPath); Some(Missing(PrivateKeyPath))
    else if c.database.name == "" then assert !Specified(c, DatabaseName); Some(Missing(DatabaseName))
    else if c.database.username == "" then assert !Specified(c, DatabaseUsername); Some(Missing(DatabaseUsername))
    else if c.apis.sendGrid == "" then assert !Specified(c, SendGrid); Some(Missing(SendGrid))
    else match unmarshalError
      case Some(m) => Some(UnmarshalFailed(m))
      case None => None
  }

  /** Reads the file into `receiver`: a read error returns at once and
      leaves the receiver as it was; otherwise the YAML decoder overlays the
      file onto the receiver and the result is validated, so the receiver
      keeps the decoded values even when validation then fails. */
  function ReadFromFile(receiver: Config, file: Result<string, string>,
                        unmarshal: (string, Config) -> (Config, Option<string>)): (r: (Config, Option<ConfigError>))
    ensures file.Failure? ==> r == (receiver, Some(ReadFailed(file.error)))
    ensures file.Success? ==> r.0 == unmarshal(file.value, receiver).0
    ensures file.Success? ==> r.1 == Validate(r.0, unmarshal(file.value, receiver).1)
    ensures r.1.None? <==>
      file.Success? && unmarshal(file.value, receiver).1.None? && forall f: Field :: Specified(r.0, f)
    ensures r.1.Some? && r.1.value.Missing? ==> !Specified(r.0, r.1.value.field)
  {
    match file
    case Failure(e) => (receiver, Some(ReadFailed(e)))
    case Success(contents) =>
      var (decoded, unmarshalError) := unmarshal(contents, receiver);
      (decoded, Validate(decoded, unmarshalError))
  }

  /** Port is rejected only when it is zero: any other value, negative
      ones included, never makes validation report the port. */
  lemma PortRejectedOnlyWhenZero(c: Config, unmarshalError: Option<string>)
    ensures Validate(c, unmarshalError) == Some(Missing(Port)) <==> c.server.host != "" && c.server.port == 0
  {
  }

  /** Password and both lifespans are never looked at: changing them, to a
      zero or negative lifespan or a refresh lifespan below the access one,
      cannot change the verdict. */
  lemma UncheckedFieldsIgnored(c: Config, unmarshalError: Option<string>, password: string, refreshLifespan: int, accessLifespan: int)
    ensures
      var c' := c.(database := c.database.(password := password),
                   auth := c.auth.(refreshTokenLifespan := refreshLifespan, accessTokenLifespan := accessLifespan));
      Validate(c', unmarshalError) == Validate(c, unmarshalError)
  {
  }

  /** The defaults pass every check, and their refresh lifespan (three
      minutes) exceeds their access lifespan (thirty seconds). */
  lemma DefaultConfigValid()
    ensures Validate(DefaultConfig, None) == None
    ensures forall f: Field :: Specified(DefaultConfig, f)
    ensures DefaultConfig.auth.refreshTokenLifespan == 180
    ensures DefaultConfig.auth.accessTokenLifespan == 30
    ensures DefaultConfig.auth.refreshTokenLifespan > DefaultConfig.auth.accessTokenLifespan
  {
  }

  /** Each field-check error names its field by a distinct message. */
  lemma MessagesIdentifyField(f: Field, g: Field)
    ensures Message(Missing(f)) == Message(Missing(g)) ==> f == g
  {
  }
}
