/**
 * The straight-line part of the inventory_vault plugin: which files the plugin
 * accepts, the checks on the process environment and the inventory file's
 * configuration, and the choice of a Vault authentication method.
 *
 * The environment and the configuration are finite maps; `os.environ.get(K)`
 * is `None` exactly when `K` is not a key of the environment.  The result of
 * `is_authenticated()` after logging in is an input (`Login`), because the
 * login itself is a call over HTTP.
 */
module VaultEnv {

  type Env = map<string, string>
  type Config = map<string, string>

  // Environment variables read by the plugin.
  const VaultAddr := "VAULT_ADDR"
  const VaultCaCert := "VAULT_CACERT"
  const VaultToken := "VAULT_TOKEN"
  const RoleId := "ANSIBLE_HASHI_VAULT_ROLE_ID"
  const SecretId := "ANSIBLE_HASHI_VAULT_SECRET_ID"
  const JwtVar := "ANSIBLE_HASHI_VAULT_JWT"
  const JwtRole := "ANSIBLE_HASHI_VAULT_JWT_ROLE"

  // Keys of the inventory file's configuration.
  const SecretPathKey := "vault_secret_path"
  const MountPointKey := "vault_mount_point"

  // File name endings the plugin claims.
  const YamlSuffix := "inventory_vault.yaml"
  const YmlSuffix := "inventory_vault.yml"

  // Messages of the errors the plugin raises, verbatim.
  const MsgAddr := "Please ensure VAULT_ADDR is set in your environment"
  const MsgCaCert := "Please ensure VAULT_CACERT is set in your environment"
  const MsgSecretPath := "Please ensure 'vault_secret_path' is set in your inventory_pac.yml"
  const MsgToken := "Please ensure VAULT_TOKEN is set in your environment"
  const MsgAppRole := "Please ensure ANSIBLE_HASHI_VAULT_ROLE_ID and ANSIBLE_HASHI_VAULT_SECRET_ID are set in your environment"
  const MsgJwt := "Please ensure ANSIBLE_HASHI_VAULT_JWT is set in your environment"
  const MsgJwtRole := "Please ensure ANSIBLE_HASHI_VAULT_JWT_ROLE is set in your environment"
  const MsgNoAuth := "Please ensure VAULT_TOKEN or ANSIBLE_HASHI_VAULT_ROLE_ID and ANSIBLE_HASHI_VAULT_SECRET_ID are set in your environment"
  const MsgUnauthorized := "Unable to authenticate to the Vault service"

  /** The exceptions that end a run of `parse`. */
  datatype Error =
    | ParserError(message: string)   // AnsibleParserError
    | Unauthorized(message: string)  // hvac.exceptions.Unauthorized
    | MissingKey(key: string)        // KeyError from indexing the configuration
    | ListFailed(path: string)       // list_secrets raised
    | ReadFailed(path: string)       // read_secret_version raised

  datatype Result<T> = Ok(value: T) | Err(error: Error)

  datatype Option<T> = None | Some(value: T)

  datatype Outcome = Pass | Fail(error: Error)

  /** The three credential sets the plugin can log in with. */
  datatype Credentials =
    | Token(token: string)
    | AppRole(roleId: string, secretId: string)
    | Jwt(jwt: string, role: string)

  datatype AuthMethod = TokenAuth | AppRoleAuth | JwtAuth

  function MethodOf(c: Credentials): AuthMethod {
    match c
    case Token(_) => TokenAuth
    case AppRole(_, _) => AppRoleAuth
    case Jwt(_, _) => JwtAuth
  }

  /**
   * Whether the session is authenticated after a client bound to the URL has
   * logged in with the credentials.
   */
  type Login = (string, Credentials) -> bool

  /** What the environment and configuration checks yield. */
  datatype Settings = Settings(url: string, caCert: string, secretPath: string)

  /** An authenticated client session. */
  datatype Session = Session(url: string, credentials: Credentials)

  /** Everything the inventory-building tail of `parse` needs. */
  datatype Plan = Plan(session: Session, mountPoint: string, secretPath: string)

  predicate EndsWith(s: string, suffix: string) {
    |suffix| <= |s| && s[|s| - |suffix|..] == suffix
  }

  /**
   * `verify_file`: the base plugin's check (the file exists and is readable)
   * is the input `baseAccepts`; the plugin then looks only at the suffix.
   */
  function VerifyFile(baseAccepts: bool, path: string): (valid: bool)
    ensures valid ==> baseAccepts
  {
    baseAccepts && (EndsWith(path, YamlSuffix) || EndsWith(path, YmlSuffix))
  }

  /**
   * The checks at the start of `parse`: VAULT_ADDR, then VAULT_CACERT, then
   * the configuration's `vault_secret_path`.
   */
  function ResolveSettings(env: Env, config: Config): (r: Result<Settings>)
    ensures r.Ok? ==> VaultAddr in env && r.value.url == env[VaultAddr]
    ensures r.Ok? ==> VaultCaCert in env && r.value.caCert == env[VaultCaCert]
    ensures r.Ok? ==> SecretPathKey in config && r.value.secretPath == config[SecretPathKey]
    ensures r.Ok? <==> VaultAddr in env && VaultCaCert in env && SecretPathKey in config
    ensures r.Err? ==> r.error.ParserError?
  {
    if VaultAddr !in env then Err(ParserError(MsgAddr))
    else if VaultCaCert !in env then Err(ParserError(MsgCaCert))
    else if SecretPathKey !in config then Err(ParserError(MsgSecretPath))
    else Ok(Settings(env[VaultAddr], env[VaultCaCert], config[SecretPathKey]))
  }

  /** Every field of the credentials is the value of its variable in the environment. */
  predicate FromEnvironment(env: Env, c: Credentials) {
    match c
    case Token(t) => VaultToken in env && env[VaultToken] == t
    case AppRole(r, s) => RoleId in env && env[RoleId] == r && SecretId in env && env[SecretId] == s
    case Jwt(j, r) => JwtVar in env && env[JwtVar] == j && JwtRole in env && env[JwtRole] == r
  }

  /**
   * The `if/elif/elif/else` chain of `parse` that picks the credentials.
   * The `is None` tests on a variable just found `in os.environ` are kept as
   * in the plugin; `SelectCredentialsDeadChecks` shows they never fire.
   */
  function SelectCredentials(env: Env): (r: Result<Credentials>)
    ensures r.Ok? ==> FromEnvironment(env, r.value)
    ensures r.Err? ==> r.error.ParserError?
  {
    if VaultToken in env then
      var token := if VaultToken in env then Some(env[VaultToken]) else None;
      if token.None? then Err(ParserError(MsgToken))
      else Ok(Token(token.value))
    else if RoleId in env then
      var roleId := if RoleId in env then Some(env[RoleId]) else None;
      if roleId.None? then Err(ParserError(MsgAppRole))
      else if SecretId !in env then Err(ParserError(MsgAppRole))
      else Ok(AppRole(roleId.value, env[SecretId]))
    else if JwtVar in env then
      var jwt := if JwtVar in env then Some(env[JwtVar]) else None;
      if jwt.None? then Err(ParserError(MsgJwt))
      else if JwtRole !in env then Err(ParserError(MsgJwtRole))
      else Ok(Jwt(jwt.value, env[JwtRole]))
    else Err(ParserError(MsgNoAuth))
  }

  /**
   * Build a client for the URL, log in with the credentials and ask whether
   * the session is authenticated.
   */
  function Authenticate(url: string, c: Credentials, login: Login): (r: Result<Session>)
    ensures r.Ok? <==> login(url, c)
    ensures r.Ok? ==> r.value == Session(url, c)
    ensures r.Err? ==> r.error == Unauthorized(MsgUnauthorized)
  {
    if login(url, c) then Ok(Session(url, c)) else Err(Unauthorized(MsgUnauthorized))
  }

  /**
   * Lines 64-139 of `parse`: the environment and configuration checks, the
   * choice and use of an authentication method, then `config['vault_mount_point']`.
   */
  function Prepare(env: Env, config: Config, login: Login): (r: Result<Plan>)
    ensures r.Ok? ==> FromEnvironment(env, r.value.session.credentials)
    ensures r.Ok? ==> login(r.value.session.url, r.value.session.credentials)
  {
    match ResolveSettings(env, config)
    case Err(e) => Err(e)
    case Ok(settings) =>
      match SelectCredentials(env)
      case Err(e) => Err(e)
      case Ok(credentials) =>
        match Authenticate(settings.url, credentials, login)
        case Err(e) => Err(e)
        case Ok(session) =>
          if MountPointKey !in config then Err(MissingKey(MountPointKey))
          else Ok(Plan(session, config[MountPointKey], config[SecretPathKey]))
  }

  // ---------------------------------------------------------------------
  // Properties

  /** Python's `endswith`: the string is some prefix followed by the suffix. */
  lemma EndsWithConcat(s: string, suffix: string)
    ensures EndsWith(s, suffix) <==> exists p :: s == p + suffix
  {
    if exists p :: s == p + suffix {
      var p :| s == p + suffix;
      assert s[|s| - |suffix|..] == suffix;
    }
    if EndsWith(s, suffix) {
      assert s == s[..|s| - |suffix|] + suffix;
    }
  }

  /** A path is accepted exactly when the base check passes and it ends in one of the two names. */
  lemma VerifyFileExactSuffixes(baseAccepts: bool, path: string)
    ensures VerifyFile(baseAccepts, path) <==>
      baseAccepts && ((exists p :: path == p + YamlSuffix) || (exists p :: path == p + YmlSuffix))
  {
    EndsWithConcat(path, YamlSuffix);
    EndsWithConcat(path, YmlSuffix);
  }

  /** The first failing check is the one reported, whatever the rest of the input. */
  lemma ValidationOrder(env: Env, config: Config, login: Login)
    ensures VaultAddr !in env ==> Prepare(env, config, login) == Err(ParserError(MsgAddr))
    ensures VaultAddr in env && VaultCaCert !in env ==>
      Prepare(env, config, login) == Err(ParserError(MsgCaCert))
    ensures VaultAddr in env && VaultCaCert in env && SecretPathKey !in config ==>
      Prepare(env, config, login) == Err(ParserError(MsgSecretPath))
  {
  }

  /** No authentication is attempted before the settings are complete: the login is not consulted. */
  lemma ValidationBeforeLogin(env: Env, config: Config, login1: Login, login2: Login)
    requires ResolveSettings(env, config).Err?
    ensures Prepare(env, config, login1) == Prepare(env, config, login2) == Err(ResolveSettings(env, config).error)
  {
  }

  /** The order in which the plugin tries the authentication methods, by the variable that selects each. */
  const Precedence: seq<(string, AuthMethod)> := [(VaultToken, TokenAuth), (RoleId, AppRoleAuth), (JwtVar, JwtAuth)]

  /** The method of the first entry of `order` whose selecting variable is set. */
  function FirstConfigured(env: Env, order: seq<(string, AuthMethod)>): (m: Option<AuthMethod>)
    ensures m.None? <==> forall i :: 0 <= i < |order| ==> order[i].0 !in env
    ensures m.Some? ==> exists i :: 0 <= i < |order| && order[i].0 in env && m.value == order[i].1
                                    && forall j :: 0 <= j < i ==> order[j].0 !in env
  {
    if order == [] then None
    else if order[0].0 in env then Some(order[0].1)
    else
      var m := FirstConfigured(env, order[1..]);
      assert forall i :: 1 <= i < |order| ==> order[i] == order[1..][i - 1];
      m
  }

  /** The variable that must accompany a method's selecting variable, with its error message. */
  function Companion(m: AuthMethod): Option<(string, string)> {
    match m
    case TokenAuth => None
    case AppRoleAuth => Some((SecretId, MsgAppRole))
    case JwtAuth => Some((JwtRole, MsgJwtRole))
  }

  /**
   * The selection agrees with the precedence list: the first configured
   * method is used; it fails exactly when its companion variable is missing,
   * with that method's message; with no method configured the "no auth" error.
   */
  lemma SelectionFollowsPrecedence(env: Env)
    ensures FirstConfigured(env, Precedence).None? ==> SelectCredentials(env) == Err(ParserError(MsgNoAuth))
    ensures FirstConfigured(env, Precedence).Some? ==>
      var m := FirstConfigured(env, Precedence).value;
      match Companion(m)
      case None => SelectCredentials(env).Ok? && MethodOf(SelectCredentials(env).value) == m
      case Some(companion) =>
        if companion.0 in env then SelectCredentials(env).Ok? && MethodOf(SelectCredentials(env).value) == m
        else SelectCredentials(env) == Err(ParserError(companion.1))
  {
    var rest := [(RoleId, AppRoleAuth), (JwtVar, JwtAuth)];
    assert Precedence[1..] == rest;
    assert rest[1..] == [(JwtVar, JwtAuth)];
    if VaultToken in env {
      assert FirstConfigured(env, Precedence) == Some(TokenAuth);
    } else if RoleId in env {
      assert FirstConfigured(env, Precedence) == FirstConfigured(env, rest) == Some(AppRoleAuth);
    } else if JwtVar in env {
      assert FirstConfigured(env, rest) == FirstConfigured(env, rest[1..]) == Some(JwtAuth);
    } else {
      assert FirstConfigured(env, rest[1..]) == FirstConfigured(env, rest[1..][1..]);
    }
  }

  /** VAULT_TOKEN wins whatever else is set. */
  lemma TokenTakesPrecedence(env: Env)
    requires VaultToken in env
    ensures SelectCredentials(env) == Ok(Token(env[VaultToken]))
  {
  }

  /** The `is None` checks after an `in os.environ` test never report. */
  lemma SelectCredentialsDeadChecks(env: Env)
    ensures SelectCredentials(env) != Err(ParserError(MsgToken))
    ensures SelectCredentials(env) != Err(ParserError(MsgJwt))
    ensures SelectCredentials(env) == Err(ParserError(MsgAppRole)) ==> RoleId in env && SecretId !in env
  {
  }

  /**
   * When the settings are complete but no usable credentials are configured,
   * the run ends with the selection's error before any client is built: the
   * login is not consulted.
   */
  lemma SelectionFailureBeforeLogin(env: Env, config: Config, login1: Login, login2: Login)
    requires ResolveSettings(env, config).Ok? && SelectCredentials(env).Err?
    ensures Prepare(env, config, login1) == Prepare(env, config, login2) == Err(SelectCredentials(env).error)
  {
  }

  /**
   * If the session is not authenticated after login, the run stops with
   * Unauthorized, whichever method was used.
   */
  lemma RejectedLoginIsUnauthorized(env: Env, config: Config, login: Login)
    requires ResolveSettings(env, config).Ok? && SelectCredentials(env).Ok?
    requires !login(env[VaultAddr], SelectCredentials(env).value)
    ensures Prepare(env, config, login) == Err(Unauthorized(MsgUnauthorized))
  {
  }

  /**
   * With the settings and credentials present and the login accepted, the
   * run is prepared exactly when `vault_mount_point` is configured; without
   * it the lookup `config['vault_mount_point']` fails.
   */
  lemma MountPointAfterLogin(env: Env, config: Config, login: Login)
    requires ResolveSettings(env, config).Ok? && SelectCredentials(env).Ok?
    requires login(env[VaultAddr], SelectCredentials(env).value)
    ensures MountPointKey in config ==> Prepare(env, config, login).Ok?
    ensures MountPointKey !in config ==> Prepare(env, config, login) == Err(MissingKey(MountPointKey))
  {
  }

  /**
   * A successful preparation used the selected credentials at VAULT_ADDR and
   * carries the configured secret path and mount point.
   */
  lemma PrepareSucceeds(env: Env, config: Config, login: Login)
    requires Prepare(env, config, login).Ok?
    ensures var plan := Prepare(env, config, login).value;
      && plan.session == Session(env[VaultAddr], SelectCredentials(env).value)
      && MountPointKey in config && plan.mountPoint == config[MountPointKey]
      && SecretPathKey in config && plan.secretPath == config[SecretPathKey]
  {
  }
}
