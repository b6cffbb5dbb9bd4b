/**
 * The backend configuration: environment lookups with defaults, the database port as a
 * number and the server's listen address. The environment is a map; a variable that is
 * absent reads as the empty string, as `os.Getenv` returns it.
 */
module Config {
  import opened Wrappers
  import opened Text

  type Env = map<string, string>

  /** `os.Getenv`. */
  function Getenv(env: Env, key: string): string {
    if key in env then env[key] else ""
  }

  /** `getEnv`: the variable's value, or the default when it is unset or empty. */
  function GetEnv(env: Env, key: string, default: string): (r: string)
    ensures (key in env && env[key] != "") ==> r == env[key]
    ensures (key !in env || env[key] == "") ==> r == default
  {
    var value := Getenv(env, key);
    if value == "" then default else value
  }

  /** A default can only be read through an unset or empty variable, and a set value is never replaced. */
  lemma GetEnvNeverEmptyUnlessDefault(env: Env, key: string, default: string)
    ensures GetEnv(env, key, default) == "" ==> default == ""
    ensures GetEnv(env, key, default) != default ==> key in env && GetEnv(env, key, default) == env[key]
  {
  }

  datatype Config = Config(dbHost: string, dbUser: string, dbPassword: string, dbName: string, dbPort: string,
                           jwtSecret: string, jwtRefreshSecret: string)

  /**
   * `LoadConfig`: an error from loading the `.env` file is returned as it is; otherwise
   * every field is its variable or its default. `env` is the environment after the file
   * was loaded.
   */
  function LoadConfig(env: Env, dotenvError: Option<string>): (r: Result<Config, string>)
    ensures dotenvError.Some? <==> r.Err?
    ensures r.Err? ==> r.error == dotenvError.value
    ensures r.Ok? ==> (r.value.dbHost == GetEnv(env, "DB_HOST", "localhost")
                   && r.value.dbUser == GetEnv(env, "DB_USER", "vomo_admin")
                   && r.value.dbPassword == GetEnv(env, "DB_PASSWORD", "vomo_admin_123@#$")
                   && r.value.dbName == GetEnv(env, "DB_NAME", "vomo_production_managament")
                   && r.value.dbPort == GetEnv(env, "DB_PORT", "5432")
                   && r.value.jwtSecret == GetEnv(env, "JWT_SECRET", "your-secret-key")
                   && r.value.jwtRefreshSecret == GetEnv(env, "JWT_REFRESH_SECRET", "your-refresh-secret-key"))
  {
    if dotenvError.Some? then Err(dotenvError.value)
    else Ok(Config(GetEnv(env, "DB_HOST", "localhost"),
                   GetEnv(env, "DB_USER", "vomo_admin"),
                   GetEnv(env, "DB_PASSWORD", "vomo_admin_123@#$"),
                   GetEnv(env, "DB_NAME", "vomo_production_managament"),
                   GetEnv(env, "DB_PORT", "5432"),
                   GetEnv(env, "JWT_SECRET", "your-secret-key"),
                   GetEnv(env, "JWT_REFRESH_SECRET", "your-refresh-secret-key")))
  }

  /** In an empty environment every field is its default, and the port reads as 5432. */
  lemma EmptyEnvironmentDefaults()
    ensures LoadConfig(map[], None) == Ok(Config("localhost", "vomo_admin", "vomo_admin_123@#$",
                                                 "vomo_production_managament", "5432", "your-secret-key",
                                                 "your-refresh-secret-key"))
    ensures GetDBPortInt(LoadConfig(map[], None).value) == 5432
  {
    var c := LoadConfig(map[], None).value;
    assert c.dbPort == "5432";
    assert AtoiSyntax("5432") by {
      assert AllDigits("5432");
    }
    assert SignedValue("5432") == 5432 by {
      assert DigitsValue("5432") == 5432 by {
        assert "5432"[..3] == "543" && "543"[..2] == "54" && "54"[..1] == "5" && "5"[..0] == "";
      }
    }
  }

  /**
   * `GetDBPortInt`: the port as a number, or 5432 when it does not parse. A port written as
   * an optional sign and decimal digits within the 64-bit range reads as its decimal value;
   * any other text, and a value out of range, reads as 5432.
   */
  function GetDBPortInt(c: Config): (port: int)
    ensures AtoiSyntax(c.dbPort) && MinInt64 <= SignedValue(c.dbPort) <= MaxInt64 ==> port == SignedValue(c.dbPort)
    ensures !AtoiSyntax(c.dbPort) || !(MinInt64 <= SignedValue(c.dbPort) <= MaxInt64) ==> port == 5432
    ensures MinInt64 <= port <= MaxInt64
  {
    match Atoi(c.dbPort)
    case Some(p) => p
    case None => 5432
  }

  /**
   * A `DB_PORT` written as the decimal digits of a port number reaches the driver as that
   * number: the loaded configuration keeps the text and `GetDBPortInt` reads it back.
   */
  lemma DecimalPortRoundTrip(env: Env, p: nat)
    requires "DB_PORT" in env && env["DB_PORT"] == DecimalString(p) && p <= MaxInt64
    ensures LoadConfig(env, None).Ok? && GetDBPortInt(LoadConfig(env, None).value) == p
  {
    DecimalStringRoundTrip(p);
  }

  /** A port that does not parse, empty or with a space in it, reads as 5432; a negative one is kept. */
  lemma PortFallbacks(c: Config)
    ensures c.dbPort == "" ==> GetDBPortInt(c) == 5432
    ensures (c.dbPort == "54 32") ==> GetDBPortInt(c) == 5432
    ensures (c.dbPort == "-1") ==> GetDBPortInt(c) == -1
  {
    assert !IsDigit("54 32"[2]);
    assert "-1"[1..] == "1";
    assert DigitsValue("1") == 1 by { assert "1"[..0] == ""; }
  }

  /** `GetServerPort`: ":" followed by SERVER_PORT, or ":8080"; read from the environment, not the config. */
  function GetServerPort(env: Env): (addr: string)
    ensures |addr| >= 1 && addr[0] == ':'
    ensures (ServerPortSet(env)) ==> addr == ":" + env["SERVER_PORT"]
    ensures !ServerPortSet(env) ==> addr == ":8080"
  {
    ":" + GetEnv(env, "SERVER_PORT", "8080")
  }

  predicate ServerPortSet(env: Env) {
    "SERVER_PORT" in env && env["SERVER_PORT"] != ""
  }
}
