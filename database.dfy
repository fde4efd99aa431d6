/** The MySQLDatabase service of MySQLDatabase.swift: stored connection settings and the logger. */
module FluentDatabase {
  import opened Wrappers
  import opened Text

  type uint16 = p: int | 0 <= p < 0x1_0000

  const DefaultPort: uint16 := 3306
  const SchemePrefix: string := "mysql://"
  const ReconnectSuffix: string := "?reconnect=true"

  /** A query logger, held by reference; its behaviour is not part of this model. */
  class DatabaseLogger {
    constructor ()
    {
    }
  }

  /** The pieces `init(databaseURL:)` takes the settings from. */
  function Tokens(databaseURL: string): (r: seq<string>)
    ensures forall k | 0 <= k < |r| :: r[k] != [] && NoSeparator(r[k])
  {
    Split(RemoveAll(RemoveAll(databaseURL, SchemePrefix), ReconnectSuffix))
  }

  class MySQLDatabase {
    const hostname: string
    const port: uint16
    const user: string
    const password: Option<string>
    const database: string
    var logger: DatabaseLogger?

    /** `init(hostname:port:user:password:database:)`: stores every setting as given; no logger yet. */
    constructor (hostname: string, port: uint16 := DefaultPort, user: string, password: Option<string>, database: string)
      ensures this.hostname == hostname && this.port == port && this.user == user
      ensures this.password == password && this.database == database
      ensures logger == null
    {
      this.hostname := hostname;
      this.port := port;
      this.user := user;
      this.password := password;
      this.database := database;
      logger := null;
    }

    /**
     * `init(databaseURL:)`: tokens 0 to 3 are user, password, host and database; the
     * port keeps its default. With fewer than four tokens `tokens[3]` traps.
     */
    constructor FromURL(databaseURL: string)
      requires |Tokens(databaseURL)| >= 4
      ensures user == Tokens(databaseURL)[0] && password == Some(Tokens(databaseURL)[1])
      ensures hostname == Tokens(databaseURL)[2] && database == Tokens(databaseURL)[3]
      ensures port == DefaultPort && logger == null
    {
      var tokens := Tokens(databaseURL);
      var username, password, host, database := tokens[0], tokens[1], tokens[2], tokens[3];
      this.hostname := host;
      this.port := DefaultPort;
      this.user := username;
      this.password := Some(password);
      this.database := database;
      logger := null;
    }

    /** `enableLogging(using:)`: installs the logger; the settings are constants and stay as they are. */
    method EnableLogging(logger: DatabaseLogger)
      modifies this
      ensures this.logger == logger
    {
      this.logger := logger;
    }
  }

  /** A URL component the parser can carry: non-empty, with none of `@`, `/`, `:` and no `?`. */
  predicate IsComponent(x: string)
  {
    x != [] && NoSeparator(x) && '?' !in x
  }

  /** The URL a ClearDB-style service hands out for the given settings. */
  function URL(user: string, password: string, host: string, database: string, reconnect: bool): (r: string)
  {
    SchemePrefix + Body(user, password, host, database) + (if reconnect then ReconnectSuffix else "")
  }

  function Body(user: string, password: string, host: string, database: string): (r: string)
  {
    user + [':'] + password + ['@'] + host + ['/'] + database
  }

  /** No `:` in s is followed by `/`, so `mysql://` cannot occur in it. */
  predicate NoColonSlash(s: string)
  {
    forall i | 0 <= i < |s| - 1 :: s[i] == ':' ==> s[i + 1] != '/'
  }

  lemma SchemeAbsent(s: string)
    requires NoColonSlash(s)
    ensures RemoveAll(s, SchemePrefix) == s
  {
    forall i: nat | i + |SchemePrefix| <= |s| ensures !OccursAt(s, SchemePrefix, i) {
      assert s[i..i + 8][5] == s[i + 5] && s[i..i + 8][6] == s[i + 6];
    }
    RemoveAllWithoutOccurrence(s, SchemePrefix);
  }

  lemma NoColonSlashAppend(a: string, b: string)
    requires NoColonSlash(a) && NoColonSlash(b)
    requires a != [] && b != [] && a[|a| - 1] == ':' ==> b[0] != '/'
    ensures NoColonSlash(a + b)
  {
    var s := a + b;
    forall i | 0 <= i < |s| - 1 && s[i] == ':' ensures s[i + 1] != '/' {
      if i < |a| - 1 {
        assert s[i] == a[i] && s[i + 1] == a[i + 1];
      } else if i == |a| - 1 {
        assert s[i] == a[i] && s[i + 1] == b[0];
      } else {
        assert s[i] == b[i - |a|] && s[i + 1] == b[i - |a| + 1];
      }
    }
  }

  /** A piece of the URL body that cannot form `://` with its neighbours. */
  predicate Piece(x: string)
  {
    x != [] && NoColonSlash(x) && x[0] != '/' && x[|x| - 1] != ':'
  }

  lemma ComponentIsPiece(x: string)
    requires IsComponent(x)
    ensures Piece(x)
  {
  }

  lemma BodyHasNoColonSlash(user: string, password: string, host: string, database: string, suffix: string)
    requires Piece(user) && Piece(password) && Piece(host) && Piece(database)
    requires NoColonSlash(suffix) && (suffix != [] ==> suffix[0] != '/')
    ensures NoColonSlash(Body(user, password, host, database) + suffix)
  {
    NoColonSlashAppend(user, [':']);
    NoColonSlashAppend(user + [':'], password);
    NoColonSlashAppend(user + [':'] + password, ['@']);
    NoColonSlashAppend(user + [':'] + password + ['@'], host);
    NoColonSlashAppend(user + [':'] + password + ['@'] + host, ['/']);
    NoColonSlashAppend(user + [':'] + password + ['@'] + host + ['/'], database);
    NoColonSlashAppend(Body(user, password, host, database), suffix);
  }

  lemma SuffixHasNoColon()
    ensures NoColonSlash(ReconnectSuffix) && ReconnectSuffix[0] == '?' && ':' !in ReconnectSuffix
  {
  }

  lemma StripScheme(t: string)
    requires NoColonSlash(t)
    ensures RemoveAll(SchemePrefix + t, SchemePrefix) == t
  {
    RemoveAllLeading(SchemePrefix, t);
    SchemeAbsent(t);
  }

  lemma StripSuffix(body: string, reconnect: bool)
    requires '?' !in body
    ensures RemoveAll(body + (if reconnect then ReconnectSuffix else ""), ReconnectSuffix) == body
  {
    var suffix := if reconnect then ReconnectSuffix else "";
    SuffixHasNoColon();
    RemoveAllAfter(body, suffix, ReconnectSuffix);
    if reconnect {
      RemoveAllLeading(ReconnectSuffix, []);
      assert ReconnectSuffix + [] == ReconnectSuffix;
    }
    assert body + [] == body;
  }

  /** Both removals leave a body without `://` and without `?` as it is, and drop the prefix and the optional suffix. */
  lemma StripURL(body: string, reconnect: bool)
    requires NoColonSlash(body) && '?' !in body && body != [] && body[|body| - 1] != ':'
    ensures RemoveAll(RemoveAll(SchemePrefix + body + (if reconnect then ReconnectSuffix else ""), SchemePrefix), ReconnectSuffix) == body
  {
    var suffix := if reconnect then ReconnectSuffix else "";
    assert SchemePrefix + body + suffix == SchemePrefix + (body + suffix);
    SuffixHasNoColon();
    NoColonSlashAppend(body, suffix);
    StripScheme(body + suffix);
    StripSuffix(body, reconnect);
  }

  lemma SplitBody(user: string, password: string, host: string, database: string)
    requires IsComponent(user) && IsComponent(password) && IsComponent(host) && IsComponent(database)
    ensures Split(Body(user, password, host, database)) == [user, password, host, database]
  {
    assert Body(user, password, host, database) == user + [':'] + (password + ['@'] + (host + ['/'] + database));
    SplitOfRunThen(user, ':', password + ['@'] + (host + ['/'] + database));
    SplitOfRunThen(password, '@', host + ['/'] + database);
    SplitOfRunThen(host, '/', database);
    SplitOfRun(database);
  }

  /** The four components of a well-formed URL come back as user, password, host and database. */
  lemma URLTokens(user: string, password: string, host: string, database: string, reconnect: bool)
    requires IsComponent(user) && IsComponent(password) && IsComponent(host) && IsComponent(database)
    ensures Tokens(URL(user, password, host, database, reconnect)) == [user, password, host, database]
  {
    var body := Body(user, password, host, database);
    ComponentIsPiece(user);
    ComponentIsPiece(password);
    ComponentIsPiece(host);
    ComponentIsPiece(database);
    BodyHasNoColonSlash(user, password, host, database, "");
    assert body + "" == body;
    StripURL(body, reconnect);
    SplitBody(user, password, host, database);
  }

  /** Parsing a well-formed URL gives a service with exactly its settings and the default port. */
  method ParseURL(user: string, password: string, host: string, database: string, reconnect: bool)
    returns (db: MySQLDatabase)
    requires IsComponent(user) && IsComponent(password) && IsComponent(host) && IsComponent(database)
    ensures db.user == user && db.password == Some(password) && db.hostname == host
    ensures db.database == database && db.port == DefaultPort
  {
    URLTokens(user, password, host, database, reconnect);
    db := new MySQLDatabase.FromURL(URL(user, password, host, database, reconnect));
  }

  /** A port written into the URL is not parsed: it comes out as token 3, which becomes the database name. */
  lemma PortInURLBecomesDatabase(user: string, password: string, host: string, port: string, database: string)
    requires IsComponent(user) && IsComponent(password) && IsComponent(host) && IsComponent(port) && IsComponent(database)
    ensures Tokens(URL(user, password, host + [':'] + port, database, false)) == [user, password, host, port, database]
  {
    var h := host + [':'] + port;
    var body := Body(user, password, h, database);
    HostWithPortIsPiece(host, port);
    ComponentIsPiece(user);
    ComponentIsPiece(password);
    ComponentIsPiece(database);
    BodyHasNoColonSlash(user, password, h, database, "");
    assert body + "" == body;
    StripURL(body, false);
    SplitBodyWithPort(user, password, host, port, database);
  }

  lemma HostWithPortIsPiece(host: string, port: string)
    requires IsComponent(host) && IsComponent(port)
    ensures Piece(host + [':'] + port)
  {
    NoColonSlashAppend(host, [':']);
    NoColonSlashAppend(host + [':'], port);
  }

  lemma SplitBodyWithPort(user: string, password: string, host: string, port: string, database: string)
    requires IsComponent(user) && IsComponent(password) && IsComponent(host) && IsComponent(port) && IsComponent(database)
    ensures Split(Body(user, password, host + [':'] + port, database)) == [user, password, host, port, database]
  {
    assert Body(user, password, host + [':'] + port, database)
        == user + [':'] + (password + ['@'] + (host + [':'] + (port + ['/'] + database)));
    SplitOfRunThen(user, ':', password + ['@'] + (host + [':'] + (port + ['/'] + database)));
    SplitOfRunThen(password, '@', host + [':'] + (port + ['/'] + database));
    SplitOfRunThen(host, ':', port + ['/'] + database);
    SplitOfRunThen(port, '/', database);
    SplitOfRun(database);
  }
}
