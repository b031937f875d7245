/** `getConnectionString` of the migration-tool configuration: derives the
    PostgreSQL connection string from `SUPABASE_URL` and, for a cloud HTTPS
    endpoint, `SUPABASE_SERVICE_ROLE_KEY`. The environment is passed in: None
    stands for an unset variable. */
module DrizzleConfig {
  import opened JsSemantics

  const MissingUrl := "Missing required environment variable: SUPABASE_URL"
  const MissingKey := "Missing required environment variable: SUPABASE_SERVICE_ROLE_KEY"
  const InvalidFormat := "Invalid SUPABASE_URL format. Must start with 'https://' or 'postgresql://'"

  const Https := "https://"
  const PostgresqlScheme := "postgresql://"
  const PostgresScheme := "postgres://"

  /** An environment variable passes `!x`: it is set and not empty. */
  predicate IsSet(v: Option<string>) {
    v.Some? && v.value != ""
  }

  /** Already a PostgreSQL connection string. */
  predicate IsPostgresUrl(s: string) {
    StartsWith(s, PostgresqlScheme) || StartsWith(s, PostgresScheme)
  }

  /** The replacement text for `https://`, with the key spliced in. */
  function CredentialsPrefix(key: string): string {
    "postgresql://postgres:" + key + "@"
  }

  function GetConnectionString(supabaseUrl: Option<string>, serviceRoleKey: Option<string>): (r: Result<string>)
    ensures r.Ok? ==> IsPostgresUrl(r.value)
    ensures r.Err? ==> r.message in {MissingUrl, MissingKey, InvalidFormat}
    ensures !IsSet(supabaseUrl) ==> r == Err(MissingUrl)
    ensures IsSet(supabaseUrl) && IsPostgresUrl(supabaseUrl.value) ==> r == Ok(supabaseUrl.value)
  {
    if !IsSet(supabaseUrl) then Err(MissingUrl)
    else
      var url := supabaseUrl.value;
      if IsPostgresUrl(url) then Ok(url)
      else if StartsWith(url, Https) then
        if !IsSet(serviceRoleKey) then Err(MissingKey)
        else
          var result := Replace(url, Https, CredentialsPrefix(serviceRoleKey.value)) + "/postgres";
          HttpsRewriteHasScheme(url, serviceRoleKey.value);
          StartsWithPrefix(result, PostgresqlScheme, "postgres:");
          Ok(result)
      else Err(InvalidFormat)
  }

  /** Whatever the key holds, rewriting an `https://` URL yields a `postgresql://`
      string that carries the whole remainder of the URL and ends in `/postgres`. */
  lemma HttpsRewriteHasScheme(url: string, key: string)
    requires StartsWith(url, Https)
    ensures var r := Replace(url, Https, CredentialsPrefix(key)) + "/postgres";
      var tail := url[|Https|..] + "/postgres";
      && StartsWith(r, "postgresql://postgres:")
      && |tail| <= |r| && r[|r| - |tail|..] == tail
  {
    var head := "postgresql://postgres:";
    var rest := url[|Https|..];
    var expanded := Substitution(key + "@", Https, "", rest);
    assert CredentialsPrefix(key) == head + (key + "@");
    SubstitutionOfLiteralPrefix(head, key + "@", Https, "", rest);
    var r := Replace(url, Https, CredentialsPrefix(key)) + "/postgres";
    var tail := rest + "/postgres";
    assert r == head + expanded + tail;
    assert r[..|head|] == head;
    assert r[|r| - |tail|..] == tail;
  }

  /** An `https://` URL with a set key takes the rewriting branch. */
  lemma HttpsBranch(rest: string, key: string)
    requires key != ""
    ensures GetConnectionString(Some(Https + rest), Some(key)) ==
      Ok(Substitution(CredentialsPrefix(key), Https, "", rest) + rest + "/postgres")
  {
    var url := Https + rest;
    assert StartsWith(url, Https) && url[|Https|..] == rest;
    assert !StartsWith(url, PostgresqlScheme) && !StartsWith(url, PostgresScheme) by {
      assert url[4] == 's';
    }
  }

  /** The cloud case: `https://R` with key `K` becomes
      `postgresql://postgres:K@R/postgres`, when `K` holds no `$` (a `$` would be
      read as a replacement pattern by `String.prototype.replace`). */
  lemma HttpsRewrite(rest: string, key: string)
    requires key != "" && '$' !in key
    ensures GetConnectionString(Some(Https + rest), Some(key)) ==
      Ok("postgresql://postgres:" + key + "@" + rest + "/postgres")
  {
    HttpsBranch(rest, key);
    assert '$' !in CredentialsPrefix(key);
    SubstitutionOfLiteral(CredentialsPrefix(key), Https, "", rest);
  }

  /** `$&` expands to the match and `$'` to the text after it. */
  lemma PatternTemplateExpansion(rest: string, k: string)
    requires '$' !in k
    ensures Substitution(CredentialsPrefix(k + "$&$'"), Https, "", rest) ==
      "postgresql://postgres:" + k + Https + rest + "@"
  {
    var head, template := "postgresql://postgres:" + k, "$&$'@";
    assert template[0] == '$' && template[1] == '&' && template[2..] == "$'@";
    var u := "$'@";
    assert u[0] == '$' && u[1] == '\'' && u[2..] == "@";
    assert Substitution("@", Https, "", rest) == "@";
    assert Substitution(template, Https, "", rest) == Https + (rest + "@");
    assert CredentialsPrefix(k + "$&$'") == head + template;
    assert '$' !in head;
    SubstitutionOfLiteralPrefix(head, template, Https, "", rest);
  }

  /** A key with replacement patterns is expanded, not spliced in literally:
      in a key ending in `$&$'`, `$&` inserts the matched `https://` and `$'`
      the rest of the URL. */
  lemma KeyPatternsExpanded(rest: string, k: string)
    requires '$' !in k
    ensures GetConnectionString(Some(Https + rest), Some(k + "$&$'")) ==
      Ok("postgresql://postgres:" + k + Https + rest + "@" + rest + "/postgres")
  {
    HttpsBranch(rest, k + "$&$'");
    PatternTemplateExpansion(rest, k);
  }

  /** `s` does not start with `p` when they differ at index `k`. */
  lemma DiffersAt(s: string, p: string, k: nat)
    requires k < |s| && k < |p| && s[k] != p[k]
    ensures !StartsWith(s, p)
  {
  }

  /** An `https://` URL without a usable key is refused with the key's name. */
  lemma HttpsNeedsKey(url: string, serviceRoleKey: Option<string>)
    requires StartsWith(url, Https) && !IsSet(serviceRoleKey)
    ensures GetConnectionString(Some(url), serviceRoleKey) == Err(MissingKey)
  {
    assert !StartsWith(url, PostgresqlScheme) && !StartsWith(url, PostgresScheme) by {
      assert url[4] == 's';
    }
  }

  /** Any other scheme is refused. */
  lemma OtherSchemesRejected(url: string, serviceRoleKey: Option<string>)
    requires url != "" && !IsPostgresUrl(url) && !StartsWith(url, Https)
    ensures GetConnectionString(Some(url), serviceRoleKey) == Err(InvalidFormat)
  {
  }

  /** The comparison is case-sensitive and `http://` is not `https://`. */
  lemma SampleSchemesRejected(serviceRoleKey: Option<string>)
    ensures GetConnectionString(Some("http://db"), serviceRoleKey) == Err(InvalidFormat)
    ensures GetConnectionString(Some("HTTPS://db"), serviceRoleKey) == Err(InvalidFormat)
    ensures GetConnectionString(Some("mysql://db"), serviceRoleKey) == Err(InvalidFormat)
  {
    DiffersAt("http://db", PostgresqlScheme, 0);
    DiffersAt("http://db", PostgresScheme, 0);
    DiffersAt("http://db", Https, 4);
    OtherSchemesRejected("http://db", serviceRoleKey);
    DiffersAt("HTTPS://db", PostgresqlScheme, 0);
    DiffersAt("HTTPS://db", PostgresScheme, 0);
    DiffersAt("HTTPS://db", Https, 0);
    OtherSchemesRejected("HTTPS://db", serviceRoleKey);
    DiffersAt("mysql://db", PostgresqlScheme, 0);
    DiffersAt("mysql://db", PostgresScheme, 0);
    DiffersAt("mysql://db", Https, 0);
    OtherSchemesRejected("mysql://db", serviceRoleKey);
  }

  /** A connection string is derived exactly when the URL is set and is either
      already a PostgreSQL URL or an HTTPS URL with a key. */
  lemma SucceedsExactlyWhen(supabaseUrl: Option<string>, serviceRoleKey: Option<string>)
    ensures GetConnectionString(supabaseUrl, serviceRoleKey).Ok? <==>
      IsSet(supabaseUrl) && (IsPostgresUrl(supabaseUrl.value) || (StartsWith(supabaseUrl.value, Https) && IsSet(serviceRoleKey)))
  {
  }

  /** Deriving again from a derived connection string returns it unchanged,
      whatever the key is then. */
  lemma Idempotent(supabaseUrl: Option<string>, serviceRoleKey: Option<string>, laterKey: Option<string>)
    requires GetConnectionString(supabaseUrl, serviceRoleKey).Ok?
    ensures var s := GetConnectionString(supabaseUrl, serviceRoleKey).value;
      GetConnectionString(Some(s), laterKey) == Ok(s)
  {
  }
}
