/** The database module's top-level derivation of `connectionString`: the same
    rules as `getConnectionString`, written as an if/else-if chain that assigns a
    variable and throws at module load. A throw is returned as `Err`; the client
    construction that follows is not part of this model. */
module DbIndex {
  import opened JsSemantics
  import opened DrizzleConfig

  /** `assignments` counts the writes to `connectionString`: exactly one on every
      path that does not throw, none on the others. */
  method DeriveConnectionString(supabaseUrl: Option<string>, serviceRoleKey: Option<string>)
    returns (r: Result<string>, ghost assignments: nat)
    ensures r == GetConnectionString(supabaseUrl, serviceRoleKey)
    ensures assignments == (if r.Ok? then 1 else 0)
  {
    assignments := 0;
    if !IsSet(supabaseUrl) {
      return Err(MissingUrl), assignments;
    }
    var connectionString: string;
    if StartsWith(supabaseUrl.value, PostgresqlScheme) || StartsWith(supabaseUrl.value, PostgresScheme) {
      connectionString := supabaseUrl.value;
      assignments := assignments + 1;
    } else if StartsWith(supabaseUrl.value, Https) {
      if !IsSet(serviceRoleKey) {
        return Err(MissingKey), assignments;
      }
      connectionString := Replace(supabaseUrl.value, Https, "postgresql://postgres:" + serviceRoleKey.value + "@") + "/postgres";
      assignments := assignments + 1;
    } else {
      return Err(InvalidFormat), assignments;
    }
    r := Ok(connectionString);
  }
}
