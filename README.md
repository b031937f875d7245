# Users API and connection-string derivation, in Dafny

This project models the two pieces of logic in the Next.js + Supabase user
manager that are not UI or database plumbing:

- **The `/api/users` route** (`app/api/users/route.ts`). GET wraps the result of
  selecting every user in the envelope `{ success, data, error }`. POST reads the
  JSON body and runs three checks in a fixed order:
  1. presence, by JavaScript truthiness of `name` and `email`;
  2. that both are strings;
  3. that `email` matches `^[^\s@]+@[^\s@]+\.[^\s@]+$`.

  Only a request that passes all three reaches the insert. A thrown error becomes
  409 when its `code` is PostgreSQL's SQLSTATE `23505` (`unique_violation`) and
  500 otherwise. The database calls are not simulated: their outcome (rows
  returned, or a value thrown) is a parameter.
- **The connection-string derivation**, which exists twice. `getConnectionString`
  in `drizzle.config.ts` is a pure function (`DrizzleConfig.GetConnectionString`).
  The top-level code of `lib/db/index.ts` is an if/else-if chain that assigns a
  variable (`DbIndex.DeriveConnectionString`, a method proved equal to the
  function). Environment variables are `Option<string>` parameters; an empty
  value counts as missing, as `!x` does.

Modules:

- `JsSemantics`: the ECMAScript behaviour these files rely on. It holds JSON values,
  ToBoolean and the `\s` class. It also holds `startsWith`, StringIndexOf and
  `String.prototype.replace` with a string search value, including the
  GetSubstitution replacement patterns (`$$`, `` $` ``, `$&`, `$'`).
- `EmailCheck`: the email pattern, read as a regular language, and its
  structural description.
- `UsersRoute`: the GET and POST handlers.
- `DrizzleConfig`: `getConnectionString`.
- `DbIndex`: the imperative copy.

`replace` is modelled with its replacement-pattern expansion rather than under a
"the key contains no `$`" precondition. `HttpsRewrite` gives the literal
splice for a `$`-free key. `KeyPatternsExpanded` shows a key ending in `$&$'`
being expanded. The successful result starts with `postgresql://` for every key,
so idempotence holds without any condition on the key.

Two behaviours of the code worth noting:

- A malformed JSON body, or the body `null`, makes the handler throw before
  validation. The result is 500 "Failed to create user", not a 400 validation
  error.
- The error message for an unknown scheme names only `https://` and
  `postgresql://`, but `postgres://` is accepted too.

## Model

| member | source | states |
|---|---|---|
| `JsSemantics.Truthy` | docker/image-01-nextjs-supabase-setup/app/api/users/route.ts:33 | a field is falsy exactly when it is undefined, null, false, 0 or the empty string |
| `JsSemantics.IndexOf` | docker/image-01-nextjs-supabase-setup/drizzle.config.ts:18 | the search that `replace` runs returns an index where the pattern occurs and no earlier index has it, or -1 when it occurs nowhere from the start index on |
| `JsSemantics.Replace` | docker/image-01-nextjs-supabase-setup/drizzle.config.ts:18 | a string without the pattern is returned unchanged; a string that starts with the pattern has exactly that prefix replaced by the expanded template, and the rest is kept |
| `JsSemantics.IsWhitespace` | docker/image-01-nextjs-supabase-setup/app/api/users/route.ts:55 | space, tab, line feed and carriage return are in `\s`; no printable ASCII character is |
| `JsSemantics.StartsWithFoundFirst` | docker/image-01-nextjs-supabase-setup/drizzle.config.ts:10-18 | `startsWith(p)` holds exactly when the first occurrence of `p`, the one `replace` substitutes, is at index 0 |
| `JsSemantics.SubstitutionOfLiteral` | docker/image-01-nextjs-supabase-setup/lib/db/index.ts:20-23 | a replacement template without `$` is inserted literally |
| `JsSemantics.SubstitutionOfLiteralPrefix` | docker/image-01-nextjs-supabase-setup/drizzle.config.ts:18 | a `$`-free start of the template (here `postgresql://postgres:`) survives expansion unchanged, whatever follows it |
| `EmailCheck.MatchesEmailPattern` | docker/image-01-nextjs-supabase-setup/app/api/users/route.ts:55-56 | a matching string has at least five characters and begins and ends with a character of `[^\s@]` |
| `EmailCheck.PatternIffShape` | docker/image-01-nextjs-supabase-setup/app/api/users/route.ts:55-56 | the pattern accepts a string iff it has exactly one '@', no whitespace, a non-empty local part, and a domain with a '.' that is neither its first nor its last character |
| `EmailCheck.ComposedAddressMatches` | docker/image-01-nextjs-supabase-setup/app/api/users/route.ts:55-56 | every `a@b.c` whose three parts are non-empty and free of whitespace and '@' passes |
| `EmailCheck.MissingPartsFail` | docker/image-01-nextjs-supabase-setup/app/api/users/route.ts:55-65 | an email with no '@', or with no '.' inside the domain, fails the test |
| `UsersRoute.Get` | docker/image-01-nextjs-supabase-setup/app/api/users/route.ts:6-25 | success iff the select returned; then 200 with all rows and a null error; otherwise 500 "Failed to fetch users" with null data |
| `UsersRoute.Property` | docker/image-01-nextjs-supabase-setup/app/api/users/route.ts:31 | destructuring yields a value only for a key present in an object body; numbers, strings, booleans and arrays yield undefined |
| `UsersRoute.Validate` | docker/image-01-nextjs-supabase-setup/app/api/users/route.ts:29-65 | only malformed or null bodies throw, and with a code-less error; rejections carry one of the three validation messages; an accepted request has a non-empty string name and a string email of the email shape, both taken unchanged from the body |
| `UsersRoute.StringFieldsClassified` | docker/image-01-nextjs-supabase-setup/app/api/users/route.ts:33-65 | a non-empty string name with a non-empty string email is accepted with those values exactly when the email has the email shape, and otherwise rejected as "Invalid email format" |
| `UsersRoute.IsUniqueViolation` | docker/image-01-nextjs-supabase-setup/app/api/users/route.ts:82 | the thrown value is a violation exactly when it is an object whose `code` is the string "23505"; the code-less parse and destructuring errors never are |
| `UsersRoute.TranslateError` | docker/image-01-nextjs-supabase-setup/app/api/users/route.ts:80-101 | 409 "Email already exists" iff the thrown value is an object whose code is the string "23505"; otherwise 500 "Failed to create user"; always a failure envelope with null data |
| `UsersRoute.Post` | docker/image-01-nextjs-supabase-setup/app/api/users/route.ts:27-102 | status is one of 201/400/409/500; success iff 201, and then the error is null; every failure has null data and an error message; 400 iff validation rejects; 201 iff validation accepts and the insert returns; 409 iff validation accepts and the insert throws a unique violation; a rejection answers 400 with the rejection's own message; a throw before validation or from the insert is answered as the catch block translates that thrown value |
| `UsersRoute.NotAcceptedNeverInserts` | docker/image-01-nextjs-supabase-setup/app/api/users/route.ts:33-67 | a request that validation does not accept gets the same response whatever the insert would do |
| `UsersRoute.FalsyFieldIsRequired` | docker/image-01-nextjs-supabase-setup/app/api/users/route.ts:33-42 | a falsy name or email gives 400 "Name and email are required" |
| `UsersRoute.NonObjectBodyIsRequired` | docker/image-01-nextjs-supabase-setup/app/api/users/route.ts:31-42 | a number, string, boolean or array body gives 400 "Name and email are required", not 500 |
| `UsersRoute.TruthyNonStringIsInvalidType` | docker/image-01-nextjs-supabase-setup/app/api/users/route.ts:33-53 | truthy fields of which one is not a string give 400 "Invalid input types", never "required" |
| `UsersRoute.InvalidEmailOnlyForStrings` | docker/image-01-nextjs-supabase-setup/app/api/users/route.ts:33-65 | "Invalid email format" is answered only when name and email are non-empty strings and the email lacks the email shape |
| `UsersRoute.BlankNameAccepted` | docker/image-01-nextjs-supabase-setup/app/api/users/route.ts:33-56 | a name made only of whitespace characters, in any object body, passes validation with any email of the email shape: the name is never trimmed |
| `UsersRoute.CreatedReturnsRow` | docker/image-01-nextjs-supabase-setup/app/api/users/route.ts:67-79 | an accepted request whose insert returns rows answers 201 with success, the first row as data, and a null error |
| `UsersRoute.UnparsableBodyIsServerError` | docker/image-01-nextjs-supabase-setup/app/api/users/route.ts:28-101 | a malformed body and a `null` body both answer 500 "Failed to create user" |
| `DrizzleConfig.GetConnectionString` | docker/image-01-nextjs-supabase-setup/drizzle.config.ts:4-21 | every result starts with `postgresql://` or `postgres://`; every error is one of the three messages; a missing or empty URL is the SUPABASE_URL error; a PostgreSQL URL is returned unchanged whatever the key |
| `DrizzleConfig.HttpsRewriteHasScheme` | docker/image-01-nextjs-supabase-setup/drizzle.config.ts:18 | for every key, the rewritten HTTPS URL starts with `postgresql://postgres:` and ends with the URL's remainder followed by `/postgres` |
| `DrizzleConfig.HttpsBranch` | docker/image-01-nextjs-supabase-setup/drizzle.config.ts:14-18 | an `https://` URL with a set key yields the expanded credentials template, then the URL's remainder, then `/postgres` |
| `DrizzleConfig.HttpsRewrite` | docker/image-01-nextjs-supabase-setup/drizzle.config.ts:14-18 | `https://R` with a non-empty key `K` free of `$` becomes `postgresql://postgres:K@R/postgres` |
| `DrizzleConfig.KeyPatternsExpanded` | docker/image-01-nextjs-supabase-setup/drizzle.config.ts:18 | a key `k$&$'` (with `k` free of `$`) is expanded by `replace`, not spliced in literally: the result is `postgresql://postgres:k` + `https://R` + `@` + `R` + `/postgres` |
| `DrizzleConfig.HttpsNeedsKey` | docker/image-01-nextjs-supabase-setup/drizzle.config.ts:14-17 | an HTTPS URL with a missing or empty key is the SUPABASE_SERVICE_ROLE_KEY error |
| `DrizzleConfig.OtherSchemesRejected` | docker/image-01-nextjs-supabase-setup/drizzle.config.ts:20 | a set URL with any other prefix is the "Invalid SUPABASE_URL format" error |
| `DrizzleConfig.SampleSchemesRejected` | docker/image-01-nextjs-supabase-setup/drizzle.config.ts:10-20 | `http://`, `HTTPS://` and `mysql://` URLs are rejected: the prefix tests are case-sensitive |
| `DrizzleConfig.SucceedsExactlyWhen` | docker/image-01-nextjs-supabase-setup/drizzle.config.ts:5-20 | a string is derived iff the URL is set and is a PostgreSQL URL, or is an HTTPS URL with a set key |
| `DrizzleConfig.Idempotent` | docker/image-01-nextjs-supabase-setup/drizzle.config.ts:10-18 | deriving again from a derived string returns it unchanged, whatever the key |
| `DbIndex.DeriveConnectionString` | docker/image-01-nextjs-supabase-setup/lib/db/index.ts:5-26 | on every environment the imperative chain gives the same string as `getConnectionString`, or throws the same message; `connectionString` is assigned exactly once on every path that does not throw |

## Left out

- The React pages (`app/page.tsx`, `app/users/*/page.tsx`): rendering, component state, `fetch`, redirects and browser-side form validation.
- The webhook relay route of the second image: a `fetch` forward configured by environment variables.
- The `PUT`/`DELETE` handlers in `app/api/users/[id]/route.ts` are not part of this model. So are the database schema and the store's behaviour: email uniqueness, id and `createdAt` generation, not-found results. The select and insert outcomes are inputs.
- The client construction at lib/db/index.ts:28-30 and `defineConfig` at drizzle.config.ts:24-31 are foreign library calls.
- `request.json()` parsing is abstracted to "a JSON value or a throw". JSON numbers are the real values of the doubles they parse to, so float rounding (for example `1e-400` parsing to 0) is not modelled.
- `EmailCheck.MatchesEmailPattern` reads the pattern as the set of strings it matches, not as a backtracking regular-expression engine. Strings are sequences of Unicode scalar values, not UTF-16 code units; this makes no difference for `\s`, which lists only characters of the Basic Multilingual Plane.
- `NextResponse.json` serialization is reduced to the envelope's three fields. An `undefined` `data` (an insert that returns no rows) is kept as None. The real serializer drops that property.
- A thrown value is abstracted to "not a truthy object" or "an object with or without a string `code`". Getters and proxies on `code` are not modelled.
