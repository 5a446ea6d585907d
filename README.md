# Verified model of a backend-client integration layer

This project models the self-contained logic of a small mobile/web client
layer that wraps a hosted backend SDK (Supabase):

- **Environment resolution** (`src/lib/env.ts`): `readEnv` picks a primary or
  fallback variable from the process environment and rejects blank values;
  `requiredEnv` turns an absent value into an error that lists the candidate
  variable names; the exported `env` object resolves the service URL and the
  anonymous key this way at module load.
- **Result normalisation** (`src/lib/db.ts`): `normalizeDbError` tags a
  backend error with the caller's operation label, `runDb` maps an awaited
  `{ data, error }` response to the tagged `DbResult` union, and `unwrapDb`
  returns the data or throws `[operation] message (code: code)`, the code
  part only when the code is non-empty.
- **Client options** (`src/lib/supabaseClient.ts`): the choice of session
  storage adapter (browser `localStorage`, no-op, native `AsyncStorage`) and
  of the `autoRefreshToken` / `persistSession` / `detectSessionInUrl` flags
  from the platform, and the no-op adapter's behaviour.

Everything is pure Dafny: `process.env` is a `map<string, string>` parameter,
`Platform.OS` and the presence of `window` are an explicit `PlatformInput`,
`null`/`undefined` are `Option.None`, and a thrown `Error` is `Result.Err`
carrying its message. The awaited query is the response value it resolves to.

Files: `wrappers.dfy` (Option, Result), `js_string.dfy` (ECMAScript `trim`
and `join`), `env.dfy`, `db.dfy`, `supabase_client.dfy`.

The primary variable is consulted with `??` (src/lib/env.ts:2), which falls
through only when the primary is absent, so a set but blank primary yields
`undefined` even when the fallback holds a usable value;
`Env.ReadEnvBlankPrimaryHidesFallback` states this.

## Model

| member | source | states |
|---|---|---|
| `JsString.TrimStart` | src/lib/env.ts:3 | the result is a suffix of the input, every dropped character is white space, and the result does not begin with white space |
| `JsString.TrimEnd` | src/lib/env.ts:3 | the result is a prefix of the input, every dropped character is white space, and the result does not end with white space |
| `JsString.Trim` | src/lib/env.ts:3 | `trim()` yields the piece of its input starting where leading white space ends, with only white space before and after it, and neither beginning nor ending with white space |
| `JsString.TrimNonEmptyIff` | src/lib/env.ts:3 | `s.trim().length > 0` holds exactly when `s` has a non-white-space character |
| `JsString.JoinHasItemAt` | src/lib/env.ts:8 | each item of `items.join(sep)` (`Join`) sits in the joined string at its computed offset |
| `JsString.JoinContainsEveryItem` | src/lib/env.ts:8 | every item of a join occurs in the joined string |
| `Env.Lookup` | src/lib/env.ts:2 | `process.env[name]` is defined exactly when the name is set, and then is its value |
| `Env.ReadEnv` | src/lib/env.ts:1-4 | a defined result is non-blank and is the primary's value (primary set) or the fallback's value (primary absent, fallback named) |
| `Env.ReadEnvPrimary` | src/lib/env.ts:2-3 | a set, non-blank primary is returned unchanged, not trimmed, whatever the fallback |
| `Env.ReadEnvBlankPrimaryHidesFallback` | src/lib/env.ts:2-3 | a set but blank primary gives `undefined` even when the fallback is non-blank |
| `Env.ReadEnvFallback` | src/lib/env.ts:2-3 | with the primary absent and a non-empty fallback name, the result is the fallback's value if set and non-blank, else `undefined` |
| `Env.ReadEnvNoFallback` | src/lib/env.ts:2 | with the primary absent and the fallback name missing or empty, the result is `undefined` |
| `Env.RequiredEnv` | src/lib/env.ts:6-12 | fails exactly when the value is undefined or `""`, with the message `MissingMessage`: the fixed prefix and the labels joined by ", "; otherwise returns the value unchanged |
| `Env.RequiredEnvNamesEveryLabel` | src/lib/env.ts:7-8 | every label appears in the error message |
| `Env.Resolve` | src/lib/env.ts:15-22 | `requiredEnv(readEnv(p, f), [p, f])` returns a non-blank string or fails with a message naming both `p` and `f` |
| `Env.ResolveIsReadEnv` | src/lib/env.ts:15-22 | the composition succeeds exactly when `readEnv` finds a value, and returns that value |
| `Env.LoadEnv` | src/lib/env.ts:14-23 | a loaded `env` has a non-blank URL and a non-blank anonymous key |
| `Env.LoadEnvOkIff` | src/lib/env.ts:14-23 | loading succeeds exactly when both variable pairs resolve, with the resolved values |
| `Env.LoadEnvMissingUrl` | src/lib/env.ts:15-18 | with neither URL variable set, loading fails naming `SUPABASE_URL` and `EXPO_PUBLIC_SUPABASE_URL` |
| `Env.LoadEnvMissingAnonKey` | src/lib/env.ts:19-22 | with the URL found and neither key variable set, loading fails naming both key variables |
| `Db.DbResult.DataField` | src/lib/db.ts:14-22 | the success payload is there exactly on the success variant, and is its data; on failure it is `null` (a success payload may itself be `null`) |
| `Db.DbResult.ErrorField` | src/lib/db.ts:14-22 | `error` is non-null exactly on the failure variant, and is its failure |
| `Db.ExactlyOneField` | src/lib/db.ts:14-22 | exactly one variant holds: the payload is there exactly when `error` is null, and `error` is non-null exactly on failure |
| `Db.NormalizeDbError` | src/lib/db.ts:24-30 | code and message are copied, a null details or hint becomes `undefined` and a present one is kept, and the operation is exactly the label passed |
| `Db.NormalizeDbErrorRoundTrip` | src/lib/db.ts:24-30 | the backend error and the label can be recovered from the failure, and every failure is the normalisation of its parts |
| `Db.RunDb` | src/lib/db.ts:32-49 | an error response gives the failure variant with null data and the normalised error; an error-free response gives the success variant with the data unchanged and a null error |
| `Db.RunDbLabelsFailure` | src/lib/db.ts:38-43 | a failure from `runDb` carries exactly the caller's label and the backend error's fields |
| `Db.UnwrapDb` | src/lib/db.ts:51-61 | success returns the data itself; failure throws the formatted message `FailureMessage` |
| `Db.FailureMessageShape` | src/lib/db.ts:53-57 | `FailureMessage` with its `CodeSuffix`: the message starts with `[operation] message`, and ` (code: code)` is appended if and only if the code is non-empty |
| `Db.FailureMessageNamesOperation` | src/lib/db.ts:53-54 | the operation label can be read back from the message when it has no `]` of its own |
| `Db.RunThenUnwrapFailure` | src/lib/db.ts:32-61 | an error response, run and unwrapped, throws a message starting with `[operation] ` and containing the backend message |
| `Db.RunThenUnwrapSuccess` | src/lib/db.ts:32-61 | an error-free response, run and unwrapped, returns its data unchanged |
| `SupabaseClient.StorageDecisionTable` | src/lib/supabaseClient.ts:32-33 | `SelectStorage`: web with a window selects the browser adapter, web without one the no-op adapter, any other platform the native adapter, each if and only if |
| `SupabaseClient.AuthOptionFlags` | src/lib/supabaseClient.ts:32-40 | `SelectAuthOptions`: refresh and persistence are equal and true exactly when not web or a window exists; persistence is off exactly when the no-op adapter is chosen; URL detection is always off |
| `SupabaseClient.NoopGetAfterSet` | src/lib/supabaseClient.ts:26-30 | the no-op `getItem` (`NoopGetItem`) is null for every key, also after `setItem`; `setItem` and `removeItem` (`NoopSetItem`, `NoopRemoveItem`) leave the state unchanged |
| `SupabaseClient.ClientSetup` | src/lib/supabaseClient.ts:35-42 | the client is configured exactly when `env` loads, with exactly `env`'s URL and key (both non-blank) and the platform's auth options; otherwise the environment error is thrown |
| `SupabaseClient.ClientSetupFailsWithoutUrl` | src/lib/supabaseClient.ts:35-42 | with neither URL variable set the client cannot be built, and the error names both URL variables |

## Left out

- `src/lib/auth.ts`: each function passes a call straight through to the SDK's auth API and projects a field of its response; there is no logic of its own to model.
- `src/lib/database.types.ts`: type declarations only, with no behaviour.
- `table()` (`src/lib/db.ts:65-67`): a wrapper over the SDK's query builder.
- `createClient` itself: SDK construction; only the configuration it is given (`ClientConfig`) is modelled.
- The browser adapter's reads and writes (`src/lib/supabaseClient.ts:16-24`) and `AsyncStorage`: their behaviour belongs to `window.localStorage` and the native library.
- Promises and `await`: every operation is a synchronous function of its explicit inputs. Of the module-load-time singleton, only the configuration passed to `createClient` is modelled (`ClientSetup`); the checks `createClient` makes of its arguments are SDK code.
- The developer diagnostic screen (`app/(tabs)/dev.tsx`): UI, its log lines and URL masking are not part of this model.
- JavaScript strings are UTF-16; the model's strings are sequences of Unicode scalar values. Every character `trim` removes is in the Basic Multilingual Plane, so the results agree.
- The process environment is taken as given: `Environment` is the map of variables visible to the code at run time; how a bundler inlines or hides `EXPO_PUBLIC_` variables for the computed lookup `process.env[name]` is not modelled. Variable names are case-sensitive in the model, whereas `process.env` on Windows matches names regardless of case.
- Variable names are taken to be ordinary names: a name that `process.env` inherits from `Object.prototype` (such as `constructor`) reads as a function in JavaScript, which `??` does not pass over, while the map model reads it as absent. The names used (src/lib/env.ts:15,19) are all ordinary.
- `Db.Response`: a failed response's `data` (null in the SDK) is carried as an arbitrary value, because `runDb` never reads it.
