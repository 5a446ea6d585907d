/** Configuration of the shared backend client: the session-storage adapter
    and the auth flags chosen from the runtime platform, and the no-op
    adapter used where nothing can be persisted. The platform is an explicit
    input instead of the ambient `Platform.OS` and `window`. */
module SupabaseClient {
  import opened Wrappers
  import opened JsString
  import Env

  /** The values `Platform.OS` takes in React Native. */
  datatype Os = Ios | Android | Macos | Windows | Web

  /** The runtime facts the selection reads: `Platform.OS` and whether a
      global `window` exists (`isBrowser`). */
  datatype PlatformInput = PlatformInput(os: Os, isBrowser: bool)

  /** The three storage adapters: the `window.localStorage` wrapper, the
      no-op adapter, and the native `AsyncStorage`. */
  datatype StorageAdapter = BrowserStorage | NoopStorage | NativeAsyncStorage

  /** The `auth` options record handed to `createClient`. */
  datatype AuthOptions = AuthOptions(
    storage: StorageAdapter,
    autoRefreshToken: bool,
    persistSession: bool,
    detectSessionInUrl: bool)

  /** The `storage` constant: on the web, the browser adapter when a window
      exists and the no-op adapter otherwise; the native adapter elsewhere. */
  function SelectStorage(p: PlatformInput): StorageAdapter {
    if p.os == Web then (if p.isBrowser then BrowserStorage else NoopStorage) else NativeAsyncStorage
  }

  /** The `auth` options: token refresh and session persistence are on unless
      running on the web without a window; URL session detection is off. */
  function SelectAuthOptions(p: PlatformInput): AuthOptions {
    AuthOptions(
      SelectStorage(p),
      p.os != Web || p.isBrowser,
      p.os != Web || p.isBrowser,
      false)
  }

  /** The storage decision table, in both directions for each adapter. */
  lemma StorageDecisionTable(p: PlatformInput)
    ensures SelectStorage(p) == BrowserStorage <==> p.os == Web && p.isBrowser
    ensures SelectStorage(p) == NoopStorage <==> p.os == Web && !p.isBrowser
    ensures SelectStorage(p) == NativeAsyncStorage <==> p.os != Web
  {
  }

  /** The flags: refresh and persistence always agree and are on exactly when
      not on a window-less web; persistence is off exactly when the no-op
      adapter is chosen; URL detection is never on. */
  lemma AuthOptionFlags(p: PlatformInput)
    ensures var o := SelectAuthOptions(p);
            && o.autoRefreshToken == o.persistSession
            && (o.persistSession <==> p.os != Web || p.isBrowser)
            && (!o.persistSession <==> o.storage == NoopStorage)
            && !o.detectSessionInUrl
  {
  }

  /** Stored session data: key to value. */
  type StorageState = map<string, string>

  /** The no-op adapter's `getItem`: always `null`. */
  function NoopGetItem(state: StorageState, key: string): Option<string> {
    None
  }

  /** The no-op adapter's `setItem`: the write is dropped. */
  function NoopSetItem(state: StorageState, key: string, value: string): StorageState {
    state
  }

  /** The no-op adapter's `removeItem`: nothing to remove. */
  function NoopRemoveItem(state: StorageState, key: string): StorageState {
    state
  }

  /** The no-op adapter reads `null` for every key, also right after a
      `setItem` of that key, and its writes leave the state unchanged. */
  lemma NoopGetAfterSet(state: StorageState, key: string, value: string)
    ensures NoopGetItem(state, key) == None
    ensures NoopGetItem(NoopSetItem(state, key, value), key) == None
    ensures NoopSetItem(state, key, value) == state && NoopRemoveItem(state, key) == state
  {
  }

  /** What `src/lib/supabaseClient.ts` hands to `createClient`: the URL,
      the anonymous key and the `auth` options. */
  datatype ClientConfig = ClientConfig(url: string, anonKey: string, auth: AuthOptions)

  /** Loading the module: the `env` import is evaluated first, so a missing
      variable makes client construction fail with the environment error. */
  function ClientSetup(environment: Env.Environment, p: PlatformInput): (r: Result<ClientConfig, string>)
    ensures r.Ok? <==> Env.LoadEnv(environment).Ok?
    ensures r.Err? ==> r.error == Env.LoadEnv(environment).error
    ensures r.Ok? ==> r.value.url == Env.LoadEnv(environment).value.supabaseUrl
    ensures r.Ok? ==> r.value.anonKey == Env.LoadEnv(environment).value.supabaseAnonKey
    ensures r.Ok? ==> HasNonWhiteSpace(r.value.url) && HasNonWhiteSpace(r.value.anonKey)
    ensures r.Ok? ==> r.value.auth == SelectAuthOptions(p)
  {
    var loaded := Env.LoadEnv(environment);
    if loaded.Err? then Err(loaded.error)
    else Ok(ClientConfig(loaded.value.supabaseUrl, loaded.value.supabaseAnonKey, SelectAuthOptions(p)))
  }

  /** With neither URL variable set, the client cannot be constructed, and
      the error names both URL variables. */
  lemma ClientSetupFailsWithoutUrl(environment: Env.Environment, p: PlatformInput)
    requires Env.UrlName !in environment && Env.UrlFallbackName !in environment
    ensures ClientSetup(environment, p).Err?
    ensures Contains(ClientSetup(environment, p).error, Env.UrlName)
    ensures Contains(ClientSetup(environment, p).error, Env.UrlFallbackName)
  {
    Env.LoadEnvMissingUrl(environment);
  }
}
