/** Environment resolution: the two required configuration values of the
    backend client, each read from a primary or a fallback variable name.
    `process.env` is the map `environment`; a thrown `Error` is `Err`. */
module Env {
  import opened Wrappers
  import opened JsString

  /** The process environment: variable name to value. */
  type Environment = map<string, string>

  /** `process.env[name]`: `None` when the variable is not set. */
  function Lookup(environment: Environment, name: string): (r: Option<string>)
    ensures r.Some? <==> name in environment
    ensures r.Some? ==> r.value == environment[name]
  {
    if name in environment then Some(environment[name]) else None
  }

  /** `readEnv(primary, fallback)`. The primary is looked up first; only when
      it is ABSENT (`??` falls through on `undefined` alone) and the fallback
      name is a non-empty string is the fallback looked up. The value found
      is returned unchanged if it has a non-white-space character, and
      `None` otherwise. */
  function ReadEnv(environment: Environment, primary: string, fallback: Option<string>): (r: Option<string>)
    ensures r.Some? ==> HasNonWhiteSpace(r.value) && |Trim(r.value)| > 0
    ensures r.Some? ==>
      || (primary in environment && r.value == environment[primary])
      || (primary !in environment && fallback.Some? && fallback.value in environment
          && r.value == environment[fallback.value])
  {
    var primaryValue := Lookup(environment, primary);
    var value :=
      if primaryValue.Some? then primaryValue
      else if fallback.Some? && fallback.value != "" then Lookup(environment, fallback.value)
      else None;
    TrimNonEmptyIff(if value.Some? then value.value else "");
    if value.Some? && |Trim(value.value)| > 0 then value else None
  }

  /** A set, non-blank primary is returned as it is, untrimmed. */
  lemma ReadEnvPrimary(environment: Environment, primary: string, fallback: Option<string>)
    requires primary in environment && HasNonWhiteSpace(environment[primary])
    ensures ReadEnv(environment, primary, fallback) == Some(environment[primary])
  {
    TrimNonEmptyIff(environment[primary]);
  }

  /** A set but blank primary hides the fallback: the result is `None` even
      when the fallback holds a non-blank value. */
  lemma ReadEnvBlankPrimaryHidesFallback(environment: Environment, primary: string, fallback: Option<string>)
    requires primary in environment && !HasNonWhiteSpace(environment[primary])
    ensures ReadEnv(environment, primary, fallback) == None
  {
    TrimNonEmptyIff(environment[primary]);
  }

  /** With the primary absent, a non-empty fallback name decides: its value
      if that is set and non-blank, `None` otherwise. */
  lemma ReadEnvFallback(environment: Environment, primary: string, fallback: string)
    requires primary !in environment && fallback != ""
    ensures ReadEnv(environment, primary, Some(fallback)) ==
      if fallback in environment && HasNonWhiteSpace(environment[fallback])
      then Some(environment[fallback]) else None
  {
    if fallback in environment {
      TrimNonEmptyIff(environment[fallback]);
    }
  }

  /** With the primary absent and no usable fallback name (missing or `""`),
      the result is `None`. */
  lemma ReadEnvNoFallback(environment: Environment, primary: string, fallback: Option<string>)
    requires primary !in environment && (fallback.None? || fallback.value == "")
    ensures ReadEnv(environment, primary, fallback) == None
  {
  }

  /** The message of the error thrown for a missing variable. */
  function MissingMessage(labels: seq<string>): string {
    "Missing environment variable. Set one of: " + Join(labels, ", ")
  }

  /** `requiredEnv(value, labels)`: the value unchanged when it is a
      non-empty string; otherwise an error whose message is the fixed prefix
      followed by the labels joined with ", ". */
  function RequiredEnv(value: Option<string>, labels: seq<string>): (r: Result<string, string>)
    ensures r.Ok? <==> value.Some? && value.value != ""
    ensures r.Ok? ==> r.value == value.value
    ensures r.Err? ==> r.error == "Missing environment variable. Set one of: " + Join(labels, ", ")
  {
    if value.None? || value.value == "" then Err(MissingMessage(labels)) else Ok(value.value)
  }

  /** The error of `requiredEnv` names every label it was given. */
  lemma RequiredEnvNamesEveryLabel(value: Option<string>, labels: seq<string>)
    ensures RequiredEnv(value, labels).Err? ==>
      forall k :: 0 <= k < |labels| ==> Contains(RequiredEnv(value, labels).error, labels[k])
  {
    var prefix := "Missing environment variable. Set one of: ";
    var joined := Join(labels, ", ");
    forall k | 0 <= k < |labels|
      ensures Contains(prefix + joined, labels[k])
    {
      JoinHasItemAt(labels, ", ", k);
      var o := JoinOffset(labels, ", ", k);
      assert OccursAt(prefix + joined, labels[k], |prefix| + o);
    }
  }

  /** `requiredEnv(readEnv(primary, fallback), [primary, fallback])`: one
      configuration value of the `env` object. */
  function Resolve(environment: Environment, primary: string, fallback: string): (r: Result<string, string>)
    ensures r.Ok? ==> HasNonWhiteSpace(r.value)
    ensures r.Err? ==> Contains(r.error, primary) && Contains(r.error, fallback)
  {
    var value := ReadEnv(environment, primary, Some(fallback));
    RequiredEnvNamesEveryLabel(value, [primary, fallback]);
    assert [primary, fallback][0] == primary && [primary, fallback][1] == fallback;
    RequiredEnv(value, [primary, fallback])
  }

  /** The composition succeeds exactly when `readEnv` finds a value, and
      then returns that value. */
  lemma ResolveIsReadEnv(environment: Environment, primary: string, fallback: string)
    ensures Resolve(environment, primary, fallback).Ok? <==> ReadEnv(environment, primary, Some(fallback)).Some?
    ensures ReadEnv(environment, primary, Some(fallback)).Some? ==>
      Resolve(environment, primary, fallback).value == ReadEnv(environment, primary, Some(fallback)).value
  {
  }

  const UrlName := "SUPABASE_URL"
  const UrlFallbackName := "EXPO_PUBLIC_SUPABASE_URL"
  const AnonKeyName := "SUPABASE_ANON_KEY"
  const AnonKeyFallbackName := "EXPO_PUBLIC_SUPABASE_ANON_KEY"

  /** The exported `env` object. */
  datatype EnvConfig = EnvConfig(supabaseUrl: string, supabaseAnonKey: string)

  /** Building `env` at module load: the URL is resolved first, so when both
      are missing the URL's error is the one thrown. */
  function LoadEnv(environment: Environment): (r: Result<EnvConfig, string>)
    ensures r.Ok? ==> HasNonWhiteSpace(r.value.supabaseUrl) && HasNonWhiteSpace(r.value.supabaseAnonKey)
  {
    var url := Resolve(environment, UrlName, UrlFallbackName);
    if url.Err? then Err(url.error)
    else
      var key := Resolve(environment, AnonKeyName, AnonKeyFallbackName);
      if key.Err? then Err(key.error)
      else Ok(EnvConfig(url.value, key.value))
  }

  /** Loading succeeds exactly when both values resolve, and the loaded
      values are the resolved ones. */
  lemma LoadEnvOkIff(environment: Environment)
    ensures LoadEnv(environment).Ok? <==>
      ReadEnv(environment, UrlName, Some(UrlFallbackName)).Some? &&
      ReadEnv(environment, AnonKeyName, Some(AnonKeyFallbackName)).Some?
    ensures LoadEnv(environment).Ok? ==>
      LoadEnv(environment).value == EnvConfig(
        ReadEnv(environment, UrlName, Some(UrlFallbackName)).value,
        ReadEnv(environment, AnonKeyName, Some(AnonKeyFallbackName)).value)
  {
    ResolveIsReadEnv(environment, UrlName, UrlFallbackName);
    ResolveIsReadEnv(environment, AnonKeyName, AnonKeyFallbackName);
  }

  /** With neither URL variable set, loading fails and the message names
      both of them. */
  lemma LoadEnvMissingUrl(environment: Environment)
    requires UrlName !in environment && UrlFallbackName !in environment
    ensures LoadEnv(environment).Err?
    ensures Contains(LoadEnv(environment).error, UrlName)
    ensures Contains(LoadEnv(environment).error, UrlFallbackName)
  {
    assert ReadEnv(environment, UrlName, Some(UrlFallbackName)) == None;
    ResolveIsReadEnv(environment, UrlName, UrlFallbackName);
  }

  /** With a URL found but neither key variable set, loading fails and the
      message names both key variables. */
  lemma LoadEnvMissingAnonKey(environment: Environment)
    requires ReadEnv(environment, UrlName, Some(UrlFallbackName)).Some?
    requires AnonKeyName !in environment && AnonKeyFallbackName !in environment
    ensures LoadEnv(environment).Err?
    ensures Contains(LoadEnv(environment).error, AnonKeyName)
    ensures Contains(LoadEnv(environment).error, AnonKeyFallbackName)
  {
    assert ReadEnv(environment, AnonKeyName, Some(AnonKeyFallbackName)) == None;
    ResolveIsReadEnv(environment, UrlName, UrlFallbackName);
    ResolveIsReadEnv(environment, AnonKeyName, AnonKeyFallbackName);
  }
}
