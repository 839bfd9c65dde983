/**
  The store's connection to its hosted backend (`lib/supabase.js`). The
  client exists only when both environment settings are present and neither
  still holds the placeholder value shipped in the example configuration.
  Whatever the client later does over the network is represented by a
  `Remote` outcome that the callers receive as a parameter.
 */
module Supabase {
  import opened Js

  const PlaceholderUrl: string := "your_supabase_project_url"
  const PlaceholderAnonKey: string := "your_supabase_anon_key"

  /** The client `createClient` builds, identified by what it was built from. */
  datatype Client = Client(url: string, anonKey: string)

  /** What one remote query or storage call produced: its data, or an error (thrown or returned). */
  datatype Remote<+T> = Ok(data: T) | Err

  /** JavaScript truthiness of an environment setting: set and not the empty string. */
  predicate Truthy(setting: Option<string>) {
    setting.Some? && setting.value != ""
  }

  /**
    The module constant `supabase`: a client built from the two settings,
    or `null` (`None`) when either is missing, empty or a placeholder.
   */
  function MakeClient(url: Option<string>, anonKey: Option<string>): (client: Option<Client>)
    ensures client.Some? <==>
      && url.Some? && url.value != "" && url.value != PlaceholderUrl
      && anonKey.Some? && anonKey.value != "" && anonKey.value != PlaceholderAnonKey
    ensures client.Some? ==> client.value == Client(url.value, anonKey.value)
  {
    if Truthy(url) && Truthy(anonKey) && url.value != PlaceholderUrl && anonKey.value != PlaceholderAnonKey
    then Some(Client(url.value, anonKey.value))
    else None
  }

  /** `isSupabaseConfigured()`: the client is not `null`. */
  predicate IsConfigured(client: Option<Client>): (configured: bool)
    ensures configured <==> client != None
  {
    client.Some?
  }

  /** `isSupabaseConfigured()` holds exactly when both settings are real, non-placeholder values. */
  lemma ConfiguredIffRealSettings(url: Option<string>, anonKey: Option<string>)
    ensures IsConfigured(MakeClient(url, anonKey)) <==>
      && Truthy(url) && url.value != PlaceholderUrl
      && Truthy(anonKey) && anonKey.value != PlaceholderAnonKey
  {
  }

  /** An empty setting counts as a missing one, whatever the other setting holds. */
  lemma EmptySettingIsMissing(url: Option<string>, anonKey: Option<string>)
    requires url == Some("") || anonKey == Some("")
    ensures !IsConfigured(MakeClient(url, anonKey))
    ensures MakeClient(url, anonKey) == MakeClient(None, anonKey)
    ensures MakeClient(url, anonKey) == MakeClient(url, None)
  {
  }

  /** Either placeholder alone forces the unconfigured state. */
  lemma PlaceholderForcesFallback(url: Option<string>, anonKey: Option<string>)
    requires url == Some(PlaceholderUrl) || anonKey == Some(PlaceholderAnonKey)
    ensures !IsConfigured(MakeClient(url, anonKey))
  {
  }

  /** Two real, non-placeholder settings always give a client built from them. */
  lemma RealSettingsConfigure(url: string, anonKey: string)
    requires url != "" && url != PlaceholderUrl
    requires anonKey != "" && anonKey != PlaceholderAnonKey
    ensures MakeClient(Some(url), Some(anonKey)) == Some(Client(url, anonKey))
  {
  }
}
