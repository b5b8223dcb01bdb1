/**
 * Which backend serves a call. lib/supabase.ts decides whether the hosted backend is
 * configured, lib/storage-unified.ts sends calls to SQLite when the Electron bridge is
 * present and to IndexedDB otherwise, and lib/storage-adapter.ts puts the hosted backend
 * in front of that. The UI reaches storage through three doors: the live queries of the
 * hooks read IndexedDB directly, the hooks' writes and the note editor go through
 * lib/storage (the unified layer), and search, uploads and the banner go through the adapter.
 */
module Dispatch {
  import opened Wrappers
  import opened Text
  import opened Records

  /** The environment a page runs in: the two public variables and the Electron bridge. */
  datatype Env = Env(supabaseUrl: Option<string>, supabaseAnonKey: Option<string>, hasWindow: bool, electronBridge: bool)

  datatype Backend = IndexedDb | Sqlite | Supabase

  /** Where a call is made from. */
  datatype Door =
    | LiveQuery       // `useLiveQuery` over `db.notes` / `db.notebooks` in the hooks
    | StorageModule   // lib/storage, the unified layer
    | Adapter         // lib/storage-adapter

  /** JavaScript truthiness of an optional string: present and not empty. */
  predicate Truthy(s: Option<string>) {
    s.Some? && s.value != ""
  }

  /** `isSupabaseConfigured = !!(supabaseUrl && supabaseAnonKey)`. */
  predicate SupabaseConfigured(env: Env) {
    Truthy(env.supabaseUrl) && Truthy(env.supabaseAnonKey)
  }

  /** `isElectron()`: a window whose `electronAPI.isElectron` is set by the preload script. */
  predicate IsElectron(env: Env) {
    env.hasWindow && env.electronBridge
  }

  /** The backend of lib/storage-unified.ts. */
  function UnifiedBackend(env: Env): (b: Backend)
    ensures b != Supabase
    ensures b == Sqlite <==> IsElectron(env)
  {
    if IsElectron(env) then Sqlite else IndexedDb
  }

  /** The backend of lib/storage-adapter.ts: the hosted one when configured, else the unified one. */
  function AdapterBackend(env: Env): (b: Backend)
    ensures b == Supabase <==> SupabaseConfigured(env)
    ensures !SupabaseConfigured(env) ==> b == UnifiedBackend(env)
  {
    if SupabaseConfigured(env) then Supabase else UnifiedBackend(env)
  }

  /** The backend a door reaches. */
  function Serves(env: Env, door: Door): Backend {
    match door
    case LiveQuery => IndexedDb
    case StorageModule => UnifiedBackend(env)
    case Adapter => AdapterBackend(env)
  }

  /** What the hooks write is what their live queries read back only outside Electron. */
  lemma WritesVisibleToListsIffWeb(env: Env)
    ensures Serves(env, StorageModule) == Serves(env, LiveQuery) <==> !IsElectron(env)
  {
  }

  /** Search sees what the editor saves only when the hosted backend is not configured. */
  lemma SearchSeesEditsIffNotConfigured(env: Env)
    ensures Serves(env, Adapter) == Serves(env, StorageModule) <==> !SupabaseConfigured(env)
  {
  }

  /** `getStorageBackend()`: the adapter's answer, which never names SQLite. */
  function StorageBackendName(env: Env): (name: string)
    ensures name == "supabase" || name == "indexeddb"
  {
    if SupabaseConfigured(env) then "supabase" else "indexeddb"
  }

  /**
   * The name is "indexeddb" exactly when the adapter does not use the hosted backend, and in
   * the desktop app without configuration it says "indexeddb" while the adapter uses SQLite.
   */
  lemma BackendNameMisreportsDesktop(env: Env)
    ensures StorageBackendName(env) == "indexeddb" <==> AdapterBackend(env) != Supabase
    ensures IsElectron(env) && !SupabaseConfigured(env) ==>
      StorageBackendName(env) == "indexeddb" && AdapterBackend(env) == Sqlite
  {
  }

  /** `getStorageType()` of the unified layer. */
  function StorageType(env: Env): (t: string)
    ensures t == "electron" <==> UnifiedBackend(env) == Sqlite
    ensures t == "web" <==> UnifiedBackend(env) == IndexedDb
  {
    if IsElectron(env) then "electron" else "web"
  }

  /** `getDbPath()`: the SQLite file's path from the main process, or null in a browser. */
  function DbPath(env: Env, mainProcessPath: string): (r: Option<string>)
    ensures r.Some? <==> IsElectron(env)
    ensures r.Some? ==> r.value == mainProcessPath
  {
    if IsElectron(env) then Some(mainProcessPath) else None
  }

  /** A path is reported exactly when the unified layer says it stores in "electron". */
  lemma DbPathFollowsStorageType(env: Env, mainProcessPath: string)
    ensures DbPath(env, mainProcessPath).Some? <==> StorageType(env) == "electron"
    ensures DbPath(env, mainProcessPath).None? <==> StorageType(env) == "web"
  {
  }

  // ---------------------------------------------------------------------------
  // Images through the adapter

  const UploadFailedMessage := "Failed to upload image to storage. Please check your storage bucket configuration."

  /**
   * `uploadImage`: when configured, the hosted upload, with any failure replaced by one fixed
   * message; otherwise the file read as a data URL by a `FileReader`.
   */
  function AdapterUpload(env: Env, cloud: Result<string, StorageError>, reader: Result<string, StorageError>)
    : (r: Result<string, StorageError>)
    ensures SupabaseConfigured(env) && cloud.Ok? ==> r == cloud
    ensures SupabaseConfigured(env) && cloud.Err? ==> r == Err(Failure(UploadFailedMessage))
    ensures !SupabaseConfigured(env) ==> r == reader
  {
    if SupabaseConfigured(env) then
      match cloud
      case Ok(url) => Ok(url)
      case Err(_) => Err(Failure(UploadFailedMessage))
    else reader
  }

  /** What `readAsDataURL` produces: `data:<type>;base64,<payload>`. */
  function DataUrl(mime: string, base64: string): (url: string)
    ensures StartsWith(url, "data:")
  {
    "data:" + mime + ";base64," + base64
  }

  /** `deleteImage` reaches the hosted bucket only when configured and the URL is not a data URL. */
  predicate DeletesRemotely(env: Env, imageUrl: string) {
    SupabaseConfigured(env) && !StartsWith(imageUrl, "data:")
  }

  /** An image embedded as a data URL is never deleted remotely, whatever the configuration. */
  lemma DataUrlsStayLocal(env: Env, mime: string, base64: string)
    ensures !DeletesRemotely(env, DataUrl(mime, base64))
  {
  }

  /**
   * Without configuration the upload is exactly what the `FileReader` produced, its error
   * included, and no image it produced is ever deleted remotely.
   */
  lemma UnconfiguredUploadsStayLocal(env: Env, cloud: Result<string, StorageError>, reader: Result<string, StorageError>)
    requires !SupabaseConfigured(env)
    ensures AdapterUpload(env, cloud, reader) == reader
    ensures reader.Ok? ==> !DeletesRemotely(env, AdapterUpload(env, cloud, reader).value)
  {
  }
}
