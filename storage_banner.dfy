/**
 * The local-mode banner (components/ui/storage-banner.tsx): hidden until mounted, then shown
 * while the adapter reports the browser store and the user has not dismissed it. A dismissal
 * is remembered in the browser's local storage, modelled as a string map.
 */
module StorageBanner {
  import opened Wrappers
  import Dispatch

  const DismissedKey := "storage-banner-dismissed"

  /** `localStorage`: string values by key, kept across page loads. */
  class LocalStorage {
    var items: map<string, string>

    constructor (items: map<string, string>)
      ensures this.items == items
    {
      this.items := items;
    }
  }

  /** The render rule: nothing when dismissed, before the backend is known, or for the hosted one. */
  predicate Shown(backend: Option<string>, dismissed: bool) {
    !dismissed && backend.Some? && backend.value != "" && backend.value != "supabase"
  }

  class Banner {
    /** null until the mount effect has run. */
    var backend: Option<string>
    var dismissed: bool

    constructor ()
      ensures backend.None? && !dismissed && !Shown(backend, dismissed)
    {
      backend, dismissed := None, false;
    }

    /** The mount effect: ask the adapter for its backend and restore a stored dismissal. */
    method Mount(env: Dispatch.Env, storage: LocalStorage)
      modifies this
      ensures backend == Some(Dispatch.StorageBackendName(env))
      ensures dismissed <==> old(dismissed) || (DismissedKey in storage.items && storage.items[DismissedKey] == "true")
      ensures Shown(backend, dismissed) <==> !dismissed && !Dispatch.SupabaseConfigured(env)
    {
      backend := Some(Dispatch.StorageBackendName(env));
      if DismissedKey in storage.items && storage.items[DismissedKey] == "true" {
        dismissed := true;
      }
    }

    /** `handleDismiss`: hide the banner and remember it. */
    method Dismiss(storage: LocalStorage)
      modifies this, storage
      ensures dismissed && backend == old(backend) && !Shown(backend, dismissed)
      ensures storage.items == old(storage.items)[DismissedKey := "true"]
    {
      dismissed := true;
      storage.items := storage.items[DismissedKey := "true"];
    }
  }

  /**
   * Once mounted, the banner shows exactly when the hosted backend is not configured and it
   * was not dismissed, which includes the desktop app, where the data is in SQLite.
   */
  lemma ShownOnDesktopWithoutHosting(env: Dispatch.Env)
    requires Dispatch.IsElectron(env) && !Dispatch.SupabaseConfigured(env)
    ensures Shown(Some(Dispatch.StorageBackendName(env)), false)
    ensures Dispatch.AdapterBackend(env) == Dispatch.Sqlite
  {
    Dispatch.BackendNameMisreportsDesktop(env);
  }
}
