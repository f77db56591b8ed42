/**
 * The main process's application object: the registry of windows keyed by
 * name, the always-on-top flag, the store it dispatches into, and the
 * event handlers of the main window. Everything it does to Electron, the
 * store and the disk is appended to `log`.
 */
module MainProcess {
  import opened Wrappers
  import opened OrderedMap
  import opened UrlPolicy
  import opened Effects

  class MyApp {
    /** The store; `None` stands for a null `appStore`. */
    var appStore: Option<Store>
    var mainWindow: Option<WindowId>
    /** `childWindows`: the registry, a `Map` from key to window, in insertion order. */
    var childWindows: Entries<string, WindowId>
    /** The key that each created window's "closed" listener deletes from the registry. */
    var closedListeners: map<WindowId, string>
    /** The windows that are destroyed (`isDestroyed()`). */
    var destroyed: set<WindowId>
    /** The next window id to hand out; every id below it has been created. */
    var nextWindow: WindowId
    var isAlwaysOnTop: bool
    var log: seq<Effect>

    /** A registry entry is live and is the one its window's listener will delete. */
    ghost predicate Tracked(entry: (string, WindowId))
      reads this
    {
      entry.1 in closedListeners && closedListeners[entry.1] == entry.0 && entry.1 !in destroyed
    }

    ghost predicate Valid()
      reads this
    {
      && KeysUnique(childWindows)
      && (forall i :: 0 <= i < |childWindows| ==> Tracked(childWindows[i]))
      && (forall w :: w in closedListeners ==> w < nextWindow)
      && destroyed <= closedListeners.Keys
      && (mainWindow.Some? ==> mainWindow.value in closedListeners)
    }

    /** No window is registered under two keys. */
    lemma WindowsUnique()
      requires Valid()
      ensures forall i, j :: 0 <= i < j < |childWindows| ==> childWindows[i].1 != childWindows[j].1
    {
      forall i, j | 0 <= i < j < |childWindows| ensures childWindows[i].1 != childWindows[j].1 {
        assert Tracked(childWindows[i]) && Tracked(childWindows[j]);
      }
    }

    /**
     * What the close handler appends for this registry closes each window
     * registered under a key other than the main window's exactly once, and
     * no other window.
     */
    lemma MainWindowCloseClosesEligible(entries: Entries<string, WindowId>, gone: set<WindowId>, snapshot: Option<Store>)
      requires Valid() && entries == childWindows && gone == destroyed
      ensures forall w :: CountOf(CloseEffects(entries, gone) + [Save(snapshot)], CloseWindow(w))
                          == if exists i :: 0 <= i < |entries| && entries[i].1 == w
                                            && ClosesOnMainClose(entries[i], gone) then 1 else 0
    {
      WindowsUnique();
      forall w ensures CountOf(CloseEffects(entries, gone) + [Save(snapshot)], CloseWindow(w))
                       == if exists i :: 0 <= i < |entries| && entries[i].1 == w
                                         && ClosesOnMainClose(entries[i], gone) then 1 else 0
      {
        MainWindowCloseClosesEligibleOnce(entries, gone, snapshot, w);
      }
    }

    /** The registry never holds a destroyed window. */
    lemma NoStaleEntry()
      requires Valid()
      ensures forall i :: 0 <= i < |childWindows| ==> childWindows[i].1 !in destroyed
    {
      forall i | 0 <= i < |childWindows| ensures childWindows[i].1 !in destroyed {
        assert Tracked(childWindows[i]);
      }
    }

    /** The application object, given the store that the store wiring produced. */
    constructor (store: Option<Store>)
      ensures Valid()
      ensures appStore == store && mainWindow == None
      ensures childWindows == [] && destroyed == {} && closedListeners == map[]
      ensures isAlwaysOnTop
      ensures log == []
    {
      appStore := store;
      mainWindow := None;
      childWindows := [];
      closedListeners := map[];
      destroyed := {};
      nextWindow := 0;
      isAlwaysOnTop := true;
      log := [];
    }

    /**
     * `createWindow(id)`: a new window, registered under `key` (replacing
     * whatever the key held) with a "closed" listener that deletes `key`.
     */
    method CreateWindow(key: string) returns (w: WindowId)
      requires Valid()
      modifies this`childWindows, this`closedListeners, this`nextWindow
      ensures Valid()
      ensures w == old(nextWindow) && nextWindow == w + 1
      ensures w !in old(closedListeners) && w !in destroyed
      ensures childWindows == Set(old(childWindows), key, w)
      ensures ToMap(childWindows) == ToMap(old(childWindows))[key := w]
      ensures closedListeners == old(closedListeners)[w := key]
    {
      w := nextWindow;
      nextWindow := nextWindow + 1;
      closedListeners := closedListeners[w := key];
      SetEntries(childWindows, key, w);
      SetUpdatesOneKey(childWindows, key, w);
      childWindows := Set(childWindows, key, w);
      forall i | 0 <= i < |childWindows| ensures Tracked(childWindows[i]) {
        var x := childWindows[i];
        if x != (key, w) {
          var j :| 0 <= j < |old(childWindows)| && old(childWindows)[j] == x;
          assert old(Tracked(childWindows[j]));
        }
      }
    }

    /**
     * The "closed" event of window `w`: the window is destroyed and its
     * listener deletes its key from the registry.
     */
    method WindowClosed(w: WindowId)
      requires Valid() && w in closedListeners && w !in destroyed
      modifies this`childWindows, this`destroyed
      ensures Valid()
      ensures destroyed == old(destroyed) + {w}
      ensures childWindows == Delete(old(childWindows), closedListeners[w])
      ensures ToMap(childWindows) == ToMap(old(childWindows)) - {closedListeners[w]}
    {
      var key := closedListeners[w];
      DeleteEntries(childWindows, key);
      DeleteRemovesOneKey(childWindows, key);
      ghost var before := childWindows;
      childWindows := Delete(childWindows, key);
      destroyed := destroyed + {w};
      forall i | 0 <= i < |childWindows| ensures Tracked(childWindows[i]) {
        var x := childWindows[i];
        var j :| 0 <= j < |before| && before[j] == x;
        assert old(Tracked(before[j]));
      }
    }

    /** `dispatch(action)`: a no-op without a store. */
    method Dispatch(action: Action)
      modifies this`appStore, this`log
      ensures old(appStore).None? ==> appStore == None && log == old(log)
      ensures old(appStore).Some? ==> appStore == Some(Reduce(old(appStore).value, action))
      ensures old(appStore).Some? ==> log == old(log) + [DispatchAction(action)]
    {
      if appStore == None {
        return;
      }
      log := log + [DispatchAction(action)];
      appStore := Some(Reduce(appStore.value, action));
    }

    /** The `isAlwaysOnTop` setter: applied to the main window when there is one, and remembered. */
    method SetIsAlwaysOnTop(value: bool)
      modifies this`isAlwaysOnTop, this`log
      ensures isAlwaysOnTop == value
      ensures log == old(log) + (if mainWindow.Some? then [SetAlwaysOnTop(mainWindow.value, value)] else [])
    {
      if mainWindow.Some? {
        log := log + [SetAlwaysOnTop(mainWindow.value, value)];
      }
      isAlwaysOnTop := value;
    }

    /** The `videoId` getter: the id in the store's current URL. */
    function VideoId(): (r: Option<string>)
      reads this
      requires appStore.Some?
      ensures r.None? <==> forall p, n :: !VideoMatchAt(appStore.value.nowUrl, p, n)
      ensures r.Some? ==> 1 <= |r.value| && forall k :: 0 <= k < |r.value| ==> IsWordChar(r.value[k])
    {
      VideoIdOf(appStore.value.nowUrl)
    }

    /** `saveAppData()`: the store's state (none without a store) goes to disk. */
    method SaveAppData()
      modifies this`log
      ensures log == old(log) + [Save(appStore)]
    {
      log := log + [Save(appStore)];
    }

    /** `switchUserAgent(url)`. */
    method SwitchUserAgent(url: string)
      modifies this`log
      ensures log == old(log) + (if mainWindow.Some? then [SetUserAgent(UserAgentFor(url))] else [])
    {
      if mainWindow.Some? {
        log := log + [SetUserAgent(UserAgentFor(url))];
      }
    }

    /**
     * The "ready" handler: the main window is created and registered under
     * its reserved key, kept on top, pointed at the store's URL and given
     * the preload script.
     */
    method OnReady()
      requires Valid() && appStore.Some?
      modifies this`mainWindow, this`childWindows, this`closedListeners, this`nextWindow, this`isAlwaysOnTop, this`log
      ensures Valid()
      ensures mainWindow.Some? && mainWindow.value !in old(closedListeners) && mainWindow.value !in destroyed
      ensures mainWindow.value == old(nextWindow) && nextWindow == old(nextWindow) + 1
      ensures childWindows == Set(old(childWindows), MainWindowKey, mainWindow.value)
      ensures ToMap(childWindows) == ToMap(old(childWindows))[MainWindowKey := mainWindow.value]
      ensures closedListeners == old(closedListeners)[mainWindow.value := MainWindowKey]
      ensures isAlwaysOnTop && appStore == old(appStore)
      ensures log == old(log) + [SetAlwaysOnTop(mainWindow.value, true), LoadUrl(appStore.value.nowUrl), InjectPreload]
    {
      var w := CreateWindow(MainWindowKey);
      mainWindow := Some(w);
      SetIsAlwaysOnTop(true);
      log := log + [LoadUrl(appStore.value.nowUrl), InjectPreload];
    }

    /** The "will-navigate" and "will-redirect" handler. */
    method WillNavigate(url: string)
      modifies this`log
      ensures log == old(log) + NavigationEffects(url, mainWindow.Some?)
    {
      var target := Rewrite(url);
      SwitchUserAgent(target);
      if mainWindow.Some? {
        log := log + [LoadUrl(target)];
      }
    }

    /** The "did-navigate" and "did-navigate-in-page" handler. */
    method DidNavigate(url: string)
      modifies this`appStore, this`log
      ensures log == old(log) + CompletedNavigationEffects(url, mainWindow.Some?, old(appStore))
      ensures appStore == if old(appStore).Some? then Some(Store(url)) else None
    {
      if VideoExec(url).Some? {
        if mainWindow.Some? {
          log := log + [InjectChat];
        }
      }
      Dispatch(ChangeUrl(url));
      SaveAppData();
    }

    /** The "new-window" handler. */
    method OnNewWindow(url: string)
      modifies this`log
      ensures log == old(log) + NewWindowEffects(url)
    {
      log := log + [PreventDefault];
      if !TestOrigin(url) {
        log := log + [OpenBrowser(url)];
      }
    }

    /** The `forEach` walk of the close handler: `close()` on each eligible window, in registry order. */
    method CloseOtherWindows()
      modifies this`log
      ensures log == old(log) + CloseEffects(childWindows, destroyed)
    {
      var i := 0;
      while i < |childWindows|
        invariant 0 <= i <= |childWindows|
        invariant log == old(log) + CloseEffects(childWindows[..i], destroyed)
      {
        var (key, window) := childWindows[i];
        assert childWindows[..i + 1][..i] == childWindows[..i];
        if key != MainWindowKey && window !in destroyed {
          log := log + [CloseWindow(window)];
        }
        i := i + 1;
      }
      assert childWindows[..i] == childWindows;
    }

    /**
     * The main window's "close" handler: every other registered window that
     * is not destroyed is closed, in registry order, then the state is saved.
     */
    method OnMainWindowClose()
      requires Valid()
      modifies this`log
      ensures log == old(log) + CloseEffects(childWindows, destroyed) + [Save(appStore)]
    {
      CloseOtherWindows();
      SaveAppData();
    }

    /** The "window-all-closed" handler. */
    method OnWindowAllClosed()
      modifies this`log
      ensures log == old(log) + [Quit]
    {
      log := log + [Quit];
    }
  }
}
