/**
 * What the main process does to the outside world, as entries of an effect
 * log, and the effect sequences its event handlers append.
 */
module Effects {
  import opened Wrappers
  import opened Text
  import opened UrlPolicy

  type WindowId = nat

  /** The key the main window is registered under. */
  const MainWindowKey := "MainWindow"

  /** A dispatched action: `CHANGE_URL`, or any other action the store receives. */
  datatype Action = ChangeUrl(url: string) | Opaque(kind: string)

  /** The store's state, as far as the main process reads it. */
  datatype Store = Store(nowUrl: string)

  /** The reducer's effect on `nowUrl`: `CHANGE_URL` sets it; other actions keep it. */
  function Reduce(st: Store, action: Action): Store
  {
    match action
    case ChangeUrl(url) => Store(url)
    case Opaque(_) => st
  }

  datatype Effect =
    | SetUserAgent(ua: string)                     // webContents.setUserAgent
    | LoadUrl(url: string)                         // loadURL
    | InjectPreload                                // executeJavaScript(preload.js)
    | InjectChat                                   // executeJavaScript(chatbox.js)
    | PreventDefault                               // event.preventDefault() on a new-window request
    | OpenBrowser(url: string)                     // hand the URL to the system browser
    | DispatchAction(action: Action)               // appStore.dispatch
    | Save(snapshot: Option<Store>)                // write the store's state to .save/app.json
    | CloseWindow(window: WindowId)                // window.close()
    | SetAlwaysOnTop(window: WindowId, on: bool)   // mainWindow.setAlwaysOnTop
    | Quit                                         // app.quit()

  /** How many times `e` appears in `es`. */
  function CountOf(es: seq<Effect>, e: Effect): nat
  {
    multiset(es)[e]
  }

  /** Some `a` in `es` comes before some `b`. */
  ghost predicate Precedes(es: seq<Effect>, a: Effect, b: Effect)
  {
    exists i, j :: 0 <= i < j < |es| && es[i] == a && es[j] == b
  }

  // ---------------------------------------------------------------------------
  // will-navigate / will-redirect
  // ---------------------------------------------------------------------------

  /** The effects of the navigation handler for `url`; nothing reaches a missing main window. */
  function NavigationEffects(url: string, hasMainWindow: bool): seq<Effect>
  {
    var target := Rewrite(url);
    if hasMainWindow then [SetUserAgent(UserAgentFor(target)), LoadUrl(target)] else []
  }

  /**
   * The navigation handler loads the rewritten URL exactly once, loads
   * nothing else, and sets the user agent chosen for that URL first.
   */
  lemma NavigationLoadsRewrittenUrlOnce(url: string)
    ensures var es := NavigationEffects(url, true);
            var target := if url == SignInHome || Occurs(url, RejectedMarker) then StudioHome else url;
            && CountOf(es, LoadUrl(target)) == 1
            && (forall e :: e in es && e.LoadUrl? ==> e == LoadUrl(target))
            && Precedes(es, SetUserAgent(UserAgentFor(target)), LoadUrl(target))
            && (forall e :: e in es && e.SetUserAgent? ==> e == SetUserAgent(UserAgentFor(target)))
  {
    var es := NavigationEffects(url, true);
    assert es[0] == SetUserAgent(UserAgentFor(Rewrite(url)));
    assert es[1] == LoadUrl(Rewrite(url));
  }

  // ---------------------------------------------------------------------------
  // new-window
  // ---------------------------------------------------------------------------

  /** The effects of the new-window handler for `url`. */
  function NewWindowEffects(url: string): seq<Effect>
  {
    [PreventDefault] + (if TestOrigin(url) then [] else [OpenBrowser(url)])
  }

  /**
   * The in-app open is always prevented, first; the system browser gets the
   * URL exactly once when the new-window pattern does not match it, and
   * never when it does.
   */
  lemma NewWindowGate(url: string)
    ensures var es := NewWindowEffects(url);
            && es[0] == PreventDefault
            && CountOf(es, PreventDefault) == 1
            && CountOf(es, OpenBrowser(url)) == (if MatchesOriginPattern(url) then 0 else 1)
            && (forall e :: e in es && e.OpenBrowser? ==> e == OpenBrowser(url))
            && (forall e :: e in es ==> !e.LoadUrl?)
  {
    TestOriginMatchesPattern(url);
  }

  /** Every page under the studio origin, such as a livestreaming page, stays in the application. */
  lemma StudioPagesStayInApp(path: string)
    ensures NewWindowEffects("https://studio.youtube.com" + path) == [PreventDefault]
  {
    var url := "https://studio.youtube.com" + path;
    var w := OriginPatternWord(true, true, '.');
    assert w == "https://studio.youtube.com";
    assert url[..|w|] == w;
    TestOriginMatchesPattern(url);
  }

  /** An outside page goes to the system browser. */
  lemma OutsidePageGoesToBrowser()
    ensures NewWindowEffects("https://malicious.example.com/") == [PreventDefault, OpenBrowser("https://malicious.example.com/")]
  {
    var url := "https://malicious.example.com/";
    assert "https://" <= url;
    assert AfterScheme(url) == Some(url[8..]);
    assert url[8..][0] == 'm';
  }

  /**
   * The pattern checks only the beginning of the URL and its last dot
   * matches any character: a longer host under the same prefix, and a host
   * with another character in place of that dot, both stay in the application.
   */
  lemma OriginPatternIsLoose()
    ensures MatchesOriginPattern("https://www.youtube.com.example.org/")
    ensures MatchesOriginPattern("https://www.youtube-com/")
  {
    assert OriginPatternWord(true, false, '.') <= "https://www.youtube.com.example.org/";
    assert OriginPatternWord(true, false, '-') <= "https://www.youtube-com/";
  }

  // ---------------------------------------------------------------------------
  // did-navigate / did-navigate-in-page
  // ---------------------------------------------------------------------------

  /**
   * The effects of the completed-navigation handler: the chat script when
   * the URL is a livestreaming page (and the main window is there to run
   * it), the `CHANGE_URL` dispatch (only with a store), then the save of the
   * store's new state.
   */
  function CompletedNavigationEffects(url: string, hasMainWindow: bool, store: Option<Store>): seq<Effect>
  {
    (if VideoExec(url).Some? && hasMainWindow then [InjectChat] else [])
    + (if store.Some? then [DispatchAction(ChangeUrl(url))] else [])
    + [Save(if store.Some? then Some(Reduce(store.value, ChangeUrl(url))) else None)]
  }

  /**
   * The chat script is injected exactly when the URL matches the
   * livestreaming pattern (given a main window), at most once.
   */
  lemma CompletedNavigationInjectsChatOnMatch(url: string, hasMainWindow: bool, store: Option<Store>)
    ensures var es := CompletedNavigationEffects(url, hasMainWindow, store);
            && (InjectChat in es <==> hasMainWindow && exists p, n :: VideoMatchAt(url, p, n))
            && CountOf(es, InjectChat) <= 1
  {
  }

  /**
   * Whatever the URL, a store receives exactly one `CHANGE_URL` with it,
   * and exactly one save follows, last, writing the state that holds the new URL.
   */
  lemma CompletedNavigationDispatchesThenSaves(url: string, hasMainWindow: bool, store: Store)
    ensures var es := CompletedNavigationEffects(url, hasMainWindow, Some(store));
            && CountOf(es, DispatchAction(ChangeUrl(url))) == 1
            && (forall e :: e in es && e.DispatchAction? ==> e == DispatchAction(ChangeUrl(url)))
            && es[|es| - 1] == Save(Some(Store(url)))
            && (forall i :: 0 <= i < |es| - 1 ==> !es[i].Save?)
            && Precedes(es, DispatchAction(ChangeUrl(url)), Save(Some(Store(url))))
  {
    var es := CompletedNavigationEffects(url, hasMainWindow, Some(store));
    assert es[|es| - 2] == DispatchAction(ChangeUrl(url));
  }

  /** Without a store nothing is dispatched, and the save still happens once, last. */
  lemma CompletedNavigationWithoutStore(url: string, hasMainWindow: bool)
    ensures var es := CompletedNavigationEffects(url, hasMainWindow, None);
            && (forall e :: e in es ==> !e.DispatchAction?)
            && es[|es| - 1] == Save(None)
            && CountOf(es, Save(None)) == 1
  {
  }

  // ---------------------------------------------------------------------------
  // main window "close"
  // ---------------------------------------------------------------------------

  /** A registered window the close handler closes: not the main window, not destroyed. */
  predicate ClosesOnMainClose(entry: (string, WindowId), destroyed: set<WindowId>)
  {
    entry.0 != MainWindowKey && entry.1 !in destroyed
  }

  /** The `close` calls of the walk over the registry, in insertion order. */
  function CloseEffects(entries: seq<(string, WindowId)>, destroyed: set<WindowId>): seq<Effect>
  {
    if entries == [] then []
    else
      var last := entries[|entries| - 1];
      CloseEffects(entries[..|entries| - 1], destroyed)
      + (if ClosesOnMainClose(last, destroyed) then [CloseWindow(last.1)] else [])
  }

  /** The walk only closes windows: it never saves. */
  lemma {:induction false} CloseEffectsOnlyClose(entries: seq<(string, WindowId)>, destroyed: set<WindowId>)
    ensures forall e :: e in CloseEffects(entries, destroyed) ==> e.CloseWindow?
  {
    if entries != [] {
      CloseEffectsOnlyClose(entries[..|entries| - 1], destroyed);
    }
  }

  /**
   * With distinct windows in the registry, the walk closes each window once
   * if some key other than the main window's holds it and it is not
   * destroyed, and never otherwise.
   */
  lemma {:induction false} CloseEffectsCloseEligibleOnce(entries: seq<(string, WindowId)>, destroyed: set<WindowId>, w: WindowId)
    requires forall i, j :: 0 <= i < j < |entries| ==> entries[i].1 != entries[j].1
    ensures CountOf(CloseEffects(entries, destroyed), CloseWindow(w))
            == if exists i :: 0 <= i < |entries| && entries[i].1 == w && ClosesOnMainClose(entries[i], destroyed) then 1 else 0
  {
    if entries != [] {
      var init := entries[..|entries| - 1];
      var last := entries[|entries| - 1];
      CloseEffectsCloseEligibleOnce(init, destroyed, w);
      if last.1 == w {
        assert forall i :: 0 <= i < |init| ==> init[i].1 != w;
      }
      if exists i :: 0 <= i < |entries| && entries[i].1 == w && ClosesOnMainClose(entries[i], destroyed) {
        var i :| 0 <= i < |entries| && entries[i].1 == w && ClosesOnMainClose(entries[i], destroyed);
        if i < |init| {
          assert init[i] == entries[i];
        }
      }
    }
  }

  /**
   * Closing the main window closes each window once if some key other than
   * the main window's holds it and it is not destroyed, and never otherwise.
   */
  lemma MainWindowCloseClosesEligibleOnce(entries: seq<(string, WindowId)>, destroyed: set<WindowId>, snapshot: Option<Store>, w: WindowId)
    requires forall i, j :: 0 <= i < j < |entries| ==> entries[i].1 != entries[j].1
    ensures CountOf(CloseEffects(entries, destroyed) + [Save(snapshot)], CloseWindow(w))
            == if exists i :: 0 <= i < |entries| && entries[i].1 == w && ClosesOnMainClose(entries[i], destroyed) then 1 else 0
  {
    CloseEffectsCloseEligibleOnce(entries, destroyed, w);
    assert multiset(CloseEffects(entries, destroyed) + [Save(snapshot)])
           == multiset(CloseEffects(entries, destroyed)) + multiset{Save(snapshot)};
  }

  /**
   * Closing the main window appends the walk's `close` calls and then
   * exactly one save, last.
   */
  lemma MainWindowCloseSavesOnceLast(entries: seq<(string, WindowId)>, destroyed: set<WindowId>, snapshot: Option<Store>)
    ensures var es := CloseEffects(entries, destroyed) + [Save(snapshot)];
            && es[|es| - 1] == Save(snapshot)
            && (forall i :: 0 <= i < |es| - 1 ==> !es[i].Save?)
            && CountOf(es, Save(snapshot)) == 1
  {
    CloseEffectsOnlyClose(entries, destroyed);
    var walk := CloseEffects(entries, destroyed);
    assert Save(snapshot) !in walk;
    var es := walk + [Save(snapshot)];
    forall i | 0 <= i < |es| - 1 ensures !es[i].Save? {
      assert es[i] == walk[i] && walk[i] in walk;
    }
  }
}
