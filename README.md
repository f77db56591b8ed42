# YoutubeLiveApp main process: navigation and window policy in Dafny

This project models the main process of a desktop shell around the YouTube
Studio web site (`src/mainprocess/App.ts`, class `MyApp`). It covers the
policy parts of that class. Electron, redux and the file system are replaced
by plain state and an effect log.

- **URL decisions** (`url_policy.dfy`, `text.dfy`). These are pure functions:
  - the rewrite applied before a navigation loads;
  - the user agent chosen by URL prefix;
  - the new-window pattern `^https?://(studio|www)\.youtube.com`;
  - the livestreaming pattern `https://studio\.youtube\.com/video/(\w+)/livestreaming` and the video id it captures.

  Each regular expression has a declarative definition of what it matches
  (`MatchesOriginPattern`, `VideoMatchAt`, `IsFirstVideoMatch`). The recognizer
  that reads the URL is proved to agree with that definition.
  `String.prototype.indexOf` is modelled as `IndexOf` and specified by
  "first occurrence, or -1".
- **The window registry** (`ordered_map.dfy`, `main_process.dfy`).
  `childWindows` is a JavaScript `Map`. It is modelled as a sequence of
  entries in insertion order, so that the `forEach` walk of the close
  handler visits windows in the order the source does.
  - `Set` and `Delete` are proved to act on the dictionary view (`ToMap`)
    like `map.set` and `map.delete`.
  - Windows are numeric ids with a destroyed flag.
  - Each window's "closed" listener remembers the key it deletes.
  - `MyApp.Valid()` keeps the registry free of destroyed windows and of
    duplicate keys.
- **Event handlers as effect sequences** (`effects.dfy`, `main_process.dfy`).
  Each handler appends effects to `log`:
  - `SetUserAgent`, `LoadUrl`, `InjectPreload`, `InjectChat`;
  - `PreventDefault`, `OpenBrowser`;
  - `DispatchAction`, `Save`;
  - `CloseWindow`, `SetAlwaysOnTop`, `Quit`.

  The pure functions `NavigationEffects`, `NewWindowEffects`,
  `CompletedNavigationEffects` and `CloseEffects` say what each handler
  appends. Lemmas about them state the ordering and "exactly once"
  properties.

A JavaScript `Map` keeps a key's position when the key is set again, and
`createWindow` registers the window under the caller's key. So calling
`createWindow` twice with the same key leaves the first window out of the
registry. That window's "closed" listener still deletes the key, which by
then belongs to the second window. The model keeps this behaviour:
`closedListeners` maps every window to the key it deletes.

Two facts about the code are worth stating, because a reader might expect
otherwise:
- `onNewWindow` (App.ts:161) calls `preventDefault()` on every new-window
  request. So a request for an allowed origin opens nothing at all; only a
  request outside the pattern reaches the system browser (`NewWindowGate`,
  `StudioPagesStayInApp`).
- The IPC handlers (App.ts:174-177) dispatch the payloads they receive to the
  store without validating them. IPC is listed under Left out.

## Model

| member | source | states |
|---|---|---|
| `Text.IndexOf` | src/mainprocess/App.ts:116 | `indexOf` is -1 exactly when the pattern does not occur; otherwise the pattern occurs at the result and nowhere before it |
| `Text.IndexOfFrom` | src/mainprocess/App.ts:116 | the scan from index k finds the first occurrence at or after k, or -1 when there is none |
| `Text.IndexOfIsZeroIffPrefix` | src/mainprocess/App.ts:191 | `url.indexOf(p) === 0` holds exactly when `url` starts with `p` |
| `UrlPolicy.Rewrite` | src/mainprocess/App.ts:110-119 | the URL loaded is the studio home when the URL is exactly the site home or contains the rejected-sign-in marker; otherwise it is the URL itself |
| `UrlPolicy.RewriteIsIdempotent` | src/mainprocess/App.ts:110-119 | rewriting an already rewritten URL changes nothing |
| `UrlPolicy.ExtendedHomeIsKept` | src/mainprocess/App.ts:111-114 | `https://www.youtube.com/x` is not rewritten: only the exact home page is |
| `UrlPolicy.UserAgentFor` | src/mainprocess/App.ts:190-198 | a URL starting with `https://studio.` or `https://www.` gets the Chrome/84 desktop identity; every other URL gets `"Chrome"` |
| `UrlPolicy.RewrittenNavigationGetsDesktopAgent` | src/mainprocess/App.ts:110-123 | a navigation rewritten to the studio home is given the desktop identity |
| `UrlPolicy.TestOriginMatchesPattern` | src/mainprocess/App.ts:164 | the recognizer accepts a URL exactly when some word of the new-window pattern begins it (scheme http or https, host studio or www), the last dot matching any character except a line terminator |
| `UrlPolicy.WordRun` | src/mainprocess/App.ts:17 | the greedy `\w+`: every character of the run is a word character, and the run stops at the end of the string or before a non-word character |
| `UrlPolicy.VideoMatchIsGreedy` | src/mainprocess/App.ts:17 | at a given index the capture of the livestreaming pattern can only be the whole run of word characters |
| `UrlPolicy.FirstVideoMatchIsUnique` | src/mainprocess/App.ts:17 | the leftmost match and its capture are unique |
| `UrlPolicy.VideoExecFrom` | src/mainprocess/App.ts:17 | scanning from index k finds a match at the least index at or after k where the pattern matches, or reports that there is none |
| `UrlPolicy.VideoExec` | src/mainprocess/App.ts:131 | `exec` is null exactly when the pattern matches nowhere; otherwise it reports the leftmost match |
| `UrlPolicy.VideoIdOf` | src/mainprocess/App.ts:33-40 | the video id is null exactly when the pattern does not occur; otherwise it is a non-empty run of word characters, the capture of the first match |
| `UrlPolicy.VideoIdOfLivestreamingPage` | src/mainprocess/App.ts:33-40 | the livestreaming page `https://studio.youtube.com/video/<id>/livestreaming` of any non-empty word-character id yields that id |
| `UrlPolicy.VideoIdOfExamplePage` | src/mainprocess/App.ts:33-40 | the livestreaming page of video `abc123` yields `abc123` |
| `Effects.NavigationLoadsRewrittenUrlOnce` | src/mainprocess/App.ts:110-124 | the navigation handler loads the rewritten URL exactly once and nothing else, after setting the user agent chosen for that URL |
| `Effects.NewWindowGate` | src/mainprocess/App.ts:159-168 | the in-app open is always prevented, first; the system browser gets the URL exactly once when the pattern does not match and never when it does; nothing is loaded |
| `Effects.StudioPagesStayInApp` | src/mainprocess/App.ts:164 | a new-window request for any page under `https://studio.youtube.com` only prevents the default |
| `Effects.OutsidePageGoesToBrowser` | src/mainprocess/App.ts:164-166 | a new-window request for `https://malicious.example.com/` is prevented and handed to the system browser |
| `Effects.OriginPatternIsLoose` | src/mainprocess/App.ts:164 | the pattern also accepts `https://www.youtube.com.example.org/` (prefix only) and `https://www.youtube-com/` (unescaped dot) |
| `Effects.CompletedNavigationInjectsChatOnMatch` | src/mainprocess/App.ts:130-135 | the chat script is injected exactly when the URL matches the livestreaming pattern and the main window exists, at most once |
| `Effects.CompletedNavigationDispatchesThenSaves` | src/mainprocess/App.ts:130-139 | with a store, exactly one `CHANGE_URL` with the URL is dispatched, and exactly one save follows, last, writing the state that holds the URL |
| `Effects.CompletedNavigationWithoutStore` | src/mainprocess/App.ts:78-83 | without a store nothing is dispatched, and the save still happens once, last |
| `Effects.CloseEffectsOnlyClose` | src/mainprocess/App.ts:145-149 | the walk over the registry only closes windows |
| `Effects.CloseEffectsCloseEligibleOnce` | src/mainprocess/App.ts:145-149 | the walk closes a window exactly once when it is registered under a key other than `MainWindow` and is not destroyed, and never otherwise |
| `Effects.MainWindowCloseClosesEligibleOnce` | src/mainprocess/App.ts:144-152 | with distinct windows, the handler's appended effects close each eligible window exactly once and no other window |
| `Effects.MainWindowCloseSavesOnceLast` | src/mainprocess/App.ts:144-152 | closing the main window ends with exactly one save |
| `OrderedMap.InToMap` | src/mainprocess/App.ts:23 | the keys of the registry's dictionary view are the keys of its entries |
| `OrderedMap.EntryInToMap` | src/mainprocess/App.ts:23 | in a `Map`, every entry is what its key maps to |
| `OrderedMap.SetUpdatesOneKey` | src/mainprocess/App.ts:74 | after `set(k, v)`, k maps to v and every other key is unchanged |
| `OrderedMap.SetKeepsOrder` | src/mainprocess/App.ts:74 | `set` on a present key keeps every key's position; on a new key it appends |
| `OrderedMap.SetEntries` | src/mainprocess/App.ts:74 | `set` on a `Map` leaves a `Map` whose entries are exactly `(k, v)` and the old entries of the other keys: each of them is present and nothing else is |
| `OrderedMap.DeleteRemovesOneKey` | src/mainprocess/App.ts:72 | after `delete(k)`, k is absent and every other key is unchanged |
| `OrderedMap.DeleteEntries` | src/mainprocess/App.ts:72 | `delete(k)` drops exactly the entries of k and keeps a `Map` a `Map` |
| `MainProcess.MyApp.WindowsUnique` | src/mainprocess/App.ts:69-76 | no window is registered under two keys |
| `MainProcess.MyApp.MainWindowCloseClosesEligible` | src/mainprocess/App.ts:144-152 | for the current registry, the close handler's effects close every window under a key other than `MainWindow` that is not destroyed exactly once, and no other window |
| `MainProcess.MyApp.NoStaleEntry` | src/mainprocess/App.ts:69-76 | the registry never holds a destroyed window |
| `MainProcess.MyApp.constructor` | src/mainprocess/App.ts:59-67 | the store is the one given, the registry starts empty (the field initialiser at App.ts:22), there is no main window, nothing has happened yet, and always-on-top defaults to true (App.ts:46) |
| `MainProcess.MyApp.CreateWindow` | src/mainprocess/App.ts:69-76 | a fresh window is registered under the key, every other key unchanged, with a listener that deletes that key |
| `MainProcess.MyApp.WindowClosed` | src/mainprocess/App.ts:71-73 | the "closed" event destroys the window and removes its listener's key, every other key unchanged |
| `MainProcess.MyApp.Dispatch` | src/mainprocess/App.ts:78-83 | without a store nothing happens; with one, the action is applied and logged once |
| `MainProcess.MyApp.SetIsAlwaysOnTop` | src/mainprocess/App.ts:48-57 | reading the flag after setting it gives the value set; it is applied to the main window only when there is one |
| `MainProcess.MyApp.VideoId` | src/mainprocess/App.ts:33-40 | the getter is null exactly when the store's URL has no livestreaming match; otherwise a non-empty run of word characters |
| `MainProcess.MyApp.SaveAppData` | src/mainprocess/App.ts:184-188 | one save of the store's current state is logged |
| `MainProcess.MyApp.SwitchUserAgent` | src/mainprocess/App.ts:190-198 | the identity chosen for the URL is set on the main window, if any |
| `MainProcess.MyApp.OnReady` | src/mainprocess/App.ts:85-108 | a fresh main window is registered with `set(MainWindow, w)` (so the registry's order is kept), its listener deletes `MainWindow`, the destroyed set is unchanged, and the log gains always-on-top, the load of the store's URL and the preload script, in that order |
| `MainProcess.MyApp.WillNavigate` | src/mainprocess/App.ts:110-128 | the handler appends the navigation effects of the rewritten URL |
| `MainProcess.MyApp.DidNavigate` | src/mainprocess/App.ts:130-142 | the handler appends the completed-navigation effects, and the store then holds the new URL |
| `MainProcess.MyApp.OnNewWindow` | src/mainprocess/App.ts:159-168 | the handler appends the new-window effects |
| `MainProcess.MyApp.CloseOtherWindows` | src/mainprocess/App.ts:145-149 | the `forEach` walk appends `close()` for each eligible window, in registry order |
| `MainProcess.MyApp.OnMainWindowClose` | src/mainprocess/App.ts:144-152 | the handler appends the walk's `close()` calls, then one save of the store's state |
| `MainProcess.MyApp.OnWindowAllClosed` | src/mainprocess/App.ts:155-157 | closing the last window quits the application |

## Left out

- `src/preload/index.ts`: the whole file is commented out, including its polling timers, so it has no behaviour to model.
- IPC handlers (`registIPCEventListeners`): they forward a payload to the store without validating it. Message passing is not modelled.
- Redux wiring: `createStore`, the middleware, the reducer and `resumeData` are not part of this model. The store is a constructor parameter holding only `nowUrl`.
- `Effects.Reduce`: assumes that `CHANGE_URL` sets `nowUrl` and that other actions leave it unchanged, because the reducer's source is not part of this model.
- File I/O: reading `preload.js` and `chatbox.js` and writing `.save/app.json` become the effects `InjectPreload`, `InjectChat` and `Save(snapshot)`. The snapshot is the store's state.
- Saving without a store: the constructor always creates the store (App.ts:66), so the null-store branches of `dispatch` and `saveAppData` cannot be reached in this source. The model keeps the store optional and records such a save as `Save(None)`; what Node would write or throw there is not modelled.
- Electron `close()` is asynchronous. `OnMainWindowClose` only logs `CloseWindow`. The window's later "closed" event is the separate method `WindowClosed`.
- `MainProcess.MyApp.WillNavigate`: the handler does not cancel the navigation. Electron's own navigation to the original URL still goes on. The model records only the handler's effects.
- `mainWindow` is never cleared when the main window closes. Later calls into a destroyed window's `webContents` are not modelled.
- `MainProcess.MyApp.OnReady` requires a store, because the source reads `appStore.getState()` without a null check.
- Menu construction (`buildMenu`, `setMenu`), window options, `console.log` output, the `channelId` getter (always the empty string) and `isDebug` path selection are left out. None of them affects the policy.
- Strings are sequences of Unicode scalar values, not UTF-16 code units. In the new-window pattern, `.` matches one UTF-16 unit. So a character outside the Basic Multilingual Plane in that position matches in the model but not in JavaScript.
