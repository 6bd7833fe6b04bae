# Diogenes front ends: a Dafny model

Diogenes is a desktop tool for searching and reading the TLG, PHI and DDP
corpora of Greek and Latin texts. A local Perl server does the searching.
Several generations of front end start that server, find its port and show
its pages:

- the Electron client;
- an older Electron build;
- an NW.js launcher;
- a XUL chrome.

The server's pages carry their own scripts: the database settings pages,
the Perseus morphology sidebar and the splash page.

This project models the decision logic of those front ends:

- the start-up handshake with the server through its lock file, and the
  shutdown;
- the window list and the navigation policy;
- the preferences file that records the database folders, with its writer,
  its reader and the "configured" test;
- the path and platform helpers of the XUL chrome;
- the page scripts: the settings pages, the Perseus request dispatch and
  sidebar layouts, the inflection filter, the lemma toggle and the splash
  page.

The file system, processes, timers and the DOM are replaced by values that
the model takes as inputs. Their outward actions are recorded in effect logs.

## Structure

- `wrappers.dfy` (`Wrappers`): `Option` and the `Result` of a computation that may throw.
- `text.dfy` (`Text`): the JavaScript string and regular-expression behaviour the scripts rely on:
  - the line terminators of multiline `^`/`$`;
  - `\s`;
  - `split`;
  - `indexOf`;
  - ASCII lower-casing.
- `prefs.dfy` (`Prefs`): the preferences-file writer (replace the first key line or append), the reader pattern and the configured test.
- `shell.dfy` (`Shell`): what the Electron main processes share:
  - the effect log;
  - the first-page choice;
  - the navigation test;
  - the lock watcher's decision;
  - `will-quit`;
  - `second-instance`.
- `client_main.dfy` (`ClientMain`): the Electron client's main process.
- `electron_main.dfy` (`ElectronMain`): the older Electron main process.
- `xul_chrome.dfy` (`XulChrome`): the XUL chrome script:
  - OS and separators;
  - path joining;
  - the Perl search;
  - the lock file reader;
  - the polling start-up;
  - `saveDatabasePath`;
  - the progress listener.
- `nw_startup.dfy` (`NwStartup`): the NW.js launcher script.
- `lock_formats.dfy` (`LockFormats`): how the NW.js and XUL readers of the line-format lock file relate.
- `db_page.dfy` (`DbPage`): the database settings page state shared by the settings pages.
- `client_preload.dfy`, `electron_firstrun.dfy`, `electron_dbsettings.dfy`, `client_firstrun.dfy`: the four settings pages.
- `page_script.dfy` (`PageScript`): what the two Perseus scripts share:
  - request classification;
  - the request query;
  - the inflection filter;
  - the lemma toggle.
- `perseus_cgi.dfy` (`PerseusCgi`): the Perseus script of the newer server.
- `legacy_cgi.dfy` (`LegacyCgi`): the Perseus script of the older browser front end.
- `splash.dfy` (`Splash`): the splash page script.

Several copies of the same code diverge in ways that can be checked:

- Where a copy has a defect, the model follows the code as written.
- Each such copy has a corrected definition beside it, and the intended property is proved of the corrected definition (see "Findings").
- The classes use the code as written.

## Model

| member | source | states |
|---|---|---|
| Prefs.DirKey | client/preload.js:24-26 | the key of a database is its lower-cased name followed by `_dir` |
| Prefs.DirLine | client/preload.js:25 | the written line is the key, a space and the folder in quotes, and begins with the key |
| Prefs.Rewrite | client/preload.js:26-32 | with a key line present, the text before it and after its end is kept and the new line replaces it; without one, the new line follows the old text after a line feed |
| Prefs.RewriteAsWritten | client/preload.js:28-32 | `data.replace(re, newLine)`, where the folder's `$` patterns are expanded; the append branch is the plain one |
| Prefs.WriteSettings | client/main.js:768-787 | no write without a folder; an unreadable file is replaced by the header plus the rewrite |
| Prefs.ReadDirFound | client/preload.js:104-108 | the reader `^db_dir\s+"?(.*?)"?$` captures a value only at a line that begins with the key |
| Prefs.ReadDir | client/preload.js:104-108 | the folder read never spans a line |
| Prefs.ReadAfterRewrite | client/preload.js:24-33 | after a write of a one-line folder, the reader yields exactly that folder |
| Prefs.RewriteTwice | client/preload.js:24-33 | a second write replaces the line of the first one: a key never gets two lines |
| Prefs.RewriteKeepsOtherLines | client/preload.js:26-32 | the first line of every other independent key is unchanged by a write |
| Prefs.RewriteConfigures | client/main.js:354-366 | after any write, the file passes the `_dir ` test of `checkDbSet` |
| Prefs.RewriteAsWrittenConfigures | client/main.js:779-786 | the write as performed, `$` patterns included, also leaves the file configured |
| Prefs.RewriteAsWrittenPlain | client/preload.js:28-29 | for a folder without `$`, the write as performed equals the plain rewrite |
| Prefs.DollarFolderIsAltered | client/preload.js:28-29 | a folder `$$` written over an existing key line reads back as `$` |
| Prefs.FreshFileWrite | dist/electron/pages/firstrun.js:11-25 | with no readable file, the result is the header, a line feed and the new line |
| Shell.PortText | client/main.js:405 | an absent port reads as `undefined` when concatenated |
| Shell.ServerUrl | client/main.js:405 | the server's address is `http://localhost:` followed by the port text |
| Shell.FirstPage | client/main.js:401-407 | the set-up page exactly when the preferences are missing or not configured, else the server's address |
| Shell.FirstPageAfterSetup | client/main.js:354-366 | after a folder has been written to any prefs, the first page is the server's |
| Shell.CountLoadsAppend | client/main.js:401-407 | the count of page loads is additive over concatenated logs |
| Shell.HostOf | client/main.js:281-282 | the host of an authority follows its last `@` and stops before `:`; it holds neither |
| Shell.HostnameOfAuthority | client/main.js:281-282 | for `http`, `https` and the other special schemes, the hostname is the lower-cased host of the authority after `//` |
| Shell.Hostname | client/main.js:281-282 | the hostname never holds user information or a port |
| Shell.LocalhostAllowed | client/main.js:279-286 | `http` or `https` to `localhost`, with or without user information and a port, is never cancelled |
| Shell.ServerNavigationAllowed | client/main.js:279-286 | navigation to the server's address `http://localhost:<port>` is never cancelled |
| Shell.LoopbackAddressBlocked | client/main.js:279-286 | another host, even `127.0.0.1`, is cancelled |
| Shell.UserinfoCannotSpoof | client/main.js:281-282 | `http://localhost@example.com/` is cancelled: the host is what follows the `@` |
| Shell.UpperCaseAllowed | dist/electron/main.js:166-171 | `HTTP://LOCALHOST/` is allowed: scheme and host are compared lower-cased |
| Shell.WatcherEffectsFacts | client/main.js:327-351 | for the lock file when present: a throw when it does not parse; when port or pid is missing, a quit request and still the load; otherwise just the load |
| Shell.WatcherEffects | client/main.js:327-351 | a watcher's callback does something exactly when the event is for the lock file and it exists, and at most two things |
| Shell.QuitEffects | client/main.js:254-263 | the kill comes first when a server exists; the unguarded unlink throws when the lock is gone |
| Shell.FocusEffects | client/main.js:268-276 | nothing for an empty list; else the first window is restored when minimized, then focused |
| ClientMain.SaveWindowState | client/main.js:369-381 | the bounds are saved only for a window that is not maximized; the flag is always saved |
| ClientMain.ChoosePlacement | client/main.js:72-109 | a further window sits at the old window's position plus the offset; without saved bounds the size is 800×600 |
| ClientMain.DefaultPosResets | client/main.js:72-78 | the default position overrides saved state and the old window |
| ClientMain.RestoresSavedBounds | client/main.js:84-91 | a first window reopens at the bounds saved for a window that was not maximized |
| ClientMain.FurtherWindowOffset | client/main.js:92-106 | a further window keeps the saved size and is offset from its origin window |
| ClientMain.MaximizeOnCreate | client/main.js:114-116 | as written, the reader tests the key `maximzed` |
| ClientMain.MaximizeOnCreateFixed | client/main.js:114-116 | corrected, it tests `maximized` |
| ClientMain.MaximizedNeverRestored | client/main.js:114 | a window saved maximized reopens neither maximized nor at saved bounds |
| ClientMain.MaximizedRestored | client/main.js:369-374 | with the corrected reader the saved flag comes back |
| ClientMain.IndexOf | client/main.js:204 | the first position of the window, or -1 when absent |
| ClientMain.SpliceOneRemoves | client/main.js:204 | `splice(i, 1)` removes the entry at a start inside the list, counts a negative start back from the end and clamps it at 0, and removes nothing at or past the end |
| ClientMain.SpliceOne | client/main.js:204 | `splice(start, 1)` removes at most one entry and adds none |
| ClientMain.RemoveTracked | client/main.js:202-205 | closing a listed window removes it and keeps the order of the rest |
| ClientMain.RemoveWindow | client/main.js:202-205 | the `closed` handler always shortens a non-empty list by one, and adds no window |
| ClientMain.RemoveKeepsDistinct | client/main.js:202-205 | the list stays free of repeats and only loses windows |
| ClientMain.RemoveUntrackedDropsLast | client/main.js:204 | an unlisted window's close drops the last listed window |
| ClientMain.StartupOrder | client/main.js:185-190 | the order of the start-up: a stale lock removed first exactly when it exists, then the watcher installed and the server spawned; no page is loaded |
| ClientMain.StartupEffects | client/main.js:185-190 | the start-up only removes the lock, installs the watcher and spawns the server |
| ClientMain.MainProcess.constructor | client/main.js:1-46 | no windows, no server, startup not done |
| ClientMain.MainProcess.Initialise | client/main.js:40-46 | an instance without the single-instance lock quits |
| ClientMain.MainProcess.CreateWindow | client/main.js:69-116 | a new window is appended to the list and opened at the placement chosen from the default flag, the origin window, the offset and the saved state, maximized when the saved state says so |
| ClientMain.MainProcess.CreateFirstWindow | client/main.js:167-194 | the first window is created with no origin window, and the start-up effects are logged in order |
| ClientMain.MainProcess.OnLockEvent | client/main.js:324-351 | events are ignored after startup, for other files and while the lock is absent; at most one page load overall |
| ClientMain.MainProcess.LoadFirstPage | client/main.js:401-407 | the first page is chosen from the preferences and the port |
| ClientMain.MainProcess.PortReply | client/main.js:730-732 | the port of the parsed lock file, if any |
| ClientMain.MainProcess.OnContextMenu | client/main.js:221-230 | a link is remembered exactly when it is non-empty and not a `javascript:` link |
| ClientMain.MainProcess.OpenLinkHere | client/main.js:54-59 | the remembered link, if any, loads in the window; the link is forgotten |
| ClientMain.MainProcess.OpenLinkInNewWindow | client/main.js:60-66 | exactly when a link is remembered, a window offset by (20,20) from its origin opens and loads it; the link is forgotten |
| ClientMain.MainProcess.NewWindowRequest | client/main.js:213-219 | a window offset by (20,20) from its origin opens and loads the address |
| ClientMain.MainProcess.OnClosed | client/main.js:202-205 | the list after a close is `splice(indexOf(win), 1)` |
| ClientMain.MainProcess.SecondInstance | client/main.js:268-276 | the focus effects for the current list |
| ClientMain.MainProcess.OnAllClosed | client/main.js:245-251 | the application quits except on macOS |
| ClientMain.MainProcess.OnWillQuit | client/main.js:254-263 | the quit effects for the current server and lock |
| ClientMain.MainProcess.DbOpenDialog | client/main.js:758-787 | the chosen folder is written to the preferences and returned; a cancel writes nothing |
| ClientMain.ChosenFolderSkipsSetup | client/main.js:401-407 | after a folder is chosen, the next start goes to the server |
| ElectronMain.AfterClose | dist/electron/main.js:82-90 | as written, an emptied list becomes null |
| ElectronMain.AfterCloseFixed | dist/electron/main.js:82-90 | corrected, an emptied list stays empty |
| ElectronMain.ActivateCreates | dist/electron/main.js:144-150 | `activate` throws on null and creates a window only for an empty list |
| ElectronMain.ActivateAfterLastCloseThrows | dist/electron/main.js:87-89 | after the last window closes, `activate` throws |
| ElectronMain.ActivateAfterLastCloseFixed | dist/electron/main.js:144-150 | with the corrected close, `activate` opens a window again |
| ElectronMain.DirEventLoads | dist/electron/main.js:205-232 | an event delivered to all watchers loads a page exactly once when start-up is not done, the event applies, the lock parses and a watcher exists; otherwise never |
| ElectronMain.DirEventEffects | dist/electron/main.js:205-232 | a directory event does anything only before start-up is done, with a watcher installed, for the lock file when present |
| ElectronMain.UnparsableThrowsInEach | dist/electron/main.js:210-213 | an unparsable lock file throws in every watcher |
| ElectronMain.ParsedLoadsFirstWatcher | dist/electron/main.js:214-231 | a readable lock is handled by the first watcher alone |
| ElectronMain.MainProcess.constructor | dist/electron/main.js:10 | an empty window list and no server |
| ElectronMain.MainProcess.CreateWindow | dist/electron/main.js:53-74 | each call appends a window, removes a stale lock, adds a watcher and spawns another server |
| ElectronMain.MainProcess.WatcherCallback | dist/electron/main.js:205-232 | one watcher's decision for an event, into its own window |
| ElectronMain.MainProcess.DeliverDirEvent | dist/electron/main.js:205-232 | a loop over the watchers in installation order, equal to the effects function; start-up is done and the settings kept exactly when a watcher acted on a readable lock |
| ElectronMain.SecondEventLoadsNothing | dist/electron/main.js:208-231 | two events load at most one page together; after the first has done the start-up the second loads none |
| ElectronMain.MainProcess.Activate | dist/electron/main.js:144-150 | throws on null, re-runs the start-up on an empty list, else nothing |
| ElectronMain.MainProcess.OnClosed | dist/electron/main.js:82-90 | the window is spliced out and an empty list set to null |
| ElectronMain.MainProcess.SecondInstance | dist/electron/main.js:154-162 | throws on null; otherwise the focus effects |
| ElectronMain.MainProcess.OnWillQuit | dist/electron/main.js:133-142 | the kill's failure is swallowed; the unguarded unlink throws on a missing lock |
| ElectronMain.MainProcess.PortReply | dist/electron/main.js:235-237 | undefined until the lock file has been read |
| XulChrome.GetOS | diogenes.js:211-228 | `win`, then `mac`, then `unix`/`linux`/`sun` in the lower-cased platform, else unidentified |
| XulChrome.GetOSIgnoresCase | diogenes.js:213 | the classification is the same for a lower-cased platform string |
| XulChrome.GetOSWinFirst | diogenes.js:215-217 | any platform containing `win` is Windows, `Darwin` included |
| XulChrome.PathSep | diogenes.js:236-247 | `:` on unix and mac, `;` on Windows, undefined otherwise |
| XulChrome.DirSep | diogenes.js:236-260 | `/` on unix and mac, `\` on Windows, undefined otherwise; on every identified system it differs from the path separator |
| XulChrome.PerlName | diogenes.js:266-275 | `wperl.exe` on Windows, `perl` elsewhere |
| XulChrome.MyAppendPath | diogenes.js:277-280 | a separator is inserted unless the path already ends with one |
| XulChrome.EnsureDirectory | diogenes.js:282-286 | empty stays empty; anything else ends with the separator; a directory that already ends with it is kept, so ensuring twice changes nothing more |
| XulChrome.AppendPathOneSeparator | diogenes.js:277-280 | with a known system exactly one separator joins path and leaf |
| XulChrome.AppendToEnsuredDirectory | diogenes.js:277-286 | appending to an ensured directory is concatenation |
| XulChrome.AppendPathUnidentified | diogenes.js:277-280 | with no known system the separator is the text `undefined` |
| XulChrome.PathDirs | diogenes.js:290-308 | `PATH` yields at least one entry, and is one whole entry when the separator is undefined |
| XulChrome.GetPerlExecutable | diogenes.js:290-308 | the first `PATH` entry holding Perl as a file, or undefined when none does |
| XulChrome.ReadLockLine | diogenes.js:458-468 | an empty line is skipped; `port` gives the text from index 5, `pid` from index 4; others warn |
| XulChrome.ParseLockLines | diogenes.js:445-469 | the lines are folded in order |
| XulChrome.ReadLockFile | diogenes.js:445-469 | the line loop computes the fold |
| XulChrome.LastPortWins | diogenes.js:457-458 | the port comes from the last `port` line |
| XulChrome.LastPidWins | diogenes.js:460-461 | the pid comes from the last `pid` line |
| XulChrome.NoPortLine | diogenes.js:445-469 | without a `port` line the port is undefined |
| XulChrome.ServerLockRead | diogenes.js:445-469 | the server's two-line lock file reads back as its port and pid |
| XulChrome.GoUrl | diogenes.js:112-121 | the loaded address begins with `http:127.0.0.1:`, without `//` after the scheme |
| XulChrome.GoLoadsOnce | diogenes.js:104-121 | `go` loads one page exactly when the port is truthy, last, after only bad-line warnings; a cached port loads at once |
| XulChrome.GoPort | diogenes.js:104-110 | a truthy cached port is kept; any other port is the lock file's |
| XulChrome.AbortEffects | diogenes.js:415-420 | giving up alerts first, then closes the main windows, and quits exactly when a lock file is there to kill |
| XulChrome.SavedLine | diogenes.js:740 | the written line is `<type>_dir "<path>"` |
| XulChrome.ReplaceKeyLines | diogenes.js:736-745 | every key line is replaced and the others kept in order |
| XulChrome.ReplaceKeepsCount | diogenes.js:736-745 | replacing keeps the number of key lines |
| XulChrome.SaveLinesAsWritten | diogenes.js:725-751 | as written: key lines replaced, and the line always appended |
| XulChrome.SaveLines | diogenes.js:725-751 | corrected: the line is appended only when no line held the key, so a key has at most one line |
| XulChrome.SaveAsWrittenDuplicates | diogenes.js:741-749 | as written, an existing key gains one more line |
| XulChrome.JoinLines | diogenes.js:736-745 | each line is written followed by a newline |
| XulChrome.SaveDatabasePath | diogenes.js:725-750 | the loop over the lines computes the as-written result |
| XulChrome.KillServerEffects | diogenes.js:315-324 | the killer runs with a lock; without one, the undeclared `complain` throws |
| XulChrome.KillServerEffectsFixed | diogenes.js:315-324 | corrected, no lock means no effect |
| XulChrome.QuitDiogenesEffects | diogenes.js:813-816 | `closeAllWindows` (diogenes.js:518-527) closes the main windows first; the quit happens exactly when the kill did not throw |
| XulChrome.QuitDiogenesEffectsFixed | diogenes.js:813-816 | corrected, the main windows close first and the quit always happens last |
| XulChrome.AbortWithoutLockDoesNotQuit | diogenes.js:315-324 | giving up without a lock closes the main windows and then throws, without quitting |
| XulChrome.AbortQuits | diogenes.js:813-816 | corrected, giving up closes the windows and quits, and nothing throws |
| XulChrome.StopWaitRun | diogenes.js:424-437 | the tick at which the vanish wait starts the server, if any |
| XulChrome.StopWaitNeverExpires | diogenes.js:433 | as written, a lock that never vanishes is waited on forever |
| XulChrome.StopWaitExpiresFixed | diogenes.js:433 | corrected, the server starts at the 301st tick |
| XulChrome.StopWaitVanished | diogenes.js:429-432 | a vanished lock starts the server at that tick |
| XulChrome.StartWaitRun | diogenes.js:404-422 | the wait ends at the first readable tick, which loads the page and also gives up when it is past the 300th; a tick past the 300th without the lock gives up; a wait still running has seen no readable lock and at most 300 ticks |
| XulChrome.LoadedAndGaveUpOnLastTick | diogenes.js:413-421 | a lock first readable on the 301st tick is loaded, and the wait gives up on that same tick |
| XulChrome.StartWaitLoadsOnce | diogenes.js:413-421 | the whole wait loads at most one page, exactly when it ends at a readable lock with a truthy port; it asks to quit exactly when it gave up and the lock file exists |
| XulChrome.EndingTick | diogenes.js:413-421 | the tick at which the lock is readable or the count passes 300 is the tick the run's outcome names, and its log is the outcome's |
| XulChrome.StartWaitGivesUp | diogenes.js:415-420 | a lock that never appears is given up on at the 301st tick |
| XulChrome.IsFirstOrLastWindow | diogenes.js:501-516 | the counting loop answers whether exactly one main window exists |
| XulChrome.ChromeWindow.constructor | diogenes.js:100-102 | no cached port, no counters, no intervals |
| XulChrome.ChromeWindow.GetPort | diogenes.js:104-110 | a truthy cached port is kept; otherwise the lock is read again |
| XulChrome.ChromeWindow.Go | diogenes.js:104-121 | the port is the cached one or the lock file's; the warnings and then the page load when it is truthy are logged |
| XulChrome.ChromeWindow.WaitForLock | diogenes.js:392-396 | the start counter is reset and its interval runs |
| XulChrome.ChromeWindow.WaitToLoad | diogenes.js:192-204 | without Perl an alert and a throw and no wait; with Perl, kill then wait for absence when a lock exists, otherwise start then wait for the lock |
| XulChrome.ChromeWindow.StartServerAndWait | diogenes.js:439-443 | the vanish wait stops; a server starts and the lock wait begins |
| XulChrome.ChromeWindow.StopTick | diogenes.js:424-437 | one tick of the vanish wait, with the as-written timeout test |
| XulChrome.ChromeWindow.StartTick | diogenes.js:404-422 | one tick of the lock wait: a readable lock runs `go` and stops the wait; past 300 tries the wait gives up |
| XulChrome.ChromeWindow.WaitTick | diogenes.js:404-422 | one tick inside a lock wait: when it ends the wait it has logged what the whole wait's outcome says, with `go`'s port exactly on a load; otherwise nothing is logged and the rest of the wait decides |
| XulChrome.ChromeWindow.RunStartWait | diogenes.js:392-422 | the ticks of the lock wait end as the run function says, stopping the interval; the log grows by `go` when the wait ends at a readable lock, then by the abort when that tick, or a tick without the lock, is past the 300th; the port is `go`'s exactly when the page was loaded |
| XulChrome.ChromeWindow.RunStopWait | diogenes.js:424-437 | the ticks of the vanish wait end as the run function says |
| XulChrome.ChromeWindow.OnLoad | diogenes.js:158-184 | only the single main window runs the start-up: without a lock it waits; with a lock it runs `go` |
| XulChrome.ChromeWindow.OnClose | diogenes.js:493-499 | the last main window kills the server |
| XulChrome.ProgressListener.constructor | diogenes.js:8-9 | both counters start at zero |
| XulChrome.ProgressListener.OnStateChange | diogenes.js:24-57 | requests are counted; a network stop zeroes the counters and disables stop |
| NwStartup.LineCaptureFound | dist/nwjs/diogenes-startup.js:37-40 | the capture of `^prefix(.*)$` under `m` is the rest of the first line with the prefix, and holds no terminator |
| NwStartup.ReadLockTextOk | dist/nwjs/diogenes-startup.js:34-44 | port and pid from their first lines; a missing one throws |
| NwStartup.ReadLockText | dist/nwjs/diogenes-startup.js:34-44 | a successful read yields the captures of the `port` and `pid` lines; a failed one throws V8's TypeError for indexing null |
| NwStartup.LockText | dist/nwjs/diogenes-startup.js:34-44 | the lock file as the server writes it |
| NwStartup.ReadsServerLock | dist/nwjs/diogenes-startup.js:34-44 | the server's lock file reads back as its port and pid |
| NwStartup.MissingPidThrows | dist/nwjs/diogenes-startup.js:38-40 | a file with no pid line throws |
| NwStartup.StartupEffectsFacts | dist/nwjs/diogenes-startup.js:49-64 | a stale lock is killed and unlinked before the spawn and the watch |
| NwStartup.StartupEffects | dist/nwjs/diogenes-startup.js:49-64 | the script stops at a throw exactly when a stale lock is there and cannot be read |
| NwStartup.LocalUrl | dist/nwjs/diogenes-startup.js:105 | the window address is `http://127.0.0.1:` and the port |
| NwStartup.OpenEffects | dist/nwjs/diogenes-startup.js:101-110 | an empty port alerts and quits first; the window opens regardless |
| NwStartup.ChangeEffectsFacts | dist/nwjs/diogenes-startup.js:96-125 | only a `change` of `.diogenes.run` acts; a vanished lock alerts and quits; a readable lock loads one window |
| NwStartup.ChangeEffects | dist/nwjs/diogenes-startup.js:96-125 | the callback does something exactly for a `change` of `.diogenes.run`; it asks to quit only for a vanished lock or an empty port |
| NwStartup.CloseEffects | dist/nwjs/diogenes-startup.js:112-117 | the close kills the server, unlinks the lock and quits; a missing lock throws before the quit |
| NwStartup.WindowCloseEffects | dist/nwjs/diogenes-startup.js:110-117 | closing a window kills the server and may quit only when its close handler was installed |
| NwStartup.EveryChangeOpensAWindow | dist/nwjs/diogenes-startup.js:96-125 | with no once-only guard, n qualifying changes load n windows |
| NwStartup.NwLauncher.constructor | dist/nwjs/diogenes-startup.js:49-96 | the start-up effects of the top level |
| NwStartup.NwLauncher.OnDirEvent | dist/nwjs/diogenes-startup.js:96-125 | the change effects are logged; a new window is tracked when one opens, and gets a close handler unless passing `initMenu`'s undefined result as the load listener throws |
| NwStartup.NwLauncher.OpenWindow | dist/nwjs/diogenes-startup.js:110-118 | the opened window is tracked and numbered, and its close handler is recorded only when installed |
| NwStartup.NwLauncher.OnClose | dist/nwjs/diogenes-startup.js:110-117 | the close handler's effects are logged for a window that has one; nothing otherwise |
| LockFormats.Lines | diogenes.js:452-455 | the file cut at line feeds has at least one piece |
| LockFormats.ServerLockLines | diogenes.js:452-455 | the server's file cuts into its port line, its pid line and an empty line |
| LockFormats.ReadersAgree | dist/nwjs/diogenes-startup.js:34-44 | on the server's file, the NW.js and XUL readers agree |
| LockFormats.RepeatedPortDisagrees | diogenes.js:461-463 | with two port lines, the launcher keeps the first and the chrome the last |
| DbPage.MarkFor | client/preload.js:42-50 | the tick when the folder holds `authtab.dir` or `AUTHTAB.DIR` or needs none; a warning otherwise |
| DbPage.StoredPath | client/preload.js:104-108 | the field shows the reader's capture when it matches, else keeps its text |
| DbPage.StoredMark | client/preload.js:104-108 | an unreadable file leaves the mark as it was |
| DbPage.WrittenFolderReadBack | client/preload.js:24-33 | a folder with no line break or `$` shows on reload as written |
| DbPage.SettingsPage.constructor | client/preload.js:76-84 | empty fields, no marks, done hidden |
| DbPage.SettingsPage.ShowPath | client/preload.js:38-51 | the field shows the folder; the mark says whether it holds an author table |
| DbPage.SettingsPage.ReadyDoneButton | client/preload.js:53-65 | the loop reveals done exactly when some field is non-empty, and never hides it |
| DbPage.SettingsPage.Store | client/preload.js:18-33 | the preferences become the write for the database |
| DbPage.SettingsPage.ShowStored | client/preload.js:104-108 | the stored folder is shown when the reader matches |
| DbPage.SettingsPage.ShowAllStored | client/preload.js:88-110 | every database's stored folder is shown; an unreadable file shows nothing |
| ClientPreload.SetPath | client/preload.js:13-36 | a cancel does nothing; otherwise write, show, and reveal done when any field is set |
| ClientPreload.FirstrunSetup | client/preload.js:76-111 | the settings directory is made when missing; done is decided before the stored folders appear |
| ElectronFirstrun.SetPath | dist/electron/pages/firstrun.js:5-28 | the same write, show and done readiness |
| ElectronFirstrun.DbSettingsSetup | dist/electron/pages/firstrun.js:68-105 | no directory is made; an unreadable file returns before done; TLG, PHI and DDP show their stored folders and marks |
| ElectronDbSettings.SetPath | dist/electron/pages/dbsettings.js:3-26 | the write and the show, with no done button |
| ElectronDbSettings.DbSettingsSetup | dist/electron/pages/dbsettings.js:48-83 | no directory is made; TLG, PHI and DDP are shown; an unreadable file shows nothing |
| ClientFirstrun.Picker | client/pages/firstrun.js:39-52 | a file picker for OLD_PDF and a directory picker for the rest |
| ClientFirstrun.Shown | client/pages/firstrun.js:54-58 | a cancelled dialog shows `undefined` |
| ClientFirstrun.PdfAlwaysValid | client/pages/firstrun.js:59-67 | TLL_PDF and OLD_PDF are always ticked |
| ClientFirstrun.DatabaseNeedsAuthtab | client/pages/firstrun.js:59-67 | the others are ticked exactly when the folder holds an author table |
| ClientFirstrun.FirstrunSetup | client/pages/firstrun.js:4-24 | the five databases are shown in order from the data (none when it is null), then done is readied |
| ClientFirstrun.Click | client/pages/firstrun.js:39-52 | the choice is shown and marked, even when cancelled |
| PageScript.Classify | server/diogenes-cgi.js:117-129 | show on readyState 4 with status 200; fail on 4 with a status other than 200 and 0; else ignore |
| PageScript.RequestQuery | server/diogenes-cgi.js:104-106 | the request parameters begin with `do=` |
| PageScript.RequestQueryRoundTrip | server/diogenes-cgi.js:104-106 | with no `&` in the values, `do`, `lang` and `q` read back by `Param` as written |
| PageScript.Param | server/diogenes-cgi.js:104-106 | a value is read only from a `name=` parameter of the string |
| PageScript.AmpersandCutsQuery | server/diogenes-cgi.js:104-106 | a query holding `&` reaches the server cut at it |
| PageScript.FilteredClass | server/diogenes-cgi.js:345-367 | a form span is visible exactly when its `infl` contains the last token; other spans are left alone |
| PageScript.FilterForms | server/diogenes-cgi.js:345-367 | the nested loop leaves each span with the filtered class |
| PageScript.EmptyLastTokenShowsAll | server/diogenes-cgi.js:347-349 | an empty last token shows every form span |
| PageScript.ToggledLemma | server/diogenes-cgi.js:311-326 | a recognised picture flips and the span follows it; any other picture is left alone |
| PageScript.ToggleTwice | server/diogenes-cgi.js:311-326 | toggling twice restores a header in agreement with its span |
| PageScript.LemmaHeader.constructor | server/diogenes-cgi.js:311-312 | the header's picture and span class as given |
| PageScript.LemmaHeader.Toggle | server/diogenes-cgi.js:311-326 | the toggle keeps picture and span in agreement and flips the picture |
| PerseusCgi.NewPageUrl | server/diogenes-cgi.js:61-63 | `Perseus.cgi?` followed by the query and `&popup=1` |
| PerseusCgi.RequestUri | server/diogenes-cgi.js:104-108 | `&inp_enc=` and the encoding are added exactly for a truthy encoding |
| PerseusCgi.PopupIsNewPage | server/diogenes-cgi.js:82 | the pop-up and the new page use the same address |
| PerseusCgi.EncodingReadsBack | server/diogenes-cgi.js:104-108 | the query reads back whole, by `Param`, from a request that carries an encoding |
| PerseusCgi.ControlsFor | server/diogenes-cgi.js:160-186 | on the splash page only Dismiss; otherwise the other layout and then Dismiss |
| PerseusCgi.SendEffects | server/diogenes-cgi.js:79-114 | a pop-up or its alert, a new page, or a GET that aborts first exactly when the old request is in flight |
| PerseusCgi.PerseusPage.constructor | server/diogenes-cgi.js:59 | no request, no parse, nothing highlighted |
| PerseusCgi.PerseusPage.AtMostOneHighlighted | server/diogenes-cgi.js:216-223 | at most one element is highlighted |
| PerseusCgi.PerseusPage.SendRequest | server/diogenes-cgi.js:65-115 | the cursor spins, JumpFrom stores the request, the effects of the dispatch are logged, and the result is true |
| PerseusCgi.PerseusPage.SidebarControl | server/diogenes-cgi.js:160-186 | the controls are those of the layout |
| PerseusCgi.PerseusPage.SidebarFullscreen | server/diogenes-cgi.js:200-206 | gives (sidebar-full, main-hidden) and its controls |
| PerseusCgi.PerseusPage.SidebarSplitscreen | server/diogenes-cgi.js:208-214 | gives (sidebar-split, main-full) and its controls |
| PerseusCgi.PerseusPage.SidebarDismiss | server/diogenes-cgi.js:188-198 | the sidebar and controls are emptied, main-full is set, and no word stays highlighted |
| PerseusCgi.PerseusPage.ShowPerseus | server/diogenes-cgi.js:135-158 | the response fills the sidebar; a full sidebar hides the page; the splash page goes full screen |
| PerseusCgi.PerseusPage.StateHandler | server/diogenes-cgi.js:117-129 | a finished 200 shows the response as `showPerseus` does: the sidebar text, a full sidebar on the splash page, otherwise the old class, the page hidden under a full sidebar and the controls for the class; any other finished status but 0 alerts and changes nothing else; everything else is ignored |
| PerseusCgi.PerseusPage.Highlight | server/diogenes-cgi.js:216-223 | exactly the new element is highlighted |
| PerseusCgi.PerseusPage.FormFilter | server/diogenes-cgi.js:345-367 | each span takes its filtered class |
| PerseusCgi.ToggleLemma | server/diogenes-cgi.js:311-326 | the PNG pictures flip and the span class follows |
| LegacyCgi.PopupUrl | diogenes-browser/perl/diogenes-cgi.js:36-37 | the pop-up address is `Perseus.cgi?` followed by the request's parameters and `&popup=1` |
| LegacyCgi.PopupQueryReadsBack | diogenes-browser/perl/diogenes-cgi.js:36-37 | with no `&` in the values, the query reads back by `Param` from the pop-up address |
| LegacyCgi.NewPageUrl | diogenes-browser/perl/diogenes-cgi.js:27-29 | the pop-up address followed by `&font=` and the font |
| LegacyCgi.NewPageQueryReadsBack | diogenes-browser/perl/diogenes-cgi.js:27-29 | the query reads back from a new page's address, whatever the font |
| LegacyCgi.SendEffects | diogenes-browser/perl/diogenes-cgi.js:31-63 | a pop-up or its alert, a new page, or a POST of the query that aborts first exactly when the old request is in flight |
| LegacyCgi.PostBodyReadsBack | diogenes-browser/perl/diogenes-cgi.js:58-59 | the POST body reads back as the query |
| LegacyCgi.ControlsFor | diogenes-browser/perl/diogenes-cgi.js:100-114 | Dismiss plus the other layout for split and full; nothing for any other class |
| LegacyCgi.LegacyPage.constructor | diogenes-browser/perl/diogenes-cgi.js:24 | no request |
| LegacyCgi.LegacyPage.OnActionChange | diogenes-browser/perl/diogenes-cgi.js:17-22 | the form is submitted exactly for index 7 |
| LegacyCgi.LegacyPage.SendRequest | diogenes-browser/perl/diogenes-cgi.js:31-63 | the dispatch effects are logged, a sidebar request is remembered, and the result is true |
| LegacyCgi.LegacyPage.SidebarControl | diogenes-browser/perl/diogenes-cgi.js:100-114 | the controls of the layout, or an error alert that keeps the old ones |
| LegacyCgi.LegacyPage.SidebarFullscreen | diogenes-browser/perl/diogenes-cgi.js:123-129 | gives (sidebar-full, main-hidden) with Dismiss and Split Screen |
| LegacyCgi.LegacyPage.SidebarSplitscreen | diogenes-browser/perl/diogenes-cgi.js:131-137 | gives (sidebar-split, main-full) with Dismiss and Full Screen |
| LegacyCgi.LegacyPage.SidebarDismiss | diogenes-browser/perl/diogenes-cgi.js:116-121 | the sidebar is emptied and main-full set; the controls stay |
| LegacyCgi.LegacyPage.ShowPerseus | diogenes-browser/perl/diogenes-cgi.js:83-97 | the response fills the sidebar; a full sidebar hides the page; the controls are redrawn |
| LegacyCgi.LegacyPage.StateHandler | diogenes-browser/perl/diogenes-cgi.js:65-77 | the same classification as the newer script; a shown response fills the sidebar, keeps its class, hides the page under a full sidebar, and redraws the controls for a split or full sidebar or alerts the unknown state |
| LegacyCgi.LegacyPage.FormFilter | diogenes-browser/perl/diogenes-cgi.js:243-265 | the same last-token rule |
| LegacyCgi.ToggleLemma | diogenes-browser/perl/diogenes-cgi.js:210-224 | the GIF pictures flip and the span class follows |
| Splash.HasGreek | server/splash.js:90-91 | true exactly when some character is in U+0370–U+03FF or U+1F00–U+1FFF |
| Splash.PerseusRequestFor | server/splash.js:87-97 | `grk` with `utf8` exactly for Greek input; otherwise `lat` with no encoding |
| Splash.GreekQueryAsksUtf8 | server/splash.js:91-95 | the sidebar request of Greek input ends in `&inp_enc=utf8`; any other input carries no encoding |
| Splash.Restored | server/splash.js:177-182 | a stored key reads back as its value; a missing key reads as null |
| Splash.StoredText | server/splash.js:101 | null is stored as the text `null` |
| Splash.Remembered | server/splash.js:115-123 | a global takes its field's value when the field is on the page |
| Splash.SaveAllFacts | server/splash.js:16-31 | each present field is stored under its key; other keys are unchanged |
| Splash.SaveAll | server/splash.js:16-31 | no stored key is lost, and each field on the page is stored under its key |
| Splash.ExportInfo | server/splash.js:124-135 | the folder and Export button exactly when `exportPath` is truthy and not `"null"` |
| Splash.PanelOf | server/splash.js:137 | the choice's panel, or `undefined` when there is none |
| Splash.RefilledFieldsFacts | server/splash.js:137-153 | the new panel's fields get truthy remembered values; the action field holds the choice |
| Splash.RefilledFields | server/splash.js:137-153 | the action field holds the choice, and no field appears that neither the old page nor the new panel had |
| Splash.ToggledDisplay | server/splash.js:78-85 | `block` exactly when the display was `none`; otherwise `none` |
| Splash.SplashPage.constructor | server/splash.js:2 | the globals are undefined and no panels exist |
| Splash.SplashPage.SaveValues | server/splash.js:16-31 | only when storage is available: present fields go to the globals and to storage |
| Splash.SplashPage.Load | server/splash.js:33-49 | the cursor stops; globals come back from storage; the export field is filled; the panels are set |
| Splash.SplashPage.RestoreGlobals | server/splash.js:177-182 | with local storage the four globals are read back from it, a missing key as null; without it they keep their values |
| Splash.SplashPage.FillPanels | server/splash.js:183-250 | a truthy export folder goes into its field; a missing field stops the script before the panels; otherwise the panels are added |
| Splash.SplashPage.DropUp | server/splash.js:75-77 | the menu is hidden |
| Splash.SplashPage.DropDown | server/splash.js:72-74 | the menu is shown |
| Splash.SplashPage.DropToggle | server/splash.js:78-85 | the menu's display becomes the toggled one; the others are unchanged |
| Splash.SplashPage.Info | server/splash.js:110-154 | both submenus are hidden, the export panel is rebuilt, the box shows the choice's panel, and the action field ends equal to the choice |
| Splash.SplashPage.RememberFields | server/splash.js:115-123 | each global takes its field's value when the field is on the page, and keeps its value otherwise |
| Splash.SplashPage.ShowPanel | server/splash.js:124-147 | the export panel is redrawn for the current folder, the box shows the choice's panel, and the new fields are refilled from the globals |
| Splash.SplashPage.XmlPathSelect | server/splash.js:99-104 | the pick becomes the folder; with storage and the export field, it is stored as text, written into the field, and `info('export')` follows: submenus hidden, globals remembered from the fields, the export panel redrawn for the pick and shown, the fields refilled; otherwise the script stops with only the folder changed |
| Splash.SplashPage.SplashPerseus | server/splash.js:87-97 | a query on the page is remembered and sent in Greek or Latin |
| Splash.SplashPage.ProcessForm | server/splash.js:51-70 | values are saved and the cursor spins; parse and lookup go to Perseus; every other action submits |
| Splash.CancelledChoiceStaysUnset | server/splash.js:99-125 | a cancelled pick reads back next time as `"null"` and still shows the warning |

## Left out

- Framework and widget glue:
  - window construction and showing;
  - menus, including `initializeMenuTemplate` and the NW.js `initMenu`;
  - dialogs;
  - the content-security-policy hook;
  - the find-in-page window;
  - `checkVersion`;
  - zoom, which is floating point;
  - save, print and font selection;
  - `showAbout`.
- Other files with no decision logic:
  - the font page;
  - the NW.js database pop-up;
  - the database error page;
  - the Electron preload's file wrappers.
- These are abstract inputs to the model:
  - the result of reading a file (`None` when the read fails);
  - whether a lock or folder exists;
  - the platform string;
  - the answer of a picker dialog;
  - a kill that fails or throws.
- Processes, `fs.watch` delivery and `setInterval` timing are events the model is handed. Interval ticks are method calls.
- JSON lock files are already-parsed records with optional port and pid; `JSON.parse` itself is not modelled.
- `Shell.NavigationBlocked`: of `new URL`, only the hostname is modelled. Percent-decoding, IDNA, IPv6 brackets, the stripping of tabs and line breaks, a trailing dot, and the throw on an invalid address are not. A `file` address is taken to have no host, so it is always cancelled.
- `PageScript.Param`: the parameters are split at `&` and nothing is decoded. The server's reader also turns `+` into a space and `%XX` into a character, and a `#` ends a GET address. So the read-back lemmas (`PageScript.RequestQueryRoundTrip`, `PerseusCgi.EncodingReadsBack`, `LegacyCgi.NewPageQueryReadsBack`, `LegacyCgi.PopupQueryReadsBack`, `LegacyCgi.PostBodyReadsBack`) state what `Param` returns. A query with `+`, `%` or `#` reaches the server changed, which is not modelled.
- `ClientMain`: as given, client/main.js does not load. Line 1 takes `dialog` from `require('electron')`, and line 6 declares `const dialog` again in the same scope, which is a SyntaxError before any handler is installed. Every `ClientMain` member reads the file without line 6, taking `dialog` from Electron.
- `XulChrome.QuitDiogenesEffects`: `CloseMainWindows` records the `win.close()` loop as one effect. Which windows are open is not modelled, and neither are the unload handlers those closes fire (`XulChrome.ChromeWindow.OnClose` models that handler on its own). Whether the runtime exits by itself once its last window has closed, even though `quit(true)` is never reached, is behaviour of the runtime and is not modelled.
- `ClientMain.MainProcess.CreateWindow`: the window's `webPreferences` and its `ready-to-show`, `resize`, `move` and `close` handlers are not modelled. What those handlers save is `ClientMain.SaveWindowState`.
- `ElectronMain.MainProcess.CreateWindow`: the 800×600 size is not recorded. The packaged front end's link context menu and `new-window` handler are not modelled; the client's are (`ClientMain.MainProcess.OnContextMenu`, `OpenLinkHere`, `OpenLinkInNewWindow`, `NewWindowRequest`).
- `XulChrome.ChromeWindow.WaitToLoad`: without Perl, the exception that `runPerlScript` catches and alerts is folded into the final throw. Later `runPerlScript` calls only follow a successful `waitToLoad`, so they take Perl as found.
- `NwStartup.NwLauncher.OnDirEvent`: whether the window's `on` rejects a listener that is not a function belongs to the NW.js runtime, so it is a parameter. The menu that `initMenu` sets is not modelled.
- Regular expressions are only the patterns the code uses, written out as predicates.
- `Lower`: only ASCII letters are lower-cased; JavaScript's full Unicode case mapping is not modelled.
- These runtime-broken helpers of the client's main process are left out:
  - `authtabExists` returns the undefined names `True` and `False`. The `authtabExists` message handler never reaches it: it calls `dioSettings.authtabExists`, a missing property of the settings record, and throws.
  - `firstrunSetupMain` uses an undefined settings directory.
  - The pages receive the authtab answer and the stored data as inputs instead.
- These are not modelled:
  - the environment set-up of the XUL chrome (`setupEnv`);
  - its page load listener and the back/forward state;
  - `setAll` and `selectVisible`;
  - the `srcset` attributes of the lemma pictures;
  - `getFont`, which is kept only as the font field of the older page.
- `LegacyCgi.LegacyPage.ShowPerseus`: the "no sidebar" alert is not modelled. The sidebar element is taken to exist.
- `PerseusCgi.PerseusPage.ShowPerseus`, `PerseusCgi.PerseusPage.SendRequest` and `PerseusCgi.PerseusPage.StateHandler`: the page is taken to have its sidebar. Without it, `showPerseus` alerts "Error: no sidebar" and then throws a TypeError on reading the missing element's class, and `sendRequest` throws on `getAttribute`; neither is modelled.
- `XulChrome.SaveDatabasePath`: the write of the text to the settings file, its alert when the write fails, and the `form.submit()` that resubmits the page afterwards are not modelled. The method returns the text written.
- `ElectronMain`: the packaged front end's `initialise`, `window-all-closed` and `will-navigate` handlers are the same as the client's, and are modelled once, in `ClientMain` and `Shell.NavigationBlocked`.
- The Perseus pages' `JumpFrom` reload handling on page load is not modelled.
- Write failures of the preferences and settings files are not modelled.
- In the XUL chrome, the stream that splits lines is not modelled: the lock and settings files arrive as lists of lines.
- `XulChrome.ProgressListener.OnStateChange`: the progress value is floating point and is not tracked, only the counters and the stop button.
- `PageScript.FilteredClass`: a form span whose `infl` attribute is missing throws in the source. The model takes every span to have one.
- `Splash.SplashPage.Load`: the HTML of the panels built by `splash_setup` is an input. The model keeps only which panel belongs to which choice.
- `Splash.SplashPage.Info`: the fields of the new panel are an input, and moving the focus is not modelled.
- The text of the export panels is reduced to whether a folder is shown.
- The focus moved by `info` is not modelled.
- Whether local storage is usable is a constant of the page, fixed when the script loads.

## Findings

| source | as written | input that shows it | evidently intended | confidence | as-written member | corrected member |
|---|---|---|---|---|---|---|
| client/preload.js:29 | `data.replace(re, newLine)` expands `$` patterns in the folder name | existing line `tlg_dir "x"`, folder `$$` | the folder is stored literally and reads back | not executed | Prefs.DollarFolderIsAltered | Prefs.ReadAfterRewrite |
| client/main.js:114 | the restore reads `winstate.maximzed` | a window saved maximized | the saved `maximized` flag is restored | not executed | ClientMain.MaximizedNeverRestored | ClientMain.MaximizedRestored |
| dist/electron/main.js:87-89 | the last close sets `windows = null` | close the only window, then `activate` | the list stays empty, so `activate` opens a window | not executed | ElectronMain.ActivateAfterLastCloseThrows | ElectronMain.ActivateAfterLastCloseFixed |
| diogenes.js:741-749 | `oldLine` is never set, so the line is always appended | a settings file that already holds `tlg_dir` | one line per key | not executed | XulChrome.SaveAsWrittenDuplicates | XulChrome.SaveLines |
| diogenes.js:433 | the vanish wait's timeout tests `serverStartTries` | a stale lock that never disappears | the timeout tests `serverStopTries` and starts a server after 300 ticks | not executed | XulChrome.StopWaitNeverExpires | XulChrome.StopWaitExpiresFixed |
| diogenes.js:321 | `killServer` reads the undeclared `complain`, so `quitDiogenes` never reaches `quit(true)` | giving up on start-up with no lock file: the main windows close, then the throw | the application quits | not executed | XulChrome.AbortWithoutLockDoesNotQuit | XulChrome.AbortQuits |
