/**
 * The main process of the Electron client: a single instance that opens the
 * first window, removes a stale lock file, watches for the lock file the Perl
 * server writes once it listens, starts that server, and loads the first page
 * exactly once. Windows are tracked in a list; a second launch focuses the
 * first of them, and quitting kills the server and removes the lock file.
 */
module ClientMain {
  import opened Wrappers
  import opened Text
  import opened Shell
  import Prefs

  /** The lock file's name inside the settings directory. */
  const LockName: string := "diogenes-lock.json"
  /** The page that asks for the database folders. */
  const SetupPage: string := "pages/firstrun.html"
  /** What a preferences file starts from when it cannot be read. */
  const PrefsHeader: string := "# Created by Diogenes"

  // ------------------------------------------------------------ window geometry

  datatype Bounds = Bounds(x: int, y: int, width: int, height: int)

  /** The window-state file's object as read back: the keys it may hold. */
  datatype SavedState = SavedState(maximized: Option<bool>, maximzed: Option<bool>, bounds: Option<Bounds>)

  /** Where a new window is put; `x` and `y` may be left to the window system. */
  datatype Placement = Placement(x: Option<int>, y: Option<int>, width: int, height: int)

  /** What `saveWindowState` writes: the maximized flag, and the bounds only when not maximized. */
  function SaveWindowState(isMaximized: bool, bounds: Bounds): (s: SavedState)
    ensures s.maximized == Some(isMaximized)
    ensures s.bounds.Some? <==> !isMaximized
  {
    SavedState(Some(isMaximized), None, if isMaximized then None else Some(bounds))
  }

  /** `winstate && winstate.bounds`: a saved state with bounds. */
  function SavedBounds(winstate: Option<SavedState>): Option<Bounds> {
    if winstate.Some? then winstate.value.bounds else None
  }

  /**
   * The geometry `createWindow` chooses: the default position wins; a first
   * window takes the saved bounds; a further window sits at the old window's
   * position plus the offset, with the saved size.
   */
  function ChoosePlacement(defaultPos: bool, oldPos: Option<(int, int)>, dx: int, dy: int,
                           winstate: Option<SavedState>): (p: Placement)
    ensures !defaultPos && oldPos.Some? ==> p.x == Some(oldPos.value.0 + dx) && p.y == Some(oldPos.value.1 + dy)
    ensures !defaultPos && SavedBounds(winstate).None? ==> p.width == 800 && p.height == 600
  {
    if defaultPos then Placement(Some(0), Some(0), 800, 600)
    else match (oldPos, SavedBounds(winstate)) {
      case (None, Some(b)) => Placement(Some(b.x), Some(b.y), b.width, b.height)
      case (None, None) => Placement(None, None, 800, 600)
      case (Some(pos), Some(b)) => Placement(Some(pos.0 + dx), Some(pos.1 + dy), b.width, b.height)
      case (Some(pos), None) => Placement(Some(pos.0 + dx), Some(pos.1 + dy), 800, 600)
    }
  }

  /** The emergency reset ignores everything else. */
  lemma {:induction false} DefaultPosResets(oldPos: Option<(int, int)>, dx: int, dy: int, winstate: Option<SavedState>)
    ensures ChoosePlacement(true, oldPos, dx, dy, winstate) == Placement(Some(0), Some(0), 800, 600)
  {
  }

  /** A first window reopens where a window that was not maximized was last saved. */
  lemma {:induction false} RestoresSavedBounds(b: Bounds, dx: int, dy: int)
    ensures ChoosePlacement(false, None, dx, dy, Some(SaveWindowState(false, b)))
         == Placement(Some(b.x), Some(b.y), b.width, b.height)
  {
  }

  /** A further window keeps the size last saved and sits offset from the window it came from. */
  lemma {:induction false} FurtherWindowOffset(x: int, y: int, dx: int, dy: int, b: Bounds)
    ensures ChoosePlacement(false, Some((x, y)), dx, dy, Some(SaveWindowState(false, b)))
         == Placement(Some(x + dx), Some(y + dy), b.width, b.height)
  {
  }

  /**
   * Whether `createWindow` maximizes the new window, as written: it reads the
   * key `maximzed`, which nothing ever writes.
   */
  function MaximizeOnCreate(winstate: Option<SavedState>): (m: bool)
    ensures m ==> winstate.Some? && winstate.value.maximzed == Some(true)
  {
    winstate.Some? && winstate.value.maximzed == Some(true)
  }

  /** The corrected reader: the key `saveWindowState` writes. */
  function MaximizeOnCreateFixed(winstate: Option<SavedState>): (m: bool)
    ensures m ==> winstate.Some? && winstate.value.maximized == Some(true)
  {
    winstate.Some? && winstate.value.maximized == Some(true)
  }

  /** How `createWindow` opens a window: where, and whether it is maximized at once. */
  datatype Opening = Opening(placement: Placement, maximize: bool)

  /** As written, a window saved maximized reopens neither maximized nor at its old bounds, but at 800×600. */
  lemma {:induction false} MaximizedNeverRestored(b: Bounds, dx: int, dy: int)
    ensures !MaximizeOnCreate(Some(SaveWindowState(true, b)))
    ensures ChoosePlacement(false, None, dx, dy, Some(SaveWindowState(true, b))) == Placement(None, None, 800, 600)
  {
  }

  /** With the corrected reader the saved flag comes back as it was saved. */
  lemma {:induction false} MaximizedRestored(isMaximized: bool, b: Bounds)
    ensures MaximizeOnCreateFixed(Some(SaveWindowState(isMaximized, b))) == isMaximized
  {
  }

  // ------------------------------------------------------------ the window list

  /** `a.indexOf(w)`: the first position of `w`, or -1. */
  function IndexOf(a: seq<Win>, w: Win): (i: int)
    ensures -1 <= i < |a|
    ensures i == -1 <==> w !in a
    ensures 0 <= i ==> a[i] == w && w !in a[..i]
  {
    if |a| == 0 then -1
    else if a[0] == w then 0
    else var j := IndexOf(a[1..], w); if j == -1 then -1 else j + 1
  }

  /**
   * `a.splice(start, 1)`: a negative start counts from the end and is raised
   * to 0 when it reaches before the start; one at or past the end removes nothing.
   */
  function SpliceOne(a: seq<Win>, start: int): (r: seq<Win>)
    ensures |r| == |a| || |r| == |a| - 1
    ensures forall v :: v in r ==> v in a
  {
    var k := if start < 0 then (if start + |a| < 0 then 0 else start + |a|) else start;
    if 0 <= k < |a| then a[..k] + a[k + 1..] else a
  }

  /**
   * A start inside the list removes that entry; a negative one counts back
   * from the end; one before the start removes the first entry; one at or
   * past the end removes nothing.
   */
  lemma SpliceOneRemoves(a: seq<Win>, start: int)
    ensures 0 <= start < |a| ==> SpliceOne(a, start) == a[..start] + a[start + 1..]
    ensures start < 0 && -start <= |a| ==> SpliceOne(a, start) == a[..|a| + start] + a[|a| + start + 1..]
    ensures start < -|a| && |a| > 0 ==> SpliceOne(a, start) == a[1..]
    ensures start >= |a| || |a| == 0 ==> SpliceOne(a, start) == a
  {
    if start < -|a| && |a| > 0 {
      assert a[..0] + a[1..] == a[1..];
    }
  }

  /** What the `closed` handler does to the list. */
  function RemoveWindow(a: seq<Win>, w: Win): (r: seq<Win>)
    ensures |a| > 0 ==> |r| == |a| - 1
    ensures forall v :: v in r ==> v in a
  {
    SpliceOne(a, IndexOf(a, w))
  }

  predicate Distinct(a: seq<Win>) {
    forall i, j :: 0 <= i < j < |a| ==> a[i] != a[j]
  }

  /** Dropping the entry at `k` keeps only entries of the list, loses no other value, and keeps a list free of repeats. */
  lemma {:induction false} DropAt(a: seq<Win>, k: int)
    requires 0 <= k < |a|
    ensures forall v :: v in a[..k] + a[k + 1..] ==> v in a
    ensures forall v :: v in a && v != a[k] ==> v in a[..k] + a[k + 1..]
    ensures Distinct(a) ==> Distinct(a[..k] + a[k + 1..]) && a[k] !in a[..k] + a[k + 1..]
  {
    var r := a[..k] + a[k + 1..];
    assert forall m :: 0 <= m < k ==> r[m] == a[m];
    assert forall m :: k <= m < |r| ==> r[m] == a[m + 1];
    forall v | v in a && v != a[k] ensures v in r {
      var m :| 0 <= m < |a| && a[m] == v;
      if m < k { assert r[m] == v; } else { assert r[m - 1] == v; }
    }
  }

  /** Closing a tracked window removes it and keeps every other window in its order. */
  lemma {:induction false} RemoveTracked(a: seq<Win>, w: Win)
    requires Distinct(a) && w in a
    ensures exists i :: 0 <= i < |a| && a[i] == w && RemoveWindow(a, w) == a[..i] + a[i + 1..]
    ensures w !in RemoveWindow(a, w)
    ensures Distinct(RemoveWindow(a, w))
    ensures forall v :: v in a && v != w ==> v in RemoveWindow(a, w)
  {
    var i := IndexOf(a, w);
    DropAt(a, i);
  }

  /** Whatever window is closed, the list stays free of repeats and holds only windows it held. */
  lemma {:induction false} RemoveKeepsDistinct(a: seq<Win>, w: Win)
    requires Distinct(a)
    ensures Distinct(RemoveWindow(a, w))
    ensures forall v :: v in RemoveWindow(a, w) ==> v in a
  {
    var k := RemovedAt(a, w);
    if 0 <= k < |a| {
      DropAt(a, k);
    }
  }

  /** The entry the `closed` handler drops: the window's position, or the last entry when it is not listed. */
  lemma RemovedAt(a: seq<Win>, w: Win) returns (k: int)
    ensures 0 <= k < |a| ==> RemoveWindow(a, w) == a[..k] + a[k + 1..]
    ensures !(0 <= k < |a|) ==> RemoveWindow(a, w) == a
  {
    var i := IndexOf(a, w);
    assert RemoveWindow(a, w) == SpliceOne(a, i);
    k := if i < 0 then (if i + |a| < 0 then 0 else i + |a|) else i;
  }

  /** A `closed` event for a window that is no longer listed, as written, drops the last window. */
  lemma {:induction false} RemoveUntrackedDropsLast(a: seq<Win>, w: Win)
    requires w !in a && |a| > 0
    ensures RemoveWindow(a, w) == a[..|a| - 1]
  {
  }

  // ------------------------------------------------------------ the process

  /** The startup effects of `createFirstWindow`, in order. */
  function StartupEffects(lockExists: bool, w: Win): (e: seq<Effect>)
    ensures forall i :: 0 <= i < |e| ==> e[i] == RemoveLock || e[i] == WatchLockDir(w) || e[i] == SpawnServer
  {
    (if lockExists then [RemoveLock] else []) + [WatchLockDir(w), SpawnServer]
  }

  /** The start-up ends by installing the watcher and spawning the server, removes the lock first exactly when it exists, and loads no page. */
  lemma StartupOrder(lockExists: bool, w: Win)
    ensures var e := StartupEffects(lockExists, w);
      && |e| >= 2 && e[|e| - 2] == WatchLockDir(w) && e[|e| - 1] == SpawnServer
      && (RemoveLock in e <==> lockExists)
      && (lockExists ==> e[0] == RemoveLock)
      && CountLoads(e) == 0
  {
    var e := StartupEffects(lockExists, w);
    assert CountLoads(e[..|e| - 1]) == 0 by {
      assert e[..|e| - 1] == (if lockExists then [RemoveLock] else []) + [WatchLockDir(w)];
      NoLoads(e[..|e| - 1]);
    }
  }

  class MainProcess {
    /** The global `windows` list. */
    var windows: seq<Win>
    /** Identities not yet given to a window. */
    var nextWin: nat
    /** Whether `server` holds a spawned process. */
    var server: bool
    /** Whether `lockFile` holds the lock file's path (it is set by `createFirstWindow`). */
    var lockPath: bool
    /** The window the directory watcher loads the first page into, once installed. */
    var watcher: Option<Win>
    var startupDone: bool
    var dioSettings: LockSettings
    /** The preferences file: its text, or `None` when it is missing or unreadable. */
    var prefs: Option<string>
    var log: seq<Effect>
    /** How many first-page `Load` effects the log holds. */
    ghost var loads: nat
    /** How each window was opened. */
    var openings: map<Win, Opening>
    /** The global `currentLinkURL`: the link a context menu was opened on, if any. */
    var currentLink: Option<string>

    ghost predicate Valid()
      reads this
    {
      && Distinct(windows)
      && (forall w :: w in windows ==> w < nextWin)
      && (watcher.Some? ==> watcher.value < nextWin && lockPath && server)
      && (startupDone ==> watcher.Some?)
      && (!startupDone ==> dioSettings == LockSettings(None, None))
      && loads == (if startupDone then 1 else 0)
      && CountLoads(log) == loads
    }

    /** The state when the script has run, before `ready`. */
    constructor (prefsFile: Option<string>)
      ensures Valid()
      ensures windows == [] && !server && !lockPath && watcher.None? && !startupDone
      ensures dioSettings == LockSettings(None, None) && prefs == prefsFile && log == []
      ensures openings == map[] && currentLink.None?
    {
      windows := [];
      nextWin := 0;
      server := false;
      lockPath := false;
      watcher := None;
      startupDone := false;
      dioSettings := LockSettings(None, None);
      prefs := prefsFile;
      log := [];
      loads := 0;
      openings := map[];
      currentLink := None;
    }

    /** `initialise`: a second instance, which does not get the single-instance lock, quits. */
    method Initialise(gotTheLock: bool)
      requires Valid()
      modifies this
      ensures Valid()
      ensures log == old(log) + (if gotTheLock then [] else [Quit])
      ensures windows == old(windows) && nextWin == old(nextWin) && server == old(server)
      ensures lockPath == old(lockPath) && watcher == old(watcher) && startupDone == old(startupDone)
      ensures dioSettings == old(dioSettings) && prefs == old(prefs)
      ensures openings == old(openings) && currentLink == old(currentLink)
    {
      if !gotTheLock {
        CountLoadsAppend(log, [Quit]);
        log := log + [Quit];
      }
    }

    /**
     * `createWindow(oldWin, offset_x, offset_y, defaultPos)` with its
     * `browser-window-created` handler: a new window, placed from the saved
     * state `winstate` and the old window's position `oldPos`, is appended to
     * the list.
     */
    method CreateWindow(oldPos: Option<(int, int)>, dx: int, dy: int, defaultPos: bool, winstate: Option<SavedState>)
      returns (w: Win)
      requires Valid()
      modifies this
      ensures Valid()
      ensures w !in old(windows) && windows == old(windows) + [w]
      ensures openings == old(openings)[w := Opening(ChoosePlacement(defaultPos, oldPos, dx, dy, winstate), MaximizeOnCreate(winstate))]
      ensures nextWin > old(nextWin)
      ensures server == old(server) && lockPath == old(lockPath) && watcher == old(watcher)
      ensures startupDone == old(startupDone) && dioSettings == old(dioSettings)
      ensures prefs == old(prefs) && log == old(log) && currentLink == old(currentLink)
    {
      w := nextWin;
      assert w !in windows;
      nextWin := nextWin + 1;
      windows := windows + [w];
      openings := openings[w := Opening(ChoosePlacement(defaultPos, oldPos, dx, dy, winstate), MaximizeOnCreate(winstate))];
    }

    /**
     * `createFirstWindow`, on `ready`: the first window; then a stale lock
     * file is removed, the watcher installed and the server spawned, in that order.
     */
    method CreateFirstWindow(lockExists: bool, winstate: Option<SavedState>) returns (w: Win)
      requires Valid() && watcher.None? && !server
      modifies this
      ensures Valid()
      ensures windows == old(windows) + [w] && w !in old(windows)
      ensures openings == old(openings)[w := Opening(ChoosePlacement(false, None, 0, 0, winstate), MaximizeOnCreate(winstate))]
      ensures log == old(log) + StartupEffects(lockExists, w)
      ensures watcher == Some(w) && server && lockPath
      ensures startupDone == old(startupDone) && dioSettings == old(dioSettings) && prefs == old(prefs)
      ensures currentLink == old(currentLink)
    {
      lockPath := true;
      w := CreateWindow(None, 0, 0, false, winstate);
      assert w in windows;
      watcher := Some(w);
      server := true;
      var effects := StartupEffects(lockExists, w);
      StartupOrder(lockExists, w);
      CountLoadsAppend(log, effects);
      log := log + effects;
    }

    /**
     * The directory watcher's callback. It ignores events once startup is
     * done, for other file names, and while the lock file is absent. A lock
     * file that does not parse throws out of the callback, and a later event
     * tries again. A record without port or pid asks the application to quit
     * but still loads the first page and marks startup done.
     */
    method OnLockEvent(filename: string, lockExists: bool, parsed: Option<LockSettings>)
      requires Valid() && watcher.Some?
      modifies this
      ensures Valid()
      ensures old(startupDone) ==> log == old(log) && startupDone && dioSettings == old(dioSettings)
      ensures !old(startupDone) ==>
        && log == old(log) + WatcherEffects(LockName, SetupPage, filename, lockExists, parsed, prefs, old(watcher.value))
        && (startupDone <==> LockEventApplies(LockName, filename, lockExists) && parsed.Some?)
        && dioSettings == (if startupDone then parsed.value else old(dioSettings))
        && loads == old(loads) + (if startupDone then 1 else 0)
      ensures windows == old(windows) && nextWin == old(nextWin) && server == old(server)
      ensures lockPath == old(lockPath) && watcher == old(watcher) && prefs == old(prefs)
      ensures openings == old(openings) && currentLink == old(currentLink)
    {
      if startupDone {
        return;
      }
      var effects := WatcherEffects(LockName, SetupPage, filename, lockExists, parsed, prefs, watcher.value);
      WatcherEffectsFacts(LockName, SetupPage, filename, lockExists, parsed, prefs, watcher.value);
      CountLoadsAppend(log, effects);
      log := log + effects;
      loads := loads + CountLoads(effects);
      if LockEventApplies(LockName, filename, lockExists) && parsed.Some? {
        dioSettings := parsed.value;
        startupDone := true;
      }
    }

    /** `loadFirstPage`: the set-up page unless the preferences name a database. */
    function LoadFirstPage(): (p: Page)
      reads this
      ensures p.Url? <==> prefs.Some? && Prefs.DbConfigured(prefs.value)
    {
      FirstPage(prefs, dioSettings.port, SetupPage)
    }

    /** The `getport` request from a page: the port of the parsed lock file, if any. */
    function PortReply(): (port: Option<string>)
      requires Valid()
      reads this
      ensures !startupDone ==> port.None?
    {
      dioSettings.port
    }

    /**
     * The `context-menu` handler: a link that is not empty and does not begin
     * with `javascript:` becomes the current link (and the link menu pops up);
     * anything else clears it.
     */
    method OnContextMenu(linkURL: string)
      requires Valid()
      modifies this
      ensures Valid()
      ensures currentLink.Some? <==> linkURL != "" && !StartsWith(linkURL, "javascript:")
      ensures currentLink.Some? ==> currentLink.value == linkURL
      ensures windows == old(windows) && nextWin == old(nextWin) && server == old(server)
      ensures lockPath == old(lockPath) && watcher == old(watcher) && startupDone == old(startupDone)
      ensures dioSettings == old(dioSettings) && prefs == old(prefs) && log == old(log)
      ensures openings == old(openings)
    {
      if linkURL != "" && !StartsWith(linkURL, "javascript:") {
        currentLink := Some(linkURL);
      } else {
        currentLink := None;
      }
    }

    /** The link menu's "Open": with a current link, `win` loads it and the link is cleared; otherwise nothing. */
    method OpenLinkHere(win: Win)
      requires Valid()
      modifies this
      ensures Valid()
      ensures log == old(log) + (if old(currentLink).Some? then [Navigate(win, old(currentLink).value)] else [])
      ensures currentLink.None?
      ensures windows == old(windows) && nextWin == old(nextWin) && server == old(server)
      ensures lockPath == old(lockPath) && watcher == old(watcher) && startupDone == old(startupDone)
      ensures dioSettings == old(dioSettings) && prefs == old(prefs) && openings == old(openings)
    {
      if currentLink.Some? {
        CountLoadsAppend(log, [Navigate(win, currentLink.value)]);
        log := log + [Navigate(win, currentLink.value)];
        currentLink := None;
      }
    }

    /**
     * The link menu's "Open in New Window": with a current link, a window
     * offset by (20, 20) from the window at `originPos` opens, loads the link,
     * and the link is cleared; otherwise nothing.
     */
    method OpenLinkInNewWindow(originPos: (int, int), winstate: Option<SavedState>) returns (w: Option<Win>)
      requires Valid()
      modifies this
      ensures Valid()
      ensures w.Some? <==> old(currentLink).Some?
      ensures w.None? ==> windows == old(windows) && log == old(log) && openings == old(openings)
      ensures w.Some? ==>
        && w.value !in old(windows) && windows == old(windows) + [w.value]
        && openings == old(openings)[w.value := Opening(ChoosePlacement(false, Some(originPos), 20, 20, winstate), MaximizeOnCreate(winstate))]
        && log == old(log) + [Navigate(w.value, old(currentLink).value)]
      ensures currentLink.None?
      ensures server == old(server) && lockPath == old(lockPath) && watcher == old(watcher)
      ensures startupDone == old(startupDone) && dioSettings == old(dioSettings) && prefs == old(prefs)
    {
      w := None;
      if currentLink.Some? {
        var link := currentLink.value;
        var nw := NewWindowRequest(link, originPos, winstate);
        w := Some(nw);
        currentLink := None;
      }
    }

    /** A `new-window` request from the window at `originPos`: a window offset by (20, 20) opens and loads `url`. */
    method NewWindowRequest(url: string, originPos: (int, int), winstate: Option<SavedState>) returns (w: Win)
      requires Valid()
      modifies this
      ensures Valid()
      ensures windows == old(windows) + [w] && w !in old(windows)
      ensures openings == old(openings)[w := Opening(ChoosePlacement(false, Some(originPos), 20, 20, winstate), MaximizeOnCreate(winstate))]
      ensures log == old(log) + [Navigate(w, url)]
      ensures server == old(server) && lockPath == old(lockPath) && watcher == old(watcher)
      ensures startupDone == old(startupDone) && dioSettings == old(dioSettings) && prefs == old(prefs)
      ensures currentLink == old(currentLink)
    {
      w := CreateWindow(Some(originPos), 20, 20, false, winstate);
      CountLoadsAppend(log, [Navigate(w, url)]);
      log := log + [Navigate(w, url)];
    }

    /** The `closed` handler: `windows.splice(windows.indexOf(win), 1)`. */
    method OnClosed(w: Win)
      requires Valid()
      modifies this
      ensures Valid()
      ensures windows == RemoveWindow(old(windows), w)
      ensures nextWin == old(nextWin) && server == old(server) && lockPath == old(lockPath)
      ensures watcher == old(watcher) && startupDone == old(startupDone)
      ensures dioSettings == old(dioSettings) && prefs == old(prefs) && log == old(log)
      ensures openings == old(openings) && currentLink == old(currentLink)
    {
      RemoveKeepsDistinct(windows, w);
      windows := RemoveWindow(windows, w);
    }

    /** `second-instance`: nothing with no windows, else the first window is restored if minimized, then focused. */
    method SecondInstance(firstMinimized: bool)
      requires Valid()
      modifies this
      ensures Valid()
      ensures log == old(log) + FocusEffects(windows, firstMinimized)
      ensures windows == old(windows) && nextWin == old(nextWin) && server == old(server)
      ensures lockPath == old(lockPath) && watcher == old(watcher) && startupDone == old(startupDone)
      ensures dioSettings == old(dioSettings) && prefs == old(prefs)
      ensures openings == old(openings) && currentLink == old(currentLink)
    {
      var effects := FocusEffects(windows, firstMinimized);
      CountLoadsAppend(log, effects);
      log := log + effects;
    }

    /** `window-all-closed`: the application quits except on macOS. */
    method OnAllClosed(darwin: bool)
      requires Valid()
      modifies this
      ensures Valid()
      ensures log == old(log) + (if darwin then [] else [Quit])
      ensures windows == old(windows) && nextWin == old(nextWin) && server == old(server)
      ensures lockPath == old(lockPath) && watcher == old(watcher) && startupDone == old(startupDone)
      ensures dioSettings == old(dioSettings) && prefs == old(prefs)
      ensures openings == old(openings) && currentLink == old(currentLink)
    {
      if !darwin {
        CountLoadsAppend(log, [Quit]);
        log := log + [Quit];
      }
    }

    /** `will-quit`: the spawned server is killed, then the lock file is unlinked unguarded. */
    method OnWillQuit(lockExists: bool)
      requires Valid()
      modifies this
      ensures Valid()
      ensures log == old(log) + QuitEffects(server, lockPath, lockExists)
      ensures windows == old(windows) && nextWin == old(nextWin) && server == old(server)
      ensures lockPath == old(lockPath) && watcher == old(watcher) && startupDone == old(startupDone)
      ensures dioSettings == old(dioSettings) && prefs == old(prefs)
      ensures openings == old(openings) && currentLink == old(currentLink)
    {
      var effects := QuitEffects(server, lockPath, lockExists);
      CountLoadsAppend(log, effects);
      log := log + effects;
    }

    /**
     * `dbOpenDialog` with `writeToSettings`: the folder chosen (none when the
     * picker was cancelled) is stored under the database's key and returned.
     */
    method DbOpenDialog(dbName: string, chosen: Option<string>) returns (r: Option<string>)
      requires Valid()
      modifies this
      ensures Valid()
      ensures r == chosen
      ensures chosen.None? ==> prefs == old(prefs)
      ensures chosen.Some? ==> prefs == Prefs.WriteSettings(old(prefs), PrefsHeader, dbName, chosen)
      ensures windows == old(windows) && nextWin == old(nextWin) && server == old(server)
      ensures lockPath == old(lockPath) && watcher == old(watcher) && startupDone == old(startupDone)
      ensures dioSettings == old(dioSettings) && log == old(log)
      ensures openings == old(openings) && currentLink == old(currentLink)
    {
      var written := Prefs.WriteSettings(prefs, PrefsHeader, dbName, chosen);
      if written.Some? {
        prefs := written;
      }
      r := chosen;
    }
  }

  /** Once a folder has been chosen for a database, the first page of the next start is the server's. */
  lemma {:induction false} ChosenFolderSkipsSetup(stored: Option<string>, dbName: string, folder: string, port: Option<string>)
    requires IsWord(dbName)
    ensures var written := Prefs.WriteSettings(stored, PrefsHeader, dbName, Some(folder));
      FirstPage(written, port, SetupPage) == Url(ServerUrl(port))
  {
    FirstPageAfterSetup(stored, PrefsHeader, dbName, folder, port, SetupPage);
  }
}
