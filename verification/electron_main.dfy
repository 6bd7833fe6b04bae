/**
 * The main process of the packaged Electron front end. Each call of
 * `createWindow` opens a window and runs the whole startup again: a stale
 * lock file is removed, a directory watcher installed and a server spawned.
 * All watchers share one `startupDone` flag, so the first page is still
 * loaded at most once. Closing the last window sets the window list to
 * `null`, after which the handlers that use the list throw.
 */
module ElectronMain {
  import opened Wrappers
  import opened Shell
  import ClientMain

  const LockName: string := "diogenes-lock.json"
  const SetupPage: string := "pages/dbsettings.html"

  /** The `closed` handler's effect on the list, as written: an emptied list becomes `null`. */
  function AfterClose(windows: seq<Win>, w: Win): (r: Option<seq<Win>>)
    ensures r.None? <==> |ClientMain.RemoveWindow(windows, w)| == 0
    ensures r.Some? ==> r.value == ClientMain.RemoveWindow(windows, w)
  {
    var rest := ClientMain.RemoveWindow(windows, w);
    if |rest| == 0 then None else Some(rest)
  }

  /** The corrected handler keeps an empty list. */
  function AfterCloseFixed(windows: seq<Win>, w: Win): (r: seq<Win>)
    ensures ClientMain.Distinct(windows) && w in windows ==> w !in r && |r| == |windows| - 1
  {
    if ClientMain.Distinct(windows) && w in windows then ClientMain.RemoveTracked(windows, w); ClientMain.RemoveWindow(windows, w)
    else ClientMain.RemoveWindow(windows, w)
  }

  /** What `activate` decides from the list: `Object.keys(null)` throws, an empty list re-creates a window. */
  function ActivateCreates(windows: Option<seq<Win>>): (r: Result<bool>)
    ensures r.Throws? <==> windows.None?
    ensures r.Ok? ==> (r.value <==> |windows.value| == 0)
  {
    match windows
    case None => Throws("TypeError: Cannot convert undefined or null to object")
    case Some(ws) => Ok(|ws| == 0)
  }

  /** As written, once the only window is closed `activate` throws instead of opening a window. */
  lemma {:induction false} ActivateAfterLastCloseThrows(w: Win)
    ensures AfterClose([w], w).None?
    ensures ActivateCreates(AfterClose([w], w)).Throws?
  {
    assert ClientMain.RemoveWindow([w], w) == [];
  }

  /** With the list kept empty, `activate` after the last close opens a window again. */
  lemma {:induction false} ActivateAfterLastCloseFixed(w: Win)
    ensures ActivateCreates(Some(AfterCloseFixed([w], w))) == Ok(true)
  {
  }

  /** `n` copies of `e`. */
  function Repeat(e: Effect, n: nat): (r: seq<Effect>)
    ensures |r| == n && forall i :: 0 <= i < n ==> r[i] == e
  {
    if n == 0 then [] else Repeat(e, n - 1) + [e]
  }

  /**
   * What one directory event does when delivered to the watchers `ws`, in
   * the order they were installed: nothing once startup is done; otherwise
   * each callback in turn until one of them loads the first page, after
   * which the rest return.
   */
  function DirEventEffects(done: bool, filename: string, lockExists: bool, parsed: Option<LockSettings>,
                           prefs: Option<string>, ws: seq<Win>): (e: seq<Effect>)
    ensures e != [] ==> !done && |ws| > 0 && LockEventApplies(LockName, filename, lockExists)
    decreases |ws|
  {
    if done || |ws| == 0 then []
    else
      var loaded := LockEventApplies(LockName, filename, lockExists) && parsed.Some?;
      WatcherEffects(LockName, SetupPage, filename, lockExists, parsed, prefs, ws[0])
        + DirEventEffects(loaded, filename, lockExists, parsed, prefs, ws[1..])
  }

  /** One directory event loads the first page at most once: exactly when startup is not done, the event applies, the lock parses and a watcher is installed. */
  lemma {:induction false} DirEventLoads(done: bool, filename: string, lockExists: bool, parsed: Option<LockSettings>,
                                         prefs: Option<string>, ws: seq<Win>)
    ensures CountLoads(DirEventEffects(done, filename, lockExists, parsed, prefs, ws))
         == (if !done && LockEventApplies(LockName, filename, lockExists) && parsed.Some? && |ws| > 0 then 1 else 0)
    decreases |ws|
  {
    if !done && |ws| > 0 {
      var first := WatcherEffects(LockName, SetupPage, filename, lockExists, parsed, prefs, ws[0]);
      var loaded := LockEventApplies(LockName, filename, lockExists) && parsed.Some?;
      var rest := DirEventEffects(loaded, filename, lockExists, parsed, prefs, ws[1..]);
      WatcherEffectsFacts(LockName, SetupPage, filename, lockExists, parsed, prefs, ws[0]);
      DirEventLoads(loaded, filename, lockExists, parsed, prefs, ws[1..]);
      CountLoadsAppend(first, rest);
    }
  }

  /** An unparsable lock file makes every installed watcher throw. */
  lemma {:induction false} UnparsableThrowsInEach(filename: string, lockExists: bool, prefs: Option<string>, ws: seq<Win>)
    requires LockEventApplies(LockName, filename, lockExists)
    ensures DirEventEffects(false, filename, lockExists, None, prefs, ws) == Repeat(Threw, |ws|)
    decreases |ws|
  {
    if |ws| > 0 {
      UnparsableThrowsInEach(filename, lockExists, prefs, ws[1..]);
      assert Repeat(Threw, |ws|) == [Threw] + Repeat(Threw, |ws| - 1);
    }
  }

  /** A readable lock file is handled by the first watcher alone, into the first window that ran the startup. */
  lemma {:induction false} ParsedLoadsFirstWatcher(filename: string, lockExists: bool, settings: LockSettings, prefs: Option<string>, ws: seq<Win>)
    requires LockEventApplies(LockName, filename, lockExists) && |ws| > 0
    ensures DirEventEffects(false, filename, lockExists, Some(settings), prefs, ws)
         == WatcherEffects(LockName, SetupPage, filename, lockExists, Some(settings), prefs, ws[0])
  {
  }

  /**
   * Two directory events in a row, the second seeing the `startupDone` the
   * first left behind, load the first page at most once between them.
   */
  lemma {:induction false} SecondEventLoadsNothing(done: bool, prefs: Option<string>, ws: seq<Win>,
                                                   file1: string, exists1: bool, parsed1: Option<LockSettings>,
                                                   file2: string, exists2: bool, parsed2: Option<LockSettings>)
    ensures var done1 := done || (|ws| > 0 && LockEventApplies(LockName, file1, exists1) && parsed1.Some?);
      var first := DirEventEffects(done, file1, exists1, parsed1, prefs, ws);
      var second := DirEventEffects(done1, file2, exists2, parsed2, prefs, ws);
      && CountLoads(first + second) <= 1
      && (done1 ==> CountLoads(second) == 0)
  {
    var done1 := done || (|ws| > 0 && LockEventApplies(LockName, file1, exists1) && parsed1.Some?);
    var first := DirEventEffects(done, file1, exists1, parsed1, prefs, ws);
    var second := DirEventEffects(done1, file2, exists2, parsed2, prefs, ws);
    DirEventLoads(done, file1, exists1, parsed1, prefs, ws);
    DirEventLoads(done1, file2, exists2, parsed2, prefs, ws);
    CountLoadsAppend(first, second);
  }

  /** The part of a directory event that the first `k` watchers produce. */
  lemma {:induction false} DirEventStep(done: bool, filename: string, lockExists: bool, parsed: Option<LockSettings>,
                     prefs: Option<string>, ws: seq<Win>, k: nat)
    requires k < |ws|
    ensures DirEventEffects(done, filename, lockExists, parsed, prefs, ws[..k + 1])
         == DirEventEffects(done, filename, lockExists, parsed, prefs, ws[..k])
          + (if done || (k > 0 && LockEventApplies(LockName, filename, lockExists) && parsed.Some?) then []
             else WatcherEffects(LockName, SetupPage, filename, lockExists, parsed, prefs, ws[k]))
    decreases k
  {
    if !done && k == 0 {
      assert ws[..1] == [ws[0]];
      assert ws[..1][1..] == [];
    } else if !done {
      var loaded := LockEventApplies(LockName, filename, lockExists) && parsed.Some?;
      assert ws[..k + 1][1..] == ws[1..][..k];
      assert ws[..k][1..] == ws[1..][..k - 1];
      DirEventStep(loaded, filename, lockExists, parsed, prefs, ws[1..], k - 1);
      assert ws[1..][k - 1] == ws[k];
    }
  }

  class MainProcess {
    /** The global `windows`: a list, or `null` once the last window has closed. */
    var windows: Option<seq<Win>>
    var nextWin: nat
    /** The windows whose directory watchers are installed, in installation order. */
    var watchers: seq<Win>
    /** How many servers were spawned. */
    var spawned: nat
    var lockPath: bool
    var startupDone: bool
    var dioSettings: LockSettings
    var prefs: Option<string>
    var log: seq<Effect>
    /** How many first-page `Load` effects the log holds. */
    ghost var loads: nat

    ghost predicate Valid()
      reads this
    {
      && (windows.Some? ==> ClientMain.Distinct(windows.value) && forall w :: w in windows.value ==> w < nextWin)
      && (forall w :: w in watchers ==> w < nextWin)
      && spawned == |watchers|
      && (|watchers| > 0 ==> lockPath)
      && (startupDone ==> |watchers| > 0)
      && (!startupDone ==> dioSettings == LockSettings(None, None))
      && loads == (if startupDone then 1 else 0)
      && CountLoads(log) == loads
    }

    constructor (prefsFile: Option<string>)
      ensures Valid()
      ensures windows == Some([]) && watchers == [] && spawned == 0 && !lockPath && !startupDone
      ensures dioSettings == LockSettings(None, None) && prefs == prefsFile && log == []
    {
      windows := Some([]);
      nextWin := 0;
      watchers := [];
      spawned := 0;
      lockPath := false;
      startupDone := false;
      dioSettings := LockSettings(None, None);
      prefs := prefsFile;
      log := [];
      loads := 0;
    }

    /**
     * `createWindow`, on `ready` and from `activate` (both with a list): an
     * 800×600 window is appended, a stale lock removed, a watcher for the
     * window installed and another server spawned.
     */
    method CreateWindow(lockExists: bool) returns (w: Win)
      requires Valid() && windows.Some?
      modifies this
      ensures Valid()
      ensures w !in old(windows.value) && windows == Some(old(windows.value) + [w])
      ensures watchers == old(watchers) + [w] && spawned == old(spawned) + 1 && lockPath
      ensures log == old(log) + ClientMain.StartupEffects(lockExists, w)
      ensures startupDone == old(startupDone) && dioSettings == old(dioSettings) && prefs == old(prefs)
    {
      w := nextWin;
      assert w !in windows.value;
      nextWin := nextWin + 1;
      windows := Some(windows.value + [w]);
      lockPath := true;
      var effects: seq<Effect> := [];
      if lockExists {
        effects := [RemoveLock];
      }
      watchers := watchers + [w];
      spawned := spawned + 1;
      effects := effects + [WatchLockDir(w), SpawnServer];
      assert effects == ClientMain.StartupEffects(lockExists, w);
      ClientMain.StartupOrder(lockExists, w);
      CountLoadsAppend(log, effects);
      log := log + effects;
    }

    /** One watcher's callback for a directory event, into the window `w` whose startup installed it. */
    method WatcherCallback(w: Win, filename: string, lockExists: bool, parsed: Option<LockSettings>)
      requires Valid() && |watchers| > 0
      modifies this
      ensures Valid()
      ensures old(startupDone) ==> log == old(log) && startupDone && dioSettings == old(dioSettings)
      ensures !old(startupDone) ==>
        && log == old(log) + WatcherEffects(LockName, SetupPage, filename, lockExists, parsed, prefs, w)
        && (startupDone <==> LockEventApplies(LockName, filename, lockExists) && parsed.Some?)
        && dioSettings == (if startupDone then parsed.value else old(dioSettings))
        && loads == old(loads) + (if startupDone then 1 else 0)
      ensures windows == old(windows) && nextWin == old(nextWin) && watchers == old(watchers)
      ensures spawned == old(spawned) && lockPath == old(lockPath) && prefs == old(prefs)
    {
      if startupDone {
        return;
      }
      var effects := WatcherEffects(LockName, SetupPage, filename, lockExists, parsed, prefs, w);
      WatcherEffectsFacts(LockName, SetupPage, filename, lockExists, parsed, prefs, w);
      CountLoadsAppend(log, effects);
      log := log + effects;
      loads := loads + CountLoads(effects);
      if LockEventApplies(LockName, filename, lockExists) && parsed.Some? {
        dioSettings := parsed.value;
        startupDone := true;
      }
    }

    /** A directory event reaches every installed watcher, in the order they were installed. */
    method DeliverDirEvent(filename: string, lockExists: bool, parsed: Option<LockSettings>)
      requires Valid()
      modifies this
      ensures Valid()
      ensures log == old(log) + DirEventEffects(old(startupDone), filename, lockExists, parsed, prefs, watchers)
      ensures startupDone == (old(startupDone) || (|watchers| > 0 && LockEventApplies(LockName, filename, lockExists) && parsed.Some?))
      ensures dioSettings == (if startupDone && !old(startupDone) then parsed.value else old(dioSettings))
      ensures windows == old(windows) && nextWin == old(nextWin) && watchers == old(watchers)
      ensures spawned == old(spawned) && lockPath == old(lockPath) && prefs == old(prefs)
    {
      ghost var log0 := log;
      var k := 0;
      while k < |watchers|
        invariant 0 <= k <= |watchers|
        invariant Valid()
        invariant windows == old(windows) && nextWin == old(nextWin) && watchers == old(watchers)
        invariant spawned == old(spawned) && lockPath == old(lockPath) && prefs == old(prefs)
        invariant log == log0 + DirEventEffects(old(startupDone), filename, lockExists, parsed, prefs, watchers[..k])
        invariant startupDone == (old(startupDone) || (k > 0 && LockEventApplies(LockName, filename, lockExists) && parsed.Some?))
        invariant dioSettings == (if startupDone && !old(startupDone) then parsed.value else old(dioSettings))
      {
        DirEventStep(old(startupDone), filename, lockExists, parsed, prefs, watchers, k);
        WatcherCallback(watchers[k], filename, lockExists, parsed);
        k := k + 1;
      }
      assert watchers[..k] == watchers;
    }

    /** `activate`: `Object.keys(null)` throws; an empty list re-runs the whole startup in a new window. */
    method Activate(lockExists: bool) returns (created: Option<Win>)
      requires Valid()
      modifies this
      ensures Valid()
      ensures created.Some? <==> ActivateCreates(old(windows)) == Ok(true)
      ensures old(windows).None? ==> log == old(log) + [Threw] && windows == old(windows) && watchers == old(watchers)
      ensures created.Some? ==>
        windows == Some([created.value]) && watchers == old(watchers) + [created.value]
        && log == old(log) + ClientMain.StartupEffects(lockExists, created.value)
      ensures ActivateCreates(old(windows)) == Ok(false) ==> log == old(log) && windows == old(windows) && watchers == old(watchers)
      ensures startupDone == old(startupDone) && dioSettings == old(dioSettings) && prefs == old(prefs)
    {
      created := None;
      if windows.None? {
        CountLoadsAppend(log, [Threw]);
        log := log + [Threw];
      } else if |windows.value| == 0 {
        var w := CreateWindow(lockExists);
        assert old(windows).value + [w] == [w];
        created := Some(w);
      }
    }

    /** The `closed` handler: the window is spliced out, and an emptied list becomes `null`. */
    method OnClosed(w: Win)
      requires Valid()
      modifies this
      ensures Valid()
      ensures old(windows).None? ==> windows == old(windows) && log == old(log) + [Threw]
      ensures old(windows).Some? ==> windows == AfterClose(old(windows.value), w) && log == old(log)
      ensures nextWin == old(nextWin) && watchers == old(watchers) && spawned == old(spawned)
      ensures lockPath == old(lockPath) && startupDone == old(startupDone)
      ensures dioSettings == old(dioSettings) && prefs == old(prefs)
    {
      if windows.None? {
        CountLoadsAppend(log, [Threw]);
        log := log + [Threw];
        return;
      }
      ClientMain.RemoveKeepsDistinct(windows.value, w);
      windows := AfterClose(windows.value, w);
    }

    /** `second-instance`: `windows.length` throws on `null`; otherwise as in the client. */
    method SecondInstance(firstMinimized: bool)
      requires Valid()
      modifies this
      ensures Valid()
      ensures windows.None? ==> log == old(log) + [Threw]
      ensures windows.Some? ==> log == old(log) + FocusEffects(windows.value, firstMinimized)
      ensures windows == old(windows) && nextWin == old(nextWin) && watchers == old(watchers)
      ensures spawned == old(spawned) && lockPath == old(lockPath) && startupDone == old(startupDone)
      ensures dioSettings == old(dioSettings) && prefs == old(prefs)
    {
      var effects := if windows.None? then [Threw] else FocusEffects(windows.value, firstMinimized);
      CountLoadsAppend(log, effects);
      log := log + effects;
    }

    /** `will-quit`: as in the client, with `server` set once any window has run the startup. */
    method OnWillQuit(lockExists: bool)
      requires Valid()
      modifies this
      ensures Valid()
      ensures log == old(log) + QuitEffects(spawned > 0, lockPath, lockExists)
      ensures windows == old(windows) && nextWin == old(nextWin) && watchers == old(watchers)
      ensures spawned == old(spawned) && lockPath == old(lockPath) && startupDone == old(startupDone)
      ensures dioSettings == old(dioSettings) && prefs == old(prefs)
    {
      var effects := QuitEffects(spawned > 0, lockPath, lockExists);
      CountLoadsAppend(log, effects);
      log := log + effects;
    }

    /** `getport`: undefined until the lock file has been read. */
    function PortReply(): (port: Option<string>)
      requires Valid()
      reads this
      ensures !startupDone ==> port.None?
    {
      dioSettings.port
    }
  }
}
