/**
 * The NW.js launcher script: it clears a stale lock file, starts the Perl
 * server, and opens a browser window on the server each time the lock file
 * changes. The lock file is text with `port …` and `pid …` lines.
 */
module NwStartup {
  import opened Wrappers
  import opened Text
  import opened Shell

  /** The lock file's name inside the settings directory. */
  const LockName: string := ".diogenes.run"

  /** The hidden launcher window the script runs in. */
  const Launcher: Win := 0

  /**
   * The capture of `^prefix(.*)$` under the `m` flag: the rest of the first
   * line that begins with `prefix`, if any line does.
   */
  function LineCapture(s: string, prefix: string): Option<string> {
    match FindLine(s, prefix, 0)
    case Some(k) => Some(s[k + |prefix|..LineEnd(s, k + |prefix|)])
    case None => None
  }

  /** A capture exists exactly when some line begins with the prefix, and it holds no terminator. */
  lemma {:induction false} LineCaptureFound(s: string, prefix: string)
    ensures LineCapture(s, prefix).Some? <==> exists k :: 0 <= k <= |s| && PrefixAt(s, prefix, k)
    ensures LineCapture(s, prefix).Some? ==> NoTerminator(LineCapture(s, prefix).value)
  {
    match FindLine(s, prefix, 0)
    case Some(k) =>
      var e := LineEnd(s, k + |prefix|);
      var c := s[k + |prefix|..e];
      forall m | 0 <= m < |c| ensures !IsLineTerminator(c[m]) {
        assert c[m] == s[k + |prefix| + m];
      }
    case None =>
  }

  /** What V8 reports when `ar[1]` is read from the `null` of a failed match. */
  const NullMatchError: string := "TypeError: Cannot read properties of null (reading '1')"

  /**
   * `readLockFile`: the pid and then the port are taken from the first lines
   * that carry them; a missing one leaves `exec` with null, and indexing it throws.
   */
  function ReadLockText(contents: string): (r: Result<(string, string)>)
    ensures r.Ok? ==> LineCapture(contents, "port ") == Some(r.value.0) && LineCapture(contents, "pid ") == Some(r.value.1)
    ensures r.Throws? ==> r.message == NullMatchError
  {
    match LineCapture(contents, "pid ")
    case None => Throws(NullMatchError)
    case Some(pid) =>
      match LineCapture(contents, "port ")
      case None => Throws(NullMatchError)
      case Some(port) => Ok((port, pid))
  }

  /** The read succeeds exactly when both lines are there, and yields their captures. */
  lemma {:induction false} ReadLockTextOk(contents: string)
    ensures ReadLockText(contents).Ok? <==>
      LineCapture(contents, "port ").Some? && LineCapture(contents, "pid ").Some?
    ensures ReadLockText(contents).Ok? ==>
      ReadLockText(contents).value == (LineCapture(contents, "port ").value, LineCapture(contents, "pid ").value)
    ensures ReadLockText(contents).Ok? ==>
      NoTerminator(ReadLockText(contents).value.0) && NoTerminator(ReadLockText(contents).value.1)
  {
    LineCaptureFound(contents, "port ");
    LineCaptureFound(contents, "pid ");
  }

  /** The lock file as the server writes it. */
  function LockText(port: string, pid: string): (s: string)
    ensures |s| == |port| + |pid| + 11
  {
    "port " + port + "\n" + "pid " + pid + "\n"
  }

  /** A line that opens the text is the first line carrying its prefix. */
  lemma {:induction false} CaptureOfFirstLine(prefix: string, value: string, rest: string)
    requires NoTerminator(value)
    ensures LineCapture(prefix + value + "\n" + rest, prefix) == Some(value)
  {
    var s := prefix + value + "\n" + rest;
    assert s[..|prefix|] == prefix;
    Prefs.FindLineIs(s, prefix, 0, 0);
    var e := |prefix| + |value|;
    assert s[e] == '\n';
    forall m | |prefix| <= m < e
      ensures !IsLineTerminator(s[m])
    {
      assert s[m] == value[m - |prefix|];
    }
    Prefs.LineEndIs(s, |prefix|, e);
    assert s[|prefix|..e] == value;
  }

  /** A line that follows a first line not carrying the prefix is the first line carrying it. */
  lemma {:induction false} CaptureOfSecondLine(first: string, prefix: string, value: string, rest: string)
    requires NoTerminator(first) && NoTerminator(value)
    requires |prefix| <= |first| && first[..|prefix|] != prefix
    ensures LineCapture(first + "\n" + prefix + value + "\n" + rest, prefix) == Some(value)
  {
    var s := first + "\n" + prefix + value + "\n" + rest;
    var j := |first| + 1;
    assert s[..|prefix|] == first[..|prefix|];
    forall k | 0 < k < j
      ensures !IsLineStart(s, k)
    {
      assert s[k - 1] == first[k - 1];
    }
    assert s[j - 1] == '\n';
    assert s[j..j + |prefix|] == prefix;
    Prefs.FindLineIs(s, prefix, 0, j);
    var b := j + |prefix|;
    var e := b + |value|;
    assert s[e] == '\n';
    forall m | b <= m < e
      ensures !IsLineTerminator(s[m])
    {
      assert s[m] == value[m - b];
    }
    Prefs.LineEndIs(s, b, e);
    assert s[b..e] == value;
  }

  /** The launcher reads back the port and pid the server wrote. */
  lemma {:induction false} ReadsServerLock(port: string, pid: string)
    requires NoTerminator(port) && NoTerminator(pid)
    ensures ReadLockText(LockText(port, pid)) == Ok((port, pid))
  {
    var first := "port " + port;
    assert LockText(port, pid) == "port " + port + "\n" + ("pid " + pid + "\n");
    CaptureOfFirstLine("port ", port, "pid " + pid + "\n");
    assert LockText(port, pid) == first + "\n" + "pid " + pid + "\n" + "";
    assert NoTerminator(first) by {
      forall i | 0 <= i < |first|
        ensures !IsLineTerminator(first[i])
      {
        if i >= 5 { assert first[i] == port[i - 5]; }
      }
    }
    assert first[..4][1] == 'o';
    CaptureOfSecondLine(first, "pid ", pid, "");
  }

  /** A lock file without a pid line cannot be read: the attempt throws. */
  lemma {:induction false} MissingPidThrows(contents: string)
    requires forall k :: 0 <= k <= |contents| ==> !PrefixAt(contents, "pid ", k)
    ensures ReadLockText(contents).Throws?
  {
  }

  // ------------------------------------------------------------ what the script does

  /**
   * The script's top level: a stale lock is read, its process killed (a
   * failure only logged) and the file unlinked; then the server is spawned
   * and the settings directory watched. A stale lock that cannot be read
   * throws, and the rest of the script never runs.
   */
  function StartupEffects(staleLock: Option<string>): (e: seq<Effect>)
    ensures e == [Threw] <==> staleLock.Some? && ReadLockText(staleLock.value).Throws?
  {
    var start := [SpawnServer, WatchLockDir(Launcher)];
    match staleLock
    case None => start
    case Some(contents) =>
      match ReadLockText(contents)
      case Throws(_) => [Threw]
      case Ok((port, pid)) => [KillPid(pid), RemoveLock] + start
  }

  /**
   * The server is spawned and the directory watched, last, exactly when no
   * stale lock was there or it could be read; a read stale lock is killed
   * and unlinked first; nothing is loaded.
   */
  lemma {:induction false} StartupEffectsFacts(staleLock: Option<string>)
    ensures var e := StartupEffects(staleLock);
      && (SpawnServer in e <==> staleLock.None? || ReadLockText(staleLock.value).Ok?)
      && (SpawnServer in e ==> |e| >= 2 && e[|e| - 2..] == [SpawnServer, WatchLockDir(Launcher)])
      && (RemoveLock in e <==> staleLock.Some? && ReadLockText(staleLock.value).Ok?)
      && (staleLock.Some? && ReadLockText(staleLock.value).Ok? ==>
            e[..2] == [KillPid(ReadLockText(staleLock.value).value.1), RemoveLock])
      && CountLoads(e) == 0
  {
    var start := [SpawnServer, WatchLockDir(Launcher)];
    NoLoads(start);
    match staleLock {
      case None =>
      case Some(contents) =>
        match ReadLockText(contents) {
          case Throws(_) =>
          case Ok((port, pid)) =>
            var e := [KillPid(pid), RemoveLock] + start;
            assert e[..2] == [KillPid(pid), RemoveLock];
            assert e[2..] == start;
            CountLoadsAppend([KillPid(pid), RemoveLock], start);
            assert CountLoads([KillPid(pid), RemoveLock]) == 0 by {
              assert [KillPid(pid), RemoveLock][..1] == [KillPid(pid)];
            }
        }
    }
  }

  /** Whether a directory event is one the watcher acts on: a `change` of the lock file. */
  predicate ChangeApplies(event: string, filename: Option<string>) {
    filename.Some? && filename.value == LockName && event == "change"
  }

  /** The address of the new window. */
  function LocalUrl(port: string): (u: string)
    ensures StartsWith(u, "http://127.0.0.1:") && u[|"http://127.0.0.1:"|..] == port
  {
    "http://127.0.0.1:" + port
  }

  /** A window opened on the server, after an alert and a quit request when the port is empty. */
  function OpenEffects(port: string, w: Win): (e: seq<Effect>)
    ensures CountLoads(e) == 1
    ensures |e| >= 2 && e[|e| - 2..] == [Hide(Launcher), Load(w, Url(LocalUrl(port)))]
    ensures Quit in e <==> port == ""
  {
    var open := [Hide(Launcher), Load(w, Url(LocalUrl(port)))];
    assert CountLoads(open) == 1 by { assert open[..1] == [Hide(Launcher)]; NoLoads(open[..1]); }
    if port == "" then
      var warn := [Alert("ERROR: port unknown!"), Quit];
      assert CountLoads(warn) == 0 by { assert warn[..1] == [Alert("ERROR: port unknown!")]; }
      CountLoadsAppend(warn, open);
      assert (warn + open)[2..] == open;
      warn + open
    else open
  }

  /**
   * The watcher's callback: for a change of the lock file, a lock that is
   * there is read and a window opened on the server (an empty port alerts
   * and asks to quit first, and the window still opens); a lock that has
   * vanished alerts and quits. There is no guard: every such change does it again.
   */
  function ChangeEffects(event: string, filename: Option<string>, lock: Option<string>, w: Win): (e: seq<Effect>)
    ensures e != [] <==> ChangeApplies(event, filename)
    ensures Quit in e ==> lock.None? || (ReadLockText(lock.value).Ok? && ReadLockText(lock.value).value.0 == "")
  {
    if !ChangeApplies(event, filename) then []
    else match lock {
      case None => [Alert("ERROR: disappearing lockfile!"), Quit]
      case Some(contents) =>
        match ReadLockText(contents) {
          case Throws(_) => [Threw]
          case Ok((port, pid)) => OpenEffects(port, w)
        }
    }
  }

  /** A change that opens a window: it is one the watcher acts on, and the lock file reads. */
  predicate Opens(event: string, filename: Option<string>, lock: Option<string>) {
    ChangeApplies(event, filename) && lock.Some? && ReadLockText(lock.value).Ok?
  }

  /**
   * Other events do nothing; a vanished lock alerts and quits; a readable lock
   * opens a window on its port, the one load of the event.
   */
  lemma {:induction false} ChangeEffectsFacts(event: string, filename: Option<string>, lock: Option<string>, w: Win)
    ensures var e := ChangeEffects(event, filename, lock, w);
      && (!ChangeApplies(event, filename) ==> e == [])
      && (ChangeApplies(event, filename) && lock.None? ==> e == [Alert("ERROR: disappearing lockfile!"), Quit])
      && CountLoads(e) == (if Opens(event, filename, lock) then 1 else 0)
      && (Opens(event, filename, lock) ==> e == OpenEffects(ReadLockText(lock.value).value.0, w))
  {
    if ChangeApplies(event, filename) && lock.None? {
      assert CountLoads([Alert("ERROR: disappearing lockfile!"), Quit]) == CountLoads([Alert("ERROR: disappearing lockfile!")]);
    }
  }

  /**
   * The close handler of an opened window: the server is killed, the lock
   * unlinked (which throws when it is gone, before the quit) and the application quit.
   */
  function CloseEffects(lockExists: bool): (e: seq<Effect>)
    ensures |e| > 0 && e[0] == KillServer
    ensures Quit in e <==> lockExists
    ensures RemoveLock in e <==> lockExists
    ensures CountLoads(e) == 0
  {
    var e := if lockExists then [KillServer, RemoveLock, Quit] else [KillServer, Threw];
    NoLoads(e);
    e
  }

  /**
   * What closing an opened window does: its close handler when one was
   * installed; without one the window just closes, leaving the server
   * running, the lock file in place and the application open.
   */
  function WindowCloseEffects(handled: bool, lockExists: bool): (e: seq<Effect>)
    ensures KillServer in e <==> handled
    ensures Quit in e <==> handled && lockExists
    ensures RemoveLock in e <==> handled && lockExists
    ensures CountLoads(e) == 0
  {
    if handled then CloseEffects(lockExists) else []
  }

  /** The effects of the same qualifying change delivered to each window number in turn. */
  function ChangeRun(lock: string, ws: seq<Win>): (e: seq<Effect>)
  {
    if |ws| == 0 then []
    else ChangeRun(lock, ws[..|ws| - 1]) + ChangeEffects("change", Some(LockName), Some(lock), ws[|ws| - 1])
  }

  /** Without a once-only guard, each change of a readable lock file loads the server into one more window. */
  lemma {:induction false} EveryChangeOpensAWindow(lock: string, ws: seq<Win>)
    requires ReadLockText(lock).Ok?
    ensures CountLoads(ChangeRun(lock, ws)) == |ws|
    decreases |ws|
  {
    if |ws| > 0 {
      EveryChangeOpensAWindow(lock, ws[..|ws| - 1]);
      ChangeEffectsFacts("change", Some(LockName), Some(lock), ws[|ws| - 1]);
      CountLoadsAppend(ChangeRun(lock, ws[..|ws| - 1]), ChangeEffects("change", Some(LockName), Some(lock), ws[|ws| - 1]));
    }
  }

  /** The launcher's state: the windows it has opened and what it has done. */
  class NwLauncher {
    var windows: seq<Win>
    /** The opened windows whose close handler was installed. */
    var handled: set<Win>
    var nextWin: Win
    var log: seq<Effect>

    ghost predicate Valid()
      reads this
    {
      && nextWin >= 1
      && (forall i :: 0 <= i < |windows| ==> 1 <= windows[i] < nextWin)
      && (forall w :: w in handled ==> 1 <= w < nextWin)
    }

    /** The script's top level, run once. */
    constructor (staleLock: Option<string>)
      ensures Valid()
      ensures windows == [] && handled == {} && nextWin == 1
      ensures log == StartupEffects(staleLock)
    {
      windows := [];
      handled := {};
      nextWin := 1;
      log := StartupEffects(staleLock);
    }

    /**
     * One directory event: a qualifying change with a readable lock opens one
     * more window. The window's callback passes `initMenu(newWin)`, which
     * returns undefined, as the `load` listener; `rejectsListener` says
     * whether the window's `on` throws on a listener that is not a function,
     * in which case the callback stops there and the close handler is never
     * installed.
     */
    method OnDirEvent(event: string, filename: Option<string>, lock: Option<string>, rejectsListener: bool)
      requires Valid()
      modifies this
      ensures Valid()
      ensures log == old(log) + ChangeEffects(event, filename, lock, old(nextWin))
        + (if Opens(event, filename, lock) && rejectsListener then [Threw] else [])
      ensures Opens(event, filename, lock) ==>
        windows == old(windows) + [old(nextWin)] && nextWin == old(nextWin) + 1
      ensures Opens(event, filename, lock) ==>
        handled == (if rejectsListener then old(handled) else old(handled) + {old(nextWin)})
      ensures !Opens(event, filename, lock) ==>
        windows == old(windows) && handled == old(handled) && nextWin == old(nextWin)
    {
      var effects := ChangeEffects(event, filename, lock, nextWin);
      if Opens(event, filename, lock) {
        OpenWindow(!rejectsListener);
        if rejectsListener {
          log := log + effects + [Threw];
        } else {
          log := log + effects;
        }
      } else {
        log := log + effects;
      }
    }

    /** The window the callback opens is tracked, and its close handler installed when `handler` says the listener was accepted. */
    method OpenWindow(handler: bool)
      requires Valid()
      modifies this
      ensures Valid()
      ensures windows == old(windows) + [old(nextWin)] && nextWin == old(nextWin) + 1
      ensures handled == (if handler then old(handled) + {old(nextWin)} else old(handled))
      ensures log == old(log)
    {
      windows := windows + [nextWin];
      if handler {
        handled := handled + {nextWin};
      }
      nextWin := nextWin + 1;
    }

    /** An opened window is closed: its close handler runs if it has one. */
    method OnClose(w: Win, lockExists: bool)
      requires Valid() && w in windows
      modifies this
      ensures Valid()
      ensures log == old(log) + WindowCloseEffects(w in old(handled), lockExists)
      ensures windows == old(windows) && handled == old(handled) && nextWin == old(nextWin)
    {
      log := log + WindowCloseEffects(w in handled, lockExists);
    }
  }
}
