/**
 * The chrome script of the XULRunner front end. Every main window runs its
 * own copy with its own globals. The first window cleans up after an unclean
 * run, starts the Perl server through a chain of polling timers, and loads
 * the server's page once the line-format lock file is there; the last window
 * to close shuts the server down. Around this sit the platform helpers (the
 * operating system, its separators, the search of `PATH` for Perl) and the
 * older line-by-line writer of the database folder setting.
 */
module XulChrome {
  import opened Wrappers
  import opened Text
  import opened Shell

  // ------------------------------------------------------------ platform helpers

  datatype OS = Windows | Mac | Unix

  /**
   * `getOS`: the lower-cased platform string is searched for `win`, then
   * `mac`, then `unix`, `linux` or `sun`; anything else is unidentified
   * (and the user is warned).
   */
  function GetOS(platform: Option<string>): (os: Option<OS>)
    ensures platform.None? ==> os.None?
  {
    match platform
    case None => None
    case Some(p) =>
      var l := Lower(p);
      if Contains(l, "win") then Some(Windows)
      else if Contains(l, "mac") then Some(Mac)
      else if Contains(l, "unix") || Contains(l, "linux") || Contains(l, "sun") then Some(Unix)
      else None
  }

  /** Whether `getOS` warns the user: a platform string that names no known system. */
  predicate WarnsUnidentified(platform: Option<string>) {
    platform.Some? && GetOS(platform).None?
  }

  lemma {:induction false} LowerTwice(s: string)
    ensures Lower(Lower(s)) == Lower(s)
  {
    forall i | 0 <= i < |s| ensures Lower(Lower(s))[i] == Lower(s)[i] {
      assert Lower(s)[i] == LowerChar(s[i]);
    }
  }

  /** The classification ignores case. */
  lemma {:induction false} GetOSIgnoresCase(p: string)
    ensures GetOS(Some(p)) == GetOS(Some(Lower(p)))
  {
    LowerTwice(p);
  }

  /** `win` is matched first, so any platform string containing it is Windows, even `Darwin`. */
  lemma {:induction false} GetOSWinFirst()
    ensures GetOS(Some("Win32")) == Some(Windows)
    ensures GetOS(Some("Darwin")) == Some(Windows)
  {
    assert Lower("Win32") == "win32";
    assert OccursAt("win32", "win", 0);
    assert Lower("Darwin") == "darwin";
    assert OccursAt("darwin", "win", 3);
  }

  /** `getPathSep`: `:` on unix and mac, `;` on Windows, undefined otherwise. */
  function PathSep(os: Option<OS>): (sep: Option<char>)
    ensures sep.Some? <==> os.Some?
  {
    match os
    case Some(Windows) => Some(';')
    case Some(_) => Some(':')
    case None => None
  }

  /**
   * `getDirSep`: `/` on unix and mac, `\` on Windows, undefined otherwise.
   * On every identified system it differs from the path separator, so a
   * `PATH` entry is never cut at a directory separator.
   */
  function DirSep(os: Option<OS>): (sep: Option<char>)
    ensures sep.Some? <==> os.Some?
    ensures sep.Some? ==> sep.value != PathSep(os).value
  {
    match os
    case Some(Windows) => Some('\\')
    case Some(_) => Some('/')
    case None => None
  }

  /** `getPerl`: the console-less Perl on Windows, `perl` elsewhere. */
  function PerlName(os: Option<OS>): (name: string)
    ensures |name| > 0
    ensures name == "wperl.exe" <==> os == Some(Windows)
  {
    if os == Some(Windows) then "wperl.exe" else "perl"
  }

  /** `'' + sep`: an undefined separator is spelled out when concatenated. */
  function SepText(sep: Option<char>): (t: string)
    ensures sep.Some? ==> t == [sep.value]
  {
    match sep
    case Some(c) => [c]
    case None => "undefined"
  }

  /** Whether `path.charAt(path.length - 1) == sep`; `charAt` past either end gives the empty string. */
  predicate EndsWithSep(path: string, sep: Option<char>) {
    sep.Some? && |path| > 0 && path[|path| - 1] == sep.value
  }

  /** `myAppendPath`: a separator goes between `path` and `leaf` unless `path` already ends with one. */
  function MyAppendPath(path: string, leaf: string, sep: Option<char>): (r: string)
    ensures EndsWithSep(path, sep) ==> r == path + leaf
    ensures !EndsWithSep(path, sep) ==> r == path + SepText(sep) + leaf
  {
    (if EndsWithSep(path, sep) then path else path + SepText(sep)) + leaf
  }

  /** `ensureDirectory`: the empty string stays empty, anything else ends with the separator. */
  function EnsureDirectory(dir: string, sep: Option<char>): (r: string)
    ensures |dir| == 0 ==> r == ""
    ensures |dir| > 0 && sep.Some? ==> EndsWithSep(r, sep) && StartsWith(r, dir) && |r| <= |dir| + 1
    ensures EndsWithSep(dir, sep) ==> r == dir
  {
    if |dir| == 0 then ""
    else if EndsWithSep(dir, sep) then dir
    else dir + SepText(sep)
  }

  /**
   * With a known separator, exactly one separator joins the two parts: the
   * result is the path, one separator and the leaf, where the path's own
   * trailing separator serves when it has one.
   */
  lemma {:induction false} AppendPathOneSeparator(path: string, leaf: string, c: char)
    ensures var r := MyAppendPath(path, leaf, Some(c));
      var head := if |path| > 0 && path[|path| - 1] == c then path[..|path| - 1] else path;
      r == head + [c] + leaf
  {
    if |path| > 0 && path[|path| - 1] == c {
      assert path == path[..|path| - 1] + [c];
    }
  }

  /** Appending to a directory made sure of is plain concatenation. */
  lemma {:induction false} AppendToEnsuredDirectory(dir: string, leaf: string, c: char)
    requires |dir| > 0
    ensures MyAppendPath(EnsureDirectory(dir, Some(c)), leaf, Some(c)) == EnsureDirectory(dir, Some(c)) + leaf
  {
  }

  /** With no known system the separator is the text `undefined`. */
  lemma {:induction false} AppendPathUnidentified(path: string, leaf: string)
    ensures MyAppendPath(path, leaf, None) == path + "undefined" + leaf
  {
  }

  /** The entries of `PATH`: `split` on the path separator, or the whole text when it is undefined. */
  function PathDirs(pathVar: string, os: Option<OS>): (dirs: seq<string>)
    ensures |dirs| >= 1
    ensures PathSep(os).None? ==> dirs == [pathVar]
  {
    match PathSep(os)
    case Some(sep) => Split(pathVar, c => c == sep)
    case None => [pathVar]
  }

  /** Where Perl would be in the directory `dir`. */
  function PerlCandidate(dir: string, os: Option<OS>): string {
    MyAppendPath(dir, PerlName(os), DirSep(os))
  }

  /**
   * `getPerlExecutable`: the first entry of `PATH` holding a regular file by
   * Perl's name. `files` stands for the paths that exist and are files.
   */
  method GetPerlExecutable(pathVar: string, os: Option<OS>, files: set<string>) returns (perlpath: Option<string>)
    ensures var dirs := PathDirs(pathVar, os);
      && (perlpath.Some? <==> exists i :: 0 <= i < |dirs| && PerlCandidate(dirs[i], os) in files)
      && (perlpath.Some? ==> exists i :: 0 <= i < |dirs| && perlpath.value == PerlCandidate(dirs[i], os)
                                  && perlpath.value in files
                                  && forall j :: 0 <= j < i ==> PerlCandidate(dirs[j], os) !in files)
  {
    var dirs := PathDirs(pathVar, os);
    perlpath := None;
    var i := 0;
    while i < |dirs|
      invariant 0 <= i <= |dirs|
      invariant forall j :: 0 <= j < i ==> PerlCandidate(dirs[j], os) !in files
    {
      var file := PerlCandidate(dirs[i], os);
      if file in files {
        perlpath := Some(file);
        return;
      }
      i := i + 1;
    }
  }

  // ------------------------------------------------------------ the lock file

  /** What `readLockFile` gathers: port and pid (either may stay undefined) and how many bad lines it warned about. */
  datatype LockRead = LockRead(port: Option<string>, pid: Option<string>, warnings: nat)

  /** One line of the lock file: empty lines are skipped, `port…` and `pid…` set a field, others warn. */
  function ReadLockLine(acc: LockRead, line: string): (r: LockRead)
    ensures r.warnings == acc.warnings + (if line == "" || StartsWith(line, "port") || StartsWith(line, "pid") then 0 else 1)
  {
    if line == "" then acc
    else if StartsWith(line, "port") then acc.(port := Some(SubstringFrom(line, 5)))
    else if StartsWith(line, "pid") then acc.(pid := Some(SubstringFrom(line, 4)))
    else acc.(warnings := acc.warnings + 1)
  }

  /** The lines read in order, later lines overriding earlier ones. */
  function ParseLockLines(lines: seq<string>): (r: LockRead)
    ensures r.warnings <= |lines|
  {
    if |lines| == 0 then LockRead(None, None, 0)
    else ReadLockLine(ParseLockLines(lines[..|lines| - 1]), lines[|lines| - 1])
  }

  /** `readLockFile` as its loop runs, line by line. */
  method ReadLockFile(lines: seq<string>) returns (r: LockRead)
    ensures r == ParseLockLines(lines)
  {
    r := LockRead(None, None, 0);
    var k := 0;
    while k < |lines|
      invariant 0 <= k <= |lines|
      invariant r == ParseLockLines(lines[..k])
    {
      assert lines[..k + 1][..k] == lines[..k];
      r := ReadLockLine(r, lines[k]);
      k := k + 1;
    }
    assert lines[..k] == lines;
  }

  /** The port is the one on the last `port` line; the text from index 5 on. */
  lemma {:induction false} LastPortWins(lines: seq<string>, i: nat)
    requires i < |lines| && StartsWith(lines[i], "port")
    requires forall j :: i < j < |lines| ==> !StartsWith(lines[j], "port")
    ensures ParseLockLines(lines).port == Some(SubstringFrom(lines[i], 5))
    decreases |lines|
  {
    var n := |lines|;
    var init := lines[..n - 1];
    if i < n - 1 {
      forall j | i < j < |init| ensures !StartsWith(init[j], "port") {
        assert init[j] == lines[j];
      }
      LastPortWins(init, i);
      assert !StartsWith(lines[n - 1], "port");
      assert lines[n - 1] != "" ==> ReadLockLine(ParseLockLines(init), lines[n - 1]).port == ParseLockLines(init).port;
    }
  }

  /** The pid is the one on the last `pid` line that is not also a `port` line. */
  lemma {:induction false} LastPidWins(lines: seq<string>, i: nat)
    requires i < |lines| && StartsWith(lines[i], "pid")
    requires forall j :: i < j < |lines| ==> !StartsWith(lines[j], "pid")
    ensures ParseLockLines(lines).pid == Some(SubstringFrom(lines[i], 4))
    decreases |lines|
  {
    var n := |lines|;
    var init := lines[..n - 1];
    assert !StartsWith(lines[i], "port") by {
      assert lines[i][..3] == "pid";
      assert lines[i][1] == 'i';
    }
    if i < n - 1 {
      forall j | i < j < |init| ensures !StartsWith(init[j], "pid") {
        assert init[j] == lines[j];
      }
      LastPidWins(init, i);
    }
  }

  /** Without a `port` line the port stays undefined. */
  lemma {:induction false} NoPortLine(lines: seq<string>)
    requires forall j :: 0 <= j < |lines| ==> !StartsWith(lines[j], "port")
    ensures ParseLockLines(lines).port.None?
    decreases |lines|
  {
    if |lines| > 0 {
      NoPortLine(lines[..|lines| - 1]);
    }
  }

  /** The lock file the Perl server writes, read back. */
  lemma {:induction false} ServerLockRead(port: string, pid: string)
    ensures ParseLockLines(["port " + port, "pid " + pid, ""]) == LockRead(Some(port), Some(pid), 0)
  {
    var lines := ["port " + port, "pid " + pid, ""];
    var l0 := "port " + port;
    var l1 := "pid " + pid;
    assert StartsWith(l0, "port") && l0 != "";
    assert l0[5..] == port;
    assert ParseLockLines(lines[..1]) == LockRead(Some(port), None, 0) by {
      assert lines[..1][..0] == [];
    }
    assert StartsWith(l1, "pid") && l1 != "";
    assert !StartsWith(l1, "port") by { assert l1[1] == 'i'; }
    assert l1[4..] == pid;
    assert ParseLockLines(lines[..2]) == LockRead(Some(port), Some(pid), 0) by {
      assert lines[..2][..1] == lines[..1];
    }
    assert lines[..2] == lines[..|lines| - 1];
  }

  /** `dio_port` is used only when truthy: defined and not empty. */
  predicate Truthy(s: Option<string>) {
    s.Some? && |s.value| > 0
  }

  /** What `go` loads, written as in the source, without `//` after the scheme. */
  function GoUrl(port: string): (u: string)
    ensures StartsWith(u, "http:127.0.0.1:")
  {
    "http:127.0.0.1:" + port + "/"
  }

  /** The port `get_port` answers: a truthy cached one, or else what the lock file gives. */
  function GoPort(dioPort: Option<string>, lockLines: seq<string>): (p: Option<string>)
    ensures Truthy(dioPort) ==> p == dioPort
    ensures p != dioPort ==> p == ParseLockLines(lockLines).port
  {
    if Truthy(dioPort) then dioPort else ParseLockLines(lockLines).port
  }

  /**
   * What `go` does in the window `w`: with no truthy cached port, the lock
   * file is read again, with an alert per unknown line; then the page loads
   * if the port is truthy.
   */
  function GoEffects(w: Win, dioPort: Option<string>, lockLines: seq<string>): seq<Effect> {
    var port := GoPort(dioPort, lockLines);
    var warnings := if Truthy(dioPort) then 0 else ParseLockLines(lockLines).warnings;
    seq(warnings, i => Alert(BadLockLine)) + (if Truthy(port) then [Load(w, Url(GoUrl(port.value)))] else [])
  }

  /** Alerts load nothing. */
  lemma {:induction false} AlertsLoadNothing(n: nat)
    ensures CountLoads(seq(n, i => Alert(BadLockLine))) == 0
  {
    if n > 0 {
      assert seq(n, i => Alert(BadLockLine))[..n - 1] == seq(n - 1, i => Alert(BadLockLine));
      AlertsLoadNothing(n - 1);
    }
  }

  /**
   * `go` loads the server's page once exactly when a truthy port is known,
   * as its last effect; everything before it is a bad-line alert, and with a
   * truthy cached port the lock file is not read at all.
   */
  lemma {:induction false} GoLoadsOnce(w: Win, dioPort: Option<string>, lockLines: seq<string>)
    ensures var e := GoEffects(w, dioPort, lockLines);
      var port := GoPort(dioPort, lockLines);
      && CountLoads(e) == (if Truthy(port) then 1 else 0)
      && (Truthy(port) ==> |e| > 0 && e[|e| - 1] == Load(w, Url(GoUrl(port.value))))
      && (forall i :: 0 <= i < |e| && !e[i].Load? ==> e[i] == Alert(BadLockLine))
      && (Truthy(dioPort) ==> e == [Load(w, Url(GoUrl(dioPort.value)))])
  {
    var port := GoPort(dioPort, lockLines);
    var warnings := if Truthy(dioPort) then 0 else ParseLockLines(lockLines).warnings;
    var alerts := seq(warnings, i => Alert(BadLockLine));
    var e := GoEffects(w, dioPort, lockLines);
    AlertsLoadNothing(warnings);
    if Truthy(port) {
      var load := Load(w, Url(GoUrl(port.value)));
      assert e == alerts + [load];
      CountLoadsAppend(alerts, [load]);
      assert CountLoads([load]) == 1;
      forall i | 0 <= i < |e| && !e[i].Load? ensures e[i] == Alert(BadLockLine) {
        assert i < |alerts|;
      }
      if Truthy(dioPort) {
        assert alerts == [];
      }
    } else {
      assert e == alerts;
    }
  }

  // ------------------------------------------------------------ the settings writer

  /** The line `saveDatabasePath` writes for a database: `<type>_dir "<path>"`. */
  function SavedLine(key: string, path: string): (line: string)
    ensures StartsWith(line, key)
  {
    key + " \"" + path + "\""
  }

  /** Every line starting with the key is replaced by `newLine`, others are kept, in order. */
  function ReplaceKeyLines(lines: seq<string>, key: string, newLine: string): (r: seq<string>)
    ensures |r| == |lines|
    ensures forall i :: 0 <= i < |lines| ==> r[i] == (if StartsWith(lines[i], key) then newLine else lines[i])
  {
    seq(|lines|, i requires 0 <= i < |lines| => if StartsWith(lines[i], key) then newLine else lines[i])
  }

  /** How many lines start with the key. */
  function CountKeyLines(lines: seq<string>, key: string): (n: nat)
    ensures n <= |lines|
  {
    if |lines| == 0 then 0
    else CountKeyLines(lines[..|lines| - 1], key) + (if StartsWith(lines[|lines| - 1], key) then 1 else 0)
  }

  lemma {:induction false} CountKeyLinesAppend(a: seq<string>, b: seq<string>, key: string)
    ensures CountKeyLines(a + b, key) == CountKeyLines(a, key) + CountKeyLines(b, key)
    decreases |b|
  {
    if |b| == 0 {
      assert a + b == a;
    } else {
      CountKeyLinesAppend(a, b[..|b| - 1], key);
      assert (a + b)[..|a + b| - 1] == a + b[..|b| - 1];
    }
  }

  /** Replacing keeps the number of key lines when the new line starts with the key. */
  lemma {:induction false} ReplaceKeepsCount(lines: seq<string>, key: string, newLine: string)
    requires StartsWith(newLine, key)
    ensures CountKeyLines(ReplaceKeyLines(lines, key, newLine), key) == CountKeyLines(lines, key)
    decreases |lines|
  {
    if |lines| > 0 {
      var n := |lines|;
      ReplaceKeepsCount(lines[..n - 1], key, newLine);
      assert ReplaceKeyLines(lines, key, newLine)[..n - 1] == ReplaceKeyLines(lines[..n - 1], key, newLine);
    }
  }

  /** The lines `saveDatabasePath` writes, as written: `oldLine` is never set, so the new line is always appended. */
  function SaveLinesAsWritten(lines: Option<seq<string>>, key: string, path: string): seq<string> {
    ReplaceKeyLines(lines.GetOr([]), key, SavedLine(key, path)) + [SavedLine(key, path)]
  }

  /** The corrected writer appends the line only when no line held the key. */
  function SaveLines(lines: Option<seq<string>>, key: string, path: string): (r: seq<string>)
    ensures |r| >= |lines.GetOr([])|
    ensures CountKeyLines(r, key) == if CountKeyLines(lines.GetOr([]), key) == 0 then 1 else CountKeyLines(lines.GetOr([]), key)
    ensures forall i :: 0 <= i < |r| && StartsWith(r[i], key) ==> r[i] == SavedLine(key, path)
    ensures forall i :: 0 <= i < |lines.GetOr([])| && !StartsWith(lines.GetOr([])[i], key) ==> r[i] == lines.GetOr([])[i]
  {
    var before := lines.GetOr([]);
    var replaced := ReplaceKeyLines(before, key, SavedLine(key, path));
    ReplaceKeepsCount(before, key, SavedLine(key, path));
    if CountKeyLines(before, key) == 0 then
      CountKeyLinesAppend(replaced, [SavedLine(key, path)], key);
      assert [SavedLine(key, path)][..0] == [];
      replaced + [SavedLine(key, path)]
    else replaced
  }

  /** As written, a file that already holds the key ends up with one more key line than it had: a duplicate. */
  lemma {:induction false} SaveAsWrittenDuplicates(lines: seq<string>, key: string, path: string)
    requires CountKeyLines(lines, key) >= 1
    ensures CountKeyLines(SaveLinesAsWritten(Some(lines), key, path), key) == CountKeyLines(lines, key) + 1
  {
    var replaced := ReplaceKeyLines(lines, key, SavedLine(key, path));
    ReplaceKeepsCount(lines, key, SavedLine(key, path));
    CountKeyLinesAppend(replaced, [SavedLine(key, path)], key);
    assert [SavedLine(key, path)][..0] == [];
  }

  /** The text written: every line followed by a newline. */
  function JoinLines(lines: seq<string>): (s: string)
    ensures |lines| > 0 ==> |s| > 0 && s[|s| - 1] == '\n'
  {
    if |lines| == 0 then "" else JoinLines(lines[..|lines| - 1]) + lines[|lines| - 1] + "\n"
  }

  /**
   * `saveDatabasePath` as its loop runs: `lines` is the settings file read
   * line by line, or `None` when it is not there.
   */
  method SaveDatabasePath(lines: Option<seq<string>>, dbType: string, path: string) returns (output: string)
    ensures output == JoinLines(SaveLinesAsWritten(lines, dbType + "_dir", path))
  {
    var key := dbType + "_dir";
    var newLine := SavedLine(key, path);
    var oldLine := false;
    output := "";
    ghost var done: seq<string> := [];
    if lines.Some? {
      var k := 0;
      while k < |lines.value|
        invariant 0 <= k <= |lines.value|
        invariant done == ReplaceKeyLines(lines.value[..k], key, newLine)
        invariant output == JoinLines(done)
      {
        var line := lines.value[k];
        var kept := if StartsWith(line, key) then newLine else line;
        ReplaceKeyLinesSnoc(lines.value, k, key, newLine);
        JoinLinesSnoc(done, kept);
        output := output + kept + "\n";
        done := done + [kept];
        k := k + 1;
      }
      assert lines.value[..k] == lines.value;
    }
    if !oldLine {
      JoinLinesSnoc(done, newLine);
      output := output + newLine + "\n";
      done := done + [newLine];
    }
  }

  /** One more line read extends the rewritten lines by that line, replaced or kept. */
  lemma ReplaceKeyLinesSnoc(lines: seq<string>, k: nat, key: string, newLine: string)
    requires k < |lines|
    ensures ReplaceKeyLines(lines[..k + 1], key, newLine)
         == ReplaceKeyLines(lines[..k], key, newLine) + [if StartsWith(lines[k], key) then newLine else lines[k]]
  {
  }

  /** Joining one more line appends it and its line break. */
  lemma JoinLinesSnoc(done: seq<string>, line: string)
    ensures JoinLines(done + [line]) == JoinLines(done) + line + "\n"
  {
    assert (done + [line])[..|done|] == done;
  }

  // ------------------------------------------------------------ shutting the server down

  /**
   * `killServer`: the killer script runs when the lock file is there;
   * otherwise the undeclared name `complain` is read, which throws.
   */
  function KillServerEffects(lockExists: bool): (e: seq<Effect>)
    ensures e == [KillServer] <==> lockExists
    ensures e == [Threw] <==> !lockExists
  {
    if lockExists then [KillServer] else [Threw]
  }

  /** The corrected `killServer`: without a lock file there is nothing to do. */
  function KillServerEffectsFixed(lockExists: bool): (e: seq<Effect>)
    ensures Threw !in e
    ensures KillServer in e <==> lockExists
  {
    if lockExists then [KillServer] else []
  }

  /**
   * `quitDiogenes`: `closeAllWindows` closes every main window and kills the
   * server, then the application quits, unless the kill threw.
   */
  function QuitDiogenesEffects(lockExists: bool): (e: seq<Effect>)
    ensures |e| >= 2 && e[0] == CloseMainWindows
    ensures Quit in e <==> lockExists
  {
    [CloseMainWindows] + (KillServerEffects(lockExists) + (if lockExists then [Quit] else []))
  }

  /** The corrected `quitDiogenes`: the windows close, the server is killed if it left a lock, and the application quits. */
  function QuitDiogenesEffectsFixed(lockExists: bool): (e: seq<Effect>)
    ensures |e| >= 2 && e[0] == CloseMainWindows && e[|e| - 1] == Quit
  {
    [CloseMainWindows] + KillServerEffectsFixed(lockExists) + [Quit]
  }

  /** As written, giving up on a server that never wrote its lock file closes the windows, then throws before quitting. */
  lemma {:induction false} AbortWithoutLockDoesNotQuit()
    ensures QuitDiogenesEffects(false) == [CloseMainWindows, Threw]
  {
  }

  /** Corrected, the application closes its windows and quits whether or not a lock file is there. */
  lemma {:induction false} AbortQuits(lockExists: bool)
    ensures CloseMainWindows in QuitDiogenesEffectsFixed(lockExists)
    ensures Quit in QuitDiogenesEffectsFixed(lockExists)
    ensures Threw !in QuitDiogenesEffectsFixed(lockExists)
  {
    var e := QuitDiogenesEffectsFixed(lockExists);
    assert e[0] == CloseMainWindows;
    assert e[|e| - 1] == Quit;
  }

  // ------------------------------------------------------------ the polling timers

  /** Whether the wait for a stale lock to vanish gives up, as written: it tests the start counter, undefined until a start. */
  predicate StopWaitExpired(startTries: Option<int>, stopTries: int) {
    startTries.Some? && startTries.value > 300
  }

  /** The corrected test: more than 300 ticks of this wait. */
  predicate StopWaitExpiredFixed(stopTries: int) {
    stopTries > 300
  }

  /**
   * The wait for a stale lock to vanish, tick by tick: `present[k]` says
   * whether the lock is still there at the next tick. The result is the
   * number of ticks after which the server is started, if it is.
   */
  function StopWaitRun(present: seq<bool>, tries: nat, startTries: Option<int>, fixed: bool): (r: Option<nat>)
    ensures r.Some? ==> 1 <= r.value <= |present|
    decreases |present|
  {
    if |present| == 0 then None
    else
      var t := tries + 1;
      var expired := if fixed then StopWaitExpiredFixed(t) else StopWaitExpired(startTries, t);
      if !present[0] || expired then Some(1)
      else match StopWaitRun(present[1..], t, startTries, fixed) {
        case None => None
        case Some(k) => Some(k + 1)
      }
  }

  /** `n` ticks at which the lock is still there. */
  function AlwaysPresent(n: nat): (s: seq<bool>)
    ensures |s| == n && forall i :: 0 <= i < n ==> s[i]
  {
    seq(n, i => true)
  }

  /** As written, a stale lock that never vanishes is waited for forever: no server is started after any number of ticks. */
  lemma {:induction false} StopWaitNeverExpires(n: nat, tries: nat)
    ensures StopWaitRun(AlwaysPresent(n), tries, None, false) == None
    decreases n
  {
    if n > 0 {
      assert AlwaysPresent(n)[1..] == AlwaysPresent(n - 1);
      StopWaitNeverExpires(n - 1, tries + 1);
    }
  }

  /** Corrected, the server is started at the 301st tick however long the lock stays. */
  lemma {:induction false} StopWaitExpiresFixed(n: nat, tries: nat)
    requires tries <= 300 && tries + n >= 301
    ensures StopWaitRun(AlwaysPresent(n), tries, None, true) == Some(301 - tries)
    decreases n
  {
    if tries < 300 {
      assert AlwaysPresent(n)[1..] == AlwaysPresent(n - 1);
      StopWaitExpiresFixed(n - 1, tries + 1);
    }
  }

  /** A lock that vanishes starts the server at that tick, as written and corrected alike. */
  lemma {:induction false} StopWaitVanished(rest: seq<bool>, tries: nat, startTries: Option<int>, fixed: bool)
    ensures StopWaitRun([false] + rest, tries, startTries, fixed) == Some(1)
  {
  }

  /**
   * How the lock wait ends: at a tick where the lock is readable (and, when
   * that tick is also past the 300th, giving up after the load), at a tick
   * past the 300th without a readable lock, or not within the run.
   */
  datatype StartOutcome = Loaded(tick: nat, gaveUp: bool) | GaveUp(tick: nat) | Waiting

  /**
   * The wait for the lock after a start, tick by tick: `readable[k]` says
   * whether the lock is there and readable at the next tick. A readable lock
   * loads the page; the count passing 300 gives up. The two tests are
   * separate, so both happen on a tick that is readable and past the 300th.
   */
  function StartWaitRun(readable: seq<bool>, tries: nat): (r: StartOutcome)
    ensures r.Loaded? ==> 1 <= r.tick <= |readable| && readable[r.tick - 1]
    ensures r.Loaded? ==> (r.gaveUp <==> tries + r.tick > 300)
    ensures r.GaveUp? ==> 1 <= r.tick <= |readable| && !readable[r.tick - 1] && tries + r.tick > 300
    ensures r.Waiting? ==> (|readable| > 0 ==> tries + |readable| <= 300) && forall i :: 0 <= i < |readable| ==> !readable[i]
    decreases |readable|
  {
    if |readable| == 0 then Waiting
    else if readable[0] then Loaded(1, tries + 1 > 300)
    else if tries + 1 > 300 then GaveUp(1)
    else match StartWaitRun(readable[1..], tries + 1) {
      case Loaded(k, g) => Loaded(k + 1, g)
      case GaveUp(k) => GaveUp(k + 1)
      case Waiting => Waiting
    }
  }

  /** A lock that becomes readable on the 301st tick is loaded, and the wait still gives up on that same tick. */
  lemma LoadedAndGaveUpOnLastTick(rest: seq<bool>)
    ensures StartWaitRun([true] + rest, 300) == Loaded(1, true)
  {
  }

  /** A server that never writes its lock file is given up on at the 301st tick. */
  lemma {:induction false} StartWaitGivesUp(n: nat, tries: nat)
    requires tries <= 300 && tries + n >= 301
    ensures StartWaitRun(seq(n, i => false), tries) == GaveUp(301 - tries)
    decreases n
  {
    if tries < 300 {
      assert seq(n, i => false)[1..] == seq(n - 1, i => false);
      StartWaitGivesUp(n - 1, tries + 1);
    }
  }

  /** `r` seen from `n` ticks earlier. */
  function ShiftOutcome(r: StartOutcome, n: nat): StartOutcome {
    match r
    case Loaded(k, g) => Loaded(k + n, g)
    case GaveUp(k) => GaveUp(k + n)
    case Waiting => Waiting
  }

  lemma ShiftOutcomeTwice(r: StartOutcome, n: nat)
    ensures ShiftOutcome(ShiftOutcome(r, 1), n) == ShiftOutcome(r, n + 1)
  {
  }

  /** One tick of the lock wait: a run that neither loads nor gives up at once is the rest of the run, a tick later. */
  lemma StartWaitStep(readable: seq<bool>, tries: nat)
    requires |readable| > 0
    ensures readable[0] ==> StartWaitRun(readable, tries) == Loaded(1, tries + 1 > 300)
    ensures !readable[0] && tries + 1 > 300 ==> StartWaitRun(readable, tries) == GaveUp(1)
    ensures !readable[0] && tries + 1 <= 300 ==>
      StartWaitRun(readable, tries) == ShiftOutcome(StartWaitRun(readable[1..], tries + 1), 1)
  {
  }

  /** The run seen `ticks` ticks in, while still waiting: the next tick ends it, or the rest of the run is a tick later. */
  lemma StartWaitAdvance(readable: seq<bool>, t0: nat, ticks: nat)
    requires ticks < |readable|
    requires StartWaitRun(readable, t0) == ShiftOutcome(StartWaitRun(readable[ticks..], t0 + ticks), ticks)
    ensures readable[ticks] ==> StartWaitRun(readable, t0) == Loaded(ticks + 1, t0 + ticks + 1 > 300)
    ensures !readable[ticks] && t0 + ticks + 1 > 300 ==> StartWaitRun(readable, t0) == GaveUp(ticks + 1)
    ensures !readable[ticks] && t0 + ticks + 1 <= 300 ==>
      StartWaitRun(readable, t0) == ShiftOutcome(StartWaitRun(readable[ticks + 1..], t0 + ticks + 1), ticks + 1)
  {
    StartWaitStep(readable[ticks..], t0 + ticks);
    ShiftOutcomeTwice(StartWaitRun(readable[ticks + 1..], t0 + ticks + 1), ticks);
    assert readable[ticks..][1..] == readable[ticks + 1..];
  }

  /** The tick that ends the lock wait is the one the run's outcome names, and it logs what the outcome says. */
  lemma EndingTick(readable: seq<bool>, t0: nat, ticks: nat, go: seq<Effect>, abort: seq<Effect>)
    requires ticks < |readable|
    requires StartWaitRun(readable, t0) == ShiftOutcome(StartWaitRun(readable[ticks..], t0 + ticks), ticks)
    requires readable[ticks] || t0 + ticks + 1 > 300
    ensures var outcome := StartWaitRun(readable, t0);
      && (outcome.Loaded? <==> readable[ticks])
      && (outcome.Loaded? || outcome.GaveUp?) && outcome.tick == ticks + 1
      && TickEffects(readable[ticks], t0 + ticks + 1, go, abort) == StartWaitEffects(outcome, go, abort)
  {
    StartWaitAdvance(readable, t0, ticks);
    EndingTickEffects(readable[ticks], t0 + ticks + 1, StartWaitRun(readable, t0), go, abort);
  }

  /**
   * What one tick of the lock wait logs, the count having reached `tries`,
   * given what `go` and the abort log: `go` when the lock is readable, then
   * the abort past the 300th.
   */
  function TickEffects(readable: bool, tries: int, go: seq<Effect>, abort: seq<Effect>): seq<Effect> {
    (if readable then go else []) + (if tries > 300 then abort else [])
  }

  /** The tick that ends the wait logs what the wait's outcome says. */
  lemma EndingTickEffects(readable: bool, tries: int, r: StartOutcome, go: seq<Effect>, abort: seq<Effect>)
    requires readable ==> r.Loaded? && r.gaveUp == (tries > 300)
    requires !readable ==> r.GaveUp? && tries > 300
    ensures TickEffects(readable, tries, go, abort) == StartWaitEffects(r, go, abort)
  {
    if readable && tries <= 300 {
      assert go + [] == go;
    } else if !readable {
      assert [] + abort == abort;
    }
  }

  /** `r` seen from `n` ticks earlier. */
  function ShiftTicks(r: Option<nat>, n: nat): Option<nat> {
    match r
    case Some(k) => Some(k + n)
    case None => None
  }

  /** One tick of the vanish wait, as written: it ends at once, or it is the rest of the run, a tick later. */
  lemma StopWaitStep(present: seq<bool>, tries: nat, startTries: Option<int>)
    requires |present| > 0
    ensures !present[0] || StopWaitExpired(startTries, tries + 1) ==> StopWaitRun(present, tries, startTries, false) == Some(1)
    ensures present[0] && !StopWaitExpired(startTries, tries + 1) ==>
      StopWaitRun(present, tries, startTries, false) == ShiftTicks(StopWaitRun(present[1..], tries + 1, startTries, false), 1)
  {
  }

  // ------------------------------------------------------------ a main window

  /** The alert `readLockFile` raises for each line it does not know. */
  const BadLockLine: string := "Bad diogenes.run file!"

  /** The warning `getPerlExecutable` gives when no `PATH` entry holds Perl. */
  const PerlNotFound: string := "Perl executable not found in path."

  /** The alert of `waitForLockHelper` when it gives up. */
  const ServerNotStarted: string := "Unable to start perl server. Aborting."

  /** Giving up on the lock wait: the alert, then `quitDiogenes`. */
  function AbortEffects(lockExists: bool): (e: seq<Effect>)
    ensures |e| >= 3 && e[0] == Alert(ServerNotStarted) && e[1] == CloseMainWindows
    ensures Quit in e <==> lockExists
  {
    [Alert(ServerNotStarted)] + QuitDiogenesEffects(lockExists)
  }

  /**
   * What a lock wait logs, by how it ends: only its last tick does anything,
   * `go` when the lock was readable, and then the abort when the tick was past the 300th.
   */
  function StartWaitEffects(r: StartOutcome, go: seq<Effect>, abort: seq<Effect>): seq<Effect> {
    match r
    case Loaded(_, gaveUp) => go + (if gaveUp then abort else [])
    case GaveUp(_) => abort
    case Waiting => []
  }

  /** The lock wait loads at most one page: exactly when it ends at a readable lock whose port is truthy. */
  lemma {:induction false} StartWaitLoadsOnce(w: Win, r: StartOutcome, dioPort: Option<string>, lockExists: bool, lockLines: seq<string>)
    ensures CountLoads(StartWaitEffects(r, GoEffects(w, dioPort, lockLines), AbortEffects(lockExists))) ==
      (if r.Loaded? && Truthy(GoPort(dioPort, lockLines)) then 1 else 0)
    ensures Quit in StartWaitEffects(r, GoEffects(w, dioPort, lockLines), AbortEffects(lockExists)) <==>
      lockExists && (r.GaveUp? || (r.Loaded? && r.gaveUp))
  {
    var abort := AbortEffects(lockExists);
    assert CountLoads(abort) == 0 by {
      NoLoads(abort);
    }
    GoLoadsOnce(w, dioPort, lockLines);
    match r
    case Loaded(_, gaveUp) =>
      var go := GoEffects(w, dioPort, lockLines);
      if gaveUp {
        CountLoadsAppend(go, abort);
        assert Quit !in go;
      } else {
        assert go + [] == go;
        assert Quit !in go;
      }
    case GaveUp(_) =>
    case Waiting =>
  }

  /** `isFirstOrLastWindow`: the enumeration of main windows counted, compared with one. */
  method IsFirstOrLastWindow(mainWindows: seq<Win>) returns (only: bool)
    ensures only <==> |mainWindows| == 1
  {
    var count := 0;
    var k := 0;
    while k < |mainWindows|
      invariant 0 <= k <= |mainWindows| && count == k
    {
      count := count + 1;
      k := k + 1;
    }
    only := count == 1;
  }

  /** The globals of one main window's copy of the script. */
  class ChromeWindow {
    const self: Win
    /** `dio_port`: undefined, or what the lock file gave. */
    var dioPort: Option<string>
    var startTries: Option<int>
    var stopTries: Option<int>
    /** Whether the interval of `waitForLockHelper` is running. */
    var startTimer: bool
    /** Whether the interval of `waitForNoLockHelper` is running. */
    var stopTimer: bool
    var log: seq<Effect>

    ghost predicate Valid()
      reads this
    {
      && (startTimer ==> startTries.Some?)
      && (stopTimer ==> stopTries.Some?)
      && !(startTimer && stopTimer)
    }

    constructor (w: Win)
      ensures Valid()
      ensures self == w && dioPort.None? && startTries.None? && stopTries.None?
      ensures !startTimer && !stopTimer && log == []
    {
      self := w;
      dioPort := None;
      startTries := None;
      stopTries := None;
      startTimer := false;
      stopTimer := false;
      log := [];
    }

    /** `get_port`: a truthy cached port is kept; otherwise the lock file is read again. */
    method GetPort(lockLines: seq<string>) returns (port: Option<string>)
      requires Valid()
      modifies this
      ensures Valid()
      ensures Truthy(old(dioPort)) ==> port == old(dioPort) && log == old(log)
      ensures !Truthy(old(dioPort)) ==>
        port == ParseLockLines(lockLines).port
        && log == old(log) + seq(ParseLockLines(lockLines).warnings, i => Alert(BadLockLine))
      ensures dioPort == port
      ensures startTries == old(startTries) && stopTries == old(stopTries)
      ensures startTimer == old(startTimer) && stopTimer == old(stopTimer)
    {
      if !Truthy(dioPort) {
        var read := ReadLockFile(lockLines);
        dioPort := read.port;
        log := log + seq(read.warnings, i => Alert(BadLockLine));
      }
      port := dioPort;
    }

    /** `go`: the server's page once the port is known; an unknown port is only reported on the console. */
    method Go(lockLines: seq<string>)
      requires Valid()
      modifies this
      ensures Valid()
      ensures log == old(log) + GoEffects(self, old(dioPort), lockLines)
      ensures dioPort == GoPort(old(dioPort), lockLines)
      ensures startTries == old(startTries) && stopTries == old(stopTries)
      ensures startTimer == old(startTimer) && stopTimer == old(stopTimer)
    {
      var port := GetPort(lockLines);
      if Truthy(port) {
        log := log + [Load(self, Url(GoUrl(port.value)))];
      }
    }

    /** `waitForLock`: the start counter is reset and its interval started. */
    method WaitForLock()
      requires Valid() && !stopTimer
      modifies this
      ensures Valid()
      ensures startTries == Some(0) && startTimer && !stopTimer
      ensures dioPort == old(dioPort) && stopTries == old(stopTries) && log == old(log)
    {
      startTries := Some(0);
      startTimer := true;
    }

    /**
     * `waitToLoad`, in the first window: with a stale lock the killer runs
     * and the wait for the lock to vanish starts; otherwise the server starts
     * and the wait for its lock begins. Either script is run through
     * `runPerlScript`: when `PATH` holds no Perl (`perlFound` false) the user
     * is warned and `perlProcess.init` throws, so no wait starts.
     */
    method WaitToLoad(lockExists: bool, perlFound: bool)
      requires Valid() && !startTimer && !stopTimer
      modifies this
      ensures Valid()
      ensures !perlFound ==> log == old(log) + [Alert(PerlNotFound), Threw] && !startTimer && !stopTimer
                             && startTries == old(startTries) && stopTries == old(stopTries)
      ensures perlFound && lockExists ==> log == old(log) + [KillServer] && stopTimer && stopTries == Some(0)
                                          && !startTimer && startTries == old(startTries)
      ensures perlFound && !lockExists ==> log == old(log) + [SpawnServer] && startTimer && startTries == Some(0)
                                           && !stopTimer && stopTries == old(stopTries)
      ensures dioPort == old(dioPort)
    {
      if !perlFound {
        log := log + [Alert(PerlNotFound), Threw];
      } else if lockExists {
        log := log + KillServerEffects(true);
        stopTries := Some(0);
        stopTimer := true;
      } else {
        log := log + [SpawnServer];
        WaitForLock();
      }
    }

    /** `startServerAndWait`: the vanish wait stops, a server starts and the wait for its lock begins. */
    method StartServerAndWait()
      requires Valid()
      modifies this
      ensures Valid()
      ensures !stopTimer && startTimer && startTries == Some(0)
      ensures log == old(log) + [SpawnServer]
      ensures dioPort == old(dioPort) && stopTries == old(stopTries)
    {
      stopTimer := false;
      log := log + [SpawnServer];
      WaitForLock();
    }

    /**
     * One tick of `waitForNoLockHelper`: the server starts once the lock has
     * vanished, or when the wait has expired, which as written tests the
     * start counter.
     */
    method StopTick(lockExists: bool)
      requires Valid() && stopTimer
      modifies this
      ensures Valid()
      ensures var tries := old(stopTries).value + 1;
        && stopTries == Some(tries)
        && (if !lockExists || StopWaitExpired(old(startTries), tries)
            then log == old(log) + [SpawnServer] && startTimer && !stopTimer && startTries == Some(0)
            else log == old(log) && stopTimer && !startTimer && startTries == old(startTries))
      ensures dioPort == old(dioPort)
    {
      stopTries := Some(stopTries.value + 1);
      if !lockExists {
        StartServerAndWait();
      }
      if StopWaitExpired(startTries, stopTries.value) {
        StartServerAndWait();
      }
    }

    /**
     * One tick of `waitForLockHelper`: a readable lock stops the interval and
     * runs `go`; past 300 ticks the user is told and the application asked
     * to quit (after the load, when both happen on one tick).
     */
    method StartTick(readable: bool, lockExists: bool, lockLines: seq<string>)
      requires Valid() && startTimer
      modifies this
      ensures Valid()
      ensures var tries := old(startTries).value + 1;
        && startTries == Some(tries)
        && (startTimer <==> !readable && tries <= 300)
        && log == old(log) + TickEffects(readable, tries, GoEffects(self, old(dioPort), lockLines), AbortEffects(lockExists))
      ensures dioPort == (if readable then GoPort(old(dioPort), lockLines) else old(dioPort))
      ensures startTimer ==> log == old(log) && dioPort == old(dioPort)
      ensures stopTries == old(stopTries) && stopTimer == old(stopTimer)
    {
      startTries := Some(startTries.value + 1);
      if readable {
        startTimer := false;
        Go(lockLines);
      }
      if startTries.value > 300 {
        startTimer := false;
        log := log + AbortEffects(lockExists);
      }
    }

    /**
     * Tick number `ticks + 1` of a lock wait that began with the count at `t0`:
     * when it ends the wait, it has logged what the whole wait's outcome says;
     * otherwise it has logged nothing and the rest of the wait decides.
     */
    method WaitTick(readable: seq<bool>, ticks: nat, lockExists: bool, lockLines: seq<string>, ghost t0: nat)
        returns (ended: bool)
      requires ticks < |readable|
      requires Valid() && startTimer && startTries == Some(t0 + ticks)
      requires StartWaitRun(readable, t0) == ShiftOutcome(StartWaitRun(readable[ticks..], t0 + ticks), ticks)
      modifies this
      ensures Valid() && startTries == Some(t0 + ticks + 1)
      ensures stopTries == old(stopTries) && stopTimer == old(stopTimer)
      ensures ended <==> !startTimer
      ensures var outcome := StartWaitRun(readable, t0);
        && (ended ==> (outcome.Loaded? || outcome.GaveUp?) && outcome.tick == ticks + 1)
        && (ended ==> log == old(log) + StartWaitEffects(outcome, GoEffects(self, old(dioPort), lockLines), AbortEffects(lockExists)))
        && (ended ==> dioPort == (if outcome.Loaded? then GoPort(old(dioPort), lockLines) else old(dioPort)))
      ensures !ended ==> StartWaitRun(readable, t0) == ShiftOutcome(StartWaitRun(readable[ticks + 1..], t0 + ticks + 1), ticks + 1)
      ensures !ended ==> log == old(log) && dioPort == old(dioPort)
    {
      var read := readable[ticks];
      StartTick(read, lockExists, lockLines);
      ended := !startTimer;
      if ended {
        EndingTick(readable, t0, ticks, GoEffects(self, old(dioPort), lockLines), AbortEffects(lockExists));
      } else {
        StartWaitAdvance(readable, t0, ticks);
      }
    }

    /**
     * The interval of `waitForLockHelper`, handed whether the lock is
     * readable at each coming tick: it ticks until it is cleared or the input
     * ends, and it stops exactly as `StartWaitRun` says.
     */
    method RunStartWait(readable: seq<bool>, lockExists: bool, lockLines: seq<string>) returns (ticks: nat)
      requires Valid() && startTimer && startTries.value >= 0
      modifies this
      ensures Valid()
      ensures var outcome := StartWaitRun(readable, old(startTries).value as nat);
        && (outcome.Waiting? <==> startTimer)
        && (outcome.Loaded? || outcome.GaveUp? ==> ticks == outcome.tick)
        && (outcome.Waiting? ==> ticks == |readable|)
        && log == old(log) + StartWaitEffects(outcome, GoEffects(self, old(dioPort), lockLines), AbortEffects(lockExists))
        && dioPort == (if outcome.Loaded? then GoPort(old(dioPort), lockLines) else old(dioPort))
      ensures startTries == Some(old(startTries).value + ticks)
      ensures stopTries == old(stopTries) && stopTimer == old(stopTimer)
    {
      ghost var t0: nat := startTries.value as nat;
      ticks := 0;
      while ticks < |readable|
        invariant 0 <= ticks <= |readable|
        invariant Valid() && startTimer && stopTries == old(stopTries) && stopTimer == old(stopTimer)
        invariant startTries == Some(t0 + ticks)
        invariant StartWaitRun(readable, t0) == ShiftOutcome(StartWaitRun(readable[ticks..], t0 + ticks), ticks)
        invariant log == old(log) && dioPort == old(dioPort)
      {
        var ended := WaitTick(readable, ticks, lockExists, lockLines, t0);
        ticks := ticks + 1;
        if ended {
          return;
        }
      }
      assert readable[ticks..] == [];
    }

    /**
     * The interval of `waitForNoLockHelper`, handed whether the lock is still
     * there at each coming tick: it ticks until the server is started or the
     * input ends, and it stops exactly as `StopWaitRun` (as written) says.
     */
    method RunStopWait(present: seq<bool>) returns (ticks: nat)
      requires Valid() && stopTimer && stopTries.value >= 0
      modifies this
      ensures Valid()
      ensures var outcome := StopWaitRun(present, old(stopTries).value as nat, old(startTries), false);
        && (outcome.None? <==> stopTimer)
        && (outcome.Some? ==> ticks == outcome.value && startTimer && startTries == Some(0))
        && (outcome.None? ==> ticks == |present| && startTries == old(startTries))
      ensures dioPort == old(dioPort)
    {
      ghost var t0: nat := stopTries.value as nat;
      ghost var start0 := startTries;
      ticks := 0;
      while ticks < |present| && stopTimer
        invariant 0 <= ticks <= |present|
        invariant Valid() && dioPort == old(dioPort)
        invariant stopTimer ==> stopTries == Some(t0 + ticks) && startTries == start0
        invariant stopTimer ==> StopWaitRun(present, t0, start0, false) == ShiftTicks(StopWaitRun(present[ticks..], t0 + ticks, start0, false), ticks)
        invariant !stopTimer ==> StopWaitRun(present, t0, start0, false) == Some(ticks) && startTimer && startTries == Some(0)
      {
        StopWaitStep(present[ticks..], t0 + ticks, start0);
        assert present[ticks..][1..] == present[ticks + 1..];
        StopTick(present[ticks]);
        ticks := ticks + 1;
      }
      if stopTimer {
        assert present[ticks..] == [];
      }
    }

    /**
     * `onLoad`: the only main window runs the startup (`waitToLoad`); a
     * further one runs `go` at once.
     */
    method OnLoad(mainWindows: seq<Win>, lockExists: bool, perlFound: bool, lockLines: seq<string>)
      requires Valid() && !startTimer && !stopTimer
      modifies this
      ensures Valid()
      ensures |mainWindows| == 1 && !perlFound ==>
        log == old(log) + [Alert(PerlNotFound), Threw] && !startTimer && !stopTimer && dioPort == old(dioPort)
      ensures |mainWindows| == 1 && perlFound && lockExists ==>
        log == old(log) + [KillServer] && stopTimer && stopTries == Some(0) && !startTimer && dioPort == old(dioPort)
      ensures |mainWindows| == 1 && perlFound && !lockExists ==>
        log == old(log) + [SpawnServer] && startTimer && startTries == Some(0) && !stopTimer && dioPort == old(dioPort)
      ensures |mainWindows| != 1 ==>
        && log == old(log) + GoEffects(self, old(dioPort), lockLines)
        && dioPort == GoPort(old(dioPort), lockLines)
        && !startTimer && !stopTimer
    {
      var only := IsFirstOrLastWindow(mainWindows);
      if only {
        WaitToLoad(lockExists, perlFound);
      } else {
        Go(lockLines);
      }
    }

    /** `onClose`: the last main window kills the server. */
    method OnClose(mainWindows: seq<Win>, lockExists: bool)
      requires Valid()
      modifies this
      ensures Valid()
      ensures log == old(log) + (if |mainWindows| == 1 then KillServerEffects(lockExists) else [])
      ensures dioPort == old(dioPort) && startTries == old(startTries) && stopTries == old(stopTries)
      ensures startTimer == old(startTimer) && stopTimer == old(stopTimer)
    {
      var only := IsFirstOrLastWindow(mainWindows);
      if only {
        log := log + KillServerEffects(lockExists);
      }
    }
  }

  /** The request counters of the progress listener, and the stop button they drive. */
  class ProgressListener {
    var requestsStarted: nat
    var requestsFinished: nat
    /** Whether the stop button and menu item are disabled. */
    var stopDisabled: bool

    constructor (stopInitiallyDisabled: bool)
      ensures requestsStarted == 0 && requestsFinished == 0 && stopDisabled == stopInitiallyDisabled
    {
      requestsStarted := 0;
      requestsFinished := 0;
      stopDisabled := stopInitiallyDisabled;
    }

    /**
     * `onStateChange`: a request's start or stop is counted; a network start
     * enables the stop button, a network stop disables it and zeroes both counters.
     */
    method OnStateChange(isRequest: bool, isNetwork: bool, start: bool, stop: bool)
      modifies this
      ensures isNetwork && !start && stop ==> requestsStarted == 0 && requestsFinished == 0 && stopDisabled
      ensures isNetwork && start ==> !stopDisabled
      ensures !isNetwork || (!start && !stop) ==>
        && requestsStarted == old(requestsStarted) + (if isRequest && start then 1 else 0)
        && requestsFinished == old(requestsFinished) + (if isRequest && !start && stop then 1 else 0)
      ensures isNetwork && start ==>
        && requestsStarted == old(requestsStarted) + (if isRequest then 1 else 0)
        && requestsFinished == old(requestsFinished)
      ensures !isNetwork || (!start && !stop) ==> stopDisabled == old(stopDisabled)
    {
      if isRequest {
        if start {
          requestsStarted := requestsStarted + 1;
        } else if stop {
          requestsFinished := requestsFinished + 1;
        }
      }
      if isNetwork {
        if start {
          stopDisabled := false;
        } else if stop {
          stopDisabled := true;
          requestsStarted := 0;
          requestsFinished := 0;
        }
      }
    }
  }
}
