/**
 * What the Electron main processes share: windows by identity, the parsed
 * lock file the Perl server writes once it listens, the page the first
 * window is sent to, and the effects the process has on the world outside it.
 */
module Shell {
  import opened Wrappers
  import opened Text
  import Prefs

  /** A browser window, by identity. */
  type Win = nat

  /** The lock file's JSON object once parsed: each field absent or its text. */
  datatype LockSettings = LockSettings(port: Option<string>, pid: Option<string>)

  /** What a window is told to show: a file of the application, or a URL. */
  datatype Page = AppFile(path: string) | Url(url: string)

  /** Effects on the world outside the main process, in the order they happen. */
  datatype Effect =
    | RemoveLock              // the lock file is unlinked
    | WatchLockDir(win: Win)  // a directory watcher is installed that loads into `win`
    | SpawnServer             // the Perl server is started
    | Quit                    // `app.quit()`
    | Load(win: Win, page: Page)  // the first page is loaded into `win`
    | Navigate(win: Win, url: string)  // a link is opened in `win`
    | KillServer              // `server.kill()` is attempted; a failure is only logged
    | Threw                   // an exception escapes the handler
    | Restore(win: Win)
    | Focus(win: Win)
    | Alert(message: string)  // a message box
    | KillPid(pid: string)    // `process.kill(pid)` is attempted; a failure is only logged
    | Hide(win: Win)
    | CloseMainWindows        // `win.close()` on every `diogenes:main` window

  /** `'' + port`: an absent port reads as `undefined`. */
  function PortText(port: Option<string>): (t: string)
    ensures port.Some? ==> t == port.value
  {
    match port
    case Some(p) => p
    case None => "undefined"
  }

  /** The address of the local server. */
  function ServerUrl(port: Option<string>): (u: string)
    ensures StartsWith(u, "http://localhost:")
  {
    "http://" + ("localhost" + (":" + PortText(port)))
  }

  /**
   * The first page: the database set-up page when the preferences file is
   * missing or unreadable or names no database, else the local server.
   */
  function FirstPage(prefs: Option<string>, port: Option<string>, setupPage: string): (p: Page)
    ensures p == AppFile(setupPage) <==> prefs.None? || !Prefs.DbConfigured(prefs.value)
    ensures p.Url? <==> prefs.Some? && Prefs.DbConfigured(prefs.value)
  {
    if prefs.None? || !Prefs.DbConfigured(prefs.value) then AppFile(setupPage)
    else Url(ServerUrl(port))
  }

  /** Once a database folder has been saved, the next start goes straight to the server. */
  lemma {:induction false} FirstPageAfterSetup(stored: Option<string>, header: string, db: string, folder: string,
                            port: Option<string>, setupPage: string)
    requires IsWord(db)
    ensures var written := Prefs.WriteSettings(stored, header, db, Some(folder));
      written.Some? && FirstPage(written, port, setupPage) == Url(ServerUrl(port))
  {
    Prefs.RewriteAsWrittenConfigures(stored.GetOr(header), db, folder);
  }

  /** How many times a first page was loaded. */
  function CountLoads(log: seq<Effect>): (n: nat)
  {
    if |log| == 0 then 0
    else CountLoads(log[..|log| - 1]) + (if log[|log| - 1].Load? then 1 else 0)
  }

  /** A log with no load in it counts none. */
  lemma {:induction false} NoLoads(log: seq<Effect>)
    requires forall i :: 0 <= i < |log| ==> !log[i].Load?
    ensures CountLoads(log) == 0
    decreases |log|
  {
    if |log| > 0 {
      NoLoads(log[..|log| - 1]);
    }
  }

  lemma {:induction false} CountLoadsAppend(a: seq<Effect>, b: seq<Effect>)
    ensures CountLoads(a + b) == CountLoads(a) + CountLoads(b)
    decreases |b|
  {
    if |b| == 0 {
      assert a + b == a;
    } else {
      CountLoadsAppend(a, b[..|b| - 1]);
      assert (a + b)[..|a + b| - 1] == a + b[..|b| - 1];
    }
  }

  // ------------------------------------------------------------ `new URL(u).hostname`

  /** The longest prefix of `s` that holds none of `stops`. */
  function PrefixBefore(s: string, stops: set<char>): (r: string)
    ensures |r| <= |s| && r == s[..|r|]
    ensures forall i :: 0 <= i < |r| ==> s[i] !in stops
    ensures |r| == |s| || s[|r|] in stops
    decreases |s|
  {
    if |s| == 0 || s[0] in stops then "" else [s[0]] + PrefixBefore(s[1..], stops)
  }

  /** `s` without the slashes and backslashes it begins with. */
  function DropSlashes(s: string): (r: string)
    ensures |r| <= |s| && r == s[|s| - |r|..]
    ensures forall i :: 0 <= i < |s| - |r| ==> s[i] in {'/', '\\'}
    ensures |r| == 0 || r[0] !in {'/', '\\'}
    decreases |s|
  {
    if |s| > 0 && s[0] in {'/', '\\'} then DropSlashes(s[1..]) else s
  }

  /** The schemes the URL standard calls special (`file` aside): their URLs always have a host. */
  const SpecialSchemes: set<string> := {"http", "https", "ws", "wss", "ftp"}

  /** What ends the authority of a special URL. */
  const SpecialEnds: set<char> := {'/', '\\', '?', '#'}

  /** What ends the authority of any other URL. */
  const OtherEnds: set<char> := {'/', '?', '#'}

  /** The character that ends the user information. */
  predicate IsAt(c: char) {
    c == '@'
  }

  /**
   * The host written in an authority: the user information, which ends at
   * the last `@`, is dropped, and the port, from the first `:`, too.
   */
  function HostOf(authority: string): (h: string)
    ensures |h| <= |authority|
    ensures forall i :: 0 <= i < |h| ==> h[i] != '@' && h[i] != ':'
    ensures '@' !in authority ==> h == PrefixBefore(authority, {':'})
  {
    var afterUser := LastPart(authority, IsAt);
    LastPartIsSuffix(authority, IsAt);
    if '@' !in authority then
      SplitNoSep(authority, IsAt);
      PrefixBefore(afterUser, {':'})
    else PrefixBefore(afterUser, {':'})
  }

  /** Whether a scheme, compared lower-cased, is special. */
  predicate IsSpecial(scheme: string) {
    Lower(scheme) in SpecialSchemes
  }

  /** The hostname of a special URL from the text after `<scheme>:`: slashes and backslashes are skipped, and the host is lower-cased. */
  function SpecialHost(rest: string): string {
    Lower(HostOf(PrefixBefore(DropSlashes(rest), SpecialEnds)))
  }

  /** The hostname of another URL from the text after `<scheme>:`: there is an authority only after `//`. */
  function OtherHost(rest: string): string {
    if StartsWith(rest, "//") then HostOf(PrefixBefore(rest[2..], OtherEnds)) else ""
  }

  /**
   * `new URL(url).hostname`, as the URL standard parses an absolute URL: the
   * scheme runs to the first `:` and is compared lower-cased. A `file:` URL
   * never has the hostname `localhost` (the parser empties that host), and is
   * given none here.
   */
  function Hostname(url: string): (h: string)
    ensures forall i :: 0 <= i < |h| ==> h[i] != '@' && h[i] != ':'
  {
    var scheme := PrefixBefore(url, {':'});
    if |scheme| == |url| then ""
    else if IsSpecial(scheme) then SpecialHost(url[|scheme| + 1..])
    else if Lower(scheme) == "file" then ""
    else OtherHost(url[|scheme| + 1..])
  }

  /** `will-navigate` is cancelled unless the target's hostname is exactly `localhost`. */
  predicate NavigationBlocked(url: string) {
    Hostname(url) != "localhost"
  }

  /** A prefix that stops at the first stop character. */
  lemma {:induction false} PrefixBeforeStops(a: string, b: string, stops: set<char>)
    requires forall i :: 0 <= i < |a| ==> a[i] !in stops
    requires |b| == 0 || b[0] in stops
    ensures PrefixBefore(a + b, stops) == a
    decreases |a|
  {
    if |a| == 0 {
      assert a + b == b;
    } else {
      assert (a + b)[1..] == a[1..] + b;
      PrefixBeforeStops(a[1..], b, stops);
      assert [a[0]] + a[1..] == a;
    }
  }

  /** Text that holds none of `cs`. */
  predicate Avoids(s: string, cs: set<char>) {
    forall i :: 0 <= i < |s| ==> s[i] !in cs
  }

  /** A special URL's hostname comes from the text after its scheme. */
  lemma {:induction false} SpecialHostname(scheme: string, rest: string)
    requires Avoids(scheme, {':'}) && IsSpecial(scheme)
    ensures Hostname(scheme + ":" + rest) == SpecialHost(rest)
  {
    var url := scheme + ":" + rest;
    assert url == scheme + (":" + rest);
    PrefixBeforeStops(scheme, ":" + rest, {':'});
    assert url[|scheme| + 1..] == rest;
  }

  /** `//` and nothing more is skipped before an authority. */
  lemma {:induction false} DropTwoSlashes(s: string)
    requires |s| == 0 || s[0] !in {'/', '\\'}
    ensures DropSlashes("//" + s) == s
  {
    assert ("//" + s)[1..] == "/" + s;
    assert ("/" + s)[1..] == s;
  }

  /** The host after the last `@`. */
  lemma {:induction false} HostAfterUser(user: string, host: string)
    requires Avoids(host, {'@'})
    ensures LastPart(user + "@" + host, IsAt) == host
  {
    var s := user + "@" + host;
    var t := LastPart(s, IsAt);
    LastPartIsSuffix(s, IsAt);
    assert s[|user|] == '@';
    assert s[|s| - |host|..] == host;
  }

  /** Text before the first stop character is kept whatever follows. */
  lemma {:induction false} PrefixBeforeKeeps(a: string, b: string, stops: set<char>)
    requires Avoids(a, stops)
    ensures PrefixBefore(a + b, stops) == a + PrefixBefore(b, stops)
    decreases |a|
  {
    if |a| > 0 {
      assert (a + b)[1..] == a[1..] + b;
      PrefixBeforeKeeps(a[1..], b, stops);
      assert a == [a[0]] + a[1..];
    } else {
      assert a + b == b;
    }
  }

  /** The hostname of `<scheme>://<authority><tail>`, for a special scheme and a tail that begins the path, query or fragment. */
  lemma {:induction false} HostnameOfAuthority(scheme: string, authority: string, tail: string)
    requires Avoids(scheme, {':'}) && IsSpecial(scheme)
    requires |authority| > 0 && Avoids(authority, SpecialEnds) && (|tail| == 0 || tail[0] in SpecialEnds)
    ensures Hostname(scheme + "://" + authority + tail) == Lower(HostOf(authority))
  {
    var rest := "//" + (authority + tail);
    assert scheme + "://" + authority + tail == scheme + ":" + rest;
    SpecialHostname(scheme, rest);
    DropTwoSlashes(authority + tail);
    PrefixBeforeStops(authority, tail, SpecialEnds);
  }

  /** The host written before a port. */
  lemma {:induction false} HostBeforePort(host: string, port: string)
    requires Avoids(host, {'@', ':'}) && Avoids(port, {'@'})
    ensures HostOf(host + ":" + port) == host
  {
    assert host + ":" + port == host + (":" + port);
    PrefixBeforeStops(host, ":" + port, {':'});
  }

  lemma {:induction false} LowerLocalhost()
    ensures Lower("localhost") == "localhost"
    ensures Avoids("localhost", SpecialEnds + {'@', ':'})
  {
  }

  lemma {:induction false} WebSchemes()
    ensures IsSpecial("http") && IsSpecial("https") && IsSpecial("HTTP")
    ensures Avoids("http", {':'}) && Avoids("https", {':'}) && Avoids("HTTP", {':'})
  {
    assert Lower("http") == "http";
    assert Lower("https") == "https";
    assert Lower("HTTP") == "http";
  }

  /** The hostname of `<scheme>://localhost:<port><path>`. */
  lemma {:induction false} LocalhostHostname(scheme: string, port: string, path: string)
    requires scheme == "http" || scheme == "https"
    requires Avoids(port, SpecialEnds + {'@'})
    requires |path| == 0 || path[0] in SpecialEnds
    ensures Hostname(scheme + "://" + ("localhost:" + port) + path) == "localhost"
  {
    WebSchemes();
    LowerLocalhost();
    var local := "localhost:" + port;
    HostBeforePort("localhost", port);
    assert local == "localhost" + ":" + port;
    HostnameOfAuthority(scheme, local, path);
  }

  /** The hostname of `<scheme>://<user>@localhost:<port><path>`. */
  lemma {:induction false} UserLocalhostHostname(scheme: string, user: string, port: string, path: string)
    requires scheme == "http" || scheme == "https"
    requires Avoids(user, SpecialEnds) && Avoids(port, SpecialEnds + {'@'})
    requires |path| == 0 || path[0] in SpecialEnds
    ensures Hostname(scheme + "://" + (user + "@" + ("localhost:" + port)) + path) == "localhost"
  {
    WebSchemes();
    LowerLocalhost();
    var local := "localhost:" + port;
    HostBeforePort("localhost", port);
    assert local == "localhost" + ":" + port;
    HostAfterUser(user, local);
    HostnameOfAuthority(scheme, user + "@" + local, path);
  }

  lemma LocalUrlShape(scheme: string, user: string, port: string, path: string)
    ensures scheme + "://localhost:" + port + path == scheme + "://" + ("localhost:" + port) + path
    ensures scheme + "://" + user + "@localhost:" + port + path == scheme + "://" + (user + "@" + ("localhost:" + port)) + path
  {
    assert "://localhost:" == "://" + "localhost:";
    assert "@localhost:" == "@" + "localhost:";
  }

  /**
   * Navigation to `localhost` over `http` or `https` is allowed whatever the
   * port and path; user information before the host does not change that.
   */
  lemma {:induction false} LocalhostAllowed(scheme: string, user: string, port: string, path: string)
    requires scheme == "http" || scheme == "https"
    requires Avoids(user, SpecialEnds) && Avoids(port, SpecialEnds + {'@'})
    requires |path| == 0 || path[0] in SpecialEnds
    ensures !NavigationBlocked(scheme + "://localhost:" + port + path)
    ensures !NavigationBlocked(scheme + "://" + user + "@localhost:" + port + path)
  {
    LocalhostHostname(scheme, port, path);
    UserLocalhostHostname(scheme, user, port, path);
    LocalUrlShape(scheme, user, port, path);
  }

  lemma ServerUrlShape(port: Option<string>)
    ensures ServerUrl(port) == "http" + "://localhost:" + PortText(port) + ""
  {
  }

  /** Navigation to the local server is never cancelled, whatever port the lock file gave. */
  lemma {:induction false} ServerNavigationAllowed(port: Option<string>)
    requires Avoids(PortText(port), SpecialEnds + {'@'})
    ensures !NavigationBlocked(ServerUrl(port))
  {
    LocalhostAllowed("http", "", PortText(port), "");
    ServerUrlShape(port);
  }

  lemma LoopbackShape(port: string)
    ensures "http://127.0.0.1:" + port == "http" + "://" + ("127.0.0.1" + ":" + port) + ""
    ensures Avoids("127.0.0.1", SpecialEnds + {'@', ':'})
    ensures Lower("127.0.0.1") != "localhost"
  {
    assert "http://127.0.0.1:" == "http" + "://" + "127.0.0.1" + ":";
    assert Lower("127.0.0.1")[0] == '1';
  }

  /** Any other host is cancelled, even the loopback address written out. */
  lemma {:induction false} LoopbackAddressBlocked(port: string)
    requires Avoids(port, SpecialEnds + {'@'})
    ensures NavigationBlocked("http://127.0.0.1:" + port)
  {
    WebSchemes();
    LoopbackShape(port);
    HostBeforePort("127.0.0.1", port);
    HostnameOfAuthority("http", "127.0.0.1" + ":" + port, "");
  }

  lemma SpoofShape()
    ensures "http://localhost@example.com/" == "http" + "://" + ("localhost" + "@" + "example.com") + "/"
  {
  }

  lemma SpoofHost()
    ensures Avoids("localhost" + "@" + "example.com", SpecialEnds)
    ensures Avoids("example.com", {'@', ':'})
  {
  }

  lemma ExampleNotLocal()
    ensures Lower("example.com") != "localhost"
  {
    assert Lower("example.com")[0] == 'e';
  }

  /** User information that names `localhost` does not make another host local. */
  lemma {:induction false} UserinfoCannotSpoof()
    ensures NavigationBlocked("http://localhost@example.com/")
  {
    WebSchemes();
    SpoofShape();
    SpoofHost();
    ExampleNotLocal();
    HostAfterUser("localhost", "example.com");
    PrefixBeforeStops("example.com", "", {':'});
    HostnameOfAuthority("http", "localhost" + "@" + "example.com", "/");
  }

  lemma UpperCaseShape()
    ensures "HTTP://LOCALHOST/" == "HTTP" + "://" + "LOCALHOST" + "/"
    ensures Avoids("LOCALHOST", SpecialEnds + {'@', ':'})
    ensures Lower("LOCALHOST") == "localhost"
  {
    assert Lower("LOCALHOST") == "localhost";
  }

  /** The scheme and the host are compared without regard to case. */
  lemma {:induction false} UpperCaseAllowed()
    ensures !NavigationBlocked("HTTP://LOCALHOST/")
  {
    WebSchemes();
    UpperCaseShape();
    PrefixBeforeStops("LOCALHOST", "", {':'});
    HostnameOfAuthority("HTTP", "LOCALHOST", "/");
  }

  /** Whether a directory event is about a lock file that is there. */
  predicate LockEventApplies(lockName: string, filename: string, lockExists: bool) {
    filename == lockName && lockExists
  }

  /**
   * What a lock watcher's callback does while startup is not done: nothing
   * for another file or an absent lock; a throw when the lock does not parse;
   * otherwise a quit request when port or pid is missing, then the first page.
   */
  function WatcherEffects(lockName: string, setupPage: string, filename: string, lockExists: bool,
                          parsed: Option<LockSettings>, prefs: Option<string>, w: Win): (e: seq<Effect>)
    ensures e == [] <==> !LockEventApplies(lockName, filename, lockExists)
    ensures |e| <= 2
  {
    if !LockEventApplies(lockName, filename, lockExists) then []
    else match parsed {
      case None => [Threw]
      case Some(settings) =>
        var load := Load(w, FirstPage(prefs, settings.port, setupPage));
        if settings.port.None? || settings.pid.None? then [Quit, load] else [load]
    }
  }

  /**
   * A watcher's callback loads the first page exactly once when the event
   * applies and the lock parses, and as its last effect; a quit request comes
   * first exactly when port or pid is missing.
   */
  lemma {:induction false} WatcherEffectsFacts(lockName: string, setupPage: string, filename: string, lockExists: bool,
                                               parsed: Option<LockSettings>, prefs: Option<string>, w: Win)
    ensures var e := WatcherEffects(lockName, setupPage, filename, lockExists, parsed, prefs, w);
      && CountLoads(e) == (if LockEventApplies(lockName, filename, lockExists) && parsed.Some? then 1 else 0)
      && (!LockEventApplies(lockName, filename, lockExists) ==> e == [])
      && (LockEventApplies(lockName, filename, lockExists) && parsed.None? ==> e == [Threw])
      && (LockEventApplies(lockName, filename, lockExists) && parsed.Some? ==>
            && |e| > 0 && e[|e| - 1] == Load(w, FirstPage(prefs, parsed.value.port, setupPage))
            && (Quit in e <==> parsed.value.port.None? || parsed.value.pid.None?))
  {
    if LockEventApplies(lockName, filename, lockExists) && parsed.Some? {
      var load := Load(w, FirstPage(prefs, parsed.value.port, setupPage));
      assert CountLoads([Quit, load]) == CountLoads([Quit]) + 1;
    }
  }

  /**
   * `will-quit`: a kill when a server was spawned (its failure only logged),
   * then the unguarded unlink, which throws when the lock path was never set
   * or the file is absent.
   */
  function QuitEffects(server: bool, lockPath: bool, lockExists: bool): (e: seq<Effect>)
    ensures KillServer in e <==> server
    ensures RemoveLock in e <==> lockPath && lockExists
    ensures Threw in e <==> !(lockPath && lockExists)
    ensures |e| > 0 && (e[|e| - 1] == RemoveLock || e[|e| - 1] == Threw)
    ensures server ==> e[0] == KillServer
    ensures CountLoads(e) == 0
  {
    var last := if lockPath && lockExists then RemoveLock else Threw;
    if server then
      assert CountLoads([KillServer, last]) == CountLoads([KillServer]);
      [KillServer, last]
    else [last]
  }

  /** `second-instance` with a list: nothing when it is empty, else restore the first window if minimized, then focus it. */
  function FocusEffects(windows: seq<Win>, firstMinimized: bool): (e: seq<Effect>)
    ensures |windows| == 0 <==> e == []
    ensures |windows| > 0 ==> e[|e| - 1] == Focus(windows[0])
    ensures |windows| > 0 ==> (Restore(windows[0]) in e <==> firstMinimized)
    ensures forall x :: x in e ==> x == Restore(windows[0]) || x == Focus(windows[0])
    ensures CountLoads(e) == 0
  {
    if |windows| == 0 then []
    else if firstMinimized then
      NoLoads([Restore(windows[0]), Focus(windows[0])]);
      [Restore(windows[0]), Focus(windows[0])]
    else
      NoLoads([Focus(windows[0])]);
      [Focus(windows[0])]
  }
}
