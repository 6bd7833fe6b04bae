/**
 * The two line-format lock-file readers side by side: the XULRunner chrome
 * reads the file line by line and lets later lines win, the NW.js launcher
 * takes the first line matching each pattern. On the file the server writes
 * they agree; on a file with a repeated key they do not.
 */
module LockFormats {
  import opened Wrappers
  import opened Text
  import NwStartup
  import XulChrome

  /** The lock file cut at line feeds, the lines a line reader hands out. */
  function Lines(s: string): (lines: seq<string>)
    ensures |lines| >= 1
  {
    Split(s, c => c == '\n')
  }

  /** A key followed by a value without line terminators holds no line feed. */
  lemma {:induction false} PlainLine(key: string, value: string)
    requires NoTerminator(key) && NoTerminator(value)
    ensures forall i :: 0 <= i < |key + value| ==> (key + value)[i] != '\n'
  {
    forall i | 0 <= i < |key + value|
      ensures (key + value)[i] != '\n'
    {
      if i < |key| {
        assert (key + value)[i] == key[i];
        assert !IsLineTerminator(key[i]);
      } else {
        assert (key + value)[i] == value[i - |key|];
        assert !IsLineTerminator(value[i - |key|]);
      }
    }
  }

  lemma {:induction false} KeysPlain()
    ensures NoTerminator("port ") && NoTerminator("pid ")
  {
  }

  /** The file the server writes cuts into its two lines and an empty last one. */
  lemma {:induction false} ServerLockLines(port: string, pid: string)
    requires NoTerminator(port) && NoTerminator(pid)
    ensures Lines(NwStartup.LockText(port, pid)) == ["port " + port, "pid " + pid, ""]
  {
    KeysPlain();
    PlainLine("port ", port);
    PlainLine("pid ", pid);
    var a := "port " + port;
    var b := "pid " + pid;
    assert NwStartup.LockText(port, pid) == a + ['\n'] + (b + ['\n'] + "");
    SplitAppendSep(a, b + ['\n'] + "", '\n');
    SplitAppendSep(b, "", '\n');
    SplitNoSep("", c => c == '\n');
  }

  /** On the file the server writes, both readers find the same port and pid. */
  lemma {:induction false} ReadersAgree(port: string, pid: string)
    requires NoTerminator(port) && NoTerminator(pid)
    ensures NwStartup.ReadLockText(NwStartup.LockText(port, pid)) == Ok((port, pid))
    ensures XulChrome.ParseLockLines(Lines(NwStartup.LockText(port, pid))) == XulChrome.LockRead(Some(port), Some(pid), 0)
  {
    NwStartup.ReadsServerLock(port, pid);
    ServerLockLines(port, pid);
    XulChrome.ServerLockRead(port, pid);
  }

  /** With two port lines, the launcher keeps the first and the chrome the second. */
  lemma {:induction false} RepeatedPortDisagrees(first: string, second: string, pid: string)
    requires NoTerminator(first) && NoTerminator(second) && NoTerminator(pid)
    ensures var text := "port " + first + "\n" + NwStartup.LockText(second, pid);
      && NwStartup.LineCapture(text, "port ") == Some(first)
      && XulChrome.ParseLockLines(Lines(text)).port == Some(second)
  {
    var text := "port " + first + "\n" + NwStartup.LockText(second, pid);
    NwStartup.CaptureOfFirstLine("port ", first, NwStartup.LockText(second, pid));
    KeysPlain();
    PlainLine("port ", first);
    var a := "port " + first;
    assert text == a + ['\n'] + NwStartup.LockText(second, pid);
    SplitAppendSep(a, NwStartup.LockText(second, pid), '\n');
    ServerLockLines(second, pid);
    var lines := Lines(text);
    assert lines == [a, "port " + second, "pid " + pid, ""];
    assert StartsWith(lines[1], "port");
    assert !StartsWith(lines[2], "port") by { assert lines[2][1] == 'i'; }
    XulChrome.LastPortWins(lines, 1);
    assert SubstringFrom(lines[1], 5) == second;
  }
}
