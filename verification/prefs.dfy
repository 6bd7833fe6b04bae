/**
 * The database preferences file `diogenes.prefs`: a text file with one line
 * `<db>_dir "<folder>"` per configured database, shared by the Perl server
 * and every front end. Writers replace the first line that begins with the
 * key (a multiline `^key.*$` match) or append a new line; readers match
 * `^key\s+"?(.*?)"?$`; the main process only asks whether any `_dir ` occurs.
 */
module Prefs {
  import opened Wrappers
  import opened Text

  /** The key of a database: its name lower-cased, then `_dir`. */
  function DirKey(db: string): (key: string)
    ensures |key| == |db| + 4 && key[|db|..] == "_dir"
    ensures IsWord(db) ==> IsWord(key) && NoTerminator(key)
  {
    var key := Lower(db) + "_dir";
    assert key[|db|..] == "_dir";
    key
  }

  /** The line a writer puts in the file for `db`. */
  function DirLine(db: string, folder: string): (line: string)
    ensures StartsWith(line, DirKey(db))
    ensures |line| == |DirKey(db)| + |folder| + 3 && line[|DirKey(db)|] == ' '
    ensures IsWord(db) && NoTerminator(folder) ==> NoTerminator(line)
  {
    var line := DirKey(db) + " \"" + folder + "\"";
    assert line[..|DirKey(db)|] == DirKey(db);
    line
  }

  /** A key and the line written for it: the line begins with the key and neither holds a line terminator. */
  predicate KeyedLine(key: string, line: string) {
    NoTerminator(key) && NoTerminator(line) && StartsWith(line, key)
  }

  /** Where `line` stands after `ReplaceLine(data, key, line)`. */
  function LinePos(data: string, key: string): nat {
    match FindLine(data, key, 0)
    case Some(i) => i
    case None => |data| + 1
  }

  /** Where the line `DirLine(db, _)` stands after a write. */
  function NewLinePos(data: string, db: string): nat {
    LinePos(data, DirKey(db))
  }

  /** The first line that begins with `key`, up to its end, gives way to `line`; without one, `line` is appended after a line feed. */
  function ReplaceLine(data: string, key: string, line: string): string {
    match FindLine(data, key, 0)
    case Some(i) => Splice(data, i, LineEnd(data, i + |key|), line)
    case None => data + "\n" + line
  }

  /** `data` with `data[i..j]` replaced by `mid`. */
  function Splice(data: string, i: nat, j: nat, mid: string): string
    requires i <= j <= |data|
  {
    data[..i] + mid + data[j..]
  }

  /**
   * A write of `folder` for `db` with a plain replacement: the first line that
   * begins with the key, up to its end, gives way to the new line; without such
   * a line the new line is appended after a line feed.
   */
  function Rewrite(data: string, db: string, folder: string): (r: string)
    ensures FindLine(data, DirKey(db), 0).None? ==> r == data + "\n" + DirLine(db, folder)
    ensures FindLine(data, DirKey(db), 0).Some? ==>
      var i := FindLine(data, DirKey(db), 0).value;
      r == data[..i] + DirLine(db, folder) + data[LineEnd(data, i + |DirKey(db)|)..]
  {
    ReplaceLine(data, DirKey(db), DirLine(db, folder))
  }

  /**
   * `String.prototype.replace` with a string replacement: a `$` and the
   * character after it form a pattern. `$$`, `$&`, `` $` `` and `$'` expand;
   * with no capture groups every other pair stays as it is, and its second
   * character, not being `$`, cannot begin a pattern of its own.
   */
  function Substitute(rep: string, matched: string, before: string, after: string): string
    decreases |rep|
  {
    if |rep| == 0 then ""
    else if rep[0] == '$' && |rep| >= 2 then Pattern(rep[1], matched, before, after) + Substitute(rep[2..], matched, before, after)
    else [rep[0]] + Substitute(rep[1..], matched, before, after)
  }

  /** The expansion of the pattern `$c`. */
  function Pattern(c: char, matched: string, before: string, after: string): string {
    if c == '$' then "$"
    else if c == '&' then matched
    else if c == '`' then before
    else if c == '\'' then after
    else ['$', c]
  }

  predicate NoDollar(s: string) {
    forall i :: 0 <= i < |s| ==> s[i] != '$'
  }

  /**
   * What `String.prototype.replace` puts in place of the key line: `line` with its
   * `$` patterns expanded against the matched line and the text before and after
   * it. Without a key line nothing is replaced, and `line` is appended as it is.
   */
  function Expansion(data: string, key: string, line: string): string {
    match FindLine(data, key, 0)
    case Some(i) =>
      var j := LineEnd(data, i + |key|);
      Substitute(line, data[i..j], data[..i], data[j..])
    case None => line
  }

  /** `ReplaceLine` as `String.prototype.replace` performs it: the `$` patterns of `line` are expanded. */
  function ReplaceLineAsWritten(data: string, key: string, line: string): string {
    ReplaceLine(data, key, Expansion(data, key, line))
  }

  /** The write as the front ends perform it: `data.replace(re, newLine)` expands `$` patterns of the folder. */
  function RewriteAsWritten(data: string, db: string, folder: string): (r: string)
    ensures FindLine(data, DirKey(db), 0).None? ==> r == Rewrite(data, db, folder)
  {
    ReplaceLineAsWritten(data, DirKey(db), DirLine(db, folder))
  }

  /** A front end's write: nothing when no folder was chosen, else the rewrite of the file or of `header` when it cannot be read. */
  function WriteSettings(stored: Option<string>, header: string, db: string, folder: Option<string>): (r: Option<string>)
    ensures r.None? <==> folder.None?
    ensures folder.Some? && stored.Some? ==> r == Some(RewriteAsWritten(stored.value, db, folder.value))
    ensures folder.Some? && stored.None? ==> r == Some(RewriteAsWritten(header, db, folder.value))
  {
    match folder
    case None => None
    case Some(f) => Some(RewriteAsWritten(stored.GetOr(header), db, f))
  }

  // ---------------------------------------------------------------- reading

  /** `^key\s+` matches at `k`: the key begins a line and a white-space character follows it. */
  predicate ReaderAt(s: string, key: string, k: int) {
    PrefixAt(s, key, k) && k + |key| < |s| && IsSpace(s[k + |key|])
  }

  function FindReaderLine(s: string, key: string, from: nat): (r: Option<nat>)
    requires from <= |s|
    ensures r.Some? ==> from <= r.value < |s| && ReaderAt(s, key, r.value)
    decreases |s| - from
  {
    if ReaderAt(s, key, from) then Some(from)
    else if from == |s| then None
    else FindReaderLine(s, key, from + 1)
  }

  /** The scan stops at the first line where the reader pattern matches, and finds none only when none matches. */
  lemma {:induction false} FirstReaderLine(s: string, key: string, from: nat)
    requires from <= |s|
    ensures var r := FindReaderLine(s, key, from);
      && (r.Some? ==> forall k :: from <= k < r.value ==> !ReaderAt(s, key, k))
      && (r.None? ==> forall k :: from <= k <= |s| ==> !ReaderAt(s, key, k))
    decreases |s| - from
  {
    if !ReaderAt(s, key, from) && from < |s| {
      FirstReaderLine(s, key, from + 1);
    }
  }

  /** Where the greedy `\s+` stops; it runs over line ends as well. */
  function SkipSpace(s: string, k: nat): (e: nat)
    requires k <= |s|
    ensures k <= e <= |s| && (e == |s| || !IsSpace(s[e]))
    ensures forall i :: k <= i < e ==> IsSpace(s[i])
    decreases |s| - k
  {
    if k < |s| && IsSpace(s[k]) then SkipSpace(s, k + 1) else k
  }

  /** The capture `(.*?)` of `\s+"?(.*?)"?$` after a key at `k`: one optional quote is dropped at each end of the value. */
  function ValueAt(s: string, key: string, k: nat): (v: string)
    requires ReaderAt(s, key, k)
  {
    var b := SkipSpace(s, k + |key|);
    var b' := if b < |s| && s[b] == '"' then b + 1 else b;
    var e := LineEnd(s, b');
    if e > b' && s[e - 1] == '"' then s[b'..e - 1] else s[b'..e]
  }

  /** The folder a front end shows for `db`: the capture of the first match of the reader pattern. */
  function ReadDir(s: string, db: string): (r: Option<string>)
    ensures r.Some? ==> NoTerminator(r.value)
  {
    match FindReaderLine(s, DirKey(db), 0)
    case Some(k) => Some(ValueAt(s, DirKey(db), k))
    case None => None
  }

  /** The reader captures a value exactly when some line begins with the key. */
  lemma ReadDirFound(s: string, db: string)
    ensures ReadDir(s, db).Some? <==> exists k :: 0 <= k <= |s| && ReaderAt(s, DirKey(db), k)
  {
    FirstReaderLine(s, DirKey(db), 0);
  }

  /** The main process's test that some database is configured: the pattern `_dir .*` matches somewhere. */
  predicate DbConfigured(s: string) {
    Contains(s, "_dir ")
  }

  /** The text of the first line that begins with `key`, the one a write would replace. */
  function KeyLine(s: string, key: string): (r: Option<string>)
    ensures r.Some? ==> StartsWith(r.value, key)
  {
    match FindLine(s, key, 0)
    case Some(k) =>
      var line := s[k..LineEnd(s, k + |key|)];
      assert line[..|key|] == s[k..k + |key|];
      Some(line)
    case None => None
  }

  /** Neither key begins with the other, so no line can begin with both. */
  predicate Independent(key1: string, key2: string) {
    !StartsWith(key1, key2) && !StartsWith(key2, key1)
  }

  // ---------------------------------------------------------------- lemmas

  /**
   * A key without line terminators that begins a line of `r` at or before a
   * terminator `t` lies wholly before `t`, so it begins the same line of any
   * text sharing `r`'s first `cut` characters.
   */
  lemma {:induction false} KeyBeforeTerminator(r: string, data: string, key: string, cut: nat, t: nat, k: nat)
    requires NoTerminator(key)
    requires cut <= |data| && cut <= |r| && r[..cut] == data[..cut]
    requires t < |r| && IsLineTerminator(r[t]) && cut <= t + 1 && t <= cut
    requires k <= t && PrefixAt(r, key, k)
    ensures PrefixAt(data, key, k)
  {
    forall i | k <= i < k + |key| ensures !IsLineTerminator(r[i]) {
      assert r[i] == r[k..k + |key|][i - k];
    }
    assert r[k..k + |key|] == r[..cut][k..k + |key|];
    assert data[k..k + |key|] == data[..cut][k..k + |key|];
    if k > 0 {
      assert r[k - 1] == r[..cut][k - 1];
      assert data[k - 1] == data[..cut][k - 1];
    }
  }

  /** The converse for a text whose key line at `k` ends before a terminator at `t`. */
  lemma {:induction false} KeyBeforeTerminatorBack(r: string, data: string, key: string, cut: nat, t: nat, k: nat)
    requires NoTerminator(key)
    requires cut <= |data| && cut <= |r| && r[..cut] == data[..cut]
    requires t < |data| && IsLineTerminator(data[t]) && cut <= t + 1 && t <= cut
    requires k <= t && PrefixAt(data, key, k)
    ensures PrefixAt(r, key, k)
  {
    forall i | k <= i < k + |key| ensures !IsLineTerminator(data[i]) {
      assert data[i] == data[k..k + |key|][i - k];
    }
    assert r[k..k + |key|] == r[..cut][k..k + |key|];
    assert data[k..k + |key|] == data[..cut][k..k + |key|];
    if k > 0 {
      assert r[k - 1] == r[..cut][k - 1];
      assert data[k - 1] == data[..cut][k - 1];
    }
  }

  /** The first line that begins with `prefix` is the one at `k` when none begins earlier. */
  lemma {:induction false} FindLineIs(s: string, prefix: string, from: nat, k: nat)
    requires from <= k <= |s| && PrefixAt(s, prefix, k)
    requires forall m :: from <= m < k ==> !PrefixAt(s, prefix, m)
    ensures FindLine(s, prefix, from) == Some(k)
  {
    var f := FindLine(s, prefix, from);
    assert f.Some?;
    assert f.value <= k;
  }

  /** The line end after position `k` is `e` when `e` is the first terminator or the end. */
  lemma {:induction false} LineEndIs(s: string, k: nat, e: nat)
    requires k <= e <= |s| && (e == |s| || IsLineTerminator(s[e]))
    requires forall m :: k <= m < e ==> !IsLineTerminator(s[m])
    ensures LineEnd(s, k) == e
  {
  }

  /** The parts of a spliced text: the head, the middle, and the first character of the tail. */
  lemma {:induction false} SpliceParts(data: string, i: nat, j: nat, mid: string)
    requires i <= j <= |data|
    ensures var r := Splice(data, i, j, mid);
      |r| == |data| - (j - i) + |mid| && r[..i] == data[..i] && r[i..i + |mid|] == mid
      && r[i + |mid|..] == data[j..]
      && (0 < i ==> r[i - 1] == data[i - 1])
      && (i + |mid| < |r| ==> r[i + |mid|] == data[j])
  {
    var r := Splice(data, i, j, mid);
    if 0 < i { assert r[i - 1] == data[..i][i - 1]; }
  }

  /** A keyed line standing at a line start begins with its key there. */
  lemma {:induction false} KeyedLineStart(r: string, key: string, line: string, pos: nat)
    requires KeyedLine(key, line) && IsLineStart(r, pos)
    requires pos + |line| <= |r| && r[pos..pos + |line|] == line
    ensures PrefixAt(r, key, pos)
  {
    assert r[pos..pos + |key|] == r[pos..pos + |line|][..|key|];
  }

  /** A keyed line standing at `pos`, followed by a terminator or the end of the text, runs from its key to there. */
  lemma {:induction false} KeyedLineEnd(r: string, key: string, line: string, pos: nat)
    requires KeyedLine(key, line)
    requires pos + |line| <= |r| && r[pos..pos + |line|] == line
    requires pos + |line| == |r| || IsLineTerminator(r[pos + |line|])
    ensures LineEnd(r, pos + |key|) == pos + |line|
  {
    forall m | pos + |key| <= m < pos + |line| ensures !IsLineTerminator(r[m]) {
      assert r[m] == r[pos..pos + |line|][m - pos];
    }
    LineEndIs(r, pos + |key|, pos + |line|);
  }

  /** A text that keeps the head of `data` before its first key line, and has the key there, finds it there. */
  lemma {:induction false} FirstKeyLineKept(r: string, data: string, key: string, i: nat)
    requires NoTerminator(key) && FindLine(data, key, 0) == Some(i)
    requires i <= |r| && r[..i] == data[..i] && PrefixAt(r, key, i)
    ensures FindLine(r, key, 0) == Some(i)
  {
    forall k | 0 <= k < i
      ensures !PrefixAt(r, key, k)
    {
      if PrefixAt(r, key, k) {
        assert r[i - 1] == r[..i][i - 1];
        KeyBeforeTerminator(r, data, key, i, i - 1, k);
      }
    }
    FindLineIs(r, key, 0, i);
  }

  lemma {:induction false} ReplacedLineFound(data: string, key: string, line: string, i: nat)
    requires KeyedLine(key, line) && FindLine(data, key, 0) == Some(i)
    ensures var r := ReplaceLine(data, key, line);
      i + |line| <= |r| && r[i..i + |line|] == line
      && FindLine(r, key, 0) == Some(i)
      && LineEnd(r, i + |key|) == i + |line|
  {
    var r := ReplaceLine(data, key, line);
    var j := LineEnd(data, i + |key|);
    assert r == Splice(data, i, j, line);
    SpliceParts(data, i, j, line);
    KeyedLineStart(r, key, line, i);
    FirstKeyLineKept(r, data, key, i);
    KeyedLineEnd(r, key, line, i);
  }

  lemma {:induction false} AppendedLineFound(data: string, key: string, line: string)
    requires KeyedLine(key, line) && FindLine(data, key, 0) == None
    ensures var r := ReplaceLine(data, key, line);
      var pos := |data| + 1;
      pos + |line| <= |r| && r[pos..pos + |line|] == line
      && FindLine(r, key, 0) == Some(pos)
      && LineEnd(r, pos + |key|) == pos + |line|
  {
    var r := ReplaceLine(data, key, line);
    var pos := |data| + 1;
    assert r == data + "\n" + line;
    assert r[pos..] == line;
    assert r[|data|] == '\n';
    forall k | 0 <= k < pos
      ensures !PrefixAt(r, key, k)
    {
      if PrefixAt(r, key, k) {
        assert r[..|data|] == data[..|data|];
        KeyBeforeTerminator(r, data, key, |data|, |data|, k);
      }
    }
    KeyedLineStart(r, key, line, pos);
    FindLineIs(r, key, 0, pos);
    KeyedLineEnd(r, key, line, pos);
  }

  /** After a replacement, `line` is the first line that begins with the key, and it runs to a line end. */
  lemma {:induction false} ReplaceFindsLine(data: string, key: string, line: string)
    requires KeyedLine(key, line)
    ensures var r := ReplaceLine(data, key, line);
      var pos := LinePos(data, key);
      pos + |line| <= |r| && r[pos..pos + |line|] == line
      && FindLine(r, key, 0) == Some(pos)
      && LineEnd(r, pos + |key|) == pos + |line|
  {
    match FindLine(data, key, 0)
    case Some(i) =>
      assert LinePos(data, key) == i;
      ReplacedLineFound(data, key, line, i);
    case None =>
      assert LinePos(data, key) == |data| + 1;
      AppendedLineFound(data, key, line);
  }

  /** After a write, the new line is the first line that begins with the key, and it runs to a line end. */
  lemma {:induction false} RewriteFindsNewLine(data: string, db: string, folder: string)
    requires IsWord(db) && NoTerminator(folder)
    ensures var r := Rewrite(data, db, folder);
      var pos := NewLinePos(data, db);
      var line := DirLine(db, folder);
      pos + |line| <= |r| && r[pos..pos + |line|] == line
      && FindLine(r, DirKey(db), 0) == Some(pos)
      && LineEnd(r, pos + |DirKey(db)|) == pos + |line|
  {
    ReplaceFindsLine(data, DirKey(db), DirLine(db, folder));
  }

  /** The reader finds the first key line when white space follows its key. */
  lemma {:induction false} ReaderAtFirstKeyLine(s: string, key: string, pos: nat)
    requires FindLine(s, key, 0) == Some(pos)
    requires pos + |key| < |s| && IsSpace(s[pos + |key|])
    ensures FindReaderLine(s, key, 0) == Some(pos)
  {
    var r := FindReaderLine(s, key, 0);
    FirstReaderLine(s, key, 0);
    assert ReaderAt(s, key, pos);
    assert r.Some?;
    assert r.value <= pos;
    assert PrefixAt(s, key, r.value);
  }

  /** The characters of a written line `key "folder"` standing at `pos`, and where the reader's scan stops on it. */
  lemma {:induction false} WrittenLineChars(s: string, key: string, pos: nat, folder: string)
    requires NoTerminator(folder)
    requires pos + |key| + |folder| + 3 <= |s| && s[pos..pos + |key| + |folder| + 3] == key + " \"" + folder + "\""
    requires pos + |key| + |folder| + 3 == |s| || IsLineTerminator(s[pos + |key| + |folder| + 3])
    ensures var b := pos + |key| + 1;
      var end := pos + |key| + |folder| + 3;
      SkipSpace(s, pos + |key|) == b && s[b] == '"' && LineEnd(s, b + 1) == end
      && s[end - 1] == '"' && s[b + 1..end - 1] == folder
  {
    var line := key + " \"" + folder + "\"";
    var end := pos + |line|;
    var b := pos + |key| + 1;
    CharOfSlice(s, pos, end, |key|);
    CharOfSlice(s, pos, end, |key| + 1);
    CharOfSlice(s, pos, end, |line| - 1);
    assert line[|key|] == ' ' && line[|key| + 1] == '"' && line[|line| - 1] == '"';
    WrittenFolderSlice(s, key, pos, folder);
    WrittenLineEnd(s, pos + |key| + 2, folder);
    assert SkipSpace(s, b) == b;
  }

  /** The folder of a written line stands between its quotes. */
  lemma WrittenFolderSlice(s: string, key: string, pos: nat, folder: string)
    requires pos + |key| + |folder| + 3 <= |s| && s[pos..pos + |key| + |folder| + 3] == key + " \"" + folder + "\""
    ensures s[pos + |key| + 2..pos + |key| + |folder| + 2] == folder
  {
    var line := key + " \"" + folder + "\"";
    SliceWithin(s, pos, pos + |line|, |key| + 2, |line| - 1);
    MiddleOf(key + " \"", folder, "\"");
  }

  /** A folder without line breaks, then a quote and a line end: the line ends after the quote. */
  lemma WrittenLineEnd(s: string, b: nat, folder: string)
    requires NoTerminator(folder)
    requires b + |folder| + 1 <= |s| && s[b..b + |folder|] == folder && s[b + |folder|] == '"'
    requires b + |folder| + 1 == |s| || IsLineTerminator(s[b + |folder| + 1])
    ensures LineEnd(s, b) == b + |folder| + 1
  {
    var end := b + |folder| + 1;
    forall m | b <= m < end ensures !IsLineTerminator(s[m]) {
      if m < end - 1 { assert s[m] == s[b..b + |folder|][m - b]; }
    }
    LineEndIs(s, b, end);
  }

  lemma {:induction false} CharOfSlice(s: string, lo: nat, hi: nat, n: nat)
    requires lo <= hi <= |s| && n < hi - lo
    ensures s[lo + n] == s[lo..hi][n]
  {
  }

  lemma {:induction false} SliceWithin(s: string, lo: nat, hi: nat, i: nat, j: nat)
    requires lo <= hi <= |s| && i <= j <= hi - lo
    ensures s[lo..hi][i..j] == s[lo + i..lo + j]
  {
    forall k | 0 <= k < j - i ensures s[lo..hi][i..j][k] == s[lo + i..lo + j][k] {
      assert s[lo..hi][i..j][k] == s[lo..hi][i + k] == s[lo + i + k];
    }
  }

  lemma {:induction false} MiddleOf(x: string, y: string, z: string)
    ensures (x + y + z)[|x|..|x| + |y|] == y
  {
  }

  /** The reader's capture on a line `key "folder"` is the folder. */
  lemma {:induction false} ValueOfWrittenLine(s: string, key: string, pos: nat, folder: string)
    requires NoTerminator(folder)
    requires pos + |key| + |folder| + 3 <= |s| && s[pos..pos + |key| + |folder| + 3] == key + " \"" + folder + "\""
    requires pos + |key| + |folder| + 3 == |s| || IsLineTerminator(s[pos + |key| + |folder| + 3])
    requires ReaderAt(s, key, pos)
    ensures ValueAt(s, key, pos) == folder
  {
    var end := pos + |key| + |folder| + 3;
    var b := pos + |key| + 1;
    WrittenLineChars(s, key, pos, folder);
    QuotedValueAt(s, key, pos, b, end);
  }

  /** The capture when the value is in quotes: the text between them. */
  lemma {:induction false} QuotedValueAt(s: string, key: string, k: nat, b: nat, e: nat)
    requires ReaderAt(s, key, k) && SkipSpace(s, k + |key|) == b && b < |s| && s[b] == '"'
    requires LineEnd(s, b + 1) == e && b + 1 < e && s[e - 1] == '"'
    ensures ValueAt(s, key, k) == s[b + 1..e - 1]
  {
  }

  /** Reading back after a write yields the folder written (a folder on one line). */
  lemma {:induction false} ReadAfterRewrite(data: string, db: string, folder: string)
    requires IsWord(db) && NoTerminator(folder)
    ensures ReadDir(Rewrite(data, db, folder), db) == Some(folder)
  {
    var key := DirKey(db);
    var line := DirLine(db, folder);
    var r := Rewrite(data, db, folder);
    var pos := NewLinePos(data, db);
    RewriteFindsNewLine(data, db, folder);
    assert r[pos + |key|] == line[|key|] == ' ';
    ReaderAtFirstKeyLine(r, key, pos);
    assert line == key + " \"" + folder + "\"";
    assert pos + |line| == |r| || IsLineTerminator(r[pos + |line|]);
    ValueOfWrittenLine(r, key, pos, folder);
  }

  /** A second replacement for the same key undoes the first one: the key line is replaced, never added twice. */
  lemma {:induction false} ReplaceTwice(data: string, key: string, line1: string, line2: string)
    requires KeyedLine(key, line1)
    ensures ReplaceLine(ReplaceLine(data, key, line1), key, line2) == ReplaceLine(data, key, line2)
  {
    var r1 := ReplaceLine(data, key, line1);
    var pos := LinePos(data, key);
    ReplaceFindsLine(data, key, line1);
    ReplaceAt(r1, key, line2, pos);
    ReplaceOverReplaced(data, key, line1, line2);
  }

  /** Replacing the key line found at `pos` splices over it. */
  lemma {:induction false} ReplaceAt(s: string, key: string, line: string, pos: nat)
    requires FindLine(s, key, 0) == Some(pos)
    ensures ReplaceLine(s, key, line) == Splice(s, pos, LineEnd(s, pos + |key|), line)
  {
    assert PrefixAt(s, key, pos);
  }

  /** Splicing `line2` over the line a replacement put in is the replacement by `line2`. */
  lemma {:induction false} ReplaceOverReplaced(data: string, key: string, line1: string, line2: string)
    ensures var pos := LinePos(data, key);
      var r1 := ReplaceLine(data, key, line1);
      pos + |line1| <= |r1| && Splice(r1, pos, pos + |line1|, line2) == ReplaceLine(data, key, line2)
  {
    match FindLine(data, key, 0)
    case Some(i) =>
      var j := LineEnd(data, i + |key|);
      assert ReplaceLine(data, key, line1) == Splice(data, i, j, line1);
      assert ReplaceLine(data, key, line2) == Splice(data, i, j, line2);
      SpliceTwice(data, i, j, line1, line2);
    case None => AppendSplice(data, line1, line2);
  }

  /** Splicing over a spliced middle is one splice. */
  lemma {:induction false} SpliceTwice(d: string, i: nat, j: nat, x: string, y: string)
    requires i <= j <= |d|
    ensures Splice(Splice(d, i, j, x), i, i + |x|, y) == Splice(d, i, j, y)
  {
    SpliceParts(d, i, j, x);
  }

  /** Splicing over an appended line replaces it. */
  lemma {:induction false} AppendSplice(d: string, x: string, y: string)
    ensures var r := d + "\n" + x;
      Splice(r, |d| + 1, |d| + 1 + |x|, y) == d + "\n" + y
  {
    var r := d + "\n" + x;
    assert r[..|d| + 1] == d + "\n";
  }

  /** Writing twice leaves the file as the second write alone would: a write never adds a second line for a key. */
  lemma {:induction false} RewriteTwice(data: string, db: string, folder1: string, folder2: string)
    requires IsWord(db) && NoTerminator(folder1)
    ensures Rewrite(Rewrite(data, db, folder1), db, folder2) == Rewrite(data, db, folder2)
  {
    ReplaceTwice(data, DirKey(db), DirLine(db, folder1), DirLine(db, folder2));
  }

  /** After a replacement, `line` stands at `LinePos`, whatever its text. */
  lemma {:induction false} ReplaceHoldsLine(data: string, key: string, line: string)
    ensures var r := ReplaceLine(data, key, line);
      var pos := LinePos(data, key);
      pos + |line| <= |r| && r[pos..pos + |line|] == line
  {
    var r := ReplaceLine(data, key, line);
    match FindLine(data, key, 0)
    case Some(i) =>
      assert r == data[..i] + line + data[LineEnd(data, i + |key|)..];
    case None =>
      assert r[|data| + 1..] == line;
  }

  /** A replacement whose line holds `_dir ` after the database name leaves the file configured. */
  lemma {:induction false} HeadConfigures(data: string, key: string, db: string, line: string)
    requires |db| + 5 <= |line| && line[|db|..|db| + 5] == "_dir "
    ensures DbConfigured(ReplaceLine(data, key, line))
  {
    var r := ReplaceLine(data, key, line);
    var pos := LinePos(data, key);
    ReplaceHoldsLine(data, key, line);
    assert r[pos + |db|..pos + |db| + 5] == "_dir " by {
      SliceWithin(r, pos, pos + |line|, |db|, |db| + 5);
    }
    assert OccursAt(r, "_dir ", pos + |db|);
  }

  /** Every write leaves the file configured in the main process's sense. */
  lemma {:induction false} RewriteConfigures(data: string, db: string, folder: string)
    requires IsWord(db)
    ensures DbConfigured(Rewrite(data, db, folder))
  {
    var line := DirLine(db, folder);
    assert line[|db|..|db| + 5] == "_dir ";
    HeadConfigures(data, DirKey(db), db, line);
  }

  /** Scanning two texts that agree from positions `a` and `b` on finds the same line, shifted. */
  lemma {:induction false} FindLineShift(r: string, d: string, key: string, a: nat, b: nat)
    requires a <= |r| && b <= |d| && r[a..] == d[b..]
    requires 0 < a && 0 < b && (IsLineTerminator(r[a - 1]) <==> IsLineTerminator(d[b - 1]))
    ensures FindLine(r, key, a) == (match FindLine(d, key, b) case None => None case Some(k) => Some(k - b + a))
    decreases |d| - b
  {
    PrefixAtShift(r, d, key, a, b);
    if a < |r| {
      SuffixStep(r, d, a, b);
      FindLineShift(r, d, key, a + 1, b + 1);
    }
  }

  /** A key begins a line at `a` in one text exactly when it does at `b` in a text that agrees from there on. */
  lemma {:induction false} PrefixAtShift(r: string, d: string, key: string, a: nat, b: nat)
    requires a <= |r| && b <= |d| && r[a..] == d[b..]
    requires 0 < a && 0 < b && (IsLineTerminator(r[a - 1]) <==> IsLineTerminator(d[b - 1]))
    ensures |r| - a == |d| - b
    ensures PrefixAt(r, key, a) <==> PrefixAt(d, key, b)
  {
    assert |r| - a == |d| - b;
    if a + |key| <= |r| {
      SliceOfSuffix(r, d, a, b, b, b + |key|);
    }
  }

  /** Texts that agree from `a` and `b` on agree at `a` and `b` and from the next positions on. */
  lemma {:induction false} SuffixStep(r: string, d: string, a: nat, b: nat)
    requires a < |r| && b <= |d| && r[a..] == d[b..]
    ensures b < |d| && r[a] == d[b] && r[a + 1..] == d[b + 1..]
  {
    assert |r| - a == |d| - b;
    assert r[a] == r[a..][0] == d[b..][0] == d[b];
    forall m | a + 1 <= m < |r| ensures r[m] == d[m - a + b] {
      assert r[m] == r[a..][m - a] == d[b..][m - a] == d[m - a + b];
    }
  }

  lemma {:induction false} LineEndShift(r: string, d: string, a: nat, b: nat, k: nat)
    requires a <= |r| && b <= |d| && r[a..] == d[b..] && b <= k <= |d|
    ensures LineEnd(r, k - b + a) == LineEnd(d, k) - b + a
  {
    var e := LineEnd(d, k);
    assert forall m :: b <= m < |d| ==> r[m - b + a] == d[b..][m - b] == d[m];
    var e' := LineEnd(r, k - b + a);
    assert |r| - a == |d| - b;
  }

  /** Before a line start `i`, two texts that agree up to `i` have the same key lines. */
  lemma {:induction false} SameKeyLinesBefore(r: string, data: string, key: string, i: nat)
    requires NoTerminator(key)
    requires i <= |data| && i <= |r| && r[..i] == data[..i] && IsLineStart(data, i)
    ensures forall k :: 0 <= k < i ==> (PrefixAt(r, key, k) <==> PrefixAt(data, key, k))
  {
    forall k | 0 <= k < i
      ensures PrefixAt(r, key, k) <==> PrefixAt(data, key, k)
    {
      assert r[i - 1] == data[i - 1];
      if PrefixAt(r, key, k) { KeyBeforeTerminator(r, data, key, i, i - 1, k); }
      if PrefixAt(data, key, k) { KeyBeforeTerminatorBack(r, data, key, i, i - 1, k); }
    }
  }

  /** No line of `s` begins with `key2` where a line begins with an independent `key`. */
  lemma {:induction false} IndependentAt(s: string, key: string, key2: string, i: nat)
    requires Independent(key, key2) && PrefixAt(s, key, i)
    ensures !PrefixAt(s, key2, i)
  {
  }

  /** Inside a stretch without terminators no line begins. */
  lemma {:induction false} NoLineStartsInside(s: string, key: string, lo: nat, hi: nat)
    requires lo <= hi <= |s| && forall m :: lo <= m < hi ==> !IsLineTerminator(s[m])
    ensures forall k :: lo < k <= hi ==> !PrefixAt(s, key, k)
  {
  }

  /** Where the first `key` line of `r` is when `r` is `data` with `data[i..j]` replaced by `a - i` characters holding no `key` line. */
  function Shifted(found: Option<nat>, i: nat, j: nat, a: nat): Option<nat> {
    match found
    case None => None
    case Some(k) => if k < i then Some(k) else if j <= k + a then Some(k + a - j) else None
  }

  /** The facts about a splice that locate the first `key` line after it. */
  predicate SpliceFacts(r: string, data: string, key: string, i: nat, j: nat, a: nat) {
    i < j <= |data| && i < a <= |r| && r[..i] == data[..i] && r[a..] == data[j..]
    && (forall k :: 0 <= k < i ==> (PrefixAt(r, key, k) <==> PrefixAt(data, key, k)))
    && (forall k :: i <= k <= a ==> !PrefixAt(r, key, k))
    && (forall k :: i <= k <= j ==> !PrefixAt(data, key, k))
    && !IsLineTerminator(r[a - 1]) && !IsLineTerminator(data[j - 1])
  }

  lemma {:induction false} SpliceFindLineNone(r: string, data: string, key: string, i: nat, j: nat, a: nat)
    requires SpliceFacts(r, data, key, i, j, a) && FindLine(data, key, 0) == None
    ensures FindLine(r, key, 0) == None == Shifted(FindLine(data, key, 0), i, j, a)
  {
    FindLineShift(r, data, key, a, j);
    assert FindLine(data, key, j) == None;
    forall m | 0 <= m <= |r| ensures !PrefixAt(r, key, m) {
      if m < i {
        assert !PrefixAt(data, key, m);
      }
    }
  }

  lemma {:induction false} SpliceFindLineBefore(r: string, data: string, key: string, i: nat, j: nat, a: nat, k: nat)
    requires SpliceFacts(r, data, key, i, j, a) && FindLine(data, key, 0) == Some(k) && k < i
    ensures FindLine(r, key, 0) == Some(k) == Shifted(FindLine(data, key, 0), i, j, a)
  {
    assert PrefixAt(r, key, k);
    forall m | 0 <= m < k ensures !PrefixAt(r, key, m) {
      assert !PrefixAt(data, key, m);
    }
    FindLineIs(r, key, 0, k);
  }

  lemma {:induction false} SpliceFindLineAfter(r: string, data: string, key: string, i: nat, j: nat, a: nat, k: nat)
    requires SpliceFacts(r, data, key, i, j, a) && FindLine(data, key, 0) == Some(k) && i <= k
    ensures j < k && FindLine(r, key, 0) == Some(k - j + a) == Shifted(FindLine(data, key, 0), i, j, a)
  {
    FindLineShift(r, data, key, a, j);
    FindLineIs(data, key, j, k);
    var k' := k - j + a;
    assert FindLine(r, key, a) == Some(k');
    assert PrefixAt(r, key, k');
    forall m | 0 <= m < k' ensures !PrefixAt(r, key, m) {
      if m < i { assert !PrefixAt(data, key, m); }
    }
    FindLineIs(r, key, 0, k');
  }

  lemma {:induction false} SpliceFindLine(r: string, data: string, key: string, i: nat, j: nat, a: nat)
    requires SpliceFacts(r, data, key, i, j, a)
    ensures FindLine(r, key, 0) == Shifted(FindLine(data, key, 0), i, j, a)
  {
    match FindLine(data, key, 0) {
      case None => SpliceFindLineNone(r, data, key, i, j, a);
      case Some(k) =>
        if k < i {
          SpliceFindLineBefore(r, data, key, i, j, a, k);
        } else {
          SpliceFindLineAfter(r, data, key, i, j, a, k);
        }
    }
  }

  lemma {:induction false} LineEndBefore(s: string, k: nat, t: nat)
    requires k <= t < |s| && IsLineTerminator(s[t])
    ensures LineEnd(s, k) <= t
    decreases t - k
  {
    if k < t && !IsLineTerminator(s[k]) {
      LineEndBefore(s, k + 1, t);
    }
  }

  /** A key without terminators that begins a line ends before the next terminator. */
  lemma {:induction false} KeyEndsBefore(s: string, key: string, k: nat, t: nat)
    requires NoTerminator(key) && PrefixAt(s, key, k) && k <= t < |s| && IsLineTerminator(s[t])
    ensures k + |key| <= t
  {
    forall m | k <= m < k + |key| ensures !IsLineTerminator(s[m]) {
      assert s[m] == s[k..k + |key|][m - k];
    }
  }

  /** The text of a line found in the kept prefix is the same in both texts. */
  lemma {:induction false} LineTextBefore(r: string, data: string, key: string, i: nat, k: nat)
    requires i <= |data| && i <= |r| && r[..i] == data[..i] && 0 < i && IsLineTerminator(data[i - 1])
    requires k + |key| < i
    ensures LineEnd(data, k + |key|) < i
    ensures r[k..LineEnd(r, k + |key|)] == data[k..LineEnd(data, k + |key|)]
  {
    LineEndBefore(data, k + |key|, i - 1);
    var e := LineEnd(data, k + |key|);
    forall m | k + |key| <= m < e ensures !IsLineTerminator(r[m]) {
      assert r[m] == r[..i][m] == data[..i][m] == data[m];
    }
    assert r[e] == r[..i][e] == data[..i][e] == data[e];
    LineEndIs(r, k + |key|, e);
    SliceOfPrefix(r, data, i, k, e);
  }

  /** Texts that agree up to `i` agree on every slice below `i`. */
  lemma {:induction false} SliceOfPrefix(r: string, data: string, i: nat, k: nat, e: nat)
    requires i <= |r| && i <= |data| && r[..i] == data[..i] && k <= e <= i
    ensures r[k..e] == data[k..e]
  {
    forall m | 0 <= m < e - k ensures r[k..e][m] == data[k..e][m] {
      assert r[k + m] == r[..i][k + m] == data[..i][k + m] == data[k + m];
    }
  }

  /** Texts whose suffixes from `a` and `j` agree have equal slices, shifted by `a - j`. */
  lemma {:induction false} SliceOfSuffix(r: string, data: string, a: nat, j: nat, lo: nat, hi: nat)
    requires a <= |r| && j <= lo <= hi <= |data| && r[a..] == data[j..]
    ensures hi - j + a <= |r| && r[lo - j + a..hi - j + a] == data[lo..hi]
  {
    assert |r| - a == |data| - j;
    forall m | 0 <= m < hi - lo ensures r[lo - j + a..hi - j + a][m] == data[lo..hi][m] {
      assert r[lo - j + a + m] == r[a..][lo - j + m] == data[j..][lo - j + m] == data[lo + m];
    }
  }

  /** The text of a line found in the kept suffix is the same in both texts. */
  lemma {:induction false} LineTextAfter(r: string, data: string, key: string, j: nat, a: nat, k: nat)
    requires j <= |data| && a <= |r| && r[a..] == data[j..]
    requires j <= k && k + |key| <= |data|
    ensures var k' := k - j + a;
      k' + |key| <= |r| && r[k'..LineEnd(r, k' + |key|)] == data[k..LineEnd(data, k + |key|)]
  {
    LineEndShift(r, data, a, j, k + |key|);
    var e := LineEnd(data, k + |key|);
    SliceOfSuffix(r, data, a, j, k, e);
  }

  lemma {:induction false} SplicedKeyAt(r: string, data: string, line: string, key: string, i: nat)
    requires i <= |data| && i + |line| <= |r| && r[..i] == data[..i] && r[i..i + |line|] == line
    requires IsLineStart(data, i) && StartsWith(line, key)
    ensures PrefixAt(r, key, i)
  {
    assert r[i..i + |key|] == line[..|key|];
    if i > 0 { assert r[i - 1] == data[i - 1]; }
  }

  lemma {:induction false} SplicedLineClean(r: string, line: string, i: nat)
    requires i + |line| <= |r| && r[i..i + |line|] == line && NoTerminator(line)
    ensures forall m :: i <= m < i + |line| ==> !IsLineTerminator(r[m])
  {
    forall m | i <= m < i + |line| ensures !IsLineTerminator(r[m]) { assert r[m] == line[m - i]; }
  }

  /** Neither the new line nor the old one begins a `key2` line anywhere but at its start, and neither does there. */
  lemma {:induction false} SplicedNoKeyLine(r: string, data: string, line: string, key: string, key2: string, i: nat, j: nat)
    requires i < j <= |data| && i + |line| <= |r|
    requires r[..i] == data[..i] && r[i..i + |line|] == line
    requires PrefixAt(data, key, i) && StartsWith(line, key) && 0 < |key|
    requires NoTerminator(line) && forall m :: i <= m < j ==> !IsLineTerminator(data[m])
    requires Independent(key, key2)
    ensures forall k :: i <= k <= i + |line| ==> !PrefixAt(r, key2, k)
    ensures forall k :: i <= k <= j ==> !PrefixAt(data, key2, k)
    ensures !IsLineTerminator(r[i + |line| - 1])
  {
    var a := i + |line|;
    SplicedKeyAt(r, data, line, key, i);
    IndependentAt(r, key, key2, i);
    SplicedLineClean(r, line, i);
    NoLineStartsInside(r, key2, i, a);
    IndependentAt(data, key, key2, i);
    NoLineStartsInside(data, key2, i, j);
  }

  lemma {:induction false} SpliceFactsHold(r: string, data: string, line: string, key: string, key2: string, i: nat, j: nat)
    requires i < j <= |data| && i + |line| <= |r|
    requires r[..i] == data[..i] && r[i..i + |line|] == line && r[i + |line|..] == data[j..]
    requires PrefixAt(data, key, i) && StartsWith(line, key) && 0 < |key|
    requires NoTerminator(line) && forall m :: i <= m < j ==> !IsLineTerminator(data[m])
    requires NoTerminator(key2) && Independent(key, key2)
    ensures SpliceFacts(r, data, key2, i, j, i + |line|)
    ensures forall k :: i <= k <= j ==> !PrefixAt(data, key2, k)
  {
    SameKeyLinesBefore(r, data, key2, i);
    SplicedNoKeyLine(r, data, line, key, key2, i, j);
  }

  /** Where the first `key2` line is after `line` took the place of the `key` line `data[i..j]`. */
  lemma {:induction false} SpliceFindsKeyLine(r: string, data: string, line: string, key: string, key2: string, i: nat, j: nat)
    requires i < j <= |data| && i + |line| <= |r|
    requires r[..i] == data[..i] && r[i..i + |line|] == line && r[i + |line|..] == data[j..]
    requires PrefixAt(data, key, i) && StartsWith(line, key) && 0 < |key|
    requires NoTerminator(line) && forall m :: i <= m < j ==> !IsLineTerminator(data[m])
    requires NoTerminator(key2) && Independent(key, key2)
    ensures FindLine(r, key2, 0) == Shifted(FindLine(data, key2, 0), i, j, i + |line|)
    ensures forall k :: i <= k <= j ==> !PrefixAt(data, key2, k)
  {
    SpliceFactsHold(r, data, line, key, key2, i, j);
    SpliceFindLine(r, data, key2, i, j, i + |line|);
  }

  lemma {:induction false} KeyLineOfFound(s: string, key: string, k: nat)
    requires FindLine(s, key, 0) == Some(k)
    ensures k + |key| <= |s| && KeyLine(s, key) == Some(s[k..LineEnd(s, k + |key|)])
  {
  }

  /** Two texts have the same `key` line when their first `key` lines have the same text. */
  lemma {:induction false} SameKeyLine(r: string, data: string, key: string, k': nat, k: nat)
    requires FindLine(r, key, 0) == Some(k') && FindLine(data, key, 0) == Some(k)
    requires k' + |key| <= |r| && k + |key| <= |data|
    requires r[k'..LineEnd(r, k' + |key|)] == data[k..LineEnd(data, k + |key|)]
    ensures KeyLine(r, key) == KeyLine(data, key)
  {
    KeyLineOfFound(r, key, k');
    KeyLineOfFound(data, key, k);
  }

  lemma {:induction false} KeyLineKeptBefore(r: string, data: string, key: string, i: nat, k: nat)
    requires 0 < i <= |data| && i <= |r| && r[..i] == data[..i] && IsLineTerminator(data[i - 1])
    requires NoTerminator(key) && k < i
    requires FindLine(r, key, 0) == Some(k) && FindLine(data, key, 0) == Some(k)
    ensures KeyLine(r, key) == KeyLine(data, key)
  {
    KeyEndsBefore(data, key, k, i - 1);
    LineTextBefore(r, data, key, i, k);
    SameKeyLine(r, data, key, k, k);
  }

  lemma {:induction false} KeyLineKeptAfter(r: string, data: string, key: string, j: nat, a: nat, k: nat)
    requires j <= |data| && a <= |r| && r[a..] == data[j..] && j <= k
    requires FindLine(data, key, 0) == Some(k) && FindLine(r, key, 0) == Some(k - j + a)
    ensures KeyLine(r, key) == KeyLine(data, key)
  {
    var k' := k - j + a;
    assert PrefixAt(data, key, k) && PrefixAt(r, key, k');
    LineTextAfter(r, data, key, j, a, k);
    SameKeyLine(r, data, key, k', k);
  }

  lemma {:induction false} KeyLineNone(r: string, data: string, key: string)
    requires FindLine(r, key, 0) == None && FindLine(data, key, 0) == None
    ensures KeyLine(r, key) == KeyLine(data, key)
  {
  }

  /** Putting `line` in place of the key line `data[i..j]` keeps every line of an independent key. */
  lemma {:induction false} SpliceKeepsKeyLine(r: string, data: string, line: string, key: string, key2: string, i: nat, j: nat)
    requires i < j <= |data| && i + |line| <= |r|
    requires r[..i] == data[..i] && r[i..i + |line|] == line && r[i + |line|..] == data[j..]
    requires PrefixAt(data, key, i) && StartsWith(line, key) && 0 < |key|
    requires NoTerminator(line) && forall m :: i <= m < j ==> !IsLineTerminator(data[m])
    requires NoTerminator(key2) && Independent(key, key2)
    ensures KeyLine(r, key2) == KeyLine(data, key2)
  {
    SpliceFindsKeyLine(r, data, line, key, key2, i, j);
    match FindLine(data, key2, 0) {
      case None => KeyLineNone(r, data, key2);
      case Some(k) =>
        if k < i {
          KeyLineKeptBefore(r, data, key2, i, k);
        } else {
          KeyLineKeptAfter(r, data, key2, j, i + |line|, k);
        }
    }
  }

  lemma {:induction false} AppendFindsKeyLine(r: string, data: string, line: string, key: string, key2: string)
    requires r == data + "\n" + line && StartsWith(line, key) && 0 < |key|
    requires NoTerminator(line) && NoTerminator(key2) && 0 < |key2| && Independent(key, key2)
    ensures FindLine(r, key2, 0) == FindLine(data, key2, 0)
  {
    var pos := |data| + 1;
    var d := data + "\n";
    assert r[..pos] == d[..pos];
    assert r[pos..pos + |line|] == line;
    SplicedKeyAt(r, d, line, key, pos);
    IndependentAt(r, key, key2, pos);
    SplicedLineClean(r, line, pos);
    NoLineStartsInside(r, key2, pos, |r|);
    assert r[|data|] == '\n';
    forall k | 0 <= k <= |data| ensures PrefixAt(r, key2, k) <==> PrefixAt(data, key2, k) {
      if PrefixAt(r, key2, k) { KeyBeforeTerminator(r, data, key2, |data|, |data|, k); }
      if PrefixAt(data, key2, k) {
        assert r[k..k + |key2|] == data[k..k + |key2|];
        if k > 0 { assert r[k - 1] == data[k - 1]; }
      }
    }
    match FindLine(data, key2, 0) {
      case None =>
      case Some(k) => FindLineIs(r, key2, 0, k);
    }
  }

  lemma {:induction false} AppendLineText(r: string, data: string, key: string, k: nat)
    requires |data| < |r| && r[..|data|] == data && r[|data|] == '\n' && k + |key| <= |data|
    ensures r[k..LineEnd(r, k + |key|)] == data[k..LineEnd(data, k + |key|)]
  {
    var e := LineEnd(data, k + |key|);
    forall m | k + |key| <= m < e ensures !IsLineTerminator(r[m]) {
      assert r[m] == r[..|data|][m];
    }
    assert e == |data| || r[e] == r[..|data|][e];
    LineEndIs(r, k + |key|, e);
    SliceOfPrefix(r, data, |data|, k, e);
  }

  /** Appending `line` after a line feed keeps every line of an independent key. */
  lemma {:induction false} AppendKeepsKeyLine(r: string, data: string, line: string, key: string, key2: string)
    requires r == data + "\n" + line && StartsWith(line, key) && 0 < |key|
    requires NoTerminator(line) && NoTerminator(key2) && 0 < |key2| && Independent(key, key2)
    ensures KeyLine(r, key2) == KeyLine(data, key2)
  {
    AppendFindsKeyLine(r, data, line, key, key2);
    match FindLine(data, key2, 0) {
      case None => KeyLineNone(r, data, key2);
      case Some(k) =>
        assert r[..|data|] == data;
        AppendLineText(r, data, key2, k);
        SameKeyLine(r, data, key2, k, k);
    }
  }

  /** A replacement leaves the line of every independent key as it was. */
  lemma {:induction false} ReplaceKeepsOtherLines(data: string, key: string, line: string, key2: string)
    requires KeyedLine(key, line) && 0 < |key| && NoTerminator(key2) && |key2| > 0
    requires Independent(key, key2)
    ensures KeyLine(ReplaceLine(data, key, line), key2) == KeyLine(data, key2)
  {
    var r := ReplaceLine(data, key, line);
    match FindLine(data, key, 0) {
      case Some(i) =>
        var j := LineEnd(data, i + |key|);
        assert r == data[..i] + line + data[j..];
        forall m | i <= m < j ensures !IsLineTerminator(data[m]) {
          if m < i + |key| { assert data[m] == data[i..i + |key|][m - i]; }
        }
        assert r[..i] == data[..i];
        assert r[i..i + |line|] == line;
        assert r[i + |line|..] == data[j..];
        SpliceKeepsKeyLine(r, data, line, key, key2, i, j);
      case None =>
        AppendKeepsKeyLine(r, data, line, key, key2);
    }
  }

  /** A write leaves the line of every independent key as it was: unrelated lines are preserved. */
  lemma {:induction false} RewriteKeepsOtherLines(data: string, db: string, folder: string, key2: string)
    requires IsWord(db) && NoTerminator(folder) && NoTerminator(key2) && |key2| > 0
    requires Independent(DirKey(db), key2)
    ensures KeyLine(Rewrite(data, db, folder), key2) == KeyLine(data, key2)
  {
    ReplaceKeepsOtherLines(data, DirKey(db), DirLine(db, folder), key2);
  }

  // ---------------------------------------------------------------- the `$` patterns

  lemma {:induction false} SubstituteNoDollar(rep: string, matched: string, before: string, after: string)
    requires NoDollar(rep)
    ensures Substitute(rep, matched, before, after) == rep
    decreases |rep|
  {
    if |rep| > 0 {
      SubstituteNoDollar(rep[1..], matched, before, after);
      assert [rep[0]] + rep[1..] == rep;
    }
  }

  lemma {:induction false} SubstitutePlainPrefix(a: string, b: string, matched: string, before: string, after: string)
    requires NoDollar(a)
    ensures Substitute(a + b, matched, before, after) == a + Substitute(b, matched, before, after)
    decreases |a|
  {
    if |a| > 0 {
      var ab := a + b;
      assert ab[0] == a[0] != '$';
      assert ab[1..] == a[1..] + b;
      assert Substitute(ab, matched, before, after) == [a[0]] + Substitute(a[1..] + b, matched, before, after);
      SubstitutePlainPrefix(a[1..], b, matched, before, after);
      ConsAppend(a[0], a[1..], Substitute(b, matched, before, after));
      assert [a[0]] + a[1..] == a;
    } else {
      assert a + b == b;
    }
  }

  /** Without a `$` in the line, the replacement as performed is the plain one. */
  lemma {:induction false} ReplaceAsWrittenPlain(data: string, key: string, line: string)
    requires NoDollar(line)
    ensures ReplaceLineAsWritten(data, key, line) == ReplaceLine(data, key, line)
  {
    ExpansionPlain(data, key, line);
  }

  lemma {:induction false} ExpansionPlain(data: string, key: string, line: string)
    requires NoDollar(line)
    ensures Expansion(data, key, line) == line
  {
    if FindLine(data, key, 0).Some? {
      var i := FindLine(data, key, 0).value;
      var j := LineEnd(data, i + |key|);
      SubstituteNoDollar(line, data[i..j], data[..i], data[j..]);
    }
  }

  /** Without a `$` in the folder the write as performed is the plain rewrite. */
  lemma {:induction false} RewriteAsWrittenPlain(data: string, db: string, folder: string)
    requires IsWord(db) && NoDollar(folder)
    ensures RewriteAsWritten(data, db, folder) == Rewrite(data, db, folder)
  {
    var key := DirKey(db);
    var line := DirLine(db, folder);
    assert NoDollar(line) by {
      LineHeadNoDollar(db);
      var head := key + " \"";
      assert line == head + folder + "\"";
      forall m | 0 <= m < |line| ensures line[m] != '$' {
        if m < |head| { assert line[m] == head[m]; }
        else if m < |line| - 1 { assert line[m] == folder[m - |head|]; }
      }
    }
    ReplaceAsWrittenPlain(data, key, line);
  }

  lemma {:induction false} SubstituteDoubleDollar(db: string, matched: string, before: string, after: string)
    requires IsWord(db)
    ensures Substitute(DirLine(db, "$$"), matched, before, after) == DirLine(db, "$")
  {
    var head := DirKey(db) + " \"";
    assert NoDollar(head) by {
      forall m | 0 <= m < |head| ensures head[m] != '$' {
        if m < |DirKey(db)| { assert IsWordChar(head[m]); }
      }
    }
    assert DirLine(db, "$$") == head + "$$\"";
    SubstitutePlainPrefix(head, "$$\"", matched, before, after);
    assert "$$\""[2..] == "\"";
    assert "\""[1..] == "";
    assert Substitute("$$\"", matched, before, after) == "$\"";
    assert DirLine(db, "$") == head + "$\"";
  }

  lemma {:induction false} ConsAppend(c: char, x: string, y: string)
    ensures [c] + (x + y) == ([c] + x) + y
  {
  }

  /** Over an existing key line, the write as performed of the folder `$$` is the plain write of `$`. */
  lemma {:induction false} DollarRewrite(data: string, db: string)
    requires IsWord(db) && FindLine(data, DirKey(db), 0).Some?
    ensures RewriteAsWritten(data, db, "$$") == Rewrite(data, db, "$")
  {
    var key := DirKey(db);
    var i := FindLine(data, key, 0).value;
    var j := LineEnd(data, i + |key|);
    SubstituteDoubleDollar(db, data[i..j], data[..i], data[j..]);
    assert Expansion(data, key, DirLine(db, "$$")) == DirLine(db, "$");
  }

  /** A folder named `$$` is stored as `$` when the key line already exists: the reader then shows `$`. */
  lemma {:induction false} DollarFolderIsAltered(data: string, db: string)
    requires IsWord(db) && FindLine(data, DirKey(db), 0).Some?
    ensures RewriteAsWritten(data, db, "$$") == Rewrite(data, db, "$")
    ensures ReadDir(RewriteAsWritten(data, db, "$$"), db) == Some("$")
  {
    DollarRewrite(data, db);
    assert NoTerminator("$") by { assert !IsLineTerminator("$"[0]); }
    ReadAfterRewrite(data, db, "$");
  }

  /** Without a readable file, a write produces the header followed by the one new line. */
  lemma {:induction false} FreshFileWrite(header: string, db: string, folder: string)
    requires IsWord(db) && 0 < |header| && header[0] == '#' && NoTerminator(header)
    ensures WriteSettings(None, header, db, Some(folder)) == Some(header + "\n" + DirLine(db, folder))
  {
    var key := DirKey(db);
    assert IsWordChar(key[0]);
    forall k | 0 <= k <= |header| ensures !PrefixAt(header, key, k) {
      if k > 0 { assert !IsLineTerminator(header[k - 1]); }
      else if |key| <= |header| { assert header[..|key|][0] == header[0]; }
    }
  }

  /** `sub` found inside the middle part of a text is found in the text. */
  lemma {:induction false} ContainsMiddle(pre: string, mid: string, post: string, sub: string, n: nat)
    requires n + |sub| <= |mid| && mid[n..n + |sub|] == sub
    ensures Contains(pre + mid + post, sub)
  {
    var s := pre + mid + post;
    assert s[|pre| + n..|pre| + n + |sub|] == mid[n..n + |sub|];
    assert OccursAt(s, sub, |pre| + n);
  }

  /** The start of a written line up to the opening quote holds no `$`. */
  lemma {:induction false} LineHeadNoDollar(db: string)
    requires IsWord(db)
    ensures NoDollar(DirKey(db) + " \"")
  {
    var key := DirKey(db);
    var head := key + " \"";
    forall m | 0 <= m < |head| ensures head[m] != '$' {
      if m < |key| { assert IsWordChar(key[m]); }
    }
  }

  /** The expansion of a written line still begins with the key and a space. */
  lemma {:induction false} ExpandedLineHead(db: string, folder: string, matched: string, before: string, after: string)
    requires IsWord(db)
    ensures var mid := Substitute(DirLine(db, folder), matched, before, after);
      |db| + 5 <= |mid| && mid[|db|..|db| + 5] == "_dir "
  {
    var key := DirKey(db);
    var head := key + " \"";
    var tail := folder + "\"";
    LineHeadNoDollar(db);
    assert DirLine(db, folder) == head + tail;
    SubstitutePlainPrefix(head, tail, matched, before, after);
    var mid := head + Substitute(tail, matched, before, after);
    assert mid[|db|..|db| + 5] == head[|db|..|db| + 5];
    assert head[|db|..|db| + 4] == key[|db|..] == "_dir";
  }

  /** A write as performed, `$` patterns and all, leaves the file configured: the key and the space before the quote survive. */
  lemma {:induction false} RewriteAsWrittenConfigures(data: string, db: string, folder: string)
    requires IsWord(db)
    ensures DbConfigured(RewriteAsWritten(data, db, folder))
  {
    var key := DirKey(db);
    var line := DirLine(db, folder);
    match FindLine(data, key, 0) {
      case Some(i) =>
        var j := LineEnd(data, i + |key|);
        ExpandedLineHead(db, folder, data[i..j], data[..i], data[j..]);
      case None =>
        assert line[|db|..|db| + 5] == "_dir ";
    }
    HeadConfigures(data, key, db, Expansion(data, key, line));
  }
}
