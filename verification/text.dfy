/**
 * String helpers with JavaScript's semantics: the characters `^`, `$` and `.`
 * of a multiline regular expression stop at, the `\s` class, `split` on a
 * character class, `indexOf(...) != -1` and `substring` with clamped indices.
 */
module Text {
  import opened Wrappers

  /** The line terminators of ECMAScript: `.` never matches them, `^`/`$` with the `m` flag match beside them. */
  predicate IsLineTerminator(c: char) {
    c == '\n' || c == '\r' || c == '\U{2028}' || c == '\U{2029}'
  }

  /** The characters of the regular expression class `\s`. */
  predicate IsSpace(c: char) {
    c == '\t' || c == '\n' || c == '\U{000B}' || c == '\U{000C}' || c == '\r' || c == ' '
    || c == '\U{00A0}' || c == '\U{1680}' || ('\U{2000}' <= c <= '\U{200A}')
    || c == '\U{2028}' || c == '\U{2029}' || c == '\U{202F}' || c == '\U{205F}'
    || c == '\U{3000}' || c == '\U{FEFF}'
  }

  predicate NoTerminator(s: string) {
    forall i :: 0 <= i < |s| ==> !IsLineTerminator(s[i])
  }

  /** Letters, digits and `_`: what the database names are made of. */
  predicate IsWordChar(c: char) {
    ('a' <= c <= 'z') || ('A' <= c <= 'Z') || ('0' <= c <= '9') || c == '_'
  }

  predicate IsWord(s: string) {
    forall i :: 0 <= i < |s| ==> IsWordChar(s[i])
  }

  /** `toLowerCase` on the ASCII letters; every other character is kept. */
  function LowerChar(c: char): (r: char)
    ensures IsWordChar(c) <==> IsWordChar(r)
    ensures !('A' <= r <= 'Z')
  {
    if 'A' <= c <= 'Z' then (c as int + 32) as char else c
  }

  function Lower(s: string): (r: string)
    ensures |r| == |s|
    ensures forall i :: 0 <= i < |s| ==> r[i] == LowerChar(s[i])
  {
    seq(|s|, i requires 0 <= i < |s| => LowerChar(s[i]))
  }

  lemma {:induction false} LowerKeepsWord(s: string)
    requires IsWord(s)
    ensures IsWord(Lower(s))
  {
  }

  lemma {:induction false} WordHasNoTerminator(s: string)
    requires IsWord(s)
    ensures NoTerminator(s)
    ensures forall i :: 0 <= i < |s| ==> !IsSpace(s[i])
  {
  }

  predicate StartsWith(s: string, prefix: string) {
    |prefix| <= |s| && s[..|prefix|] == prefix
  }

  /** `sub` occurs in `s` at position `k`. */
  predicate OccursAt(s: string, sub: string, k: int) {
    0 <= k && k + |sub| <= |s| && s[k..k + |sub|] == sub
  }

  /** `s.indexOf(sub) != -1`. */
  predicate Contains(s: string, sub: string) {
    exists k :: 0 <= k <= |s| && OccursAt(s, sub, k)
  }

  lemma {:induction false} ContainsInside(a: string, sub: string, b: string)
    ensures Contains(a + sub + b, sub)
  {
    var s := a + sub + b;
    assert s[|a|..|a| + |sub|] == sub;
    assert OccursAt(s, sub, |a|);
  }

  /** `s.substring(start)` with a non-negative start: clamped to the length. */
  function SubstringFrom(s: string, start: nat): (r: string)
    ensures start <= |s| ==> s == s[..start] + r
    ensures start >= |s| ==> r == ""
  {
    if start <= |s| then s[start..] else ""
  }

  /** Position `k` of `s` is where a multiline `^` matches. */
  predicate IsLineStart(s: string, k: int) {
    k == 0 || (0 < k <= |s| && IsLineTerminator(s[k - 1]))
  }

  /** The end of the line holding position `k`: where a greedy `.*` from `k` stops. */
  function LineEnd(s: string, k: nat): (e: nat)
    requires k <= |s|
    ensures k <= e <= |s|
    ensures e == |s| || IsLineTerminator(s[e])
    ensures forall i :: k <= i < e ==> !IsLineTerminator(s[i])
    decreases |s| - k
  {
    if k == |s| || IsLineTerminator(s[k]) then k else LineEnd(s, k + 1)
  }

  /** `prefix` begins a line of `s` at `k`: `^prefix` under the `m` flag matches there. */
  predicate PrefixAt(s: string, prefix: string, k: int) {
    IsLineStart(s, k) && 0 <= k && k + |prefix| <= |s| && s[k..k + |prefix|] == prefix
  }

  /** The first line of `s`, from position `from` on, that begins with `prefix`. */
  function FindLine(s: string, prefix: string, from: nat): (r: Option<nat>)
    requires from <= |s|
    ensures r.Some? ==> from <= r.value <= |s| && PrefixAt(s, prefix, r.value)
    ensures r.Some? ==> forall k :: from <= k < r.value ==> !PrefixAt(s, prefix, k)
    ensures r.None? ==> forall k :: from <= k <= |s| ==> !PrefixAt(s, prefix, k)
    decreases |s| - from
  {
    if PrefixAt(s, prefix, from) then Some(from)
    else if from == |s| then None
    else FindLine(s, prefix, from + 1)
  }

  /** `s.split(sep)` where `sep` is a one-character class: every separator closes a part. */
  function Split(s: string, isSep: char -> bool): (parts: seq<string>)
    ensures |parts| >= 1
    ensures |parts| == 1 <==> forall i :: 0 <= i < |s| ==> !isSep(s[i])
    decreases |s|
  {
    if |s| == 0 then [""]
    else
      var rest := Split(s[1..], isSep);
      if isSep(s[0]) then [""] + rest
      else [[s[0]] + rest[0]] + rest[1..]
  }

  /** The last part that `Split` yields. */
  function LastPart(s: string, isSep: char -> bool): string {
    var parts := Split(s, isSep);
    parts[|parts| - 1]
  }

  /** The last part is the longest suffix without a separator. */
  lemma {:induction false} LastPartIsSuffix(s: string, isSep: char -> bool)
    ensures var t := LastPart(s, isSep);
      |t| <= |s| && s[|s| - |t|..] == t
      && (forall i :: 0 <= i < |t| ==> !isSep(t[i]))
      && (|t| == |s| || isSep(s[|s| - |t| - 1]))
    decreases |s|
  {
    if |s| > 0 {
      LastPartIsSuffix(s[1..], isSep);
      var rest := Split(s[1..], isSep);
      if isSep(s[0]) {
        assert Split(s, isSep) == [""] + rest;
      } else {
        var parts := [[s[0]] + rest[0]] + rest[1..];
        assert Split(s, isSep) == parts;
        if |rest| == 1 {
          SplitNoSep(s[1..], isSep);
          assert LastPart(s, isSep) == [s[0]] + s[1..] == s;
        } else {
          var t := rest[|rest| - 1];
          assert LastPart(s, isSep) == t;
          var s' := s[1..];
          assert s[|s| - |t|..] == s'[|s'| - |t|..];
          assert s[|s| - |t| - 1] == s'[|s'| - |t| - 1];
        }
      }
    }
  }

  /** The last part is empty exactly when the text is empty or ends with a separator. */
  lemma {:induction false} LastPartEmpty(s: string, isSep: char -> bool)
    ensures LastPart(s, isSep) == "" <==> (|s| == 0 || isSep(s[|s| - 1]))
  {
    LastPartIsSuffix(s, isSep);
  }

  /** Parts joined back with the character `sep` between them. */
  function Join(parts: seq<string>, sep: char): (s: string)
    requires |parts| >= 1
    decreases |parts|
  {
    if |parts| == 1 then parts[0] else parts[0] + [sep] + Join(parts[1..], sep)
  }

  lemma {:induction false} SplitNoSep(s: string, isSep: char -> bool)
    requires forall i :: 0 <= i < |s| ==> !isSep(s[i])
    ensures Split(s, isSep) == [s]
    decreases |s|
  {
    if |s| > 0 {
      SplitNoSep(s[1..], isSep);
      assert [s[0]] + s[1..] == s;
    }
  }

  lemma {:induction false} SplitAppendSep(a: string, b: string, sep: char)
    requires forall i :: 0 <= i < |a| ==> a[i] != sep
    ensures Split(a + [sep] + b, c => c == sep) == [a] + Split(b, c => c == sep)
    decreases |a|
  {
    var isSep: char -> bool := c => c == sep;
    if |a| == 0 {
      assert a + [sep] + b == [sep] + b;
      assert ([sep] + b)[1..] == b;
    } else {
      SplitAppendSep(a[1..], b, sep);
      var s := a + [sep] + b;
      assert s[0] == a[0];
      assert s[1..] == a[1..] + [sep] + b;
      assert [a[0]] + a[1..] == a;
    }
  }

  /** Splitting undoes joining when no part holds the separator. */
  lemma {:induction false} SplitJoin(parts: seq<string>, sep: char)
    requires |parts| >= 1
    requires forall k, i :: 0 <= k < |parts| && 0 <= i < |parts[k]| ==> parts[k][i] != sep
    ensures Split(Join(parts, sep), c => c == sep) == parts
    decreases |parts|
  {
    if |parts| == 1 {
      SplitNoSep(parts[0], c => c == sep);
    } else {
      assert forall i :: 0 <= i < |parts[0]| ==> parts[0][i] != sep;
      SplitJoin(parts[1..], sep);
      SplitAppendSep(parts[0], Join(parts[1..], sep), sep);
      assert [parts[0]] + parts[1..] == parts;
    }
  }
}
