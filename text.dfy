/** The string operations of Go's `strings` and `path/filepath` packages that
    the collectors rely on, over Dafny strings. */
module Text {
  import opened Wrappers

  /** `sub` occurs in `s` starting at index `i`. */
  predicate OccursAt(s: string, sub: string, i: int) {
    0 <= i && i + |sub| <= |s| && s[i..i + |sub|] == sub
  }

  /** `strings.Contains(s, sub)`. */
  predicate Contains(s: string, sub: string) {
    exists i | 0 <= i <= |s| - |sub| :: OccursAt(s, sub, i)
  }

  /** The first occurrence of `sub` in `s` at or after index `k` (`strings.Index` for k = 0). */
  function IndexFrom(s: string, sub: string, k: nat): (r: Option<nat>)
    ensures r.Some? ==> k <= r.value && OccursAt(s, sub, r.value)
    ensures r.Some? ==> forall i :: k <= i < r.value ==> !OccursAt(s, sub, i)
    ensures r.None? ==> forall i :: k <= i ==> !OccursAt(s, sub, i)
    decreases |s| - k
  {
    if k + |sub| > |s| then None
    else if s[k..k + |sub|] == sub then Some(k)
    else IndexFrom(s, sub, k + 1)
  }

  /** `strings.Contains` agrees with the search for a first occurrence. */
  lemma ContainsIffFound(s: string, sub: string)
    ensures Contains(s, sub) <==> IndexFrom(s, sub, 0).Some?
  {
    var r := IndexFrom(s, sub, 0);
    if r.Some? {
      assert OccursAt(s, sub, r.value);
    }
  }

  /** `strings.Split(s, sep)` for a non-empty separator: the pieces between the
      leftmost non-overlapping occurrences of `sep`. */
  function Split(s: string, sep: string): (parts: seq<string>)
    requires |sep| > 0
    ensures |parts| >= 1
    decreases |s|
  {
    match IndexFrom(s, sep, 0)
    case None => [s]
    case Some(i) => [s[..i]] + Split(s[i + |sep|..], sep)
  }

  /** `strings.Join(parts, sep)`. */
  function Join(parts: seq<string>, sep: string): string
    decreases |parts|
  {
    if |parts| == 0 then ""
    else if |parts| == 1 then parts[0]
    else parts[0] + sep + Join(parts[1..], sep)
  }

  lemma JoinCons(head: string, tail: seq<string>, sep: string)
    requires |tail| >= 1
    ensures Join([head] + tail, sep) == head + sep + Join(tail, sep)
  {
    assert ([head] + tail)[1..] == tail;
  }

  /** Joining the pieces with the separator gives back the input. */
  lemma {:induction false} SplitJoin(s: string, sep: string)
    requires |sep| > 0
    ensures Join(Split(s, sep), sep) == s
    decreases |s|
  {
    var r := IndexFrom(s, sep, 0);
    if r.Some? {
      var i := r.value;
      var head, rest := s[..i], s[i + |sep|..];
      var tail := Split(rest, sep);
      assert Split(s, sep) == [head] + tail;
      SplitJoin(rest, sep);
      JoinCons(head, tail, sep);
      assert OccursAt(s, sep, i);
      SliceAround(s, i, i + |sep|);
    }
  }

  lemma SliceAround(s: string, i: nat, j: nat)
    requires i <= j <= |s|
    ensures s == s[..i] + s[i..j] + s[j..]
  {
  }

  /** No piece of a split contains the separator. */
  lemma {:induction false} SplitPiecesFree(s: string, sep: string)
    requires |sep| > 0
    ensures forall p | p in Split(s, sep) :: !Contains(p, sep)
    decreases |s|
  {
    match IndexFrom(s, sep, 0)
    case None =>
      assert Split(s, sep) == [s];
    case Some(i) =>
      var rest := s[i + |sep|..];
      SplitPiecesFree(rest, sep);
      var head := s[..i];
      forall j | 0 <= j <= |head| - |sep| ensures !OccursAt(head, sep, j) {
        assert head[j..j + |sep|] == s[j..j + |sep|];
        assert !OccursAt(s, sep, j);
      }
      assert Split(s, sep) == [head] + Split(rest, sep);
  }

  /** The separator is absent exactly when the split has a single piece. */
  lemma SplitSingleIffAbsent(s: string, sep: string)
    requires |sep| > 0
    ensures !Contains(s, sep) <==> |Split(s, sep)| == 1
  {
    ContainsIffFound(s, sep);
    match IndexFrom(s, sep, 0)
    case None =>
    case Some(i) =>
      assert |Split(s[i + |sep|..], sep)| >= 1;
  }

  /** Splitting on one character: a first piece free of it comes off whole. */
  lemma SplitCharCons(head: string, c: char, rest: string)
    requires c !in head
    ensures Split(head + [c] + rest, [c]) == [head] + Split(rest, [c])
  {
    var s := head + [c] + rest;
    assert OccursAt(s, [c], |head|) by { assert s[|head|..|head| + 1] == [c]; }
    forall i | 0 <= i < |head| ensures !OccursAt(s, [c], i) {
      assert s[i..i + 1] == [head[i]];
    }
    match IndexFrom(s, [c], 0)
    case None =>
      assert false;
    case Some(i) =>
      assert s[..i] == head && s[i + 1..] == rest;
  }

  /** Splitting the empty string gives one empty piece. */
  lemma SplitEmpty(sep: string)
    requires |sep| > 0
    ensures Split("", sep) == [""]
  {
    match IndexFrom("", sep, 0)
    case None =>
    case Some(i) =>
      assert false;
  }

  /** Three lines free of line breaks, each ended by "\n", split into the three and a final empty piece. */
  lemma SplitThreeLines(l1: string, l2: string, l3: string)
    requires '\n' !in l1 && '\n' !in l2 && '\n' !in l3
    ensures Split(l1 + "\n" + l2 + "\n" + l3 + "\n", "\n") == [l1, l2, l3, ""]
  {
    var t3 := l3 + ['\n'] + "";
    var t2 := l2 + ['\n'] + t3;
    var t1 := l1 + ['\n'] + t2;
    assert l1 + "\n" + l2 + "\n" + l3 + "\n" == t1;
    SplitEmpty("\n");
    SplitCharCons(l3, '\n', "");
    SplitCharCons(l2, '\n', t3);
    SplitCharCons(l1, '\n', t2);
  }

  /** `os.IsPathSeparator` on Windows. */
  predicate IsPathSeparator(c: char) {
    c == '\\' || c == '/'
  }

  /** The extension that `filepath.Ext` finds when it scans `path` back from index `n`. */
  function ExtBefore(path: string, n: nat): (e: string)
    requires n <= |path|
    ensures |e| <= |path|
    decreases n
  {
    if n == 0 then ""
    else if IsPathSeparator(path[n - 1]) then ""
    else if path[n - 1] == '.' then path[n - 1..]
    else ExtBefore(path, n - 1)
  }

  /** The scan back from `n` stops at the first '.' or separator: a found
      extension is the suffix from a '.' before `n` with neither a '.' nor a
      separator after it up to `n`; no extension means every '.' before `n` has
      a separator after it. */
  lemma {:induction false} ExtBeforeShape(path: string, n: nat)
    requires n <= |path|
    ensures var e := ExtBefore(path, n);
      && (e != "" ==> |path| - n < |e| && e == path[|path| - |e|..] && e[0] == '.')
      && (e != "" ==> forall k | |path| - |e| < k < n :: path[k] != '.' && !IsPathSeparator(path[k]))
      && (e == "" ==> forall k | 0 <= k < n :: (forall m | k <= m < n :: !IsPathSeparator(path[m])) ==> path[k] != '.')
    decreases n
  {
    if n > 0 && !IsPathSeparator(path[n - 1]) && path[n - 1] != '.' {
      ExtBeforeShape(path, n - 1);
    }
  }

  /** `filepath.Ext(path)` on Windows: the suffix from the last '.' of the final
      path element, or "" when that element has no '.'. */
  function Ext(path: string): (e: string)
    ensures |e| <= |path|
  {
    ExtBefore(path, |path|)
  }

  /** The extension is the suffix from the last '.' of the final path element. */
  lemma ExtShape(path: string)
    ensures var e := Ext(path);
      && (e != "" ==> e[0] == '.' && e == path[|path| - |e|..])
      && (e != "" ==> forall k | |path| - |e| < k < |path| :: path[k] != '.' && !IsPathSeparator(path[k]))
      && (e == "" ==> forall k | 0 <= k < |path| :: (forall m | k <= m < |path| :: !IsPathSeparator(path[m])) ==> path[k] != '.')
  {
    ExtBeforeShape(path, |path|);
  }

  /** Lower-casing of one character, on the ASCII letters. */
  function LowerChar(c: char): char {
    if 'A' <= c <= 'Z' then (c as int + 32) as char else c
  }

  /** `strings.ToLower`, restricted to ASCII letters. */
  function ToLower(s: string): (r: string)
    ensures |r| == |s|
    ensures forall k | 0 <= k < |s| :: r[k] == LowerChar(s[k])
  {
    seq(|s|, k requires 0 <= k < |s| => LowerChar(s[k]))
  }
}
