/**
 * The parts of Go's `strings` and `regexp` packages the builder relies on:
 * white-space classes, trimming, prefix/suffix tests, `strings.Index`,
 * `strings.Split`, `strings.SplitN(s, sep, 2)`, `strings.Replace(s, old,
 * new, -1)` and an ASCII `strings.ToUpper`. Strings are sequences of Unicode
 * scalar values.
 */
module Text {
  import opened Wrappers

  /** The white space of Go's `unicode.IsSpace`, which `strings.TrimSpace` strips. */
  predicate IsSpace(c: char) {
    || c == ' ' || c == '\t' || c == '\n' || c == '\U{B}' || c == '\U{C}' || c == '\r'
    || c == '\U{85}' || c == '\U{A0}' || c == '\U{1680}' || ('\U{2000}' <= c <= '\U{200A}')
    || c == '\U{2028}' || c == '\U{2029}' || c == '\U{202F}' || c == '\U{205F}' || c == '\U{3000}'
  }

  /** The class `\s` of Go's RE2 syntax: `[\t\n\f\r ]` (no vertical tab). */
  predicate IsRESpace(c: char) {
    c == ' ' || c == '\t' || c == '\n' || c == '\U{C}' || c == '\r'
  }

  /** How many times `c` occurs in `s`. */
  function Count(s: string, c: char): nat {
    if s == [] then 0 else (if s[0] == c then 1 else 0) + Count(s[1..], c)
  }

  lemma {:induction false} CountAppend(a: string, b: string, c: char)
    ensures Count(a + b, c) == Count(a, c) + Count(b, c)
    decreases |a|
  {
    if a != [] {
      assert (a + b)[1..] == a[1..] + b;
      CountAppend(a[1..], b, c);
    } else {
      assert a + b == b;
    }
  }

  lemma {:induction false} CountAbsent(s: string, c: char)
    requires c !in s
    ensures Count(s, c) == 0
    decreases |s|
  {
    if s != [] {
      CountAbsent(s[1..], c);
    }
  }

  /** Drops leading white space. */
  function TrimLeft(s: string): (r: string)
    ensures |r| <= |s| && r == s[|s| - |r|..]
    ensures forall i :: 0 <= i < |s| - |r| ==> IsSpace(s[i])
    ensures r == [] || !IsSpace(r[0])
  {
    if |s| > 0 && IsSpace(s[0]) then
      var r := TrimLeft(s[1..]);
      assert forall i :: 1 <= i < |s| - |r| ==> s[i] == s[1..][i - 1];
      assert s[1..][|s| - 1 - |r|..] == s[|s| - |r|..];
      r
    else s
  }

  /** Drops trailing white space. */
  function TrimRight(s: string): (r: string)
    ensures |r| <= |s| && r == s[..|r|]
    ensures forall i :: |r| <= i < |s| ==> IsSpace(s[i])
    ensures r == [] || !IsSpace(r[|r| - 1])
  {
    if |s| > 0 && IsSpace(s[|s| - 1]) then TrimRight(s[..|s| - 1]) else s
  }

  /** Neither end is white space. */
  predicate Trimmed(s: string) {
    s == [] || (!IsSpace(s[0]) && !IsSpace(s[|s| - 1]))
  }

  /** `strings.TrimSpace`: neither end of the result is white space. */
  function TrimSpace(s: string): (r: string)
    ensures |r| <= |s|
    ensures Trimmed(r)
  {
    TrimRight(TrimLeft(s))
  }

  /** Trimming a string whose ends are not white space changes nothing. */
  lemma TrimSpaceFixed(s: string)
    requires Trimmed(s)
    ensures TrimSpace(s) == s
  {
  }

  /** Trimming twice is trimming once. */
  lemma TrimSpaceIdem(s: string)
    ensures TrimSpace(TrimSpace(s)) == TrimSpace(s)
  {
    TrimSpaceFixed(TrimSpace(s));
  }

  /** Trimming removes only white space: every other character keeps its count. */
  lemma TrimSpaceKeepsChar(s: string, c: char)
    requires !IsSpace(c)
    ensures Count(TrimSpace(s), c) == Count(s, c)
  {
    TrimLeftKeepsChar(s, c);
    TrimRightKeepsChar(TrimLeft(s), c);
  }

  lemma {:induction false} TrimLeftKeepsChar(s: string, c: char)
    requires !IsSpace(c)
    ensures Count(TrimLeft(s), c) == Count(s, c)
    decreases |s|
  {
    if |s| > 0 && IsSpace(s[0]) {
      assert s[0] != c;
      TrimLeftKeepsChar(s[1..], c);
    }
  }

  lemma {:induction false} TrimRightKeepsChar(s: string, c: char)
    requires !IsSpace(c)
    ensures Count(TrimRight(s), c) == Count(s, c)
    decreases |s|
  {
    if |s| > 0 && IsSpace(s[|s| - 1]) {
      var init := s[..|s| - 1];
      assert s == init + [s[|s| - 1]];
      CountAppend(init, [s[|s| - 1]], c);
      assert s[|s| - 1] != c;
      TrimRightKeepsChar(init, c);
    }
  }

  /** Drops a leading run of `\s` characters. */
  function DropRESpace(s: string): (r: string)
    ensures |r| <= |s| && r == s[|s| - |r|..]
    ensures forall i :: 0 <= i < |s| - |r| ==> IsRESpace(s[i])
    ensures r == [] || !IsRESpace(r[0])
  {
    if |s| > 0 && IsRESpace(s[0]) then DropRESpace(s[1..]) else s
  }

  /** No `\s` character other than a single blank, and no two of them side by side. */
  predicate Collapsed(t: string) {
    forall i :: 0 <= i < |t| && IsRESpace(t[i]) ==> t[i] == ' ' && (i + 1 < |t| ==> !IsRESpace(t[i + 1]))
  }

  /** `regexp.MustCompile(`\s+`).ReplaceAllString(s, " ")`: each maximal run of `\s` becomes one blank. */
  function Collapse(s: string): (r: string)
    decreases |s|
    ensures Collapsed(r)
    ensures s == [] <==> r == []
    ensures s != [] ==> r[0] == (if IsRESpace(s[0]) then ' ' else s[0])
    ensures s != [] && !IsRESpace(s[|s| - 1]) ==> r[|r| - 1] == s[|s| - 1]
  {
    if s == [] then []
    else if IsRESpace(s[0]) then " " + Collapse(DropRESpace(s))
    else [s[0]] + Collapse(s[1..])
  }

  /** Collapsing rewrites only `\s` characters: every other character keeps its count. */
  lemma {:induction false} CollapseKeepsChar(s: string, c: char)
    requires !IsRESpace(c)
    ensures Count(Collapse(s), c) == Count(s, c)
    decreases |s|
  {
    if s != [] {
      if IsRESpace(s[0]) {
        var d := DropRESpace(s);
        var front := s[..|s| - |d|];
        assert s == front + d;
        CountAppend(front, d, c);
        CountAbsent(front, c);
        CountAppend(" ", Collapse(d), c);
        CollapseKeepsChar(d, c);
      } else {
        CountAppend([s[0]], Collapse(s[1..]), c);
        CollapseKeepsChar(s[1..], c);
      }
    }
  }

  /** Collapsing an already collapsed string is the identity. */
  lemma {:induction false} CollapseFixed(t: string)
    requires Collapsed(t)
    ensures Collapse(t) == t
    decreases |t|
  {
    if t != [] {
      CollapsedTail(t);
      CollapseFixed(t[1..]);
      CollapseFirst(t);
    }
  }

  /** A collapsed string collapses to its first character followed by what its tail collapses to. */
  lemma CollapseFirst(t: string)
    requires Collapsed(t) && t != []
    ensures Collapse(t) == [t[0]] + Collapse(t[1..])
  {
    var rest := t[1..];
    if IsRESpace(t[0]) {
      assert t[0] == ' ';
      assert rest == [] || !IsRESpace(rest[0]) by {
        if rest != [] {
          assert rest[0] == t[1];
        }
      }
      assert DropRESpace(t) == rest;
    }
  }

  /** What follows the first character of a collapsed string is collapsed. */
  lemma CollapsedTail(t: string)
    requires Collapsed(t) && t != []
    ensures Collapsed(t[1..])
  {
    var rest := t[1..];
    forall i | 0 <= i < |rest| && IsRESpace(rest[i])
      ensures rest[i] == ' ' && (i + 1 < |rest| ==> !IsRESpace(rest[i + 1]))
    {
      assert rest[i] == t[i + 1];
      assert i + 1 < |rest| ==> rest[i + 1] == t[i + 2];
    }
  }

  /** `strings.HasPrefix`. */
  predicate HasPrefix(s: string, p: string) {
    |p| <= |s| && s[..|p|] == p
  }

  /** `strings.HasSuffix`. */
  predicate HasSuffix(s: string, p: string) {
    |p| <= |s| && s[|s| - |p|..] == p
  }

  /** `p` occurs in `s` starting at index `j`. */
  predicate OccursAt(s: string, p: string, j: int) {
    0 <= j && j + |p| <= |s| && s[j..j + |p|] == p
  }

  lemma OccursAtTail(s: string, p: string, j: int)
    requires |s| > 0 && 0 <= j
    ensures OccursAt(s[1..], p, j) <==> OccursAt(s, p, j + 1)
  {
    if j + |p| <= |s| - 1 {
      assert s[1..][j..j + |p|] == s[j + 1..j + 1 + |p|];
    }
  }

  lemma OccursAtDrop(s: string, p: string, n: nat, j: int)
    requires n <= |s| && 0 <= j
    ensures OccursAt(s[n..], p, j) <==> OccursAt(s, p, n + j)
  {
    if j + |p| <= |s| - n {
      assert s[n..][j..j + |p|] == s[n + j..n + j + |p|];
    }
  }

  lemma OccursAtPrefix(s: string, p: string, n: nat, j: int)
    requires n <= |s|
    ensures OccursAt(s[..n], p, j) ==> OccursAt(s, p, j)
  {
    if OccursAt(s[..n], p, j) {
      assert s[..n][j..j + |p|] == s[j..j + |p|];
    }
  }

  /** When `p` does not start `s`, the occurrences in `s` are those in `s[1..]`, one index on. */
  lemma FirstOccStep(s: string, p: string)
    requires 0 < |p| <= |s| && s[..|p|] != p
    ensures !OccursAt(s, p, 0)
    ensures forall j :: 1 <= j ==> (OccursAt(s, p, j) <==> OccursAt(s[1..], p, j - 1))
  {
    forall j | 1 <= j ensures OccursAt(s, p, j) <==> OccursAt(s[1..], p, j - 1) {
      OccursAtTail(s, p, j - 1);
    }
  }

  /** The index of the leftmost occurrence of `p` in `s` (`strings.Index`). */
  function FirstOcc(s: string, p: string): (r: Option<nat>)
    requires |p| > 0
    decreases |s|
    ensures r.Some? ==> OccursAt(s, p, r.value)
    ensures r.Some? ==> forall j :: 0 <= j < r.value ==> !OccursAt(s, p, j)
    ensures r.None? ==> forall j :: !OccursAt(s, p, j)
  {
    if |s| < |p| then None
    else if s[..|p|] == p then Some(0)
    else
      var rest := FirstOcc(s[1..], p);
      FirstOccStep(s, p);
      match rest
      case None => None
      case Some(i) => Some(i + 1)
  }

  /** An occurrence anywhere means the search finds one at or before it. */
  lemma FirstOccFound(s: string, p: string, j: nat)
    requires |p| > 0 && OccursAt(s, p, j)
    ensures FirstOcc(s, p).Some? && FirstOcc(s, p).value <= j
  {
  }

  /** A prefix that ends before the first occurrence holds no occurrence. */
  lemma FirstOccPrefix(s: string, p: string, n: nat)
    requires |p| > 0 && n <= |s|
    requires forall j :: 0 <= j < n ==> !OccursAt(s, p, j)
    ensures FirstOcc(s[..n], p).None?
  {
    forall j ensures !OccursAt(s[..n], p, j) {
      OccursAtPrefix(s, p, n, j);
    }
  }

  /** For a one-character pattern the search finds the first index of that character. */
  lemma FirstOccChar(s: string, c: char)
    ensures c !in s <==> FirstOcc(s, [c]).None?
    ensures c in s ==> s[FirstOcc(s, [c]).value] == c && c !in s[..FirstOcc(s, [c]).value]
  {
    if c in s {
      var j :| 0 <= j < |s| && s[j] == c;
      assert OccursAt(s, [c], j);
      FirstOccFound(s, [c], j);
      var i := FirstOcc(s, [c]).value;
      assert s[i..i + 1] == [c];
      forall k | 0 <= k < i ensures s[k] != c {
        assert !OccursAt(s, [c], k);
        assert s[k..k + 1] == [s[k]];
      }
    } else {
      forall j | 0 <= j < |s| ensures !OccursAt(s, [c], j) {
        assert s[j..j + 1] == [s[j]];
      }
    }
  }

  /** `strings.Split(s, sep)` for a non-empty separator. */
  function Split(s: string, sep: string): (r: seq<string>)
    requires |sep| > 0
    decreases |s|
    ensures |r| >= 1
  {
    match FirstOcc(s, sep)
    case None => [s]
    case Some(i) => [s[..i]] + Split(s[i + |sep|..], sep)
  }

  /** The pieces joined back with the separator (`strings.Join`). */
  function Join(parts: seq<string>, sep: string): string {
    if |parts| == 0 then ""
    else if |parts| == 1 then parts[0]
    else parts[0] + sep + Join(parts[1..], sep)
  }

  /** An occurrence cuts the text into what lies before it, the pattern, and what follows. */
  lemma OccursSplit(s: string, p: string, i: nat)
    requires OccursAt(s, p, i)
    ensures s == s[..i] + p + s[i + |p|..]
  {
    assert s == s[..i] + s[i..i + |p|] + s[i + |p|..];
  }

  /** Splitting loses nothing, and no piece still holds the separator. */
  lemma {:induction false} SplitJoin(s: string, sep: string)
    requires |sep| > 0
    ensures Join(Split(s, sep), sep) == s
    ensures forall k :: 0 <= k < |Split(s, sep)| ==> FirstOcc(Split(s, sep)[k], sep).None?
    decreases |s|
  {
    match FirstOcc(s, sep)
    case None =>
    case Some(i) =>
      var rest := s[i + |sep|..];
      var tail := Split(rest, sep);
      SplitJoin(rest, sep);
      FirstOccPrefix(s, sep, i);
      var parts := Split(s, sep);
      assert parts[0] == s[..i] && parts[1..] == tail;
      OccursSplit(s, sep, i);
      forall k | 0 < k < |parts| ensures FirstOcc(parts[k], sep).None? {
        assert parts[k] == tail[k - 1];
      }
  }

  /** The first piece of a split on one character is the text before that character. */
  lemma SplitFirstPiece(s: string, c: char)
    ensures c !in Split(s, [c])[0]
    ensures HasPrefix(s, Split(s, [c])[0])
    ensures |Split(s, [c])[0]| < |s| ==> s[|Split(s, [c])[0]|] == c
  {
    FirstOccChar(s, c);
  }

  /** In `a + [c] + b`, where `a` has no `c`, the first `c` is the one after `a`. */
  lemma FirstOccAt(a: string, c: char, b: string)
    requires c !in a
    ensures FirstOcc(a + [c] + b, [c]) == Some(|a|)
  {
    var s := a + [c] + b;
    assert s[|a|] == c;
    FirstOccChar(s, c);
  }

  /** Splitting `a + [c] + b` on `c`, where `a` has no `c`, yields `a` and then the pieces of `b`. */
  lemma SplitCons(a: string, c: char, b: string)
    requires c !in a
    ensures Split(a + [c] + b, [c]) == [a] + Split(b, [c])
  {
    var s := a + [c] + b;
    FirstOccAt(a, c, b);
    assert s[..|a|] == a;
    assert s[|a| + 1..] == b;
  }

  /** A string without the character is a single piece. */
  lemma SplitNone(s: string, c: char)
    requires c !in s
    ensures Split(s, [c]) == [s]
  {
    FirstOccChar(s, c);
  }

  /** `strings.SplitN(s, sep, 2)`: the text before the first separator and all that follows it. */
  function SplitN2(s: string, sep: string): (r: seq<string>)
    requires |sep| > 0
    ensures 1 <= |r| <= 2
    ensures |r| == 1 <==> FirstOcc(s, sep).None?
    ensures |r| == 1 ==> r[0] == s
    ensures |r| == 2 ==> s == r[0] + sep + r[1] && FirstOcc(r[0], sep).None?
  {
    match FirstOcc(s, sep)
    case None => [s]
    case Some(i) =>
      assert s == s[..i] + sep + s[i + |sep|..];
      FirstOccPrefix(s, sep, i);
      [s[..i], s[i + |sep|..]]
  }

  /** Cutting `a + [c] + b` at its first `c`, where `a` has no `c`, yields `a` and `b`. */
  lemma SplitN2At(a: string, c: char, b: string)
    requires c !in a
    ensures SplitN2(a + [c] + b, [c]) == [a, b]
  {
    var s := a + [c] + b;
    FirstOccAt(a, c, b);
    assert s[..|a|] == a;
    assert s[|a| + 1..] == b;
  }

  /** `strings.Replace(s, p, r, -1)`: leftmost, non-overlapping occurrences of `p` become `r`. */
  function ReplaceAll(s: string, p: string, r: string): string
    requires |p| > 0
    decreases |s|
  {
    if |s| < |p| then s
    else if s[..|p|] == p then r + ReplaceAll(s[|p|..], p, r)
    else [s[0]] + ReplaceAll(s[1..], p, r)
  }

  /** Without an occurrence of the pattern nothing is replaced. */
  lemma {:induction false} ReplaceAllNone(s: string, p: string, r: string)
    requires |p| > 0 && FirstOcc(s, p).None?
    ensures ReplaceAll(s, p, r) == s
    decreases |s|
  {
    if |s| >= |p| {
      assert !OccursAt(s, p, 0);
      assert FirstOcc(s[1..], p).None? by {
        forall j | 0 <= j ensures !OccursAt(s[1..], p, j) {
          OccursAtTail(s, p, j);
        }
      }
      ReplaceAllNone(s[1..], p, r);
      assert s == [s[0]] + s[1..];
    }
  }

  /**
   * The leftmost occurrence is replaced, the text before it is kept, and
   * replacing continues after it: every occurrence met this way receives
   * the same replacement.
   */
  lemma {:induction false} ReplaceAllFirst(s: string, p: string, r: string, i: nat)
    requires |p| > 0 && FirstOcc(s, p) == Some(i)
    ensures i + |p| <= |s|
    ensures ReplaceAll(s, p, r) == s[..i] + r + ReplaceAll(s[i + |p|..], p, r)
    decreases |s|
  {
    if s[..|p|] == p {
      ReplaceAllAtStart(s, p, r);
    } else {
      FirstOccShift(s, p);
      var i' := FirstOcc(s[1..], p).value;
      ReplaceAllFirst(s[1..], p, r, i');
      ReplaceAllShift(s, p, r, i, i');
    }
  }

  /** The same, for an occurrence with none before it. */
  lemma ReplaceAllAtFirst(s: string, p: string, r: string, i: nat, e: nat)
    requires |p| > 0 && OccursAt(s, p, i) && e == i + |p|
    requires forall j :: 0 <= j < i ==> !OccursAt(s, p, j)
    ensures e <= |s| && ReplaceAll(s, p, r) == s[..i] + r + ReplaceAll(s[e..], p, r)
  {
    FirstOccFound(s, p, i);
    assert !OccursAt(s, p, FirstOcc(s, p).value) || FirstOcc(s, p).value >= i;
    ReplaceAllFirst(s, p, r, i);
    assert s[i + |p|..] == s[e..];
  }

  /** When the text does not start with the pattern, the search goes on one character later. */
  lemma FirstOccShift(s: string, p: string)
    requires |p| > 0 && |p| <= |s| && s[..|p|] != p && FirstOcc(s, p).Some?
    ensures FirstOcc(s[1..], p).Some? && FirstOcc(s, p).value == FirstOcc(s[1..], p).value + 1
  {
  }

  /** A text that starts with the pattern: the replacement, then the rest replaced. */
  lemma ReplaceAllAtStart(s: string, p: string, r: string)
    requires |p| > 0 && |p| <= |s| && s[..|p|] == p
    ensures FirstOcc(s, p) == Some(0)
    ensures ReplaceAll(s, p, r) == s[..0] + r + ReplaceAll(s[0 + |p|..], p, r)
  {
    assert s[..0] + r == r;
  }

  /** One step of the replacement when the text does not start with the pattern. */
  lemma {:induction false} ReplaceAllShift(s: string, p: string, r: string, i: nat, i': nat)
    requires |p| > 0 && |s| >= |p| && s[..|p|] != p && i == i' + 1 && i' + |p| <= |s| - 1
    requires ReplaceAll(s[1..], p, r) == s[1..][..i'] + r + ReplaceAll(s[1..][i' + |p|..], p, r)
    ensures ReplaceAll(s, p, r) == s[..i] + r + ReplaceAll(s[i + |p|..], p, r)
  {
    var t := ReplaceAll(s[1..], p, r);
    var y := ReplaceAll(s[i + |p|..], p, r);
    assert ReplaceAll(s, p, r) == [s[0]] + t by { ReplaceAllSkip(s, p, r); }
    assert t == s[1..][..i'] + r + y && [s[0]] + s[1..][..i'] == s[..i] by { SliceShift(s, i', i' + |p|); }
    assert ReplaceAll(s, p, r) == s[..i] + r + y by {
      Regroup(ReplaceAll(s, p, r), s[0], t, s[1..][..i'], r, y, s[..i]);
    }
  }

  lemma Regroup(a: string, x: char, t: string, u: string, r: string, y: string, pre: string)
    requires a == [x] + t && t == u + r + y && pre == [x] + u
    ensures a == pre + r + y
  {
  }

  /** Slicing after dropping the first character. */
  lemma SliceShift(s: string, j: nat, k: nat)
    requires j <= k < |s|
    ensures s[1..][k..] == s[k + 1..]
    ensures [s[0]] + s[1..][..j] == s[..j + 1]
  {
  }

  /** A text without the pattern's first character is left as it is. */
  lemma {:induction false} ReplaceAllNoHead(s: string, p: string, r: string)
    requires |p| > 0 && p[0] !in s
    ensures ReplaceAll(s, p, r) == s
    decreases |s|
  {
    if |s| >= |p| {
      assert s[0] in s;
      assert s[..|p|][0] == s[0];
      ReplaceAllNoHead(s[1..], p, r);
      assert s == [s[0]] + s[1..];
    }
  }

  /** A text that does not start with the pattern keeps its first character. */
  lemma ReplaceAllSkip(s: string, p: string, r: string)
    requires |p| > 0 && |s| >= |p| && s[..|p|] != p
    ensures ReplaceAll(s, p, r) == [s[0]] + ReplaceAll(s[1..], p, r)
  {
  }

  /** Replacing a character in a one-character text. */
  lemma ReplaceOneChar(x: char, c: char, r: string)
    ensures ReplaceAll([x], [c], r) == if x == c then r else [x]
  {
    assert [x][..1] == [x] && [x][1..] == [];
  }

  /** For a one-character pattern, replacement distributes over concatenation. */
  lemma {:induction false} ReplaceCharAppend(a: string, b: string, c: char, r: string)
    ensures ReplaceAll(a + b, [c], r) == ReplaceAll(a, [c], r) + ReplaceAll(b, [c], r)
    decreases |a|
  {
    if a != [] {
      assert (a + b)[1..] == a[1..] + b;
      assert (a + b)[..1] == a[..1];
      ReplaceCharAppend(a[1..], b, c, r);
    } else {
      assert a + b == b;
    }
  }

  /**
   * Replacing cannot raise the number of copies of `c` when the replacement
   * holds no more of them than the pattern, and lowers it when it holds fewer
   * and the pattern occurs.
   */
  lemma {:induction false} ReplaceAllCount(s: string, p: string, r: string, c: char)
    requires |p| > 0 && Count(r, c) <= Count(p, c)
    ensures Count(ReplaceAll(s, p, r), c) <= Count(s, c)
    ensures FirstOcc(s, p).Some? && Count(r, c) < Count(p, c) ==>
              Count(ReplaceAll(s, p, r), c) < Count(s, c)
    decreases |s|
  {
    if |s| >= |p| {
      if s[..|p|] == p {
        ReplaceAllCount(s[|p|..], p, r, c);
        assert s == s[..|p|] + s[|p|..];
        CountAppend(s[..|p|], s[|p|..], c);
        CountAppend(r, ReplaceAll(s[|p|..], p, r), c);
      } else {
        ReplaceAllCount(s[1..], p, r, c);
        CountAppend([s[0]], ReplaceAll(s[1..], p, r), c);
      }
    }
  }

  /** Go's `unicode.ToUpper` restricted to ASCII letters. */
  function UpperChar(c: char): char {
    if 'a' <= c <= 'z' then (c as int - 32) as char else c
  }

  /** `strings.ToUpper` for ASCII text: each character in place, letters raised. */
  function ToUpper(s: string): (r: string)
    ensures |r| == |s|
    ensures forall i :: 0 <= i < |s| ==> r[i] == UpperChar(s[i])
  {
    seq(|s|, i requires 0 <= i < |s| => UpperChar(s[i]))
  }

  /** Upper-cased text has no lower-case ASCII letter left, so raising it again changes nothing. */
  lemma ToUpperIdem(s: string)
    ensures forall i :: 0 <= i < |ToUpper(s)| ==> !('a' <= ToUpper(s)[i] <= 'z')
    ensures ToUpper(ToUpper(s)) == ToUpper(s)
  {
  }
}
