/**
 * One build job (`job/job.go`): assembling a page from its file and the
 * files it includes with `[% PROCESS "name" %]`, translating every
 * `{{ text }}` marker with a catalog, the macro table and command fix-up of
 * the post-processing step, and the cache of assembled pages.
 */
module Job {
  import opened Wrappers
  import opened Text
  import Sorting
  import Po
  import FileUtil

  // ---------------------------------------------------------------------
  // Outcomes

  /** Why a job stops the program (`log.Fatalf`). */
  datatype Failure = ReadFailed(path: string, message: string) | CommandFailed(cmd: string, message: string)

  /**
   * How a step ends: with a value, with a fatal error, or, for the include
   * expansion whose Go loop need not end, with its step budget spent.
   */
  datatype Outcome<T> = Done(value: T) | Fatal(failure: Failure) | OutOfFuel

  // ---------------------------------------------------------------------
  // `[% PROCESS "name" %]`, matched as `\[\%\s*PROCESS\s*"(.*?)"\s*\%\]`

  /** Where a directive starts and ends, and the name it includes. */
  datatype Directive = Directive(start: nat, end: nat, name: string)

  /** `\s*`: the index just past the run of `\s` characters that starts at `i`. */
  function SkipSpace(s: string, i: nat): (j: nat)
    requires i <= |s|
    ensures i <= j <= |s|
    ensures j == |s| || !IsRESpace(s[j])
    decreases |s| - i
  {
    if i < |s| && IsRESpace(s[i]) then SkipSpace(s, i + 1) else i
  }

  /** Everything `SkipSpace` skips is `\s`: the run it skips is the longest one. */
  lemma {:induction false} SkipSpaceRun(s: string, i: nat)
    requires i <= |s|
    ensures forall k :: i <= k < SkipSpace(s, i) ==> IsRESpace(s[k])
    decreases |s| - i
  {
    if i < |s| && IsRESpace(s[i]) {
      SkipSpaceRun(s, i + 1);
    }
  }

  /** `"\s*%]` at `k`: the index just past the directive, when it closes there. */
  function CloseAt(s: string, k: nat): (r: Option<nat>)
    requires k <= |s|
    ensures r.Some? ==> k < r.value <= |s| && s[k] == '"'
  {
    if k < |s| && s[k] == '"' then
      var j := SkipSpace(s, k + 1);
      if j + 2 <= |s| && s[j..j + 2] == "%]" then Some(j + 2) else None
    else None
  }

  /**
   * `(.*?)` followed by the closing, searched from `k` on: the first index
   * where the directive closes, reached without crossing a newline, and the
   * end of the directive.
   */
  function LazyName(s: string, k: nat): (r: Option<(nat, nat)>)
    requires k <= |s|
    ensures r.Some? ==> k <= r.value.0 <= |s| && CloseAt(s, r.value.0) == Some(r.value.1)
    ensures r.Some? ==> '\n' !in s[k..r.value.0]
    decreases |s| - k
  {
    if CloseAt(s, k).Some? then Some((k, CloseAt(s, k).value))
    else if k < |s| && s[k] != '\n' then
      var r := LazyName(s, k + 1);
      assert r.Some? ==> s[k..r.value.0] == [s[k]] + s[k + 1..r.value.0];
      r
    else None
  }

  /** `(.*?)` is lazy: the directive closes at the first place it can. */
  lemma {:induction false} LazyNameFirst(s: string, k: nat)
    requires k <= |s| && LazyName(s, k).Some?
    ensures forall m :: k <= m < LazyName(s, k).value.0 ==> CloseAt(s, m).None?
    decreases |s| - k
  {
    if CloseAt(s, k).None? {
      LazyNameFirst(s, k + 1);
    }
  }

  /** The directive that matches at `i`, if one does. */
  function MatchAt(s: string, i: nat): (r: Option<Directive>)
    requires i <= |s|
    ensures r.Some? ==> r.value.start == i && i + 2 < r.value.end <= |s| && s[i..i + 2] == "[%"
    ensures r.Some? ==> '\n' !in r.value.name
  {
    if i + 2 <= |s| && s[i..i + 2] == "[%" then
      var j := SkipSpace(s, i + 2);
      if j + 7 <= |s| && s[j..j + 7] == "PROCESS" then
        var q := SkipSpace(s, j + 7);
        if q < |s| && s[q] == '"' then
          match LazyName(s, q + 1)
          case None => None
          case Some((k, e)) => Some(Directive(i, e, s[q + 1..k]))
        else None
      else None
    else None
  }

  /** The leftmost directive at or after `i`, as `FindStringSubmatch` reports it. */
  function FindDirective(s: string, i: nat): (r: Option<Directive>)
    requires i <= |s|
    ensures r.Some? ==> i <= r.value.start <= |s| && MatchAt(s, r.value.start) == r
    decreases |s| - i
  {
    if MatchAt(s, i).Some? then MatchAt(s, i)
    else if i == |s| then None
    else FindDirective(s, i + 1)
  }

  /** A position where no directive matches passes the search on to the next one. */
  lemma FindDirectiveNext(s: string, i: nat)
    requires i < |s| && MatchAt(s, i).None?
    ensures FindDirective(s, i) == FindDirective(s, i + 1)
  {
  }

  /** The directive found is the leftmost one. */
  lemma {:induction false} FindDirectiveLeftmost(s: string, i: nat)
    requires i <= |s| && FindDirective(s, i).Some?
    ensures forall j :: i <= j < FindDirective(s, i).value.start ==> MatchAt(s, j).None?
    decreases |s| - i
  {
    if MatchAt(s, i).None? {
      FindDirectiveNext(s, i);
      FindDirectiveLeftmost(s, i + 1);
      assert FindDirective(s, i).value.start == FindDirective(s, i + 1).value.start;
    } else {
      assert FindDirective(s, i).value.start == i;
    }
  }

  /** When no directive is found, no position matches. */
  lemma {:induction false} FindDirectiveNone(s: string, i: nat)
    requires i <= |s| && FindDirective(s, i).None?
    ensures forall j :: i <= j <= |s| ==> MatchAt(s, j).None?
    decreases |s| - i
  {
    if i < |s| {
      FindDirectiveNext(s, i);
      FindDirectiveNone(s, i + 1);
    }
  }

  /** A text holds no directive. */
  predicate NoDirective(s: string) {
    FindDirective(s, 0).None?
  }

  /** The text of the directive that includes `name`, written the usual way. */
  function DirectiveText(name: string): string {
    "[% PROCESS \"" + name + "\" %]"
  }

  lemma {:induction false} LazyNameAt(s: string, k: nat, close: nat)
    requires k <= close < |s| && s[close] == '"'
    requires forall m :: k <= m < close ==> s[m] != '"' && s[m] != '\n'
    requires CloseAt(s, close).Some?
    ensures LazyName(s, k) == Some((close, CloseAt(s, close).value))
    decreases close - k
  {
    if k < close {
      LazyNameAt(s, k + 1, close);
    }
  }

  /** A directive written the usual way, at the start of a text, is found there and names its file. */
  lemma DirectiveTextMatches(name: string, rest: string)
    requires '"' !in name && '\n' !in name
    ensures var s := DirectiveText(name) + rest;
            FindDirective(s, 0) == Some(Directive(0, |DirectiveText(name)|, name))
  {
    var d := DirectiveText(name);
    var s := d + rest;
    var n := |name|;
    assert d == "[% PROCESS \"" + name + "\" %]";
    assert s[0..2] == "[%";
    assert s[2] == ' ' && s[3] == 'P';
    assert SkipSpace(s, 2) == 3 by {
      assert SkipSpace(s, 3) == 3;
    }
    assert s[3..10] == "PROCESS";
    assert s[10] == ' ' && s[11] == '"';
    assert SkipSpace(s, 10) == 11 by {
      assert SkipSpace(s, 11) == 11;
    }
    var close := 12 + n;
    assert s[12..close] == name;
    assert s[close] == '"' && s[close + 1] == ' ' && s[close + 2] == '%' && s[close + 3] == ']';
    assert SkipSpace(s, close + 1) == close + 2 by {
      assert SkipSpace(s, close + 2) == close + 2;
    }
    assert s[close + 2..close + 4] == "%]";
    assert CloseAt(s, close) == Some(close + 4);
    forall m | 12 <= m < close ensures s[m] != '"' && s[m] != '\n' {
      assert s[m] == name[m - 12];
    }
    LazyNameAt(s, 12, close);
    assert |d| == close + 4;
  }

  // ---------------------------------------------------------------------
  // `{{ text }}`, matched as `(?ms){{(.*?)}}`

  /** A marker from its `{{` to just past its `}}`. */
  datatype Marker = Marker(start: nat, end: nat)

  /**
   * The leftmost `{{`, closed by the first `}}` that starts at least two
   * characters later, newlines included; there is no marker when that `{{`
   * is never closed, since no later one could be closed either.
   */
  function FindMarker(s: string): (r: Option<Marker>)
    ensures r.Some? ==> r.value.start + 4 <= r.value.end <= |s|
    ensures r.Some? ==> OccursAt(s, "{{", r.value.start) && OccursAt(s, "}}", r.value.end - 2)
  {
    match FirstOcc(s, "{{")
    case None => None
    case Some(i) =>
      match FirstOcc(s[i + 2..], "}}")
      case None => None
      case Some(k) =>
        OccursAtDrop(s, "}}", i + 2, k);
        Some(Marker(i, i + 2 + k + 2))
  }

  /**
   * The marker found opens at the leftmost `{{` and closes at the first `}}`
   * after it; when none is found, no `{{` is followed by a `}}`.
   */
  lemma FindMarkerLeftmost(s: string)
    ensures var r := FindMarker(s);
            r.Some? ==>
              && (forall j :: 0 <= j < r.value.start ==> !OccursAt(s, "{{", j))
              && (forall j :: r.value.start + 2 <= j < r.value.end - 2 ==> !OccursAt(s, "}}", j))
    ensures FindMarker(s).None? ==> forall i, k :: OccursAt(s, "{{", i) && i + 2 <= k ==> !OccursAt(s, "}}", k)
  {
    match FirstOcc(s, "{{")
    case None =>
    case Some(i) =>
      match FirstOcc(s[i + 2..], "}}")
      case None =>
        forall i', k | OccursAt(s, "{{", i') && i' + 2 <= k ensures !OccursAt(s, "}}", k) {
          OccursAtDrop(s, "}}", i + 2, k - (i + 2));
        }
      case Some(k) =>
        forall j | i + 2 <= j < i + 2 + k ensures !OccursAt(s, "}}", j) {
          OccursAtDrop(s, "}}", i + 2, j - (i + 2));
        }
  }

  /** The text between a marker's braces. */
  function Inner(s: string, m: Marker): string
    requires m.start + 4 <= m.end <= |s|
  {
    s[m.start + 2..m.end - 2]
  }

  /** No `{` in the language or in any translation: then translating cannot add a marker's brace. */
  predicate BraceFree(f: Po.File)
    reads f
  {
    '{' !in f.language && forall k :: k in f.byID ==> '{' !in f.byID[k].msgStr
  }

  lemma {:induction false} EscapeEachCount(t: string, c: char)
    requires c != '\\'
    ensures Count(Po.EscapeEach(t), c) == Count(t, c)
    decreases |t|
  {
    if t != [] {
      CountAppend(Po.EscapeChar(t[0]), Po.EscapeEach(t[1..]), c);
      EscapeEachCount(t[1..], c);
    }
  }

  /** A translation holds no more `{` than the text it translates. */
  lemma TranslateBraces(f: Po.File, inner: string, escapeQuotes: bool)
    requires BraceFree(f)
    ensures Count(f.Translate(inner, escapeQuotes), '{') <= Count(inner, '{')
  {
    var key := Po.Normalize(inner);
    TrimSpaceKeepsChar(inner, '{');
    CollapseKeepsChar(TrimSpace(inner), '{');
    if key == "lang" || key == "langUC" || key == "locale" {
      var g := f.GetLang();
      forall i | 0 <= i < |g| ensures g[i] != '{' {
        assert g[i] == f.language[i];
      }
      assert '{' !in f.GetLangUC();
      CountAbsent(f.Translate(inner, escapeQuotes), '{');
    } else {
      var chosen := if key in f.byID && f.byID[key].msgStr != "" then f.byID[key].msgStr else key;
      if key in f.byID && f.byID[key].msgStr != "" {
        CountAbsent(chosen, '{');
      }
      Po.TranslateLookup(f, inner, escapeQuotes);
      EscapeEachCount(chosen, '{');
    }
  }

  /** The marker's text holds two more `{` than its inside. */
  lemma MarkerBraces(s: string, m: Marker)
    requires m.start + 4 <= m.end <= |s|
    requires OccursAt(s, "{{", m.start) && OccursAt(s, "}}", m.end - 2)
    ensures Count(s[m.start..m.end], '{') == Count(Inner(s, m), '{') + 2
  {
    var w := s[m.start..m.end];
    assert w == "{{" + Inner(s, m) + "}}";
    CountAppend("{{" + Inner(s, m), "}}", '{');
    CountAppend("{{", Inner(s, m), '{');
  }

  /** One translation step: every copy of the marker's text becomes `t`, which holds no more `{` than the marker's inside. */
  function ReplaceMarker(s: string, m: Marker, t: string): (r: string)
    requires m.start + 4 <= m.end <= |s|
    requires OccursAt(s, "{{", m.start) && OccursAt(s, "}}", m.end - 2)
    requires Count(t, '{') <= Count(Inner(s, m), '{')
    ensures Count(r, '{') < Count(s, '{')
  {
    ReplaceMarkerBraces(s, m, t);
    ReplaceAll(s, s[m.start..m.end], t)
  }

  /** Replacing a marker's text by one with no more `{` than its inside removes at least one `{`. */
  lemma ReplaceMarkerBraces(s: string, m: Marker, t: string)
    requires m.start + 4 <= m.end <= |s|
    requires OccursAt(s, "{{", m.start) && OccursAt(s, "}}", m.end - 2)
    requires Count(t, '{') <= Count(Inner(s, m), '{')
    ensures Count(ReplaceAll(s, s[m.start..m.end], t), '{') < Count(s, '{')
  {
    var w := s[m.start..m.end];
    MarkerBraces(s, m);
    assert OccursAt(s, w, m.start);
    FirstOccFound(s, w, m.start);
    ReplaceAllCount(s, w, t, '{');
  }

  /** A translation that never holds more `{` than the text it translates. */
  ghost predicate BraceSafe(tr: string -> string) {
    forall x :: Count(tr(x), '{') <= Count(x, '{')
  }

  /**
   * `TranslateContent` with the translation `tr`: markers are translated,
   * leftmost first, until none is left; a text without a marker comes back
   * as it is.
   */
  function TranslateAll(tr: string -> string, s: string): (r: string)
    requires BraceSafe(tr)
    ensures FindMarker(r).None?
    ensures FindMarker(s).None? ==> r == s
    decreases Count(s, '{')
  {
    match FindMarker(s)
    case None => s
    case Some(m) => TranslateAll(tr, ReplaceMarker(s, m, tr(Inner(s, m))))
  }

  /** The translation a catalog gives, with or without quote escaping. */
  function Translator(f: Po.File, escapeQuotes: bool): string -> string
    reads f
  {
    var byID, language := f.byID, f.language;
    x => Po.Translation(byID, language, x, escapeQuotes)
  }

  /** A catalog without `{` in its language and its translations translates brace-safely. */
  lemma TranslatorBraceSafe(f: Po.File, escapeQuotes: bool)
    requires BraceFree(f)
    ensures BraceSafe(Translator(f, escapeQuotes))
  {
    forall x ensures Count(Translator(f, escapeQuotes)(x), '{') <= Count(x, '{') {
      TranslateBraces(f, x, escapeQuotes);
    }
  }

  /**
   * A step keeps the text before the marker, puts the translation in the
   * marker's place and replaces later copies of the same marker text the
   * same way: the leftmost copy of the marker text is the marker itself.
   */
  lemma MarkerFirst(s: string, m: Marker, t: string)
    requires FindMarker(s) == Some(m)
    ensures var w := s[m.start..m.end];
            ReplaceAll(s, w, t) == s[..m.start] + t + ReplaceAll(s[m.end..], w, t)
  {
    MarkerTextFirst(s, m);
    ReplaceAllAtFirst(s, s[m.start..m.end], t, m.start, m.end);
  }

  /** The marker's text does not occur before the marker: every copy starts with a `{{`. */
  lemma MarkerTextFirst(s: string, m: Marker)
    requires FindMarker(s) == Some(m)
    ensures OccursAt(s, s[m.start..m.end], m.start)
    ensures forall j :: 0 <= j < m.start ==> !OccursAt(s, s[m.start..m.end], j)
  {
    var w := s[m.start..m.end];
    FindMarkerLeftmost(s);
    forall j | 0 <= j < m.start ensures !OccursAt(s, w, j) {
      if OccursAt(s, w, j) {
        assert s[j..j + 2] == w[..2] == "{{";
        assert OccursAt(s, "{{", j);
      }
    }
  }

  // ---------------------------------------------------------------------
  // `GrabContent`

  /** The path a name is read from: `RootDir + "/" + name`. */
  function Path(rootDir: string, name: string): string {
    rootDir + "/" + name
  }

  /** What one pass of an expansion loop does: stop, fail, or go on with a new text. */
  datatype Step = Finished | Failed(failure: Failure) | Next(text: string)

  /**
   * One pass of the `GrabContent` loop, reading through the file cache: the
   * leftmost directive's file is read and every copy of the directive's text
   * is replaced by it.
   */
  function IncludeStep(byName: map<string, FileUtil.Item>, disk: FileUtil.Disk, rootDir: string, content: string)
    : (r: Step)
    ensures r.Finished? <==> NoDirective(content)
  {
    match FindDirective(content, 0)
    case None => Finished
    case Some(d) =>
      var item := FileUtil.Lookup(byName, disk, Path(rootDir, d.name));
      if item.e.Some? then Failed(ReadFailed(Path(rootDir, d.name), item.e.value))
      else Next(ReplaceAll(content, content[d.start..d.end], item.s))
  }

  /**
   * Passes of `step` until it stops or fails; every pass that goes on costs
   * one unit of `fuel`. With the fuel spent, any pass that does not stop
   * gives `OutOfFuel`, a failing one included: a failed include read then
   * gives `OutOfFuel` rather than `Fatal`. The result, when the loop stops,
   * is a text the step stops on.
   */
  function Expand(step: string -> Step, content: string, fuel: nat): (r: Outcome<string>)
    ensures r.Done? ==> step(r.value).Finished?
    ensures step(content).Finished? ==> r == Done(content)
    decreases fuel
  {
    match step(content)
    case Finished => Done(content)
    case Failed(f) => if fuel == 0 then OutOfFuel else Fatal(f)
    case Next(t) => if fuel == 0 then OutOfFuel else Expand(step, t, fuel - 1)
  }

  /** The include pass over a given file cache and disk. */
  function Includes(byName: map<string, FileUtil.Item>, disk: FileUtil.Disk, rootDir: string): string -> Step {
    c => IncludeStep(byName, disk, rootDir, c)
  }

  /** `GrabContent`: the top file, read and expanded. */
  function GrabSpec(byName: map<string, FileUtil.Item>, disk: FileUtil.Disk, rootDir: string, filename: string, fuel: nat)
    : (r: Outcome<string>)
    ensures r.Done? ==> NoDirective(r.value)
  {
    var item := FileUtil.Lookup(byName, disk, Path(rootDir, filename));
    if item.e.Some? then Fatal(ReadFailed(Path(rootDir, filename), item.e.value))
    else Expand(Includes(byName, disk, rootDir), item.s, fuel)
  }

  /** A file without a directive is returned exactly as read. */
  lemma GrabPlain(byName: map<string, FileUtil.Item>, disk: FileUtil.Disk, rootDir: string, filename: string, fuel: nat)
    requires FileUtil.Lookup(byName, disk, Path(rootDir, filename)).e.None?
    requires NoDirective(FileUtil.Lookup(byName, disk, Path(rootDir, filename)).s)
    ensures GrabSpec(byName, disk, rootDir, filename, fuel) == Done(FileUtil.Lookup(byName, disk, Path(rootDir, filename)).s)
  {
    var text := FileUtil.Lookup(byName, disk, Path(rootDir, filename)).s;
    assert Includes(byName, disk, rootDir)(text).Finished?;
  }

  /** More fuel changes nothing once the expansion ends without running out. */
  lemma {:induction false} ExpandMoreFuel(step: string -> Step, content: string, fuel: nat, more: nat)
    requires fuel <= more && !Expand(step, content, fuel).OutOfFuel?
    ensures Expand(step, content, more) == Expand(step, content, fuel)
    decreases fuel
  {
    if step(content).Next? {
      ExpandMoreFuel(step, step(content).text, fuel - 1, more - 1);
    }
  }

  /** A text that one pass gives back unchanged is expanded forever: no fuel is enough. */
  lemma {:induction false} ExpandStuck(step: string -> Step, content: string, fuel: nat)
    requires step(content) == Next(content)
    ensures Expand(step, content, fuel) == OutOfFuel
    decreases fuel
  {
    if fuel > 0 {
      ExpandStuck(step, content, fuel - 1);
    }
  }

  lemma ReplaceWhole(w: string, t: string)
    requires |w| > 0
    ensures ReplaceAll(w, w, t) == t
  {
    assert w[..|w|] == w;
    assert ReplaceAll(w[|w|..], w, t) == [];
  }

  /** The include pass on a file that is just a directive: the included text. */
  lemma IncludeDirective(byName: map<string, FileUtil.Item>, disk: FileUtil.Disk, rootDir: string, name: string)
    requires '"' !in name && '\n' !in name
    ensures var item := FileUtil.Lookup(byName, disk, Path(rootDir, name));
            IncludeStep(byName, disk, rootDir, DirectiveText(name)) ==
              if item.e.Some? then Failed(ReadFailed(Path(rootDir, name), item.e.value)) else Next(item.s)
  {
    var w := DirectiveText(name);
    DirectiveTextMatches(name, "");
    assert w + "" == w;
    assert w[0..|w|] == w;
    ReplaceWhole(w, FileUtil.Lookup(byName, disk, Path(rootDir, name)).s);
  }

  /** A file that consists of a directive including itself never finishes expanding. */
  lemma SelfInclude(byName: map<string, FileUtil.Item>, disk: FileUtil.Disk, rootDir: string, name: string, fuel: nat)
    requires '"' !in name && '\n' !in name
    requires FileUtil.Lookup(byName, disk, Path(rootDir, name)) == FileUtil.Item(DirectiveText(name), None)
    ensures GrabSpec(byName, disk, rootDir, name, fuel) == OutOfFuel
  {
    IncludeDirective(byName, disk, rootDir, name);
    ExpandStuck(Includes(byName, disk, rootDir), DirectiveText(name), fuel);
  }

  /** A file that is just a directive expands, with one read, to the directive-free file it names. */
  lemma IncludeOnce(byName: map<string, FileUtil.Item>, disk: FileUtil.Disk, rootDir: string,
                    top: string, name: string, text: string, fuel: nat)
    requires '"' !in name && '\n' !in name && NoDirective(text) && fuel >= 1
    requires FileUtil.Lookup(byName, disk, Path(rootDir, top)) == FileUtil.Item(DirectiveText(name), None)
    requires FileUtil.Lookup(byName, disk, Path(rootDir, name)) == FileUtil.Item(text, None)
    ensures GrabSpec(byName, disk, rootDir, top, fuel) == Done(text)
  {
    IncludeDirective(byName, disk, rootDir, name);
    assert Includes(byName, disk, rootDir)(text).Finished?;
  }

  /** A directive whose file cannot be read is fatal once fuel remains. */
  lemma IncludeMissing(byName: map<string, FileUtil.Item>, disk: FileUtil.Disk, rootDir: string,
                       top: string, name: string, fuel: nat)
    requires '"' !in name && '\n' !in name && fuel >= 1
    requires FileUtil.Lookup(byName, disk, Path(rootDir, top)) == FileUtil.Item(DirectiveText(name), None)
    requires FileUtil.Lookup(byName, disk, Path(rootDir, name)).e.Some?
    ensures GrabSpec(byName, disk, rootDir, top, fuel).Fatal?
  {
    IncludeDirective(byName, disk, rootDir, name);
  }

  /**
   * `step` does what the include pass over `byName` does. (The trigger keeps
   * the directive grammar out of proofs that only need the loop's shape.)
   */
  ghost predicate IsIncludePass(step: string -> Step, byName: map<string, FileUtil.Item>, disk: FileUtil.Disk, rootDir: string) {
    forall c {:trigger IncludeStep(byName, disk, rootDir, c)} :: step(c) == IncludeStep(byName, disk, rootDir, c)
  }

  /**
   * One pass of the `GrabContent` loop on the live cache: find the leftmost
   * directive, read its file through the cache, and replace every copy of
   * the directive's text.
   */
  method IncludePass(files: FileUtil.ReadFileCache, disk: FileUtil.Disk, rootDir: string, content: string,
                     ghost start: map<string, FileUtil.Item>, ghost step: string -> Step)
      returns (r: Step)
    requires FileUtil.SameReads(files.byName, start, disk) && IsIncludePass(step, start, disk, rootDir)
    modifies files
    ensures r == step(content)
    ensures FileUtil.SameReads(files.byName, start, disk)
  {
    assert step(content) == IncludeStep(start, disk, rootDir, content);
    var matches := FindDirective(content, 0);
    if matches.None? {
      return Finished;
    }
    var d := matches.value;
    var wrapperString := content[d.start..d.end];
    var newContent, e := files.ReadFileWithCache(disk, Path(rootDir, d.name));
    if e.Some? {
      return Failed(ReadFailed(Path(rootDir, d.name), e.value));
    }
    return Next(ReplaceAll(content, wrapperString, newContent));
  }

  /** The expansion of `content` with `fuel` ends in `goal`. */
  predicate ExpandsTo(step: string -> Step, content: string, fuel: nat, goal: Outcome<string>) {
    Expand(step, content, fuel) == goal
  }

  /** How one pass moves an expansion on: it ends it, or leaves the rest of it to the next text. */
  lemma ExpandMoves(step: string -> Step, content: string, fuel: nat, goal: Outcome<string>)
    requires ExpandsTo(step, content, fuel, goal)
    ensures step(content).Finished? ==> goal == Done(content)
    ensures !step(content).Finished? && fuel == 0 ==> goal == OutOfFuel
    ensures step(content).Failed? && fuel > 0 ==> goal == Fatal(step(content).failure)
    ensures step(content).Next? && fuel > 0 ==> ExpandsTo(step, step(content).text, fuel - 1, goal)
  {
  }

  /** The read of the top file starts the expansion, or ends it with the read's error. */
  lemma GrabStarts(byName: map<string, FileUtil.Item>, disk: FileUtil.Disk, rootDir: string, filename: string, fuel: nat)
      returns (step: string -> Step)
    ensures IsIncludePass(step, byName, disk, rootDir)
    ensures var item := FileUtil.Lookup(byName, disk, Path(rootDir, filename));
            && (item.e.Some? ==> GrabSpec(byName, disk, rootDir, filename, fuel) == Fatal(ReadFailed(Path(rootDir, filename), item.e.value)))
            && (item.e.None? ==> ExpandsTo(step, item.s, fuel, GrabSpec(byName, disk, rootDir, filename, fuel)))
  {
    step := Includes(byName, disk, rootDir);
  }

  /**
   * `GrabContent`: the loop runs until no directive is left, a read fails,
   * or the fuel is spent (a read that fails once the fuel is spent gives
   * `OutOfFuel`, as in `Expand`); it reads through the file cache, which
   * answers every later read as it would have before.
   */
  method GrabContent(files: FileUtil.ReadFileCache, disk: FileUtil.Disk, rootDir: string, filename: string, fuel: nat)
      returns (r: Outcome<string>)
    modifies files
    ensures r == GrabSpec(old(files.byName), disk, rootDir, filename, fuel)
    ensures FileUtil.SameReads(files.byName, old(files.byName), disk)
  {
    ghost var start := files.byName;
    ghost var step := GrabStarts(start, disk, rootDir, filename, fuel);
    var c, err := files.ReadFileWithCache(disk, Path(rootDir, filename));
    if err.Some? {
      return Fatal(ReadFailed(Path(rootDir, filename), err.value));
    }
    var content := c;
    var budget := fuel;
    ghost var goal := GrabSpec(start, disk, rootDir, filename, fuel);
    while true
      invariant ExpandsTo(step, content, budget, goal)
      invariant FileUtil.SameReads(files.byName, start, disk)
      decreases budget
    {
      ExpandMoves(step, content, budget, goal);
      var s := IncludePass(files, disk, rootDir, content, start, step);
      if s.Finished? {
        return Done(content);
      }
      if budget == 0 {
        return OutOfFuel;
      }
      if s.Failed? {
        return Fatal(s.failure);
      }
      content, budget := s.text, budget - 1;
    }
  }

  // ---------------------------------------------------------------------
  // `TranslateContent`

  /** One turn of the loop of `TranslateContent`: the leftmost marker's text is replaced everywhere, and one `{` at least is gone. */
  lemma TranslateAllStep(tr: string -> string, s: string, m: Marker)
    requires BraceSafe(tr) && FindMarker(s) == Some(m)
    ensures var next := ReplaceAll(s, s[m.start..m.end], tr(s[m.start + 2..m.end - 2]));
            TranslateAll(tr, s) == TranslateAll(tr, next) && Count(next, '{') < Count(s, '{')
  {
    assert Inner(s, m) == s[m.start + 2..m.end - 2];
  }

  /** Every call of `Translate` is a use of `tr`. */
  ghost predicate IsTranslator(tr: string -> string, f: Po.File, escapeQuotes: bool)
    reads f
  {
    forall x {:trigger f.Translate(x, escapeQuotes)} :: tr(x) == f.Translate(x, escapeQuotes)
  }

  lemma TranslatorStarts(f: Po.File, escapeQuotes: bool, content: string) returns (tr: string -> string)
    requires BraceFree(f)
    ensures BraceSafe(tr) && BraceSafe(Translator(f, escapeQuotes)) && IsTranslator(tr, f, escapeQuotes)
    ensures TranslateAll(tr, content) == TranslateAll(Translator(f, escapeQuotes), content)
  {
    TranslatorBraceSafe(f, escapeQuotes);
    tr := Translator(f, escapeQuotes);
  }

  /** The catalog's translation of a marker's inside. */
  method TranslateInside(f: Po.File, escapeQuotes: bool, insideName: string, ghost tr: string -> string) returns (t: string)
    requires IsTranslator(tr, f, escapeQuotes)
    ensures t == tr(insideName)
  {
    t := f.Translate(insideName, escapeQuotes);
  }

  /** `TranslateContent`: translate the leftmost marker until none is left. */
  method TranslateContent(f: Po.File, escapeQuotes: bool, content: string) returns (r: string)
    requires BraceFree(f)
    ensures BraceSafe(Translator(f, escapeQuotes)) && r == TranslateAll(Translator(f, escapeQuotes), content)
  {
    ghost var tr := TranslatorStarts(f, escapeQuotes, content);
    r := content;
    while true
      invariant TranslateAll(tr, r) == TranslateAll(tr, content)
      decreases Count(r, '{')
    {
      var matches := FindMarker(r);
      if matches.None? {
        return;
      }
      var m := matches.value;
      var wrapperString := r[m.start..m.end];
      var insideName := r[m.start + 2..m.end - 2];
      var newContent := TranslateInside(f, escapeQuotes, insideName, tr);
      TranslateAllStep(tr, r, m);
      r := ReplaceAll(r, wrapperString, newContent);
    }
  }

  // ---------------------------------------------------------------------
  // `ProcessContent`: the macro table, `fixup`, and the post-processing commands

  /** The names of the macros a post-processing command may use. */
  const MacroKeys: set<string> := {"NAME", "NAMEGZ", "INPUT", "OUTPUT"}

  /** The macro table of a job for `filename` in `language`. */
  function MacroTable(filename: string, language: string, multiLocale: bool): (m: map<string, string>)
    ensures m.Keys == MacroKeys
    ensures m["OUTPUT"] == m["NAME"] && m["INPUT"] == m["NAME"] + ".orig"
    ensures !multiLocale ==> m["NAME"] == filename && m["NAMEGZ"] == filename + ".gz"
    ensures multiLocale ==> m["NAME"] == filename + "." + language && m["NAMEGZ"] == filename + ".gz." + language
  {
    var suffix := if multiLocale then "." + language else "";
    map["NAME" := filename + suffix, "NAMEGZ" := filename + ".gz" + suffix,
        "INPUT" := filename + suffix + ".orig", "OUTPUT" := filename + suffix]
  }

  /** The macro table, filled one entry at a time as `ProcessContent` does. */
  method BuildMacros(filename: string, language: string, multiLocale: bool) returns (macros: map<string, string>)
    ensures macros == MacroTable(filename, language, multiLocale)
  {
    macros := map[];
    macros := macros["NAME" := filename];
    macros := macros["NAMEGZ" := macros["NAME"] + ".gz"];
    if multiLocale {
      macros := macros["NAME" := macros["NAME"] + "." + language];
      macros := macros["NAMEGZ" := macros["NAMEGZ"] + "." + language];
    }
    macros := macros["INPUT" := macros["NAME"] + ".orig"];
    macros := macros["OUTPUT" := macros["NAME"]];
    ghost var m := MacroTable(filename, language, multiLocale);
    assert macros.Keys == m.Keys;
    assert forall k :: k in m ==> macros[k] == m[k];
  }

  /** How a command names macro `k`: `[k]`. */
  function Ref(k: string): string {
    "[" + k + "]"
  }

  /** A text with no square bracket. */
  predicate BracketFree(t: string) {
    '[' !in t && ']' !in t
  }

  /** `fixup`, visiting the macros in `order`: every `[k]` becomes the value of `k`. */
  function FixupIn(macros: map<string, string>, order: seq<string>, s: string): string
    requires forall k :: k in order ==> k in macros
    decreases |order|
  {
    if order == [] then s
    else FixupIn(macros, order[1..], ReplaceAll(s, Ref(order[0]), macros[order[0]]))
  }

  /**
   * `fixup`: Go visits the map in an order of its own choosing; `order` is
   * that order, which lists every macro once.
   */
  method Fixup(macros: map<string, string>, order: seq<string>, s: string) returns (r: string)
    requires Sorting.ListsOnce(order, macros.Keys)
    ensures forall k :: k in order ==> k in macros
    ensures r == FixupIn(macros, order, s)
  {
    Sorting.ListsOnceMeans(order, macros.Keys);
    r := s;
    var rest := order;
    while rest != []
      invariant forall k :: k in rest ==> k in macros
      invariant FixupIn(macros, rest, r) == FixupIn(macros, order, s)
      decreases |rest|
    {
      var k := rest[0];
      var kk := "[" + k + "]";
      r := ReplaceAll(r, kk, macros[k]);
      rest := rest[1..];
    }
  }

  /** A command seen as its literal text and its macro references. */
  datatype Piece = Lit(text: string) | Macro(name: string)

  /** The text of one piece. */
  function PieceText(p: Piece): string {
    match p
    case Lit(t) => t
    case Macro(k) => Ref(k)
  }

  /** The text of a command given as pieces. */
  function Render(ps: seq<Piece>): string {
    if ps == [] then "" else PieceText(ps[0]) + Render(ps[1..])
  }

  /** Rendering a command split after its first piece. */
  lemma RenderCons(p: Piece, ps: seq<Piece>)
    ensures Render([p] + ps) == PieceText(p) + Render(ps)
  {
    assert ([p] + ps)[1..] == ps;
  }

  /** A reference to a macro among `names` replaced by that macro's value. */
  function ResolvePiece(p: Piece, macros: map<string, string>, names: set<string>): Piece {
    match p
    case Macro(k) => if k in names && k in macros then Lit(macros[k]) else p
    case Lit(_) => p
  }

  /** Every reference to a macro among `names` replaced by that macro's value. */
  function Resolve(ps: seq<Piece>, macros: map<string, string>, names: set<string>): (r: seq<Piece>)
    ensures |r| == |ps|
  {
    if ps == [] then [] else [ResolvePiece(ps[0], macros, names)] + Resolve(ps[1..], macros, names)
  }

  /** Resolving a command split after its first piece. */
  lemma ResolveCons(p: Piece, ps: seq<Piece>, macros: map<string, string>, names: set<string>)
    ensures Resolve([p] + ps, macros, names) == [ResolvePiece(p, macros, names)] + Resolve(ps, macros, names)
  {
    assert ([p] + ps)[1..] == ps;
  }

  /** Text without `[` in front of the rest is passed over. */
  lemma {:induction false} ReplaceAllLitPrefix(a: string, b: string, p: string, r: string)
    requires |p| > 0 && p[0] !in a
    ensures ReplaceAll(a + b, p, r) == a + ReplaceAll(b, p, r)
    decreases |a|
  {
    if a != [] {
      var s := a + b;
      assert s[0] == a[0];
      if |s| >= |p| {
        assert s[..|p|] != p;
        ReplaceAllSkip(s, p, r);
        assert s[1..] == a[1..] + b;
        ReplaceAllLitPrefix(a[1..], b, p, r);
      } else {
        assert |b| < |p|;
      }
    } else {
      assert a + b == b;
    }
  }

  /** A reference to another macro is passed over. */
  lemma RefOtherPrefix(k: string, k2: string, rest: string, v: string)
    requires BracketFree(k) && BracketFree(k2) && k != k2
    ensures ReplaceAll(Ref(k) + rest, Ref(k2), v) == Ref(k) + ReplaceAll(rest, Ref(k2), v)
  {
    var s, p := Ref(k) + rest, Ref(k2);
    if |s| >= |p| {
      assert s[..|p|] != p by {
        if |p| == |Ref(k)| {
          assert s[..|p|] == Ref(k);
          assert Ref(k)[1..|p| - 1] == k && p[1..|p| - 1] == k2;
        } else if |p| < |Ref(k)| {
          assert p[|p| - 1] == ']';
          assert s[|p| - 1] == k[|p| - 2];
        } else {
          assert s[|Ref(k)| - 1] == ']';
          assert p[|Ref(k)| - 1] == k2[|Ref(k)| - 2];
        }
      }
      ReplaceAllSkip(s, p, v);
      assert s[1..] == (k + "]") + rest;
      ReplaceAllLitPrefix(k + "]", rest, p, v);
    } else {
      assert |rest| < |p|;
    }
  }

  /** The reference being replaced. */
  lemma RefSamePrefix(k: string, rest: string, v: string)
    ensures ReplaceAll(Ref(k) + rest, Ref(k), v) == v + ReplaceAll(rest, Ref(k), v)
  {
    var s := Ref(k) + rest;
    assert s[..|Ref(k)|] == Ref(k);
    assert s[|Ref(k)|..] == rest;
  }

  /** A piece of text holds no `[`, and a macro name no bracket. */
  predicate PieceOk(p: Piece) {
    match p
    case Lit(t) => '[' !in t
    case Macro(k) => BracketFree(k)
  }

  /** One turn of `fixup` on the first piece of a command: it resolves if it refers to `k`, and the rest is replaced on. */
  lemma PieceStep(p: Piece, macros: map<string, string>, done: set<string>, k: string, rest: string)
    requires PieceOk(p) && BracketFree(k) && k in macros && '[' !in macros[k]
    requires forall j :: j in done && j in macros ==> '[' !in macros[j]
    ensures ReplaceAll(PieceText(ResolvePiece(p, macros, done)) + rest, Ref(k), macros[k]) ==
            PieceText(ResolvePiece(p, macros, done + {k})) + ReplaceAll(rest, Ref(k), macros[k])
  {
    var v := macros[k];
    match ResolvePiece(p, macros, done)
    case Lit(t) =>
      ReplaceAllLitPrefix(t, rest, Ref(k), v);
    case Macro(j) =>
      if j == k {
        RefSamePrefix(k, rest, v);
      } else {
        RefOtherPrefix(j, k, rest, v);
      }
  }

  /** One turn of `fixup`: the references to `k` resolve, and nothing else changes. */
  lemma {:induction false} ResolveStep(ps: seq<Piece>, macros: map<string, string>, done: set<string>, k: string)
    requires forall i :: 0 <= i < |ps| ==> PieceOk(ps[i])
    requires BracketFree(k) && k in macros && '[' !in macros[k]
    requires forall j :: j in done && j in macros ==> '[' !in macros[j]
    ensures ReplaceAll(Render(Resolve(ps, macros, done)), Ref(k), macros[k]) == Render(Resolve(ps, macros, done + {k}))
    decreases |ps|
  {
    if ps != [] {
      var p, tail := ps[0], ps[1..];
      assert ps == [p] + tail;
      assert forall i :: 0 <= i < |tail| ==> PieceOk(tail[i]) by {
        forall i | 0 <= i < |tail| ensures PieceOk(tail[i]) {
          assert tail[i] == ps[i + 1];
        }
      }
      ResolveStep(tail, macros, done, k);
      ResolveCons(p, tail, macros, done);
      ResolveCons(p, tail, macros, done + {k});
      RenderCons(ResolvePiece(p, macros, done), Resolve(tail, macros, done));
      RenderCons(ResolvePiece(p, macros, done + {k}), Resolve(tail, macros, done + {k}));
      PieceStep(p, macros, done, k, Render(Resolve(tail, macros, done)));
    }
  }

  /** Resolving no name changes nothing; resolving names one after another resolves them all. */
  lemma {:induction false} ResolveNone(ps: seq<Piece>, macros: map<string, string>)
    ensures Resolve(ps, macros, {}) == ps
    decreases |ps|
  {
    if ps != [] {
      ResolveNone(ps[1..], macros);
      assert ps == [ps[0]] + ps[1..];
    }
  }

  /** `fixup` from a command with the names in `done` already resolved. */
  lemma {:induction false} FixupResolve(macros: map<string, string>, order: seq<string>, ps: seq<Piece>, done: set<string>)
    requires forall i :: 0 <= i < |ps| ==> PieceOk(ps[i])
    requires forall j :: j in order ==> j in macros && BracketFree(j)
    requires forall j :: j in macros ==> '[' !in macros[j]
    ensures FixupIn(macros, order, Render(Resolve(ps, macros, done))) ==
            Render(Resolve(ps, macros, done + (set j | j in order)))
    decreases |order|
  {
    if order == [] {
      assert done + (set j | j in order) == done;
    } else {
      ResolveStep(ps, macros, done, order[0]);
      FixupResolve(macros, order[1..], ps, done + {order[0]});
      assert done + {order[0]} + (set j | j in order[1..]) == done + (set j | j in order);
    }
  }

  /**
   * `fixup` of a command made of text and macro references, whatever order
   * the map is visited in: every reference to a macro becomes its value and
   * references to names that are no macro stay as they are.
   */
  lemma FixupPieces(macros: map<string, string>, order: seq<string>, ps: seq<Piece>)
    requires Sorting.ListsOnce(order, macros.Keys) && forall i :: 0 <= i < |ps| ==> PieceOk(ps[i])
    requires forall j :: j in macros ==> BracketFree(j) && '[' !in macros[j]
    ensures forall j :: j in order ==> j in macros
    ensures FixupIn(macros, order, Render(ps)) == Render(Resolve(ps, macros, macros.Keys))
  {
    Sorting.ListsOnceMeans(order, macros.Keys);
    ResolveNone(ps, macros);
    FixupResolve(macros, order, ps, {});
    assert {} + (set j | j in order) == macros.Keys;
  }

  /** A job whose file name and language hold no `[` has a macro table without `[` in its names or values. */
  lemma MacroTableClean(filename: string, language: string, multiLocale: bool)
    requires '[' !in filename && '[' !in language
    ensures var m := MacroTable(filename, language, multiLocale);
            forall j :: j in m ==> BracketFree(j) && '[' !in m[j]
  {
    var m := MacroTable(filename, language, multiLocale);
    var suffix := if multiLocale then "." + language else "";
    assert '[' !in suffix;
    assert '[' !in m["NAME"] && '[' !in m["NAMEGZ"] && '[' !in m["INPUT"];
  }

  /** The macros of a job whose file name and language hold no `[`: a command `[k]` becomes the value of `k`. */
  lemma MacroRef(filename: string, language: string, multiLocale: bool, order: seq<string>, k: string)
    requires '[' !in filename && '[' !in language
    requires Sorting.ListsOnce(order, MacroKeys) && k in MacroKeys
    ensures forall j :: j in order ==> j in MacroKeys
    ensures FixupIn(MacroTable(filename, language, multiLocale), order, Ref(k)) == MacroTable(filename, language, multiLocale)[k]
  {
    var m := MacroTable(filename, language, multiLocale);
    MacroTableClean(filename, language, multiLocale);
    var ps := [Macro(k)];
    assert Render(ps) == Ref(k) by {
      assert ps[1..] == [];
    }
    FixupPieces(m, order, ps);
    assert Resolve(ps, m, m.Keys) == [Lit(m[k])] by {
      assert ps[1..] == [];
    }
    assert Render([Lit(m[k])]) == m[k] by {
      assert [Lit(m[k])][1..] == [];
    }
  }

  /**
   * The tidy rule: the error a command ends with, unless the command starts
   * with `tidy ` and the error is exactly `exit status 1`.
   */
  function Forgiven(cmd: string, err: Option<string>): (r: Option<string>)
    ensures r.None? <==> err.None? || (HasPrefix(cmd, "tidy ") && err == Some("exit status 1"))
    ensures r.Some? ==> r == err
  {
    if err.Some? && HasPrefix(cmd, "tidy ") && err.value == "exit status 1" then None else err
  }

  /**
   * The post-processing loop after the commands `ran`: each task is fixed up
   * and run (`run` gives the shell's error, if any) until one fails and is
   * not forgiven.
   */
  function RunTasks(run: string -> Option<string>, macros: map<string, string>, order: seq<string>,
                    ran: seq<string>, tasks: seq<string>): (seq<string>, Option<Failure>)
    requires forall k :: k in order ==> k in macros
    decreases |tasks|
  {
    if tasks == [] then (ran, None)
    else
      var c := FixupIn(macros, order, tasks[0]);
      var e := Forgiven(c, run(c));
      if e.Some? then (ran + [c], Some(CommandFailed(c, e.value)))
      else RunTasks(run, macros, order, ran + [c], tasks[1..])
  }

  /**
   * The commands run are the fixed-up tasks, in order, after those run
   * before; all of them run when none fails; the run stops at the first
   * failure that is not forgiven, which it reports.
   */
  lemma {:induction false} RunTasksShape(run: string -> Option<string>, macros: map<string, string>, order: seq<string>,
                                         ran: seq<string>, tasks: seq<string>)
    requires forall k :: k in order ==> k in macros
    ensures var (out, f) := RunTasks(run, macros, order, ran, tasks);
            && |ran| <= |out| <= |ran| + |tasks| && out[..|ran|] == ran
            && (forall i :: |ran| <= i < |out| ==> out[i] == FixupIn(macros, order, tasks[i - |ran|]))
            && (forall i :: |ran| <= i < |out| - 1 ==> Forgiven(out[i], run(out[i])).None?)
            && (f.None? ==> |out| == |ran| + |tasks| && (|out| > |ran| ==> Forgiven(out[|out| - 1], run(out[|out| - 1])).None?))
            && (f.Some? ==> |out| > |ran| && Forgiven(out[|out| - 1], run(out[|out| - 1])).Some?
                            && f.value == CommandFailed(out[|out| - 1], run(out[|out| - 1]).value))
    decreases |tasks|
  {
    if tasks != [] {
      var c := FixupIn(macros, order, tasks[0]);
      if Forgiven(c, run(c)).None? {
        RunTasksShape(run, macros, order, ran + [c], tasks[1..]);
        var out := RunTasks(run, macros, order, ran + [c], tasks[1..]).0;
        assert out[..|ran| + 1] == ran + [c];
        assert out[..|ran|] == (ran + [c])[..|ran|];
      }
    }
  }

  /** What a job's page is built from, and how. */
  datatype TemplateData = TemplateData(locale: string, lang: string, langUC: string, basename: string)

  /** One job: a file, the catalog it is translated with, and the commands that finish it. */
  datatype QueueItem = QueueItem(outputDir: string, rootDir: string, filename: string, poFile: Po.File,
                                 postProcess: seq<string>, data: TemplateData, escapeQuotes: bool, multiLocale: bool)

  /**
   * `ProcessContent`: the file goes to `OutputDir/INPUT`, then each
   * post-processing task is fixed up and run in the output directory until
   * one fails unforgiven.
   */
  method ProcessContent(qi: QueueItem, order: seq<string>, run: string -> Option<string>)
      returns (outputFilename: string, ran: seq<string>, failure: Option<Failure>)
    requires Sorting.ListsOnce(order, MacroKeys)
    ensures forall k :: k in order ==> k in MacroKeys
    ensures var macros := MacroTable(qi.filename, qi.poFile.language, qi.multiLocale);
            && outputFilename == qi.outputDir + "/" + macros["INPUT"]
            && (ran, failure) == RunTasks(run, macros, order, [], qi.postProcess)
  {
    var macros := BuildMacros(qi.filename, qi.poFile.language, qi.multiLocale);
    Sorting.ListsOnceMeans(order, MacroKeys);
    outputFilename := qi.outputDir + "/" + macros["INPUT"];
    ghost var goal := RunTasks(run, macros, order, [], qi.postProcess);
    var tasks := qi.postProcess;
    ran := [];
    while tasks != []
      invariant RunTasks(run, macros, order, ran, tasks) == goal
      decreases |tasks|
    {
      var runcmd := Fixup(macros, order, tasks[0]);
      var e := run(runcmd);
      e := Forgiven(runcmd, e);
      ran := ran + [runcmd];
      if e.Some? {
        return outputFilename, ran, Some(CommandFailed(runcmd, e.value));
      }
      tasks := tasks[1..];
    }
    failure := None;
  }

  // ---------------------------------------------------------------------
  // `RunJob` and the cache of assembled pages

  /** What a finished job leaves: the translated page, where it was written, and the commands run. */
  datatype Report = Report(text: string, outputFilename: string, ran: seq<string>)

  /** The part of `RunJob` after the cache: translate, write, post-process. */
  function Finish(qi: QueueItem, order: seq<string>, assembled: string, run: string -> Option<string>): Outcome<Report>
    requires BraceFree(qi.poFile) && forall k :: k in order ==> k in MacroKeys
    reads qi.poFile
  {
    var macros := MacroTable(qi.filename, qi.poFile.language, qi.multiLocale);
    var (ran, f) := RunTasks(run, macros, order, [], qi.postProcess);
    if f.Some? then Fatal(f.value)
    else
      TranslatorBraceSafe(qi.poFile, qi.escapeQuotes);
      Done(Report(TranslateAll(Translator(qi.poFile, qi.escapeQuotes), assembled),
                  qi.outputDir + "/" + macros["INPUT"], ran))
  }

  /** `ParsedCache`: assembled, untranslated pages by the path of their top file. */
  class ParsedCache {
    var byName: map<string, string>

    constructor ()
      ensures byName == map[]
    {
      byName := map[];
    }
  }

  /**
   * `RunJob`: the assembled page comes from the cache, or is assembled and
   * run through the template step (`template`) and then stored; a hit
   * changes neither cache. Translation comes after the cache, so what is
   * stored is never translated and serves every language.
   */
  method RunJob(cache: ParsedCache, files: FileUtil.ReadFileCache, disk: FileUtil.Disk, qi: QueueItem,
                template: string -> string, fuel: nat, order: seq<string>, run: string -> Option<string>)
      returns (r: Outcome<Report>)
    requires BraceFree(qi.poFile) && Sorting.ListsOnce(order, MacroKeys)
    modifies cache, files
    ensures forall k :: k in order ==> k in MacroKeys
    ensures var key := Path(qi.rootDir, qi.filename);
            if key in old(cache.byName) then
              && cache.byName == old(cache.byName) && files.byName == old(files.byName)
              && r == Finish(qi, order, old(cache.byName)[key], run)
            else match GrabSpec(old(files.byName), disk, qi.rootDir, qi.filename, fuel)
              case Done(g) => cache.byName == old(cache.byName)[key := template(g)] && r == Finish(qi, order, template(g), run)
              case Fatal(f) => cache.byName == old(cache.byName) && r == Fatal(f)
              case OutOfFuel => cache.byName == old(cache.byName) && r == OutOfFuel
    ensures FileUtil.SameReads(files.byName, old(files.byName), disk)
  {
    Sorting.ListsOnceMeans(order, MacroKeys);
    var readFilename := Path(qi.rootDir, qi.filename);
    var content: string;
    if readFilename in cache.byName {
      content := cache.byName[readFilename];
    } else {
      var g := GrabContent(files, disk, qi.rootDir, qi.filename, fuel);
      if g.Fatal? {
        return Fatal(g.failure);
      } else if g.OutOfFuel? {
        return OutOfFuel;
      }
      content := template(g.value);
      cache.byName := cache.byName[readFilename := content];
    }
    var translated := TranslateContent(qi.poFile, qi.escapeQuotes, content);
    var outputFilename, ran, failure := ProcessContent(qi, order, run);
    if failure.Some? {
      return Fatal(failure.value);
    }
    return Done(Report(translated, outputFilename, ran));
  }

  /**
   * Two jobs for one file in two languages: the first assembles the file and
   * runs the template on it, and the second is served that same template
   * output from the cache; each is then translated and finished in its own
   * language. The second thus reads the template output made for the first
   * job's data.
   */
  method RunTwoLanguages(cache: ParsedCache, files: FileUtil.ReadFileCache, disk: FileUtil.Disk,
                         first: QueueItem, second: QueueItem, template: string -> string, fuel: nat,
                         order: seq<string>, run: string -> Option<string>)
      returns (r1: Outcome<Report>, r2: Outcome<Report>)
    requires first.rootDir == second.rootDir && first.filename == second.filename
    requires BraceFree(first.poFile) && BraceFree(second.poFile) && Sorting.ListsOnce(order, MacroKeys)
    requires Path(first.rootDir, first.filename) !in cache.byName
    modifies cache, files
    ensures forall k :: k in order ==> k in MacroKeys
    ensures var g := GrabSpec(old(files.byName), disk, first.rootDir, first.filename, fuel);
            g.Done? ==> r1 == Finish(first, order, template(g.value), run) && r2 == Finish(second, order, template(g.value), run)
  {
    r1 := RunJob(cache, files, disk, first, template, fuel, order, run);
    r2 := RunJob(cache, files, disk, second, template, fuel, order, run);
  }
}
