/**
 * A translation catalog (`po/po.go`, `po/save.go`): loading a PO file from
 * its text, the completion statistics, the sorted list of languages, the
 * language names derived from the `Language` header, the lookup used to
 * translate a text, and the text written when a catalog is saved.
 */
module Po {
  import opened Wrappers
  import opened Text
  import opened PoParse
  import Strconv
  import Sorting
  import FileUtil

  // ---------------------------------------------------------------------
  // Loading

  /** Why a catalog could not be loaded. A chunk failing with `IndexPanic` stands for the Go program's panic. */
  datatype LoadError =
    | ReadFailed(message: string)
    | BadFormat(fn: string)
    | ChunkFailed(fn: string, cause: ChunkError)
    | MissingRoot(fn: string)
    | MissingLanguage(fn: string)

  /** What a loaded file holds. */
  datatype Catalog = Catalog(byID: map<string, Record>, headers: map<string, string>, language: string)

  /** A record is kept when its `msgid` or its `msgstr` is not empty; it is filed under its `msgid`. */
  function Keep(byID: map<string, Record>, rec: Record): map<string, Record> {
    if rec.msgStr != "" || rec.msgID != "" then byID[rec.msgID := rec] else byID
  }

  /** The chunks parsed in order and kept; the first chunk that fails ends the walk. */
  function KeepRecords(byID: map<string, Record>, chunks: seq<string>): Result<map<string, Record>, ChunkError>
    decreases |chunks|
  {
    if chunks == [] then Ok(byID)
    else match ParseChunkSpec(chunks[0])
      case Err(e) => Err(e)
      case Ok(rec) => KeepRecords(Keep(byID, rec), chunks[1..])
  }

  /** `Load` over the text of file `fn`. */
  function LoadSpec(fn: string, text: string): Result<Catalog, LoadError> {
    var chunks := Split(text, "\n\n");
    if |chunks| < 2 then Err(BadFormat(fn))
    else match KeepRecords(map[], chunks)
      case Err(e) => Err(ChunkFailed(fn, e))
      case Ok(byID) =>
        if "" !in byID then Err(MissingRoot(fn))
        else
          var headers := HeadersFrom(map[], Split(byID[""].msgStr, "\n"));
          var language := Get(headers, "Language");
          if language == "" && !HasSuffix(fn, ".pot") then Err(MissingLanguage(fn))
          else Ok(Catalog(byID, headers, language))
  }

  /** Every kept record is filed under its own `msgid`, and none has both fields empty. */
  predicate WellFiled(byID: map<string, Record>) {
    forall k :: k in byID ==> byID[k].msgID == k && (byID[k].msgID != "" || byID[k].msgStr != "")
  }

  lemma {:induction false} KeepRecordsWellFiled(byID: map<string, Record>, chunks: seq<string>)
    requires WellFiled(byID)
    ensures KeepRecords(byID, chunks).Ok? ==> WellFiled(KeepRecords(byID, chunks).value)
    decreases |chunks|
  {
    if chunks != [] {
      match ParseChunkSpec(chunks[0])
      case Err(_) =>
      case Ok(rec) => KeepRecordsWellFiled(Keep(byID, rec), chunks[1..]);
    }
  }

  /** A later chunk with the same `msgid` replaces an earlier one: the last chunk, when kept, is on file as read. */
  lemma {:induction false} KeepRecordsLast(byID: map<string, Record>, chunks: seq<string>, last: string)
    requires KeepRecords(byID, chunks).Ok? && ParseChunkSpec(last).Ok?
    ensures KeepRecords(byID, chunks + [last]) == Ok(Keep(KeepRecords(byID, chunks).value, ParseChunkSpec(last).value))
    decreases |chunks|
  {
    if chunks == [] {
      assert [last][1..] == [];
    } else {
      assert (chunks + [last])[1..] == chunks[1..] + [last];
      var rec := ParseChunkSpec(chunks[0]).value;
      KeepRecordsLast(Keep(byID, rec), chunks[1..], last);
    }
  }

  /**
   * A file that loads has a root record filed under `""`, its headers are
   * read from that record's `msgstr`, and its language is the `Language`
   * header, which may be empty only for a `.pot` file.
   */
  lemma LoadedShape(fn: string, text: string)
    requires LoadSpec(fn, text).Ok?
    ensures var c := LoadSpec(fn, text).value;
            && |Split(text, "\n\n")| >= 2
            && "" in c.byID && WellFiled(c.byID)
            && c.headers == HeadersFrom(map[], Split(c.byID[""].msgStr, "\n"))
            && c.language == Get(c.headers, "Language")
            && (c.language != "" || HasSuffix(fn, ".pot"))
  {
    KeepRecordsWellFiled(map[], Split(text, "\n\n"));
  }

  /** Text without a blank line is a single chunk: a bad format. */
  lemma NoBlankLineIsBadFormat(fn: string, text: string)
    requires FirstOcc(text, "\n\n").None?
    ensures LoadSpec(fn, text) == Err(BadFormat(fn))
  {
  }

  // ---------------------------------------------------------------------
  // Lookup helpers

  /** `Translate`'s canonical form: trimmed, and each run of `\s` made one blank. */
  function Normalize(s: string): (r: string)
    ensures Trimmed(r) && Collapsed(r)
  {
    var t := TrimSpace(s);
    var r := Collapse(t);
    assert t != [] ==> !IsRESpace(t[0]) && !IsRESpace(t[|t| - 1]);
    r
  }

  /** Normalizing twice is normalizing once, so a canonical text is its own lookup key. */
  lemma NormalizeIdem(s: string)
    ensures Normalize(Normalize(s)) == Normalize(s)
  {
    var n := Normalize(s);
    TrimSpaceFixed(n);
    CollapseFixed(n);
  }

  /** How quote escaping writes one character. */
  function EscapeChar(c: char): string {
    if c == '"' then "\\\"" else if c == '\'' then "\\'" else [c]
  }

  /** Escaping character by character. */
  function EscapeEach(t: string): string {
    if t == [] then [] else EscapeChar(t[0]) + EscapeEach(t[1..])
  }

  /**
   * The two replacements of `Translate` with `escapequotes`: every `"`
   * becomes `\"`, then every `'` becomes `\'`; the same as escaping each
   * character on its own.
   */
  function EscapeQuotes(t: string): (r: string)
    ensures r == EscapeEach(t)
  {
    EscapeQuotesEach(t);
    ReplaceAll(ReplaceAll(t, "\"", "\\\""), "'", "\\'")
  }

  lemma {:induction false} EscapeQuotesEach(t: string)
    ensures ReplaceAll(ReplaceAll(t, "\"", "\\\""), "'", "\\'") == EscapeEach(t)
    decreases |t|
  {
    if t != [] {
      assert t == [t[0]] + t[1..];
      EscapeBothAppend([t[0]], t[1..]);
      EscapeBothChar(t[0]);
      EscapeQuotesEach(t[1..]);
    }
  }

  /** The two replacements distribute over concatenation. */
  lemma EscapeBothAppend(a: string, b: string)
    ensures ReplaceAll(ReplaceAll(a + b, "\"", "\\\""), "'", "\\'") ==
      ReplaceAll(ReplaceAll(a, "\"", "\\\""), "'", "\\'") + ReplaceAll(ReplaceAll(b, "\"", "\\\""), "'", "\\'")
  {
    ReplaceCharAppend(a, b, '"', "\\\"");
    ReplaceCharAppend(ReplaceAll(a, "\"", "\\\""), ReplaceAll(b, "\"", "\\\""), '\'', "\\'");
  }

  /** The two replacements on one character write it as `EscapeChar` does. */
  lemma EscapeBothChar(c: char)
    ensures ReplaceAll(ReplaceAll([c], "\"", "\\\""), "'", "\\'") == EscapeChar(c)
  {
    ReplaceOneChar(c, '"', "\\\"");
    if c == '"' {
      assert "\\\"" == ['\\'] + ['"'];
      ReplaceCharAppend(['\\'], ['"'], '\'', "\\'");
      ReplaceOneChar('\\', '\'', "\\'");
      ReplaceOneChar('"', '\'', "\\'");
    } else {
      ReplaceOneChar(c, '\'', "\\'");
    }
  }

  /** The header record `Save` writes first, with its fixed `msgstr`. */
  const HeaderText: string :=
    "Project-Id-Version: PACKAGE VERSION\n"
    + "PO-Revision-Date: YEAR-MO-DA HO:MI +ZONE\n"
    + "Last-Translator: Unspecified Translator <jfesler+unspecified-translator@test-ipv6.com>\n"
    + "Language-Team: LANGUAGE <v6code@test-ipv6.com>\n"
    + "MIME-Version: 1.0\n"
    + "Content-Type: text/plain; charset=UTF-8\n"
    + "Content-Transfer-Encoding: 8bit"

  const HeaderRecord: Record := Record("", "", HeaderText)

  /** The comment line `Save` writes, only when there is a comment. */
  function CommentLine(r: Record): string {
    if r.comment != "" then "#: " + Strconv.Quote(r.comment) + "\n" else ""
  }

  function MsgIDLine(r: Record): string {
    "msgid " + Strconv.Quote(r.msgID) + "\n"
  }

  /** The `msgstr` line, with the value glued to the token. */
  function MsgStrLine(r: Record): string {
    "msgstr" + Strconv.Quote(r.msgStr) + "\n"
  }

  /** The block `Save` writes for one record, closed by a blank line. */
  function Block(r: Record): string {
    CommentLine(r) + MsgIDLine(r) + MsgStrLine(r) + "\n"
  }

  /** Every name has a record. */
  predicate Covers(byID: map<string, Record>, names: seq<string>) {
    forall n :: n in names ==> n in byID
  }

  /** The blocks of the named records appended, in order, to what was written so far. */
  function WriteBlocks(acc: string, byID: map<string, Record>, names: seq<string>): string
    requires Covers(byID, names)
    decreases |names|
  {
    if names == [] then acc else WriteBlocks(acc + Block(byID[names[0]]), byID, names[1..])
  }

  /** The loop body of `Save` appends one block. */
  lemma BlockAppend(b: string, r: Record)
    ensures b + Block(r) == (if r.comment != "" then b + CommentLine(r) else b) + MsgIDLine(r) + MsgStrLine(r) + "\n"
  {
    Concat4(b, CommentLine(r), MsgIDLine(r), MsgStrLine(r), "\n");
    if r.comment == "" {
      assert b + CommentLine(r) == b;
    }
  }

  lemma Concat4(b: string, c: string, i: string, s: string, n: string)
    ensures b + (c + i + s + n) == b + c + i + s + n
  {
  }

  lemma WriteBlocksStep(acc: string, byID: map<string, Record>, names: seq<string>, i: nat)
    requires Covers(byID, names)
    requires i < |names|
    ensures WriteBlocks(acc, byID, names[i..]) == WriteBlocks(acc + Block(byID[names[i]]), byID, names[i + 1..])
  {
    assert names[i..][1..] == names[i + 1..];
  }

  lemma {:induction false} WriteBlocksPrefix(acc: string, byID: map<string, Record>, names: seq<string>)
    requires Covers(byID, names)
    ensures HasPrefix(WriteBlocks(acc, byID, names), acc)
    decreases |names|
  {
    if names != [] {
      var next := acc + Block(byID[names[0]]);
      WriteBlocksPrefix(next, byID, names[1..]);
      var w := WriteBlocks(next, byID, names[1..]);
      assert w[..|next|][..|acc|] == w[..|acc|];
    }
  }

  /** Every block ends with a blank line, and so does any text that ends with a block. */
  lemma BlockEnds(acc: string, r: Record)
    ensures HasSuffix(acc + Block(r), "\n\n")
  {
    var m := MsgStrLine(r);
    assert m[|m| - 1] == '\n';
  }

  lemma {:induction false} WriteBlocksEnds(acc: string, byID: map<string, Record>, names: seq<string>)
    requires Covers(byID, names)
    ensures HasSuffix(acc, "\n\n") || names != [] ==> HasSuffix(WriteBlocks(acc, byID, names), "\n\n")
    decreases |names|
  {
    if names != [] {
      BlockEnds(acc, byID[names[0]]);
      WriteBlocksEnds(acc + Block(byID[names[0]]), byID, names[1..]);
    }
  }

  /**
   * What `Save` writes: the header block first, then the blocks of the
   * names in order, so the text is never empty and ends with a blank line.
   */
  lemma SaveTextShape(byID: map<string, Record>, names: seq<string>)
    requires "" in byID && byID[""] == HeaderRecord
    requires Covers(byID, names)
    ensures HasPrefix(WriteBlocks("", byID, [""] + names), Block(HeaderRecord))
    ensures HasSuffix(WriteBlocks("", byID, [""] + names), "\n\n")
  {
    FirstBlockShape(byID, names, "");
  }

  /** The blocks written after the record of `first` start with that record's block and end with a blank line. */
  lemma FirstBlockShape(byID: map<string, Record>, names: seq<string>, first: string)
    requires first in byID && Covers(byID, names)
    ensures HasPrefix(WriteBlocks("", byID, [first] + names), Block(byID[first]))
    ensures HasSuffix(WriteBlocks("", byID, [first] + names), "\n\n")
  {
    var all := [first] + names;
    assert all[1..] == names;
    WriteBlocksPrefix("" + Block(byID[first]), byID, names);
    WriteBlocksEnds("", byID, all);
  }

  /**
   * The `msgstr` line `Save` writes never gives the reader a `msgstr`: for a
   * value without a blank (the empty one included) the reader panics, and
   * for one with a blank (the fixed header's, for one) the line is read
   * under another token and the record keeps the `msgstr` it had.
   */
  lemma SavedMsgStrDoesNotReparse(st: ChunkState, r: Record)
    ensures ' ' !in r.msgStr ==> LineStep(st, "msgstr" + Strconv.Quote(r.msgStr)).Err?
    ensures LineStep(st, "msgstr" + Strconv.Quote(r.msgStr)).Ok? ==>
              RecordOf(LineStep(st, "msgstr" + Strconv.Quote(r.msgStr)).value.hash).msgStr == RecordOf(st.hash).msgStr
  {
    if ' ' !in r.msgStr {
      GluedTokenPanics(st, r.msgStr);
    }
    GluedTokenForeign(st, r.msgStr);
  }

  /** The keys that count as translated: in the template, with a non-empty `msgstr` that differs from the key. */
  function TranslatedIn(potKeys: set<string>, byID: map<string, Record>): (r: set<string>)
    ensures r <= potKeys
  {
    set k | k in potKeys && k in byID && byID[k].msgStr != "" && byID[k].msgStr != k
  }

  /** Counting one more key adds one exactly when that key is translated. */
  lemma TranslatedInAdd(done: set<string>, k: string, byID: map<string, Record>)
    requires k !in done
    ensures |TranslatedIn(done + {k}, byID)| ==
      |TranslatedIn(done, byID)| + if k in byID && byID[k].msgStr != "" && byID[k].msgStr != k then 1 else 0
  {
    if k in byID && byID[k].msgStr != "" && byID[k].msgStr != k {
      assert TranslatedIn(done + {k}, byID) == TranslatedIn(done, byID) + {k};
    } else {
      assert TranslatedIn(done + {k}, byID) == TranslatedIn(done, byID);
    }
  }

  /** The loop of `AddStats`, over the template's keys: how many there are, and how many are translated in `byID`. */
  method CountStats(keys: set<string>, byID: map<string, Record>) returns (n: int, t: int)
    ensures n == |keys| && t == |TranslatedIn(keys, byID)|
  {
    n, t := 0, 0;
    var rest := keys;
    ghost var done: set<string> := {};
    while rest != {}
      invariant rest <= keys && done == keys - rest
      invariant n == |done| && t == |TranslatedIn(done, byID)|
      decreases |rest|
    {
      var k :| k in rest;
      MoveOne(keys, rest, done, k);
      TranslatedInAdd(done, k, byID);
      n := n + 1;
      if k in byID {
        var found := byID[k];
        if found.msgStr != "" && found.msgStr != k {
          t := t + 1;
        }
      }
      done := done + {k};
      rest := rest - {k};
    }
  }

  /** Moving one key from the keys still to count to the keys counted keeps them apart and covering. */
  lemma MoveOne(keys: set<string>, rest: set<string>, done: set<string>, k: string)
    requires rest <= keys && done == keys - rest && k in rest
    ensures rest - {k} <= keys && done + {k} == keys - (rest - {k})
    ensures k !in done && |done + {k}| == |done| + 1
  {
  }

  /** A subset has no more elements than the set. */
  lemma {:induction false} SubsetCard(a: set<string>, b: set<string>)
    requires a <= b
    ensures |a| <= |b|
    decreases |b|
  {
    if b != {} {
      var x :| x in b;
      SubsetCard(a - {x}, b - {x});
    }
  }

  /** `Translated <= OutOf`. */
  lemma TranslatedAtMostOutOf(potKeys: set<string>, byID: map<string, Record>)
    ensures |TranslatedIn(potKeys, byID)| <= |potKeys|
  {
    SubsetCard(TranslatedIn(potKeys, byID), potKeys);
  }

  /**
   * The template's header key `""` counts toward `OutOf`, and a target whose
   * header record has a `msgstr` counts it as translated.
   */
  lemma HeaderCountsAsTranslated(potKeys: set<string>, byID: map<string, Record>)
    requires "" in potKeys && "" in byID && byID[""].msgStr != ""
    ensures "" in TranslatedIn(potKeys, byID)
  {
  }

  // ---------------------------------------------------------------------
  // Translating

  /** The language up to its first `_`. */
  function LangOf(language: string): (r: string)
    ensures HasPrefix(language, r) && '_' !in r
    ensures |r| < |language| ==> language[|r|] == '_'
  {
    SplitFirstPiece(language, '_');
    Split(language, "_")[0]
  }

  /** What `Translate` gives for `input` with the records `byID` of a file whose `Language` is `language`. */
  function Translation(byID: map<string, Record>, language: string, input: string, escapeQuotes: bool): string {
    Answer(byID, language, Normalize(input), escapeQuotes)
  }

  /** What `Translate` gives once the input is in its canonical form `key`. */
  function Answer(byID: map<string, Record>, language: string, key: string, escapeQuotes: bool): string {
    if key == "lang" then LangOf(language)
    else if key == "langUC" then ToUpper(LangOf(language))
    else if key == "locale" then language
    else
      var newText := if key in byID && byID[key].msgStr != "" then byID[key].msgStr else key;
      if escapeQuotes then EscapeQuotes(newText) else newText
  }

  // ---------------------------------------------------------------------
  // The catalog object

  /** A loaded translation file; `inOrder` is the order `Save` writes records in. */
  class File {
    var byID: map<string, Record>
    var headers: map<string, string>
    var language: string
    var translated: int
    var outOf: int
    var inOrder: seq<string>

    constructor FromCatalog(c: Catalog)
      ensures byID == c.byID && headers == c.headers && language == c.language
      ensures translated == 0 && outOf == 0 && inOrder == []
    {
      byID := c.byID;
      headers := c.headers;
      language := c.language;
      translated := 0;
      outOf := 0;
      inOrder := [];
    }

    /** `GetLocale`: the `Language` header as it is, such as `en_US`. */
    function GetLocale(): (r: string)
      reads this
      ensures r == language
    {
      language
    }

    /** `GetLang`: the language up to its first `_`, such as `en`. */
    function GetLang(): (r: string)
      reads this
      ensures HasPrefix(language, r) && '_' !in r
      ensures |r| < |language| ==> language[|r|] == '_'
    {
      LangOf(language)
    }

    /** `GetLangUC`: `GetLang` in upper case, such as `EN`. */
    function GetLangUC(): (r: string)
      reads this
      ensures |r| == |GetLang()|
      ensures forall i :: 0 <= i < |r| ==> r[i] == UpperChar(GetLang()[i])
    {
      ToUpper(GetLang())
    }

    /**
     * `Translate`: the input is normalized; the three reserved keys give the
     * language names, unescaped; any other key gives its non-empty `msgstr`,
     * or else the key itself, escaped character by character when asked.
     */
    function Translate(input: string, escapeQuotes: bool): (r: string)
      reads this
      ensures Normalize(input) == "lang" ==> r == GetLang()
      ensures Normalize(input) == "langUC" ==> r == GetLangUC()
      ensures Normalize(input) == "locale" ==> r == GetLocale()
      ensures var key := Normalize(input);
              var chosen := if key in byID && byID[key].msgStr != "" then byID[key].msgStr else key;
              key !in {"lang", "langUC", "locale"} ==> r == if escapeQuotes then EscapeEach(chosen) else chosen
    {
      Translation(byID, language, input, escapeQuotes)
    }

    /**
     * `LoadAll`'s statistics loop: one more `OutOf` for each key of the
     * template, and one more `Translated` for each key translated here.
     */
    method AddStats(pot: File)
      modifies this`outOf, this`translated
      ensures outOf == old(outOf) + |pot.byID.Keys|
      ensures translated == old(translated) + |TranslatedIn(pot.byID.Keys, byID)|
    {
      var n, t := CountStats(pot.byID.Keys, byID);
      outOf := outOf + n;
      translated := translated + t;
    }

    /**
     * `Save`: the header record is put under `""`, `""` is put in front of
     * the order, and the blocks of the records in that order are the text
     * written (the write itself is not modelled).
     */
    method Save() returns (b: string)
      requires forall n :: n in inOrder ==> n in byID || n == ""
      modifies this`byID, this`inOrder
      ensures byID == old(byID)["" := HeaderRecord]
      ensures inOrder == [""] + old(inOrder)
      ensures Covers(byID, inOrder)
      ensures b == WriteBlocks("", byID, inOrder)
    {
      byID := byID["" := HeaderRecord];
      inOrder := [""] + inOrder;
      b := WriteAll(byID, inOrder);
    }
  }

  /** The loop of `Save`: the block of each named record, in order. */
  method WriteAll(records: map<string, Record>, order: seq<string>) returns (b: string)
    requires Covers(records, order)
    ensures b == WriteBlocks("", records, order)
  {
    b := "";
    var i := 0;
    while i < |order|
      invariant 0 <= i <= |order|
      invariant WriteBlocks("", records, order) == WriteBlocks(b, records, order[i..])
    {
      var r := records[order[i]];
      WriteBlocksStep(b, records, order, i);
      ghost var before := b;
      if r.comment != "" {
        b := b + CommentLine(r);
      }
      b := b + MsgIDLine(r);
      b := b + MsgStrLine(r);
      b := b + "\n";
      BlockAppend(before, r);
      i := i + 1;
    }
  }

  /** The reserved keywords give the language names whatever the catalog holds, and are never escaped. */
  lemma TranslateReserved(f: File, input: string, escapeQuotes: bool)
    ensures Normalize(input) == "lang" ==> f.Translate(input, escapeQuotes) == f.GetLang()
    ensures Normalize(input) == "langUC" ==> f.Translate(input, escapeQuotes) == f.GetLangUC()
    ensures Normalize(input) == "locale" ==> f.Translate(input, escapeQuotes) == f.GetLocale()
  {
  }

  /**
   * Any other text is looked up by its normalized form: a non-empty `msgstr`
   * is the answer, a miss or an empty `msgstr` gives the normalized text back;
   * the answer is escaped when asked for, and left verbatim otherwise.
   */
  lemma TranslateLookup(f: File, input: string, escapeQuotes: bool)
    requires Normalize(input) !in {"lang", "langUC", "locale"}
    ensures var key := Normalize(input);
            var chosen := if key in f.byID && f.byID[key].msgStr != "" then f.byID[key].msgStr else key;
            f.Translate(input, escapeQuotes) == if escapeQuotes then EscapeEach(chosen) else chosen
  {
  }

  /** Differences in white space do not change the answer: the text and its normalized form translate alike. */
  lemma TranslateNormalized(f: File, input: string, escapeQuotes: bool)
    ensures f.Translate(Normalize(input), escapeQuotes) == f.Translate(input, escapeQuotes)
  {
    NormalizeIdem(input);
  }

  lemma CharAt(s: string, i: nat)
    ensures i < |s| ==> s[i] in s
  {
  }

  /** A `GetLang` answer is determined: any prefix without `_` that ends at a `_` or at the end is it. */
  lemma GetLangUnique(f: File, r: string)
    requires HasPrefix(f.language, r) && '_' !in r
    requires |r| < |f.language| ==> f.language[|r|] == '_'
    ensures r == f.GetLang()
  {
    var g := f.GetLang();
    CharAt(g, |r|);
    CharAt(r, |g|);
    assert r == f.language[..|r|] && g == f.language[..|g|];
  }

  // ---------------------------------------------------------------------
  // Loading files

  /** What `Load` gives for `fn`: a read error, or `LoadSpec` of the file's text. */
  function LoadOf(disk: FileUtil.Disk, fn: string): Result<Catalog, LoadError> {
    if fn in disk then LoadSpec(fn, disk[fn]) else Err(ReadFailed(FileUtil.NotFound(fn)))
  }

  /** A freshly loaded file holds the catalog, with no statistics and no order yet. */
  predicate Holds(f: File, c: Catalog)
    reads f
  {
    && f.byID == c.byID && f.headers == c.headers && f.language == c.language
    && f.translated == 0 && f.outOf == 0 && f.inOrder == []
  }

  /** `Load`: reads `fn` and builds its catalog. */
  method Load(fn: string, disk: FileUtil.Disk) returns (r: Result<File, LoadError>)
    ensures r.Ok? <==> LoadOf(disk, fn).Ok?
    ensures r.Err? ==> r.error == LoadOf(disk, fn).error
    ensures r.Ok? ==> fresh(r.value) && Holds(r.value, LoadOf(disk, fn).value)
  {
    var item := FileUtil.ReadFileFromDisk(disk, fn);
    if item.e.Some? {
      return Err(ReadFailed(item.e.value));
    }
    var text := item.s;
    var chunks := Split(text, "\n\n");
    if |chunks| < 2 {
      return Err(BadFormat(fn));
    }
    var byID: map<string, Record> := map[];
    var i := 0;
    while i < |chunks|
      invariant 0 <= i <= |chunks|
      invariant KeepRecords(map[], chunks) == KeepRecords(byID, chunks[i..])
    {
      assert chunks[i..][1..] == chunks[i + 1..];
      var record := ParseChunk(chunks[i]);
      if record.Err? {
        return Err(ChunkFailed(fn, record.error));
      }
      var rec := record.value;
      if rec.msgStr != "" || rec.msgID != "" {
        byID := byID[rec.msgID := rec];
      }
      i := i + 1;
    }
    if "" !in byID {
      return Err(MissingRoot(fn));
    }
    var rootRecord := byID[""];
    var headers := ParseHeaders(rootRecord.msgStr);
    var language := Get(headers, "Language");
    if language == "" && !HasSuffix(fn, ".pot") {
      return Err(MissingLanguage(fn));
    }
    var f := new File.FromCatalog(Catalog(byID, headers, language));
    return Ok(f);
  }

  /** Why `LoadAll` failed: the directory listing, or one of the files. */
  datatype LoadAllError = ListFailed(message: string) | FileFailed(cause: LoadError)

  /** The template and the loaded languages, keyed by each file's `Language`. */
  class Files {
    var pot: File
    var byLanguage: map<string, File>

    constructor (p: File)
      ensures pot == p && byLanguage == map[]
    {
      pot := p;
      byLanguage := map[];
    }

    /** Files `p` under its language, replacing the file there before, if any. */
    method Add(p: File, ghost c: Catalog, ghost cats: map<string, Catalog>, pot: File)
      requires Mirrors(byLanguage, cats, pot)
      requires p.byID == c.byID && p.language == c.language && Counted(p, pot)
      modifies this`byLanguage
      ensures byLanguage == old(byLanguage)[p.language := p]
      ensures Mirrors(byLanguage, cats[c.language := c], pot)
    {
      MirrorsAdd(byLanguage, cats, pot, p, c);
      byLanguage := byLanguage[p.language := p];
    }

    /** `Languages`: every language key once, sorted. */
    method Languages() returns (ret: seq<string>)
      ensures Sorting.Sorted(ret) && Sorting.ListsOnce(ret, byLanguage.Keys)
    {
      ret := [];
      var rest := byLanguage.Keys;
      while rest != {}
        invariant rest <= byLanguage.Keys
        invariant Sorting.ListsOnce(ret, byLanguage.Keys - rest)
        decreases |rest|
      {
        var k :| k in rest;
        Sorting.ListsOnceAppend(ret, byLanguage.Keys - rest, k);
        ret := ret + [k];
        assert byLanguage.Keys - (rest - {k}) == (byLanguage.Keys - rest) + {k};
        rest := rest - {k};
      }
      Sorting.SortListsOnce(ret, byLanguage.Keys);
      ret := Sorting.Sort(ret);
    }
  }

  /** A file's statistics against a template: every template key counted, the translated ones counted again. */
  predicate Counted(p: File, pot: File)
    reads p, pot
  {
    p.outOf == |pot.byID.Keys| && p.translated == |TranslatedIn(pot.byID.Keys, p.byID)|
  }

  /** One `.po` file of `LoadAll`: loaded, then counted against the template. */
  method LoadCounted(fn: string, disk: FileUtil.Disk, pot: File) returns (r: Result<File, LoadError>)
    ensures r.Ok? <==> LoadOf(disk, fn).Ok?
    ensures r.Err? ==> r.error == LoadOf(disk, fn).error
    ensures r.Ok? ==> fresh(r.value) && r.value.byID == LoadOf(disk, fn).value.byID
    ensures r.Ok? ==> r.value.language == LoadOf(disk, fn).value.language && Counted(r.value, pot)
  {
    r := Load(fn, disk);
    if r.Ok? {
      r.value.AddStats(pot);
    }
  }

  /**
   * The loop of `LoadAll` over the listing: each name under `root` that ends
   * in `.po` is loaded and filed under its language, a later file replacing
   * an earlier one of the same language; the first load error ends it.
   */
  function LangFold(disk: FileUtil.Disk, root: string, ls: seq<string>, acc: map<string, Catalog>)
      : Result<map<string, Catalog>, LoadError>
    decreases |ls|
  {
    if ls == [] then Ok(acc)
    else
      var fn := root + "/" + ls[0];
      if !HasSuffix(fn, ".po") then LangFold(disk, root, ls[1..], acc)
      else match LoadOf(disk, fn)
        case Err(e) => Err(e)
        case Ok(c) => LangFold(disk, root, ls[1..], acc[c.language := c])
  }

  /** What `LoadAll` gives: the template's error, the listing's error, or the languages loaded. */
  function LoadAllSpec(disk: FileUtil.Disk, potfn: string, root: string, listing: Result<seq<string>, string>)
      : Result<map<string, Catalog>, LoadAllError>
  {
    if LoadOf(disk, potfn).Err? then Err(FileFailed(LoadOf(disk, potfn).error))
    else if listing.Err? then Err(ListFailed(listing.error))
    else match LangFold(disk, root, listing.value, map[])
      case Err(e) => Err(FileFailed(e))
      case Ok(m) => Ok(m)
  }

  /** Every catalog `LangFold` files is filed under its own language. */
  lemma {:induction false} LangFoldFiledByLanguage(disk: FileUtil.Disk, root: string, ls: seq<string>, acc: map<string, Catalog>)
    requires forall l :: l in acc ==> acc[l].language == l
    requires LangFold(disk, root, ls, acc).Ok?
    ensures forall l :: l in LangFold(disk, root, ls, acc).value ==> LangFold(disk, root, ls, acc).value[l].language == l
    decreases |ls|
  {
    if ls != [] {
      var fn := root + "/" + ls[0];
      if !HasSuffix(fn, ".po") {
        LangFoldFiledByLanguage(disk, root, ls[1..], acc);
      } else {
        var c := LoadOf(disk, fn).value;
        LangFoldFiledByLanguage(disk, root, ls[1..], acc[c.language := c]);
      }
    }
  }

  /** A listing without `.po` names loads nothing. */
  lemma {:induction false} LangFoldNoPo(disk: FileUtil.Disk, root: string, ls: seq<string>, acc: map<string, Catalog>)
    requires forall i :: 0 <= i < |ls| ==> !HasSuffix(root + "/" + ls[i], ".po")
    ensures LangFold(disk, root, ls, acc) == Ok(acc)
    decreases |ls|
  {
    if ls != [] {
      assert !HasSuffix(root + "/" + ls[0], ".po");
      LangFoldNoPo(disk, root, ls[1..], acc);
    }
  }

  /**
   * Every language `LangFold` ends with was there before or is the language
   * of a listed `.po` file that loads, and its catalog is that file's.
   */
  lemma {:induction false} LangFoldFromListing(disk: FileUtil.Disk, root: string, ls: seq<string>, acc: map<string, Catalog>, l: string)
    requires LangFold(disk, root, ls, acc).Ok? && l in LangFold(disk, root, ls, acc).value
    ensures (l in acc && LangFold(disk, root, ls, acc).value[l] == acc[l]) ||
            exists i :: 0 <= i < |ls| && HasSuffix(root + "/" + ls[i], ".po") && LoadOf(disk, root + "/" + ls[i]) == Ok(LangFold(disk, root, ls, acc).value[l])
    decreases |ls|
  {
    if ls != [] {
      var fn := root + "/" + ls[0];
      var next := if HasSuffix(fn, ".po") then acc[LoadOf(disk, fn).value.language := LoadOf(disk, fn).value] else acc;
      LangFoldFromListing(disk, root, ls[1..], next, l);
      var res := LangFold(disk, root, ls, acc).value;
      if l in next && res[l] == next[l] {
        if !(l in acc && res[l] == acc[l]) {
          assert HasSuffix(root + "/" + ls[0], ".po") && LoadOf(disk, root + "/" + ls[0]) == Ok(res[l]);
        }
      } else {
        var i :| 0 <= i < |ls[1..]| && HasSuffix(root + "/" + ls[1..][i], ".po") && LoadOf(disk, root + "/" + ls[1..][i]) == Ok(res[l]);
        assert ls[1..][i] == ls[i + 1];
      }
    }
  }

  /** The loaded files hold the catalogs of `cats`, key for key, each counted against the template. */
  ghost predicate Mirrors(m: map<string, File>, cats: map<string, Catalog>, pot: File)
    reads m.Values, pot
  {
    && m.Keys == cats.Keys
    && forall lang :: lang in m ==>
         m[lang].byID == cats[lang].byID && m[lang].language == cats[lang].language && Counted(m[lang], pot)
  }

  lemma MirrorsAdd(m: map<string, File>, cats: map<string, Catalog>, pot: File, p: File, c: Catalog)
    requires Mirrors(m, cats, pot)
    requires p.byID == c.byID && p.language == c.language && Counted(p, pot)
    ensures Mirrors(m[c.language := p], cats[c.language := c], pot)
  {
  }

  /** One step of `LangFold`. */
  lemma LangFoldStep(disk: FileUtil.Disk, root: string, ls: seq<string>, acc: map<string, Catalog>)
    requires ls != []
    ensures var fn := root + "/" + ls[0];
      LangFold(disk, root, ls, acc) ==
        if !HasSuffix(fn, ".po") then LangFold(disk, root, ls[1..], acc)
        else if LoadOf(disk, fn).Err? then Err(LoadOf(disk, fn).error)
        else LangFold(disk, root, ls[1..], acc[LoadOf(disk, fn).value.language := LoadOf(disk, fn).value])
  {
  }

  /** The body of the loop of `LoadAll` for the path `fn`. */
  method LoadOne(combined: Files, fn: string, disk: FileUtil.Disk, pot: File, ghost cats: map<string, Catalog>)
      returns (err: Option<LoadError>, ghost cats': map<string, Catalog>)
    requires Mirrors(combined.byLanguage, cats, pot)
    modifies combined
    ensures combined.pot == old(combined.pot)
    ensures !HasSuffix(fn, ".po") ==> err.None? && cats' == cats
    ensures HasSuffix(fn, ".po") && LoadOf(disk, fn).Err? ==> err == Some(LoadOf(disk, fn).error)
    ensures HasSuffix(fn, ".po") && LoadOf(disk, fn).Ok? ==>
      err.None? && cats' == cats[LoadOf(disk, fn).value.language := LoadOf(disk, fn).value]
    ensures err.None? ==> Mirrors(combined.byLanguage, cats', pot)
  {
    cats' := cats;
    err := None;
    if HasSuffix(fn, ".po") {
      var p := LoadCounted(fn, disk, pot);
      if p.Err? {
        return Some(p.error), cats;
      }
      ghost var c := LoadOf(disk, fn).value;
      combined.Add(p.value, c, cats, pot);
      cats' := cats[c.language := c];
    }
  }

  /** `LoadAll`: the template, then every `.po` file of the listing, with its statistics. */
  method LoadAll(potfn: string, root: string, listing: Result<seq<string>, string>, disk: FileUtil.Disk)
      returns (r: Result<Files, LoadAllError>)
    ensures r.Ok? <==> LoadAllSpec(disk, potfn, root, listing).Ok?
    ensures r.Err? ==> r.error == LoadAllSpec(disk, potfn, root, listing).error
    ensures r.Ok? ==> r.value.pot.byID == LoadOf(disk, potfn).value.byID
    ensures r.Ok? ==> Mirrors(r.value.byLanguage, LoadAllSpec(disk, potfn, root, listing).value, r.value.pot)
  {
    var loaded := Load(potfn, disk);
    if loaded.Err? {
      return Err(FileFailed(loaded.error));
    }
    var po := loaded.value;
    var combined := new Files(po);
    if listing.Err? {
      return Err(ListFailed(listing.error));
    }
    ghost var goal := LangFold(disk, root, listing.value, map[]);
    ghost var cats: map<string, Catalog> := map[];
    var rest := listing.value;
    while rest != []
      invariant fresh(combined) && combined.pot == po
      invariant LangFold(disk, root, rest, cats) == goal
      invariant Mirrors(combined.byLanguage, cats, po)
      modifies combined
      decreases |rest|
    {
      LangFoldStep(disk, root, rest, cats);
      var err;
      err, cats := LoadOne(combined, root + "/" + rest[0], disk, po, cats);
      if err.Some? {
        return Err(FileFailed(err.value));
      }
      rest := rest[1..];
    }
    return Ok(combined);
  }
}
