/**
 * The builder's configuration (`config/config.go`): the three directories
 * and the five lists of post-processing commands, with a default for every
 * field left empty.
 */
module Config {
  import opened Wrappers
  import Sorting
  import Text
  import Job

  /** A configuration's contents, field by field. */
  datatype Settings = Settings(templateDir: string, poDir: string, outputDir: string,
                               note: seq<string>, js: seq<string>, css: seq<string>,
                               html: seq<string>, php: seq<string>)

  /** A record nothing has been filled into. */
  const Empty := Settings("", "", "", [], [], [], [], [])

  const NoteDefault: seq<string> := [
    "Macros available:",
    "[NAME] will simply be index.html.en_US, index.js.en_US, or comment.php",
    "[NAMEGZ] will simply be index.html.gz.en_US, index.js.gz.en_US, or comment.php.gz",
    "For convenience:",
    "[INPUT] will be identical to [NAME].orig",
    "[OUTPUT] will be idetnical to [NAME]",
    "All processors must be defined.  At minimum simply use mv [NAME].orig NAME"
  ]

  const JSDefault: seq<string> := [
    "uglifyjs2  [NAME].orig -o [NAME] -c --warnings=false   --source-map [NAME].map   --stats",
    "gzip -f -9 -Sgz  < [NAME]  > [NAMEGZ]"
  ]

  const CSSDefault: seq<string> := [
    "cssmin < [NAME].orig > [NAME]",
    "gzip -f -9 -Sgz  < [NAME]  > [NAMEGZ]"
  ]

  /** The HTML pretty-printing command, which writes the page to `[NAME]`. */
  const TidyCommand := "tidy -quiet -indent -asxhtml " + "-utf8 -w 120 --show-warnings false" + " < [NAME].orig" + " > [NAME]"

  /** The text of the HTML compression command around its input reference. */
  const SedScript := " 's#/index.js#/index.js.gz#'" + " | gzip -f -9 -Sgz  > "

  /** The HTML commands as the defaults spell them: the second reads `[DONE]`, which is no macro. */
  const HTMLAsWritten: seq<string> := [
    TidyCommand,
    "sed < [DONE]" + SedScript + "[NAMEGZ]"
  ]

  /**
   * The HTML commands with the second reading `[NAME]`, the page the first
   * has just written: the evidently intended default, which `DefaultsOf`
   * does not use.
   */
  const HTMLDefault: seq<string> := [
    TidyCommand,
    "sed < [NAME]" + SedScript + "[NAMEGZ]"
  ]

  const PHPDefault: seq<string> := ["mv [NAME].orig [NAME]"]

  /** A directory, or its default when it is empty. */
  function OrDir(d: string, default: string): string {
    if d == "" then default else d
  }

  /** A command list, or its default when it is empty. */
  function OrList(l: seq<string>, default: seq<string>): seq<string> {
    if |l| == 0 then default else l
  }

  /**
   * What `Defaults` makes of a configuration: every field that was empty
   * holds its default, and every other field is kept.
   */
  function DefaultsOf(s: Settings): (r: Settings)
    ensures s.templateDir == "" ==> r.templateDir == "templates"
    ensures s.poDir == "" ==> r.poDir == "translations"
    ensures s.outputDir == "" ==> r.outputDir == "output"
    ensures |s.note| == 0 ==> r.note == NoteDefault
    ensures |s.js| == 0 ==> r.js == JSDefault
    ensures |s.css| == 0 ==> r.css == CSSDefault
    ensures |s.html| == 0 ==> r.html == HTMLAsWritten
    ensures |s.php| == 0 ==> r.php == PHPDefault
    ensures s.templateDir != "" ==> r.templateDir == s.templateDir
    ensures s.poDir != "" ==> r.poDir == s.poDir
    ensures s.outputDir != "" ==> r.outputDir == s.outputDir
    ensures |s.note| > 0 ==> r.note == s.note
    ensures |s.js| > 0 ==> r.js == s.js
    ensures |s.css| > 0 ==> r.css == s.css
    ensures |s.html| > 0 ==> r.html == s.html
    ensures |s.php| > 0 ==> r.php == s.php
  {
    Settings(OrDir(s.templateDir, "templates"), OrDir(s.poDir, "translations"), OrDir(s.outputDir, "output"),
             OrList(s.note, NoteDefault), OrList(s.js, JSDefault), OrList(s.css, CSSDefault),
             OrList(s.html, HTMLAsWritten), OrList(s.php, PHPDefault))
  }

  /** Filling in the defaults a second time changes nothing. */
  lemma DefaultsIdempotent(s: Settings)
    ensures DefaultsOf(DefaultsOf(s)) == DefaultsOf(s)
  {
    var r := DefaultsOf(s);
    assert r.templateDir != "" && r.poDir != "" && r.outputDir != "";
  }

  /**
   * The empty record, defaulted: the three fixed directories and the default
   * command lists, the HTML one as written, reading `[DONE]`.
   */
  lemma DefaultsOfEmpty()
    ensures DefaultsOf(Empty) == Settings("templates", "translations", "output", NoteDefault, JSDefault,
                                          CSSDefault, HTMLAsWritten, PHPDefault)
    ensures DefaultsOf(Empty).html[1] == "sed < [DONE]" + SedScript + "[NAMEGZ]"
  {
  }

  /** `Record`: the configuration, whose fields `Defaults` assigns one at a time. */
  class Record {
    var templateDir: string
    var poDir: string
    var outputDir: string
    var note: seq<string>
    var js: seq<string>
    var css: seq<string>
    var html: seq<string>
    var php: seq<string>

    constructor ()
      ensures Snapshot() == Empty
    {
      templateDir, poDir, outputDir := "", "", "";
      note, js, css, html, php := [], [], [], [], [];
    }

    /** The record's fields as a value. */
    function Snapshot(): Settings
      reads this
    {
      Settings(templateDir, poDir, outputDir, note, js, css, html, php)
    }

    /** What decoding a configuration file fills in. */
    method Assign(s: Settings)
      modifies this
      ensures Snapshot() == s
    {
      templateDir, poDir, outputDir := s.templateDir, s.poDir, s.outputDir;
      note, js, css, html, php := s.note, s.js, s.css, s.html, s.php;
    }

    /** `Defaults`: each empty field receives its default. */
    method Defaults()
      modifies this
      ensures Snapshot() == DefaultsOf(old(Snapshot()))
    {
      templateDir := OrDir(templateDir, "templates");
      poDir := OrDir(poDir, "translations");
      outputDir := OrDir(outputDir, "output");
      note := OrList(note, NoteDefault);
      js := OrList(js, JSDefault);
      css := OrList(css, CSSDefault);
      html := OrList(html, HTMLAsWritten);
      php := OrList(php, PHPDefault);
    }
  }

  /**
   * `Load`: with no file name, the empty record defaulted and no error; with
   * one, the file is read and decoded by `decode` (its error, if any, is
   * returned with the empty record) and then defaulted.
   */
  method Load(filename: string, decode: string -> Result<Settings, string>) returns (r: Record, err: Option<string>)
    ensures fresh(r)
    ensures filename == "" ==> err.None? && r.Snapshot() == DefaultsOf(Empty)
    ensures filename != "" && decode(filename).Err? ==> err == Some(decode(filename).error) && r.Snapshot() == Empty
    ensures filename != "" && decode(filename).Ok? ==> err.None? && r.Snapshot() == DefaultsOf(decode(filename).value)
  {
    r := new Record();
    if filename != "" {
      var d := decode(filename);
      if d.Err? {
        return r, Some(d.error);
      }
      r.Assign(d.value);
    }
    r.Defaults();
    err := None;
  }

  /** The compression command's script holds no `[`. */
  lemma SedScriptOpen()
    ensures '[' !in SedScript
  {
    assert '[' !in " 's#/index.js#/index.js.gz#'";
    assert '[' !in " | gzip -f -9 -Sgz  > ";
  }

  /** The HTML compression command as pieces: `[input]` is the page it reads. */
  function SedPieces(input: string): seq<Job.Piece> {
    [Job.Lit("sed < ")] + ([Job.Macro(input)] + ([Job.Lit(SedScript)] + [Job.Macro("NAMEGZ")]))
  }

  /** Rendering a command of four pieces. */
  lemma Render4(a: Job.Piece, b: Job.Piece, c: Job.Piece, d: Job.Piece)
    ensures Job.Render([a] + ([b] + ([c] + [d]))) ==
            Job.PieceText(a) + Job.PieceText(b) + Job.PieceText(c) + Job.PieceText(d)
  {
    Job.RenderCons(d, []);
    Job.RenderCons(c, [d]);
    Job.RenderCons(b, [c] + [d]);
    Job.RenderCons(a, [b] + ([c] + [d]));
  }

  /** Resolving a command of four pieces, piece by piece. */
  lemma Resolve4(a: Job.Piece, b: Job.Piece, c: Job.Piece, d: Job.Piece, macros: map<string, string>, names: set<string>)
    ensures Job.Resolve([a] + ([b] + ([c] + [d])), macros, names) ==
            [Job.ResolvePiece(a, macros, names)] + ([Job.ResolvePiece(b, macros, names)] +
            ([Job.ResolvePiece(c, macros, names)] + [Job.ResolvePiece(d, macros, names)]))
  {
    Job.ResolveCons(d, [], macros, names);
    Job.ResolveCons(c, [d], macros, names);
    Job.ResolveCons(b, [c] + [d], macros, names);
    Job.ResolveCons(a, [b] + ([c] + [d]), macros, names);
  }

  lemma SedRender(input: string)
    ensures Job.Render(SedPieces(input)) == "sed < " + Job.Ref(input) + SedScript + Job.Ref("NAMEGZ")
  {
    Render4(Job.Lit("sed < "), Job.Macro(input), Job.Lit(SedScript), Job.Macro("NAMEGZ"));
  }

  /** The command's references resolved by a macro table that has `NAMEGZ`. */
  lemma SedResolve(input: string, macros: map<string, string>)
    requires "NAMEGZ" in macros
    ensures Job.Render(Job.Resolve(SedPieces(input), macros, macros.Keys)) ==
            "sed < " + (if input in macros then macros[input] else Job.Ref(input)) + SedScript + macros["NAMEGZ"]
  {
    var k := macros.Keys;
    var x := Job.ResolvePiece(Job.Macro(input), macros, k);
    Resolve4(Job.Lit("sed < "), Job.Macro(input), Job.Lit(SedScript), Job.Macro("NAMEGZ"), macros, k);
    Render4(Job.Lit("sed < "), x, Job.Lit(SedScript), Job.Lit(macros["NAMEGZ"]));
  }

  /** Fix-up of the second HTML command of a job whose name and language hold no `[`. */
  lemma SedFixup(input: string, filename: string, language: string, multiLocale: bool, order: seq<string>)
    requires Job.BracketFree(input) && '[' !in filename && '[' !in language
    requires Sorting.ListsOnce(order, Job.MacroKeys)
    ensures forall k :: k in order ==> k in Job.MacroKeys
    ensures var m := Job.MacroTable(filename, language, multiLocale);
            Job.FixupIn(m, order, "sed < " + Job.Ref(input) + SedScript + Job.Ref("NAMEGZ")) ==
              "sed < " + (if input in m then m[input] else Job.Ref(input)) + SedScript + m["NAMEGZ"]
  {
    var m := Job.MacroTable(filename, language, multiLocale);
    var ps := SedPieces(input);
    assert forall j :: j in m ==> Job.BracketFree(j) && '[' !in m[j];
    SedScriptOpen();
    assert forall i :: 0 <= i < |ps| ==> Job.PieceOk(ps[i]);
    SedRender(input);
    Job.FixupPieces(m, order, ps);
    SedResolve(input, m);
  }

  /**
   * As written, the HTML compression command still reads from `[DONE]` after
   * fix-up, whatever the job: `DONE` is no macro, so the shell is handed the
   * literal name `[DONE]` instead of the page.
   */
  lemma HTMLAsWrittenReadsDone(filename: string, language: string, multiLocale: bool, order: seq<string>)
    requires '[' !in filename && '[' !in language
    requires Sorting.ListsOnce(order, Job.MacroKeys)
    ensures forall k :: k in order ==> k in Job.MacroKeys
    ensures "DONE" !in Job.MacroKeys
    ensures Job.FixupIn(Job.MacroTable(filename, language, multiLocale), order, HTMLAsWritten[1]) ==
              "sed < [DONE]" + SedScript + Job.MacroTable(filename, language, multiLocale)["NAMEGZ"]
  {
    assert "sed < [DONE]" == "sed < " + Job.Ref("DONE") && "[NAMEGZ]" == Job.Ref("NAMEGZ");
    SedFixup("DONE", filename, language, multiLocale, order);
  }

  /**
   * A configuration with no HTML commands of its own gets, after `Defaults`,
   * a compression command that reads `[DONE]` after fix-up, whatever the job.
   */
  lemma DefaultHTMLReadsDone(s: Settings, filename: string, language: string, multiLocale: bool, order: seq<string>)
    requires |s.html| == 0 && '[' !in filename && '[' !in language
    requires Sorting.ListsOnce(order, Job.MacroKeys)
    ensures forall k :: k in order ==> k in Job.MacroKeys
    ensures |DefaultsOf(s).html| == 2
    ensures Job.FixupIn(Job.MacroTable(filename, language, multiLocale), order, DefaultsOf(s).html[1]) ==
              "sed < [DONE]" + SedScript + Job.MacroTable(filename, language, multiLocale)["NAMEGZ"]
  {
    HTMLAsWrittenReadsDone(filename, language, multiLocale, order);
  }

  /**
   * With the corrected default, the HTML compression command reads the page
   * itself: after fix-up its input is the job's `NAME`, which the tidy
   * command before it has just written.
   */
  lemma HTMLDefaultReadsPage(filename: string, language: string, multiLocale: bool, order: seq<string>)
    requires '[' !in filename && '[' !in language
    requires Sorting.ListsOnce(order, Job.MacroKeys)
    ensures forall k :: k in order ==> k in Job.MacroKeys
    ensures var m := Job.MacroTable(filename, language, multiLocale);
            && HTMLDefault[0] == TidyCommand && Text.HasSuffix(TidyCommand, " > [NAME]")
            && Job.FixupIn(m, order, HTMLDefault[1]) == "sed < " + m["NAME"] + SedScript + m["NAMEGZ"]
  {
    assert "sed < [NAME]" == "sed < " + Job.Ref("NAME") && "[NAMEGZ]" == Job.Ref("NAMEGZ");
    SedFixup("NAME", filename, language, multiLocale, order);
  }
}
