/**
 * The driver (`builder.go`): the jobs it queues for every template of every
 * entry of its post-processing table, and the copying of static files into
 * the output directory.
 */
module Builder {
  import opened Wrappers
  import opened Text
  import Sorting
  import Po
  import Job
  import FileUtil

  // ---------------------------------------------------------------------
  // Job enumeration

  /** One entry of the post-processing table: which templates, and how their pages are finished. */
  datatype PostInfo = PostInfo(directory: string, extension: string, postProcess: seq<string>,
                               escapeQuote: bool, multiLocale: bool)

  /** `strings.Split(file, ".")[0]`: the file name up to its first `.`. */
  function Basename(file: string): (r: string)
    ensures '.' !in r && HasPrefix(file, r)
    ensures |r| < |file| ==> file[|r|] == '.'
  {
    SplitFirstPiece(file, '.');
    Split(file, ".")[0]
  }

  /** A base name is determined: any prefix without `.` that ends at a `.` or at the end is it. */
  lemma BasenameUnique(file: string, r: string)
    requires HasPrefix(file, r) && '.' !in r
    requires |r| < |file| ==> file[|r|] == '.'
    ensures r == Basename(file)
  {
    var b := Basename(file);
    Po.CharAt(r, |b|);
    Po.CharAt(b, |r|);
    assert r == file[..|r|] && b == file[..|b|];
  }

  /**
   * `launcher`: the job for `file` with catalog `pofile`. The locale, the
   * language and its upper case all come from the catalog; the `locale`
   * argument is not used.
   */
  function Launch(outputDir: string, rootDir: string, tt: PostInfo, file: string, locale: string, pofile: Po.File)
    : (qi: Job.QueueItem)
    reads pofile
    ensures qi.rootDir == rootDir && qi.filename == file && qi.poFile == pofile && qi.outputDir == outputDir
    ensures qi.postProcess == tt.postProcess && qi.escapeQuotes == tt.escapeQuote && qi.multiLocale == tt.multiLocale
    ensures qi.data.locale == pofile.language && qi.data.lang == pofile.GetLang()
    ensures qi.data.langUC == ToUpper(qi.data.lang)
    ensures qi.data.basename == Basename(file)
  {
    Job.QueueItem(outputDir, rootDir, file, pofile, tt.postProcess,
                  Job.TemplateData(pofile.GetLocale(), pofile.GetLang(), pofile.GetLangUC(), Basename(file)),
                  tt.escapeQuote, tt.multiLocale)
  }

  /** The same job, whatever `locale` is passed. */
  lemma LaunchIgnoresLocale(outputDir: string, rootDir: string, tt: PostInfo, file: string,
                            locale1: string, locale2: string, pofile: Po.File)
    ensures Launch(outputDir, rootDir, tt, file, locale1, pofile) == Launch(outputDir, rootDir, tt, file, locale2, pofile)
  {
  }

  /** The files with the entry's extension, in listing order. */
  function Matching(files: seq<string>, extension: string): (r: seq<string>)
    ensures |r| <= |files|
    ensures forall f :: f in r ==> f in files && HasSuffix(f, extension)
    ensures forall f :: f in files && HasSuffix(f, extension) ==> f in r
  {
    if files == [] then []
    else (if HasSuffix(files[0], extension) then [files[0]] else []) + Matching(files[1..], extension)
  }

  /** The number of jobs one matching file yields. */
  function PerFile(tt: PostInfo, languages: nat): nat {
    if tt.multiLocale then languages + 1 else 1
  }

  /** Does `qi` use the reference catalog or one of the languages' catalogs? */
  predicate FromCatalogs(qi: Job.QueueItem, newPot: Po.File, byLanguage: map<string, Po.File>) {
    qi.poFile == newPot || qi.poFile in byLanguage.Values
  }

  /**
   * The inner loop over `ByLanguage`, in the map's own order: one job per
   * language, each with that language's catalog.
   */
  method LaunchLanguages(outputDir: string, rootDir: string, tt: PostInfo, file: string, byLanguage: map<string, Po.File>)
      returns (jobs: seq<Job.QueueItem>, ghost locales: seq<string>)
    ensures |jobs| == |byLanguage|
    ensures forall i :: 0 <= i < |jobs| ==> jobs[i].filename == file && jobs[i].poFile in byLanguage.Values
    ensures Sorting.ListsOnce(locales, byLanguage.Keys) && |jobs| == |locales|
    ensures forall i :: 0 <= i < |jobs| ==>
              locales[i] in byLanguage && jobs[i] == Launch(outputDir, rootDir, tt, file, locales[i], byLanguage[locales[i]])
  {
    jobs, locales := [], [];
    var rest := byLanguage.Keys;
    while rest != {}
      invariant rest <= byLanguage.Keys
      invariant Sorting.ListsOnce(locales, byLanguage.Keys - rest) && |jobs| == |locales|
      invariant forall i :: 0 <= i < |jobs| ==>
                  locales[i] in byLanguage && jobs[i] == Launch(outputDir, rootDir, tt, file, locales[i], byLanguage[locales[i]])
      decreases |rest|
    {
      var locale :| locale in rest;
      var pofile := byLanguage[locale];
      Sorting.ListsOnceAppend(locales, byLanguage.Keys - rest, locale);
      jobs := jobs + [Launch(outputDir, rootDir, tt, file, locale, pofile)];
      locales := locales + [locale];
      assert byLanguage.Keys - (rest - {locale}) == (byLanguage.Keys - rest) + {locale};
      rest := rest - {locale};
    }
    assert |multiset(locales)| == |multiset(byLanguage.Keys)|;
    forall i | 0 <= i < |jobs| ensures jobs[i].filename == file && jobs[i].poFile in byLanguage.Values {
      assert jobs[i].poFile == byLanguage[locales[i]];
    }
  }

  /** The number of jobs the files of one entry yield, file by file. */
  function EntryCount(files: seq<string>, tt: PostInfo, languages: nat): nat {
    if files == [] then 0
    else (if HasSuffix(files[0], tt.extension) then PerFile(tt, languages) else 0) + EntryCount(files[1..], tt, languages)
  }

  lemma MulSucc(m: nat, k: nat)
    ensures (m + 1) * k == m * k + k
  {
  }

  /** Every matching file yields the same number of jobs. */
  lemma {:induction false} EntryCountIs(files: seq<string>, tt: PostInfo, languages: nat)
    ensures EntryCount(files, tt, languages) == |Matching(files, tt.extension)| * PerFile(tt, languages)
    decreases |files|
  {
    if files != [] {
      EntryCountIs(files[1..], tt, languages);
      var m := |Matching(files[1..], tt.extension)|;
      var k := PerFile(tt, languages);
      if HasSuffix(files[0], tt.extension) {
        assert |Matching(files, tt.extension)| == m + 1;
        MulSucc(m, k);
      } else {
        assert |Matching(files, tt.extension)| == m;
      }
    }
  }

  /**
   * The jobs of one matching file: the reference job with the template
   * catalog and, for a multi-locale entry, one more per language, in the
   * map's order `locales`.
   */
  method FileJobs(outputDir: string, rootDir: string, tt: PostInfo, file: string,
                  newPot: Po.File, byLanguage: map<string, Po.File>)
      returns (more: seq<Job.QueueItem>, ghost locales: seq<string>)
    ensures |more| == PerFile(tt, |byLanguage|)
    ensures more[0] == Launch(outputDir, rootDir, tt, file, "en_US", newPot)
    ensures forall i :: 0 <= i < |more| ==>
              && more[i].filename == file && more[i].rootDir == rootDir && FromCatalogs(more[i], newPot, byLanguage)
              && (!tt.multiLocale ==> more[i].poFile == newPot)
    ensures tt.multiLocale ==> Sorting.ListsOnce(locales, byLanguage.Keys) && |more| == |locales| + 1
    ensures tt.multiLocale ==> forall i :: 0 <= i < |locales| ==>
              locales[i] in byLanguage && more[i + 1] == Launch(outputDir, rootDir, tt, file, locales[i], byLanguage[locales[i]])
    ensures Covered(more, outputDir, rootDir, tt, file, newPot, byLanguage)
  {
    more, locales := [Launch(outputDir, rootDir, tt, file, "en_US", newPot)], [];
    if tt.multiLocale {
      var perLanguage;
      perLanguage, locales := LaunchLanguages(outputDir, rootDir, tt, file, byLanguage);
      LanguagesCovered(more[0], perLanguage, locales, outputDir, rootDir, tt, file, newPot, byLanguage);
      more := more + perLanguage;
    }
  }

  /** The reference job followed by one job per language covers the file. */
  lemma LanguagesCovered(first: Job.QueueItem, perLanguage: seq<Job.QueueItem>, locales: seq<string>,
                         outputDir: string, rootDir: string, tt: PostInfo, file: string,
                         newPot: Po.File, byLanguage: map<string, Po.File>)
    requires tt.multiLocale && first == Launch(outputDir, rootDir, tt, file, "en_US", newPot)
    requires Sorting.ListsOnce(locales, byLanguage.Keys) && |perLanguage| == |locales|
    requires forall i :: 0 <= i < |perLanguage| ==>
               locales[i] in byLanguage && perLanguage[i] == Launch(outputDir, rootDir, tt, file, locales[i], byLanguage[locales[i]])
    ensures forall i :: 0 <= i < |locales| ==> ([first] + perLanguage)[i + 1] == perLanguage[i]
    ensures forall i :: 0 <= i < |perLanguage| ==> perLanguage[i].poFile in byLanguage.Values
    ensures Covered([first] + perLanguage, outputDir, rootDir, tt, file, newPot, byLanguage)
  {
    var more := [first] + perLanguage;
    forall i | 0 <= i < |perLanguage| ensures perLanguage[i].poFile in byLanguage.Values {
      assert perLanguage[i].poFile == byLanguage[locales[i]];
    }
    forall l | l in byLanguage
      ensures Launch(outputDir, rootDir, tt, file, l, byLanguage[l]) in more
    {
      Sorting.ListsOnceMeans(locales, byLanguage.Keys);
      var i :| 0 <= i < |locales| && locales[i] == l;
      assert more[i + 1] == perLanguage[i];
    }
  }

  /**
   * `jobs` holds the jobs of `file`: its reference job and, for a
   * multi-locale entry, its job for every language.
   */
  predicate Covered(jobs: seq<Job.QueueItem>, outputDir: string, rootDir: string, tt: PostInfo, file: string,
                    newPot: Po.File, byLanguage: map<string, Po.File>)
    reads newPot, byLanguage.Values
  {
    && Launch(outputDir, rootDir, tt, file, "en_US", newPot) in jobs
    && (tt.multiLocale ==> forall l :: l in byLanguage ==> Launch(outputDir, rootDir, tt, file, l, byLanguage[l]) in jobs)
  }

  /** Jobs added before or after those of a file keep them there. */
  lemma CoveredAppend(a: seq<Job.QueueItem>, b: seq<Job.QueueItem>, outputDir: string, rootDir: string, tt: PostInfo,
                      file: string, newPot: Po.File, byLanguage: map<string, Po.File>)
    requires Covered(a, outputDir, rootDir, tt, file, newPot, byLanguage) ||
             Covered(b, outputDir, rootDir, tt, file, newPot, byLanguage)
    ensures Covered(a + b, outputDir, rootDir, tt, file, newPot, byLanguage)
  {
  }

  /**
   * A job of the entry `tt` whose templates lie in `rootDir`: its file is one
   * of `files` with the entry's extension, and its catalog is the template
   * catalog or a language's, always the template catalog for an entry that
   * is not multi-locale.
   */
  predicate EntryJob(qi: Job.QueueItem, files: seq<string>, tt: PostInfo, rootDir: string,
                     newPot: Po.File, byLanguage: map<string, Po.File>) {
    && qi.filename in files && HasSuffix(qi.filename, tt.extension)
    && qi.rootDir == rootDir && FromCatalogs(qi, newPot, byLanguage)
    && (!tt.multiLocale ==> qi.poFile == newPot)
  }

  /**
   * The jobs of one table entry: for every file with the entry's extension,
   * the reference job with the template catalog and, for a multi-locale
   * entry, one more per language; no other job.
   */
  method EntryJobs(outputDir: string, templateDir: string, tt: PostInfo, files: seq<string>,
                   newPot: Po.File, byLanguage: map<string, Po.File>)
      returns (jobs: seq<Job.QueueItem>)
    ensures |jobs| == |Matching(files, tt.extension)| * PerFile(tt, |byLanguage|)
    ensures forall i :: 0 <= i < |jobs| ==>
              EntryJob(jobs[i], files, tt, templateDir + "/" + tt.directory, newPot, byLanguage)
    ensures forall f :: f in Matching(files, tt.extension) ==>
              Covered(jobs, outputDir, templateDir + "/" + tt.directory, tt, f, newPot, byLanguage)
  {
    var rootDir := templateDir + "/" + tt.directory;
    ghost var total := EntryCount(files, tt, |byLanguage|);
    EntryCountIs(files, tt, |byLanguage|);
    jobs := [];
    var rest := files;
    ghost var done := 0;
    while rest != []
      invariant done <= |files| && rest == files[done..]
      invariant |jobs| + EntryCount(rest, tt, |byLanguage|) == total
      invariant forall i :: 0 <= i < |jobs| ==> EntryJob(jobs[i], files, tt, rootDir, newPot, byLanguage)
      invariant forall f :: f in files[..done] && HasSuffix(f, tt.extension) ==>
                  Covered(jobs, outputDir, rootDir, tt, f, newPot, byLanguage)
      decreases |rest|
    {
      var file := rest[0];
      if HasSuffix(file, tt.extension) {
        var more, _ := FileJobs(outputDir, rootDir, tt, file, newPot, byLanguage);
        EntryStep(jobs, more, files, done, tt, outputDir, rootDir, newPot, byLanguage);
        jobs := jobs + more;
      }
      assert files[..done + 1] == files[..done] + [file];
      rest := rest[1..];
      done := done + 1;
    }
    assert files[..done] == files;
  }

  /** The jobs of the next matching file, appended, keep what the loop of `EntryJobs` promises. */
  lemma EntryStep(jobs: seq<Job.QueueItem>, more: seq<Job.QueueItem>, files: seq<string>, done: nat, tt: PostInfo,
                  outputDir: string, rootDir: string, newPot: Po.File, byLanguage: map<string, Po.File>)
    requires done < |files| && HasSuffix(files[done], tt.extension)
    requires forall i :: 0 <= i < |jobs| ==> EntryJob(jobs[i], files, tt, rootDir, newPot, byLanguage)
    requires forall f :: f in files[..done] && HasSuffix(f, tt.extension) ==>
               Covered(jobs, outputDir, rootDir, tt, f, newPot, byLanguage)
    requires forall i :: 0 <= i < |more| ==>
               && more[i].filename == files[done] && more[i].rootDir == rootDir && FromCatalogs(more[i], newPot, byLanguage)
               && (!tt.multiLocale ==> more[i].poFile == newPot)
    requires Covered(more, outputDir, rootDir, tt, files[done], newPot, byLanguage)
    ensures forall i :: 0 <= i < |jobs + more| ==> EntryJob((jobs + more)[i], files, tt, rootDir, newPot, byLanguage)
    ensures forall f :: f in files[..done + 1] && HasSuffix(f, tt.extension) ==>
              Covered(jobs + more, outputDir, rootDir, tt, f, newPot, byLanguage)
  {
    assert files[..done + 1] == files[..done] + [files[done]];
    forall f | f in files[..done + 1] && HasSuffix(f, tt.extension)
      ensures Covered(jobs + more, outputDir, rootDir, tt, f, newPot, byLanguage)
    {
      CoveredAppend(jobs, more, outputDir, rootDir, tt, f, newPot, byLanguage);
    }
  }

  /** The directory an entry's templates are read from. */
  function InputDir(templateDir: string, tt: PostInfo): string {
    templateDir + "/" + tt.directory
  }

  /**
   * The enumeration over the whole table: the first listing that fails, or
   * the number of jobs queued, when `listing` lists each input directory.
   */
  function Enumerated(templateDir: string, table: seq<PostInfo>, listing: string -> Result<seq<string>, string>,
                      languages: nat): Result<nat, string>
    decreases |table|
  {
    if table == [] then Ok(0)
    else match listing(InputDir(templateDir, table[0]))
      case Err(e) => Err(e)
      case Ok(files) =>
        match Enumerated(templateDir, table[1..], listing, languages)
        case Err(e) => Err(e)
        case Ok(n) => Ok(|Matching(files, table[0].extension)| * PerFile(table[0], languages) + n)
  }

  /** `done` jobs queued before the enumeration of the rest. */
  function After(done: nat, rest: Result<nat, string>): Result<nat, string> {
    match rest
    case Ok(n) => Ok(done + n)
    case Err(e) => Err(e)
  }

  /**
   * The enumeration loop of `main`: every entry's directory is listed (a
   * listing error is fatal) and its jobs are queued.
   */
  method EnumerateJobs(outputDir: string, templateDir: string, table: seq<PostInfo>,
                       listing: string -> Result<seq<string>, string>, newPot: Po.File, byLanguage: map<string, Po.File>)
      returns (jobs: seq<Job.QueueItem>, err: Option<string>)
    ensures var e := Enumerated(templateDir, table, listing, |byLanguage|);
            && (e.Err? ==> err == Some(e.error))
            && (e.Ok? ==> err.None? && |jobs| == e.value)
    ensures AllFromCatalogs(jobs, newPot, byLanguage)
    ensures err.None? ==> EntriesCovered(jobs, table, outputDir, templateDir, listing, newPot, byLanguage)
  {
    ghost var goal := Enumerated(templateDir, table, listing, |byLanguage|);
    jobs := [];
    var done := 0;
    while done < |table|
      invariant done <= |table|
      invariant After(|jobs|, Enumerated(templateDir, table[done..], listing, |byLanguage|)) == goal
      invariant AllFromCatalogs(jobs, newPot, byLanguage)
      invariant EntriesCovered(jobs, table[..done], outputDir, templateDir, listing, newPot, byLanguage)
    {
      var tt := table[done];
      var files := listing(InputDir(templateDir, tt));
      if files.Err? {
        EnumeratedErr(templateDir, table, done, listing, |byLanguage|, |jobs|);
        return jobs, Some(files.error);
      }
      var more := EntryJobs(outputDir, templateDir, tt, files.value, newPot, byLanguage);
      assert After(|jobs + more|, Enumerated(templateDir, table[done + 1..], listing, |byLanguage|)) == goal by {
        EnumeratedAt(templateDir, table, done, files.value, listing, |byLanguage|, |jobs|, |more|);
      }
      assert && AllFromCatalogs(jobs + more, newPot, byLanguage)
             && EntriesCovered(jobs + more, table[..done + 1], outputDir, templateDir, listing, newPot, byLanguage) by {
        EntriesStep(jobs, more, table, done, files.value, outputDir, templateDir, listing, newPot, byLanguage);
      }
      jobs := jobs + more;
      done := done + 1;
    }
    assert table[..done] == table;
    err := None;
  }

  /** A listing error at the entry at `done` is the error of the enumeration from there on. */
  lemma EnumeratedErr(templateDir: string, table: seq<PostInfo>, done: nat,
                      listing: string -> Result<seq<string>, string>, languages: nat, jobs: nat)
    requires done < |table| && listing(InputDir(templateDir, table[done])).Err?
    ensures After(jobs, Enumerated(templateDir, table[done..], listing, languages)) ==
            Err(listing(InputDir(templateDir, table[done])).error)
  {
    assert table[done..][0] == table[done];
  }

  /** The enumeration from the entry at `done` on: that entry's `more` jobs, then the rest's. */
  lemma EnumeratedAt(templateDir: string, table: seq<PostInfo>, done: nat, files: seq<string>,
                     listing: string -> Result<seq<string>, string>, languages: nat, jobs: nat, more: nat)
    requires done < |table| && listing(InputDir(templateDir, table[done])) == Ok(files)
    requires more == |Matching(files, table[done].extension)| * PerFile(table[done], languages)
    ensures After(jobs, Enumerated(templateDir, table[done..], listing, languages)) ==
            After(jobs + more, Enumerated(templateDir, table[done + 1..], listing, languages))
  {
    assert table[done..][1..] == table[done + 1..];
  }

  /** Every job uses the template catalog or a language's. */
  predicate AllFromCatalogs(jobs: seq<Job.QueueItem>, newPot: Po.File, byLanguage: map<string, Po.File>) {
    forall i :: 0 <= i < |jobs| ==> FromCatalogs(jobs[i], newPot, byLanguage)
  }

  /** Every matching file of every entry of `entries` has its jobs in `jobs`. */
  predicate EntriesCovered(jobs: seq<Job.QueueItem>, entries: seq<PostInfo>, outputDir: string, templateDir: string,
                           listing: string -> Result<seq<string>, string>, newPot: Po.File, byLanguage: map<string, Po.File>)
    reads newPot, byLanguage.Values
  {
    forall tt, f ::
      (tt in entries && listing(InputDir(templateDir, tt)).Ok? &&
       f in Matching(listing(InputDir(templateDir, tt)).value, tt.extension)) ==>
      Covered(jobs, outputDir, InputDir(templateDir, tt), tt, f, newPot, byLanguage)
  }

  /** The jobs of the next entry, appended, keep every entry before it covered and cover it too. */
  lemma EntriesStep(jobs: seq<Job.QueueItem>, more: seq<Job.QueueItem>, table: seq<PostInfo>, done: nat,
                    files: seq<string>, outputDir: string, templateDir: string,
                    listing: string -> Result<seq<string>, string>, newPot: Po.File, byLanguage: map<string, Po.File>)
    requires done < |table| && listing(InputDir(templateDir, table[done])) == Ok(files)
    requires EntriesCovered(jobs, table[..done], outputDir, templateDir, listing, newPot, byLanguage)
    requires forall f :: f in Matching(files, table[done].extension) ==>
               Covered(more, outputDir, templateDir + "/" + table[done].directory, table[done], f, newPot, byLanguage)
    requires AllFromCatalogs(jobs, newPot, byLanguage)
    requires forall i :: 0 <= i < |more| ==>
               EntryJob(more[i], files, table[done], templateDir + "/" + table[done].directory, newPot, byLanguage)
    ensures EntriesCovered(jobs + more, table[..done + 1], outputDir, templateDir, listing, newPot, byLanguage)
    ensures AllFromCatalogs(jobs + more, newPot, byLanguage)
  {
    assert table[..done + 1] == table[..done] + [table[done]];
    forall tt, f | tt in table[..done + 1] && listing(InputDir(templateDir, tt)).Ok? &&
                   f in Matching(listing(InputDir(templateDir, tt)).value, tt.extension)
      ensures Covered(jobs + more, outputDir, InputDir(templateDir, tt), tt, f, newPot, byLanguage)
    {
      CoveredAppend(jobs, more, outputDir, InputDir(templateDir, tt), tt, f, newPot, byLanguage);
    }
  }

  /** With one multi-locale entry, every matching file yields one job more than there are languages. */
  lemma MultiLocaleCount(templateDir: string, tt: PostInfo, files: seq<string>,
                         listing: string -> Result<seq<string>, string>, languages: nat)
    requires tt.multiLocale && listing(InputDir(templateDir, tt)) == Ok(files)
    ensures Enumerated(templateDir, [tt], listing, languages) == Ok(|Matching(files, tt.extension)| * (languages + 1))
  {
    assert [tt][1..] == [];
  }

  // ---------------------------------------------------------------------
  // `copyHelper`

  /** An editor backup: a name ending in `~`. */
  predicate Backup(f: string) {
    HasSuffix(f, "~")
  }

  /** The paths the files other than backups are copied to. */
  function Targets(dest: string, files: seq<string>): set<string> {
    if files == [] then {}
    else (if Backup(files[0]) then {} else {dest + "/" + files[0]}) + Targets(dest, files[1..])
  }

  /** The directories the files other than backups are copied into. */
  function Dirs(dir: string -> string, dest: string, files: seq<string>): set<string> {
    if files == [] then {}
    else (if Backup(files[0]) then {} else {dir(dest + "/" + files[0])}) + Dirs(dir, dest, files[1..])
  }

  /** The first file other than a backup that cannot be read, reported with the read's own error. */
  function CopyFailure(disk: FileUtil.Disk, source: string, files: seq<string>): Option<string> {
    if files == [] then None
    else if !Backup(files[0]) && source + "/" + files[0] !in disk then Some(FileUtil.NotFound(source + "/" + files[0]))
    else CopyFailure(disk, source, files[1..])
  }

  /** Every file other than a backup has a target. */
  lemma {:induction false} TargetsHas(dest: string, files: seq<string>, f: string)
    requires f in files && !Backup(f)
    ensures dest + "/" + f in Targets(dest, files)
    decreases |files|
  {
    if files[0] != f {
      TargetsHas(dest, files[1..], f);
    }
  }

  /** The name can be read back from the path joined under `dir`. */
  lemma JoinSuffix(dir: string, name: string)
    ensures (dir + "/" + name)[|dir| + 1..] == name
  {
  }

  /** No backup is ever written: no target is the path of a backup. */
  lemma {:induction false} BackupNotWritten(dest: string, files: seq<string>, f: string)
    requires Backup(f)
    ensures dest + "/" + f !in Targets(dest, files)
    decreases |files|
  {
    if files != [] {
      JoinSuffix(dest, files[0]);
      JoinSuffix(dest, f);
      BackupNotWritten(dest, files[1..], f);
    }
  }

  /** No name is listed twice. */
  predicate Distinct(s: seq<string>) {
    forall i, j :: 0 <= i < j < |s| ==> s[i] != s[j]
  }

  /** Every target written so far holds the contents of its source. */
  ghost predicate Copied(source: string, dest: string, disk: FileUtil.Disk, written: map<string, string>) {
    forall f :: dest + "/" + f in written ==>
      source + "/" + f in disk && written[dest + "/" + f] == disk[source + "/" + f]
  }

  /**
   * One pass of `copyHelper`'s loop for a file other than a backup: read it,
   * create its directory the first time that directory is met (`seen`
   * remembers the directories made), and write it.
   */
  method CopyOne(source: string, dest: string, disk: FileUtil.Disk, dir: string -> string, f: string,
                 made: seq<string>, seen: map<string, bool>, written: map<string, string>)
      returns (made': seq<string>, seen': map<string, bool>, written': map<string, string>, e: Option<string>)
    requires Distinct(made) && (forall d :: d in seen <==> d in made)
    requires Copied(source, dest, disk, written)
    ensures e.None? <==> source + "/" + f in disk
    ensures e.Some? ==> e.value == FileUtil.NotFound(source + "/" + f)
    ensures e.None? ==> written' == written[dest + "/" + f := disk[source + "/" + f]]
    ensures e.None? ==> Copied(source, dest, disk, written')
    ensures e.None? ==> seen'.Keys == seen.Keys + {dir(dest + "/" + f)}
    ensures e.None? ==> Distinct(made') && (forall d :: d in seen' <==> d in made')
  {
    made', seen', written' := made, seen, written;
    var item := FileUtil.ReadFileFromDisk(disk, source + "/" + f);
    if item.e.Some? {
      return made', seen', written', item.e;
    }
    var d := dir(dest + "/" + f);
    if d !in seen {
      seen' := seen[d := true];
      made' := made + [d];
    }
    written' := written[dest + "/" + f := item.s];
    e := None;
    forall g | dest + "/" + g in written'
      ensures source + "/" + g in disk && written'[dest + "/" + g] == disk[source + "/" + g]
    {
      JoinSuffix(dest, g);
      JoinSuffix(dest, f);
      JoinSuffix(source, g);
      JoinSuffix(source, f);
    }
  }

  /**
   * What a failed copy reports: as written, `log.Fatal(err)` with the
   * listing's error, nil by then; corrected, the read's own error.
   */
  function Reported(disk: FileUtil.Disk, source: string, files: seq<string>, asWritten: bool): Option<string> {
    match CopyFailure(disk, source, files)
    case None => None
    case Some(e) => Some(if asWritten then FatalMessage(None) else e)
  }

  /**
   * `copyHelper`: the listing's error is fatal; otherwise every file other
   * than a backup is read from `source` and written under `dest`, its
   * directory being created the first time it is met. A read error is
   * fatal: with `asWritten` it is reported as the code does, by printing the
   * listing's (nil) error; without, by the read's own message. `dir` is
   * `filepath.Dir`.
   */
  method CopyHelper(source: string, dest: string, listing: Result<seq<string>, string>, disk: FileUtil.Disk,
                    dir: string -> string, asWritten: bool)
      returns (made: seq<string>, written: map<string, string>, failure: Option<string>)
    ensures listing.Err? ==> failure == Some(listing.error)
    ensures listing.Ok? ==> failure == Reported(disk, source, listing.value, asWritten)
    ensures listing.Ok? && failure.None? ==>
              && written.Keys == Targets(dest, listing.value)
              && (forall f :: f in listing.value && !Backup(f) ==>
                    dest + "/" + f in written && source + "/" + f in disk && written[dest + "/" + f] == disk[source + "/" + f])
              && Distinct(made)
              && (forall d :: d in made <==> d in Dirs(dir, dest, listing.value))
  {
    made, written := [], map[];
    if listing.Err? {
      return made, written, Some(listing.error);
    }
    var files := listing.value;
    var err: Option<string> := None;
    var seen: map<string, bool> := map[];
    var rest := files;
    while rest != []
      invariant CopyFailure(disk, source, rest) == CopyFailure(disk, source, files)
      invariant written.Keys + Targets(dest, rest) == Targets(dest, files)
      invariant Copied(source, dest, disk, written)
      invariant Distinct(made) && (forall d :: d in seen <==> d in made)
      invariant seen.Keys + Dirs(dir, dest, rest) == Dirs(dir, dest, files)
      decreases |rest|
    {
      var f := rest[0];
      if Backup(f) {
        rest := rest[1..];
        continue;
      }
      var e;
      made, seen, written, e := CopyOne(source, dest, disk, dir, f, made, seen, written);
      if e.Some? {
        return made, written, Some(if asWritten then FatalMessage(err) else e.value);
      }
      rest := rest[1..];
    }
    failure := None;
    forall f | f in files && !Backup(f)
      ensures dest + "/" + f in written && source + "/" + f in disk && written[dest + "/" + f] == disk[source + "/" + f]
    {
      TargetsHas(dest, files, f);
    }
  }

  /** How `log.Fatal(err)` prints an error value: a nil error prints as `<nil>`. */
  function FatalMessage(err: Option<string>): string {
    match err
    case None => "<nil>"
    case Some(e) => e
  }

  /**
   * As written, `copyHelper` fails exactly when a read fails, but reports it
   * as `<nil>`, whichever file it was, instead of the read's error naming
   * the path; corrected, it reports that error.
   */
  lemma CopyReadFailureAsWritten(disk: FileUtil.Disk, source: string, files: seq<string>)
    ensures Reported(disk, source, files, true).Some? <==> CopyFailure(disk, source, files).Some?
    ensures Reported(disk, source, files, true).Some? ==>
              && Reported(disk, source, files, true) == Some("<nil>")
              && Reported(disk, source, files, true) != CopyFailure(disk, source, files)
    ensures Reported(disk, source, files, false) == CopyFailure(disk, source, files)
  {
    if CopyFailure(disk, source, files).Some? {
      var f := CopyFailureAt(disk, source, files);
      assert FileUtil.NotFound(source + "/" + f)[..5] == "open ";
    }
  }

  /** The file whose read fails first. */
  lemma {:induction false} CopyFailureAt(disk: FileUtil.Disk, source: string, files: seq<string>) returns (f: string)
    requires CopyFailure(disk, source, files).Some?
    ensures CopyFailure(disk, source, files) == Some(FileUtil.NotFound(source + "/" + f))
    decreases |files|
  {
    if !Backup(files[0]) && source + "/" + files[0] !in disk {
      f := files[0];
    } else {
      f := CopyFailureAt(disk, source, files[1..]);
    }
  }
}
