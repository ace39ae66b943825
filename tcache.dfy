/**
 * The template cache (`tcache/tcache.go`): the templates found at the top of
 * a directory, keyed by file name, and the two sorted listings of its keys.
 */
module Tcache {
  import opened Wrappers
  import opened Text
  import Sorting

  /** A parsed template; `text/template` is not modelled, so it is represented by what the parse returned. */
  type Template = string

  /** A name holding a `/` lies below the top of the directory. */
  predicate TopLevel(name: string) {
    '/' !in name
  }

  /** The names `New` loads: neither an editor backup (ending in `~`) nor below the top. */
  predicate Loaded(name: string) {
    !HasSuffix(name, "~") && TopLevel(name)
  }

  /** The keys `TopFiles` lists. */
  function Top(keys: set<string>): (r: set<string>)
    ensures r <= keys
    ensures forall k :: k in keys && TopLevel(k) ==> k in r
  {
    set k | k in keys && TopLevel(k)
  }

  /** The error `New` reports for a template that does not parse. */
  function ReadingError(fname: string, err: string): string {
    "Reading file " + fname + ": " + err
  }

  /**
   * The loop of `New` over the listing, from the cache `acc` built so far:
   * names that are not loaded are skipped; the others are parsed from
   * `path + "/" + name` and stored, and the first parse error stops the loop
   * with the cache as it then is.
   */
  function Scan(path: string, files: seq<string>, parse: string -> Result<Template, string>,
                acc: map<string, Template>): (map<string, Template>, Option<string>)
    decreases |files|
  {
    if files == [] then (acc, None)
    else if !Loaded(files[0]) then Scan(path, files[1..], parse, acc)
    else match parse(path + "/" + files[0])
      case Err(e) => (acc, Some(ReadingError(path + "/" + files[0], e)))
      case Ok(t) => Scan(path, files[1..], parse, acc[files[0] := t])
  }

  /** Every key the loop stores was already there or is a loaded name of the listing, with its parse. */
  lemma {:induction false} ScanKeys(path: string, files: seq<string>, parse: string -> Result<Template, string>,
                                    acc: map<string, Template>)
    ensures forall k :: k in Scan(path, files, parse, acc).0 ==>
              k in acc || (k in files && Loaded(k) && parse(path + "/" + k).Ok?)
    decreases |files|
  {
    if files != [] && Loaded(files[0]) && parse(path + "/" + files[0]).Ok? {
      ScanKeys(path, files[1..], parse, acc[files[0] := parse(path + "/" + files[0]).value]);
    } else if files != [] {
      ScanKeys(path, files[1..], parse, acc);
    }
  }

  /** When the loop finishes without error, every loaded name of the listing is stored, with its parse. */
  lemma {:induction false} ScanComplete(path: string, files: seq<string>, parse: string -> Result<Template, string>,
                                        acc: map<string, Template>, f: string)
    requires Scan(path, files, parse, acc).1.None? && f in files && Loaded(f)
    ensures parse(path + "/" + f).Ok? && f in Scan(path, files, parse, acc).0
    decreases |files|
  {
    if files[0] == f {
      KeptAfter(path, files[1..], parse, acc[f := parse(path + "/" + f).value], f);
    } else if Loaded(files[0]) {
      ScanComplete(path, files[1..], parse, acc[files[0] := parse(path + "/" + files[0]).value], f);
    } else {
      ScanComplete(path, files[1..], parse, acc, f);
    }
  }

  /** A stored key is never dropped by the rest of the loop. */
  lemma {:induction false} KeptAfter(path: string, files: seq<string>, parse: string -> Result<Template, string>,
                                     acc: map<string, Template>, f: string)
    requires f in acc
    ensures f in Scan(path, files, parse, acc).0
    decreases |files|
  {
    if files != [] && Loaded(files[0]) && parse(path + "/" + files[0]).Ok? {
      KeptAfter(path, files[1..], parse, acc[files[0] := parse(path + "/" + files[0]).value], f);
    } else if files != [] && !Loaded(files[0]) {
      KeptAfter(path, files[1..], parse, acc, f);
    }
  }

  /** A failed loop names the first loaded file that did not parse, with the parser's error. */
  lemma {:induction false} ScanFailureAt(path: string, files: seq<string>, parse: string -> Result<Template, string>,
                                         acc: map<string, Template>)
      returns (f: string, e: string)
    requires Scan(path, files, parse, acc).1.Some?
    ensures f in files && Loaded(f) && parse(path + "/" + f) == Err(e)
    ensures Scan(path, files, parse, acc).1 == Some(ReadingError(path + "/" + f, e))
    decreases |files|
  {
    if Loaded(files[0]) && parse(path + "/" + files[0]).Err? {
      f, e := files[0], parse(path + "/" + files[0]).error;
    } else if Loaded(files[0]) {
      f, e := ScanFailureAt(path, files[1..], parse, acc[files[0] := parse(path + "/" + files[0]).value]);
    } else {
      f, e := ScanFailureAt(path, files[1..], parse, acc);
    }
  }

  /** The cache: a map from file name to template. */
  class Tcache {
    var byName: map<string, Template>

    constructor ()
      ensures byName == map[]
    {
      byName := map[];
    }

    /** `TopFiles`: the keys holding no `/`, each once, sorted; the cache is unchanged. */
    method TopFiles() returns (ret: seq<string>)
      ensures Sorting.Sorted(ret) && Sorting.ListsOnce(ret, Top(byName.Keys))
    {
      ret := [];
      var rest := byName.Keys;
      while rest != {}
        invariant rest <= byName.Keys
        invariant Sorting.ListsOnce(ret, Top(byName.Keys - rest))
        decreases |rest|
      {
        var k :| k in rest;
        ghost var done := byName.Keys - rest;
        assert byName.Keys - (rest - {k}) == done + {k};
        if TopLevel(k) {
          Sorting.ListsOnceAppend(ret, Top(done), k);
          assert Top(done + {k}) == Top(done) + {k};
          ret := ret + [k];
        } else {
          assert Top(done + {k}) == Top(done);
        }
        rest := rest - {k};
      }
      Sorting.SortListsOnce(ret, Top(byName.Keys));
      ret := Sorting.Sort(ret);
    }

    /** `Files`: every key once, sorted; the cache is unchanged. */
    method Files() returns (ret: seq<string>)
      ensures Sorting.Sorted(ret) && Sorting.ListsOnce(ret, byName.Keys)
    {
      ret := [];
      var rest := byName.Keys;
      while rest != {}
        invariant rest <= byName.Keys
        invariant Sorting.ListsOnce(ret, byName.Keys - rest)
        decreases |rest|
      {
        var k :| k in rest;
        Sorting.ListsOnceAppend(ret, byName.Keys - rest, k);
        ret := ret + [k];
        assert byName.Keys - (rest - {k}) == (byName.Keys - rest) + {k};
        rest := rest - {k};
      }
      Sorting.SortListsOnce(ret, byName.Keys);
      ret := Sorting.Sort(ret);
    }
  }

  /**
   * `New`: the listing's error is returned with an empty cache; otherwise
   * the loop of `Scan`, whose cache is returned even when a parse fails.
   * The listing and the parser are parameters.
   */
  method New(path: string, listing: Result<seq<string>, string>, parse: string -> Result<Template, string>)
      returns (tc: Tcache, err: Option<string>)
    ensures listing.Err? ==> tc.byName == map[] && err == Some(listing.error)
    ensures listing.Ok? ==> (tc.byName, err) == Scan(path, listing.value, parse, map[])
    ensures forall k :: k in tc.byName ==> Loaded(k)
  {
    tc := new Tcache();
    if listing.Err? {
      return tc, Some(listing.error);
    }
    ghost var goal := Scan(path, listing.value, parse, map[]);
    ScanKeys(path, listing.value, parse, map[]);
    var rest := listing.value;
    while rest != []
      invariant Scan(path, rest, parse, tc.byName) == goal
      modifies tc
      decreases |rest|
    {
      var fn := rest[0];
      if !Loaded(fn) {
        rest := rest[1..];
        continue;
      }
      var fname := path + "/" + fn;
      var t := parse(fname);
      if t.Err? {
        return tc, Some(ReadingError(fname, t.error));
      }
      tc.byName := tc.byName[fn := t.value];
      rest := rest[1..];
    }
    err := None;
  }

  /** `TopFiles` lists a subset of what `Files` lists. */
  lemma TopWithinFiles(top: seq<string>, all: seq<string>, keys: set<string>)
    requires Sorting.ListsOnce(top, Top(keys)) && Sorting.ListsOnce(all, keys)
    ensures forall k :: k in top ==> k in all
  {
    Sorting.ListsOnceMeans(top, Top(keys));
    Sorting.ListsOnceMeans(all, keys);
  }

  /** For a cache `New` built, nothing lies below the top, so `TopFiles` and `Files` list the same. */
  lemma {:induction false} TopFilesAreFiles(top: seq<string>, all: seq<string>, keys: set<string>)
    requires forall k :: k in keys ==> Loaded(k)
    requires Sorting.Sorted(top) && Sorting.ListsOnce(top, Top(keys))
    requires Sorting.Sorted(all) && Sorting.ListsOnce(all, keys)
    ensures top == all
  {
    assert Top(keys) == keys;
    Sorting.SortedUnique(top, all);
  }
}
