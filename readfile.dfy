/**
 * File reads in `fileutil/readfile.go`: a plain read, and a read-through
 * cache that remembers the outcome of the first read of each name, errors
 * included. The file system is a map from path to contents; a path that is
 * not in it cannot be read.
 */
module FileUtil {
  import opened Wrappers

  /** Path to contents. */
  type Disk = map<string, string>

  /** The outcome of a read: the text, and the error if there was one (then the text is empty). */
  datatype Item = Item(s: string, e: Option<string>)

  /** The message `ioutil.ReadFile` gives for a path that does not exist. */
  function NotFound(fn: string): string {
    "open " + fn + ": no such file or directory"
  }

  /** `ReadFileFromDisk`: the contents, or an error naming the path. */
  function ReadFileFromDisk(disk: Disk, fn: string): (r: Item)
    ensures r.e.None? <==> fn in disk
    ensures r.e.None? ==> r.s == disk[fn]
    ensures r.e.Some? ==> r.s == "" && r.e.value == NotFound(fn)
  {
    if fn in disk then Item(disk[fn], None) else Item("", Some(NotFound(fn)))
  }

  /** What a read through the cache gives: the remembered outcome, or else a fresh read. */
  function Lookup(byName: map<string, Item>, disk: Disk, fn: string): Item {
    if fn in byName then byName[fn] else ReadFileFromDisk(disk, fn)
  }

  /** Every read through cache `a` gives what a read through cache `b` gives. */
  ghost predicate SameReads(a: map<string, Item>, b: map<string, Item>, disk: Disk) {
    forall n :: Lookup(a, disk, n) == Lookup(b, disk, n)
  }

  /** The read-through cache of `ReadFileWithCache`. */
  class ReadFileCache {
    var byName: map<string, Item>

    constructor ()
      ensures byName == map[]
    {
      byName := map[];
    }

    /**
     * `ReadFileWithCache`: a hit returns the remembered outcome and changes
     * nothing; a miss reads the disk once and remembers the outcome, an error
     * included. Either way the outcome is what a lookup gave before the call,
     * and lookups of every name give afterwards what they gave before.
     */
    method ReadFileWithCache(disk: Disk, fn: string) returns (s: string, e: Option<string>)
      modifies this
      ensures old(fn in byName) ==> byName == old(byName) && Item(s, e) == old(byName[fn])
      ensures old(fn !in byName) ==> byName == old(byName)[fn := ReadFileFromDisk(disk, fn)]
      ensures fn in byName && byName[fn] == Item(s, e) == Lookup(old(byName), disk, fn)
      ensures SameReads(byName, old(byName), disk)
    {
      if fn in byName {
        var item := byName[fn];
        return item.s, item.e;
      }
      var item := ReadFileFromDisk(disk, fn);
      byName := byName[fn := item];
      return item.s, item.e;
    }
  }

  /** Two reads of a name give the same outcome, even when the disk has changed between them. */
  method ReadTwice(cache: ReadFileCache, disk1: Disk, disk2: Disk, fn: string)
      returns (first: Item, second: Item)
    modifies cache
    ensures first == second
  {
    var s1, e1 := cache.ReadFileWithCache(disk1, fn);
    var s2, e2 := cache.ReadFileWithCache(disk2, fn);
    first, second := Item(s1, e1), Item(s2, e2);
  }
}
