/** The part of the file system the analysis reads, as a value: a map
    from path to entry. A directory lists the paths of its entries in
    the order a directory iterator yields them; a file may lack a
    readable modification time or readable contents. */
module FileSystem {
  import opened Text

  datatype Kind = RegularFile | Directory | OtherKind

  datatype Entry = Entry(kind: Kind, mtime: Option<int>, contents: Option<string>, children: seq<string>)

  type FS = map<string, Entry>

  /** std::filesystem::exists. */
  predicate Exists(fs: FS, p: string)
  {
    p in fs
  }

  predicate IsRegularFile(fs: FS, p: string)
  {
    p in fs && fs[p].kind == RegularFile
  }

  predicate IsDirectory(fs: FS, p: string)
  {
    p in fs && fs[p].kind == Directory
  }

  /** std::filesystem::last_write_time; None where it would throw. */
  function LastWriteTime(fs: FS, p: string): Option<int>
  {
    if p in fs then fs[p].mtime else None
  }

  /** Reading the whole file through an ifstream; None where it cannot be
      opened. */
  function ReadFile(fs: FS, p: string): Option<string>
  {
    if p in fs then fs[p].contents else None
  }

  /** The entries std::filesystem::directory_iterator yields. */
  function DirectoryEntries(fs: FS, dir: string): seq<string>
  {
    if IsDirectory(fs, dir) then fs[dir].children else []
  }

  /** The entries std::filesystem::recursive_directory_iterator yields:
      each entry, and right after a directory entry the entries below it,
      descending at most `depth` levels. */
  function Descend(fs: FS, dir: string, depth: nat): seq<string>
    decreases depth, 0, 0
  {
    if depth == 0 || !IsDirectory(fs, dir) then []
    else DescendAll(fs, fs[dir].children, depth - 1)
  }

  function DescendAll(fs: FS, entries: seq<string>, depth: nat): seq<string>
    decreases depth, 1, |entries|
  {
    if entries == [] then []
    else [entries[0]] + Descend(fs, entries[0], depth) + DescendAll(fs, entries[1..], depth)
  }

  /** A recursive scan of a directory; no directory tree stored in `fs`
      is deeper than the number of its entries. */
  function RecursiveEntries(fs: FS, dir: string): seq<string>
  {
    Descend(fs, dir, |fs|)
  }

  /** The direct entries of a directory are among its recursive entries. */
  lemma {:induction false} DirectEntriesIncluded(fs: FS, dir: string, e: string)
    requires IsDirectory(fs, dir) && e in DirectoryEntries(fs, dir)
    ensures e in RecursiveEntries(fs, dir)
  {
    assert |fs| > 0 by {
      assert dir in fs.Keys;
    }
    var cs := fs[dir].children;
    var i :| 0 <= i < |cs| && cs[i] == e;
    DescendAllContains(fs, cs, |fs| - 1, i);
  }

  lemma {:induction false} DescendAllContains(fs: FS, entries: seq<string>, depth: nat, i: nat)
    requires i < |entries|
    ensures entries[i] in DescendAll(fs, entries, depth)
    decreases i
  {
    if i > 0 {
      DescendAllContains(fs, entries[1..], depth, i - 1);
    }
  }
}
