/**
 * The file system as a value: file contents by path, the set of existing
 * directories, and the order in which a recursive scan meets the files.
 */
module Fs {
  import opened Text

  /** A path as its components: `resultado/2025/07/17/x.xml` is `["resultado", "2025", "07", "17", "x.xml"]`. */
  type Path = seq<string>

  datatype FileSystem = FileSystem(files: map<Path, seq<Byte>>, dirs: set<Path>, order: seq<Path>)

  /** A well-formed file system: the scan order lists every file exactly once, and nothing else. */
  predicate Valid(fs: FileSystem)
  {
    Distinct(fs.order)
    && (forall i | 0 <= i < |fs.order| :: fs.order[i] in fs.files)
    && (forall p | p in fs.files :: p in fs.order)
  }

  predicate Distinct(ps: seq<Path>)
  {
    forall i, j | 0 <= i < j < |ps| :: ps[i] != ps[j]
  }

  /** `path.exists()`. */
  predicate Exists(fs: FileSystem, p: Path) { p in fs.files || p in fs.dirs }

  /** `path.is_dir()`. */
  predicate IsDir(fs: FileSystem, p: Path) { p in fs.dirs }

  /** `path.stat().st_size` of a file. */
  function Size(fs: FileSystem, p: Path): nat
    requires p in fs.files
  {
    |fs.files[p]|
  }

  /** `path.name`: the last component. */
  function Name(p: Path): string
  {
    if p == [] then [] else p[|p| - 1]
  }

  /** `path.parent`. */
  function Parent(p: Path): Path
  {
    if p == [] then [] else p[..|p| - 1]
  }

  /** `dir / name`. */
  function Child(dir: Path, name: string): (p: Path)
    ensures Name(p) == name && Parent(p) == dir
  {
    dir + [name]
  }

  /** `p` lies somewhere below `dir`. */
  predicate Below(p: Path, dir: Path) { |p| > |dir| && p[..|dir|] == dir }

  /** `str(p)`, with `/` as the separator. */
  function PathStr(p: Path): string { Join(p, '/') }

  /** What `dir.rglob("*.xml")` yields: the files below `dir` whose names end in `.xml`, in scan order. */
  function Rglob(fs: FileSystem, dir: Path): (r: seq<Path>)
    ensures forall k | 0 <= k < |r| :: r[k] in fs.files && Below(r[k], dir) && EndsWith(Name(r[k]), ".xml")
  {
    RglobOf(fs, fs.order, dir)
  }

  function RglobOf(fs: FileSystem, order: seq<Path>, dir: Path): (r: seq<Path>)
    ensures forall k | 0 <= k < |r| :: r[k] in fs.files && Below(r[k], dir) && EndsWith(Name(r[k]), ".xml")
    ensures |r| <= |order|
  {
    if order == [] then []
    else
      var p := order[0];
      (if p in fs.files && Below(p, dir) && EndsWith(Name(p), ".xml") then [p] else [])
      + RglobOf(fs, order[1..], dir)
  }

  /**
   * On a well-formed file system `rglob("*.xml")` is complete and yields
   * each file once: a path is yielded exactly when it is a file below `dir`
   * whose name ends in `.xml`.
   */
  lemma RglobCompleto(fs: FileSystem, dir: Path)
    requires Valid(fs)
    ensures forall p :: p in Rglob(fs, dir) <==> p in fs.files && Below(p, dir) && EndsWith(Name(p), ".xml")
    ensures Distinct(Rglob(fs, dir))
  {
    RglobOfMembros(fs, fs.order, dir);
    RglobOfDistinct(fs, fs.order, dir);
  }

  lemma {:induction false} RglobOfMembros(fs: FileSystem, order: seq<Path>, dir: Path)
    ensures forall p :: p in RglobOf(fs, order, dir) <==> p in order && p in fs.files && Below(p, dir) && EndsWith(Name(p), ".xml")
    decreases |order|
  {
    if order != [] {
      RglobOfMembros(fs, order[1..], dir);
      assert order == [order[0]] + order[1..];
    }
  }

  lemma {:induction false} RglobOfDistinct(fs: FileSystem, order: seq<Path>, dir: Path)
    requires Distinct(order)
    ensures Distinct(RglobOf(fs, order, dir))
    decreases |order|
  {
    if order != [] {
      var rest := order[1..];
      assert Distinct(rest) by {
        forall i, j | 0 <= i < j < |rest| ensures rest[i] != rest[j] {
          assert rest[i] == order[i + 1] && rest[j] == order[j + 1];
        }
      }
      RglobOfDistinct(fs, rest, dir);
      RglobOfMembros(fs, rest, dir);
      assert order[0] !in rest by {
        forall i | 0 <= i < |rest| ensures rest[i] != order[0] {
          assert rest[i] == order[i + 1];
        }
      }
    }
  }

  /** The sub-directories `[item for item in dir.iterdir() if item.is_dir()]`, as a set. */
  function SubDirs(fs: FileSystem, dir: Path): (r: set<Path>)
    ensures forall d | d in r :: d in fs.dirs && Parent(d) == dir && |d| == |dir| + 1
  {
    set d | d in fs.dirs && |d| == |dir| + 1 && d[..|dir|] == dir
  }

  /**
   * `p.mkdir(parents=True, exist_ok=True)` raises FileExistsError (an
   * OSError) when a file sits at `p` or at a folder above it.
   */
  predicate MkdirFalha(fs: FileSystem, p: Path)
  {
    exists k | 1 <= k <= |p| :: p[..k] in fs.files
  }

  /**
   * `p.write_text(...)` raises IsADirectoryError when `p` is a directory,
   * and FileNotFoundError or NotADirectoryError when its parent is not a
   * directory; the empty path is the working directory itself.
   */
  predicate WriteFalha(fs: FileSystem, p: Path)
  {
    p == [] || p in fs.dirs || (|p| > 1 && Parent(p) !in fs.dirs)
  }

  /** After a `mkdir` that succeeds, writing a file directly inside the folder fails only when a directory has its name. */
  lemma WriteAposMkdir(fs: FileSystem, pasta: Path, nome: string)
    requires !MkdirFalha(fs, pasta)
    ensures WriteFalha(Mkdir(fs, pasta), Child(pasta, nome)) <==> Child(pasta, nome) in fs.dirs
  {
    assert Parent(Child(pasta, nome)) == pasta;
  }

  /** `p.mkdir(parents=True, exist_ok=True)` when it succeeds: `p` and every directory above it exist afterwards. */
  function Mkdir(fs: FileSystem, p: Path): (r: FileSystem)
    ensures r.files == fs.files && r.order == fs.order
    ensures Valid(fs) ==> Valid(r)
    ensures p != [] ==> IsDir(r, p)
    ensures fs.dirs <= r.dirs
  {
    var above := set k | 1 <= k <= |p| :: p[..k];
    assert p != [] ==> p[..|p|] in above && p[..|p|] == p;
    fs.(dirs := fs.dirs + above)
  }

  /** Creating `p` and its parents leaves every path longer than `p` as it was. */
  lemma MkdirDeeper(fs: FileSystem, p: Path, q: Path)
    requires |q| > |p|
    ensures Exists(Mkdir(fs, p), q) <==> Exists(fs, q)
  {
  }

  /**
   * Writing `bytes` to the file `p` when `write_text` succeeds: created at
   * the end of the scan order when new, replaced otherwise.
   */
  function WriteFile(fs: FileSystem, p: Path, bytes: seq<Byte>): (r: FileSystem)
    ensures p in r.files && r.files[p] == bytes && r.dirs == fs.dirs
    ensures forall q | q in fs.files && q != p :: q in r.files && r.files[q] == fs.files[q]
    ensures r.files.Keys == fs.files.Keys + {p}
    ensures Valid(fs) ==> Valid(r)
  {
    fs.(files := fs.files[p := bytes], order := if p in fs.order then fs.order else fs.order + [p])
  }
}
