/**
  The filesystem the commands read and extend, seen through Laravel's `File`
  facade: a set of directories, a map from file paths to contents, and the
  `autoload.psr-4` section of the project's composer.json (its only part the
  commands touch). Paths are compared exactly, as on a case-sensitive disk.
*/
module FileSystem {
  import opened Options

  /** What a recursive `mkdir` of `p` creates: `p` and every prefix of `p` that ends just before a `/`. */
  function Chain(p: string): (r: set<string>)
    ensures p in r
  {
    {p} + set i | 0 < i < |p| && p[i] == '/' :: p[..i]
  }

  /** Everything a `mkdir` of `p` creates is a prefix of `p`. */
  lemma ChainPrefix(p: string, x: string)
    requires x in Chain(p)
    ensures |x| <= |p| && x == p[..|x|]
  {
  }

  lemma ChainClosed(p: string, x: string)
    requires x in Chain(p)
    ensures Chain(x) <= Chain(p)
  {
    forall y | y in Chain(x) ensures y in Chain(p) {
      ChainPrefix(p, x);
      if y != x && x != p {
        var j :| 0 < j < |x| && x[j] == '/' && y == x[..j];
        assert x == p[..|x|];
        assert p[j] == '/' && y == p[..j];
      } else if y != x {
        assert x == p;
      }
    }
  }

  /** `p[..i]` is made by a recursive `mkdir` of `p` when `p[i]` is a separator. */
  lemma ChainHasPrefix(p: string, i: nat)
    requires 0 < i < |p| && p[i] == '/'
    ensures p[..i] in Chain(p)
  {
  }

  /** `d` is not among what a `mkdir` of `p` creates when the two differ at a position both have. */
  lemma NotInChainAt(d: string, p: string, i: nat)
    requires i < |d| && i < |p| && d[i] != p[i]
    ensures d !in Chain(p)
  {
  }

  /** ... nor when `d` is longer than `p`. */
  lemma NotInChainShorter(d: string, p: string)
    requires |p| < |d|
    ensures d !in Chain(p)
  {
  }

  /** Nothing created under `base` is `d` when `d` differs from `base` itself at position `i`. */
  lemma NotUnderBase(d: string, base: string, names: seq<string>, i: nat)
    requires i < |d| && i < |base| && d[i] != base[i]
    ensures forall k :: 0 <= k < |names| ==> d !in Chain(base + "/" + names[k])
  {
    forall k | 0 <= k < |names| ensures d !in Chain(base + "/" + names[k]) {
      NotInChainAt(d, base + "/" + names[k], i);
    }
  }

  /** Nothing created under `base` is `d` when `d` differs from every name at the name's position `j`. */
  lemma NotUnderNamesAt(d: string, base: string, names: seq<string>, j: nat)
    requires |base| + 1 + j < |d|
    requires forall k :: 0 <= k < |names| ==> j < |names[k]| && names[k][j] != d[|base| + 1 + j]
    ensures forall k :: 0 <= k < |names| ==> d !in Chain(base + "/" + names[k])
  {
    forall k | 0 <= k < |names| ensures d !in Chain(base + "/" + names[k]) {
      NotInChainAt(d, base + "/" + names[k], |base| + 1 + j);
    }
  }

  /** Nothing created under `base` is `d` when every created path is shorter than `d`. */
  lemma NotUnderShorter(d: string, base: string, names: seq<string>)
    requires forall k :: 0 <= k < |names| ==> |base| + 1 + |names[k]| < |d|
    ensures forall k :: 0 <= k < |names| ==> d !in Chain(base + "/" + names[k])
  {
    forall k | 0 <= k < |names| ensures d !in Chain(base + "/" + names[k]) {
      NotInChainShorter(d, base + "/" + names[k]);
    }
  }

  /** Failures PHP reports by throwing rather than by returning an exit code. */
  datatype Error =
    | FileNotFound(path: string)  // `File::get` of a path that is not a file
    | UndefinedMatch              // reading `$matches[1]` after a `preg_match` that found nothing
    | StubUnreadable              // `str_replace` handed the `false` of an unreadable stub: a `TypeError` under strict types

  /** How a command ends: the exit code it returns, or the exception that escapes it. */
  datatype Outcome = Returned(code: int) | Raised(error: Error)

  datatype FS = FS(dirs: set<string>, files: map<string, string>, psr4: map<string, string>)
  {
    /** `File::exists`: true for a directory and for a file. */
    predicate Exists(p: string)
    {
      p in dirs || p in files
    }

    /** Directories are closed under taking parents, as on a real disk. */
    predicate Valid()
    {
      forall d | d in dirs :: Chain(d) <= dirs
    }

    /** `File::makeDirectory(p, 0777, true)`: recursive, so every missing ancestor is created too. */
    function MakeDirectory(p: string): (r: FS)
      ensures r.files == files && r.psr4 == psr4
      ensures r.dirs == dirs + Chain(p)
      ensures Valid() ==> r.Valid()
    {
      var r := this.(dirs := dirs + Chain(p));
      assert Valid() ==> r.Valid() by {
        if Valid() {
          forall d | d in r.dirs ensures Chain(d) <= r.dirs {
            if d in Chain(p) {
              ChainClosed(p, d);
            }
          }
        }
      }
      r
    }

    /** `if (! File::exists(p)) File::makeDirectory(p, 0777, true)`: a directory made only when nothing is at `p`. */
    function EnsureDirectory(p: string): (r: FS)
      ensures r.files == files && r.psr4 == psr4
      ensures dirs <= r.dirs
      ensures r.Exists(p)
      ensures !Exists(p) ==> r.dirs == dirs + Chain(p)
      ensures Exists(p) ==> r == this
      ensures Valid() ==> r.Valid()
    {
      if Exists(p) then this else MakeDirectory(p)
    }

    /** In a valid state without `root`, no directory lies inside `root`. */
    lemma NothingInside(root: string, d: string)
      requires Valid() && root !in dirs && 0 < |root| < |d| && d[..|root|] == root && d[|root|] == '/'
      ensures d !in dirs
    {
    }

    /** `File::put`: the file at `p` is created or overwritten. */
    function Put(p: string, content: string): (r: FS)
      ensures r.dirs == dirs && r.psr4 == psr4
      ensures r.files.Keys == files.Keys + {p} && r.files[p] == content
      ensures forall q :: q in files && q != p ==> q in r.files && r.files[q] == files[q]
    {
      this.(files := files[p := content])
    }

    /** One recursive `mkdir` for each name in turn, each under `base`. */
    function MakeDirectoriesUnder(base: string, names: seq<string>): (r: FS)
      ensures r.files == files && r.psr4 == psr4
      ensures dirs <= r.dirs
      ensures Valid() ==> r.Valid()
    {
      var r := this.(dirs := dirs + ChainsUnder(base, names));
      assert Valid() ==> r.Valid() by {
        if Valid() {
          forall d | d in r.dirs ensures Chain(d) <= r.dirs {
            if d in ChainsUnder(base, names) {
              var k :| 0 <= k < |names| && d in Chain(base + "/" + names[k]);
              ChainClosed(base + "/" + names[k], d);
            }
          }
        }
      }
      r
    }

    /** Each `base/name` is made, and every directory made lies on the way to one of them. */
    lemma MadeUnder(base: string, names: seq<string>)
      ensures var r := MakeDirectoriesUnder(base, names);
        && (forall k :: 0 <= k < |names| ==> base + "/" + names[k] in r.dirs)
        && (forall d :: d in r.dirs ==> d in dirs || exists k :: 0 <= k < |names| && d in Chain(base + "/" + names[k]))
    {
      forall k | 0 <= k < |names| ensures base + "/" + names[k] in ChainsUnder(base, names) {
        assert base + "/" + names[k] in Chain(base + "/" + names[k]);
      }
    }
  }

  /** Everything the `mkdir`s of `base/name`, for each name, create. */
  function ChainsUnder(base: string, names: seq<string>): set<string>
  {
    set k, d | 0 <= k < |names| && d in Chain(base + "/" + names[k]) :: d
  }

  /** The `mkdir`s of a list's first names, then the next one. */
  lemma ChainsUnderStep(base: string, names: seq<string>, i: nat)
    requires i < |names|
    ensures ChainsUnder(base, names[..i + 1]) == ChainsUnder(base, names[..i]) + Chain(base + "/" + names[i])
  {
    var front, next := names[..i], names[..i + 1];
    forall d | d in ChainsUnder(base, next) ensures d in ChainsUnder(base, front) + Chain(base + "/" + names[i]) {
      var k :| 0 <= k < |next| && d in Chain(base + "/" + next[k]);
      if k < i {
        assert front[k] == next[k];
      }
    }
    forall d | d in ChainsUnder(base, front) ensures d in ChainsUnder(base, next) {
      var k :| 0 <= k < |front| && d in Chain(base + "/" + front[k]);
      assert next[k] == front[k];
    }
    assert next[i] == names[i];
  }

  /** The mutable disk the commands act on; `State` is its value as an `FS`. */
  class Disk {
    var dirs: set<string>
    var files: map<string, string>
    var psr4: map<string, string>

    constructor (initial: FS)
      ensures State() == initial
    {
      dirs, files, psr4 := initial.dirs, initial.files, initial.psr4;
    }

    function State(): FS
      reads this
    {
      FS(dirs, files, psr4)
    }

    predicate Exists(p: string)
      reads this
    {
      State().Exists(p)
    }

    method MakeDirectory(p: string)
      modifies this
      ensures State() == old(State()).MakeDirectory(p)
    {
      dirs := dirs + Chain(p);
    }

    /** A `foreach` over `names`, making `base/name` for each in turn. */
    method MakeDirectoriesUnder(base: string, names: seq<string>)
      modifies this
      ensures State() == old(State()).MakeDirectoriesUnder(base, names)
    {
      ghost var s0 := State();
      assert names[..0] == [];
      for i := 0 to |names|
        invariant State() == s0.MakeDirectoriesUnder(base, names[..i])
      {
        ChainsUnderStep(base, names, i);
        MakeDirectory(base + "/" + names[i]);
      }
      assert names[..|names|] == names;
    }

    method Put(p: string, content: string)
      modifies this
      ensures State() == old(State()).Put(p, content)
    {
      files := files[p := content];
    }

    /** `File::get`: the contents when `p` is a file; `None` stands for the `FileNotFoundException`. */
    method Get(p: string) returns (content: Option<string>)
      ensures content.Some? <==> p in files
      ensures content.Some? ==> content.value == files[p]
    {
      if p in files {
        content := Some(files[p]);
      } else {
        content := None;
      }
    }

    /** Stores the PSR-4 section written back to composer.json. */
    method SetPsr4(section: map<string, string>)
      modifies this
      ensures State() == old(State()).(psr4 := section)
    {
      psr4 := section;
    }
  }
}
