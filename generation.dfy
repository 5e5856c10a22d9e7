/**
  The two steps every generator ends with: filling a stub's placeholders and
  writing the result only where nothing exists yet.
*/
module Generation {
  import opened Options
  import opened PhpStrings
  import opened FileSystem

  const NamespaceToken := "{{ namespace }}"
  const ClassToken := "{{ class }}"

  /**
    `str_replace` of the placeholders over what `file_get_contents` gave for
    a stub; `None` is its `false`, which `str_replace` refuses.
  */
  function Render(stub: Option<string>, pairs: seq<(string, string)>): (r: Option<string>)
    ensures r.Some? <==> stub.Some?
  {
    if stub.None? then None else Some(ReplacePairs(stub.value, pairs))
  }

  /** The two placeholders most stubs carry, filled in this order. */
  function NamespaceAndClass(namespace: string, className: string): seq<(string, string)>
  {
    [(NamespaceToken, namespace), (ClassToken, className)]
  }

  /**
    A shared action's guarded write: nothing happens when something exists at
    `p`; otherwise the rendering is written, or the `TypeError` escapes.
  */
  function WriteIfAbsent(fs: FS, p: string, content: Option<string>): (FS, Option<Error>)
  {
    if fs.Exists(p) then (fs, None)
    else if content.None? then (fs, Some(StubUnreadable))
    else (fs.Put(p, content.value), None)
  }

  /** `s` differs from `fs` only in the files at `targets`, which may have been added or overwritten. */
  predicate ChangesOnly(fs: FS, s: FS, targets: set<string>)
  {
    && s.dirs == fs.dirs && s.psr4 == fs.psr4
    && fs.files.Keys <= s.files.Keys
    && s.files.Keys - targets == fs.files.Keys - targets
    && (forall q | q in fs.files && q !in targets :: s.files[q] == fs.files[q])
  }

  /**
    The guarded write changes at most the file at `p`; when no error escapes,
    something is at `p` afterwards; when one escapes, it is the unreadable
    stub and nothing changed.
  */
  lemma WriteIfAbsentChangesOnly(fs: FS, p: string, content: Option<string>)
    ensures ChangesOnly(fs, WriteIfAbsent(fs, p, content).0, {p})
    ensures WriteIfAbsent(fs, p, content).1.None? ==> WriteIfAbsent(fs, p, content).0.Exists(p)
    ensures WriteIfAbsent(fs, p, content).1.Some? ==> WriteIfAbsent(fs, p, content) == (fs, Some(StubUnreadable))
  {
  }

  /** Two changes confined to `t1` and then `t2` are confined to their union, and keep what existed. */
  lemma ChangesOnlyThen(a: FS, b: FS, c: FS, t1: set<string>, t2: set<string>, t: set<string>)
    requires ChangesOnly(a, b, t1) && ChangesOnly(b, c, t2) && t1 + t2 <= t
    ensures ChangesOnly(a, c, t)
    ensures forall p :: a.Exists(p) ==> c.Exists(p)
  {
    assert c.files.Keys - t == a.files.Keys - t by {
      assert c.files.Keys - t == (c.files.Keys - t2) - t;
      assert a.files.Keys - t == (a.files.Keys - t1) - t;
    }
  }

  /** Outside its targets, such a change leaves what exists, and every file's content, as it was. */
  lemma ChangesOnlyOutside(fs: FS, s: FS, targets: set<string>, p: string)
    requires ChangesOnly(fs, s, targets) && p !in targets
    ensures s.Exists(p) <==> fs.Exists(p)
    ensures p in fs.files ==> s.files[p] == fs.files[p]
  {
    assert p in s.files <==> p in s.files.Keys - targets;
    assert p in fs.files <==> p in fs.files.Keys - targets;
  }

  /**
    A directory made when `make` holds, then the guarded write to a path
    longer than that directory: no file is overwritten, at most `p` is
    added, and a path that differs from the directory at position `k`
    keeps its existence.
  */
  lemma WriteAfterDirectory(fs: FS, make: bool, d: string, p: string, content: Option<string>, k: nat)
    requires |d| < |p| && k < |d| && p[k] == d[k]
    ensures var (s, error) := WriteIfAbsent(if make then fs.EnsureDirectory(d) else fs, p, content);
      && s.psr4 == fs.psr4 && fs.dirs <= s.dirs
      && (fs.Valid() ==> s.Valid())
      && (forall q :: q in fs.files ==> q in s.files && s.files[q] == fs.files[q])
      && (forall q :: q in s.files && q !in fs.files ==> q == p)
      && (error.Some? <==> !fs.Exists(p) && content.None?)
      && (error.Some? ==> error == Some(StubUnreadable) && s.files == fs.files)
      && (!fs.Exists(p) && content.Some? ==> s.files == fs.files[p := content.value])
      && (fs.Exists(p) ==> s.files == fs.files)
      && (error.None? ==> s.Exists(p))
      && (forall q :: k < |q| && q[k] != d[k] ==> (s.Exists(q) <==> fs.Exists(q)))
  {
    NotInChainShorter(p, d);
    forall q | k < |q| && q[k] != d[k] ensures q !in Chain(d) {
      NotInChainAt(q, d, k);
    }
  }

  /** A command's guarded write: exit code 1 when something exists at `p`, 0 once the file is written. */
  function CreateOnly(fs: FS, p: string, content: Option<string>): (r: (FS, Outcome))
    ensures r.1 == Returned(1) <==> fs.Exists(p)
    ensures r.1 == Raised(StubUnreadable) <==> !fs.Exists(p) && content.None?
    ensures r.1 == Returned(0) <==> !fs.Exists(p) && content.Some?
    ensures r.1 != Returned(0) ==> r.0 == fs
    ensures r.1 == Returned(0) ==> r.0.dirs == fs.dirs && r.0.psr4 == fs.psr4 && r.0.files == fs.files[p := content.value]
  {
    if fs.Exists(p) then (fs, Returned(1))
    else if content.None? then (fs, Raised(StubUnreadable))
    else (fs.Put(p, content.value), Returned(0))
  }

  /** `WriteIfAbsent` on the disk. */
  method WriteIfAbsentOn(disk: Disk, p: string, content: Option<string>) returns (error: Option<Error>)
    modifies disk
    ensures (disk.State(), error) == WriteIfAbsent(old(disk.State()), p, content)
  {
    error := None;
    if !disk.Exists(p) {
      if content.None? {
        error := Some(StubUnreadable);
      } else {
        disk.Put(p, content.value);
      }
    }
  }

  /** `CreateOnly` on the disk. */
  method CreateOnlyOn(disk: Disk, p: string, content: Option<string>) returns (out: Outcome)
    modifies disk
    ensures (disk.State(), out) == CreateOnly(old(disk.State()), p, content)
  {
    if disk.Exists(p) {
      out := Returned(1);
    } else if content.None? {
      out := Raised(StubUnreadable);
    } else {
      disk.Put(p, content.value);
      out := Returned(0);
    }
  }
}
