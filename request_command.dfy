/**
  `make:module-request` (src/Commands/CreateModuleHttpRequest.php): a form
  request class under the module's `App/Http/Requests`.
*/
module RequestCommand {
  import opened Options
  import opened PhpStrings
  import opened FileSystem
  import opened Naming
  import opened Generation

  const RequestsTree := "App/Http/Requests"

  /** The name with every `request` removed, when it holds `Request` or `request`. */
  function RequestBaseName(requestName: string): string
  {
    StripKind(requestName, "Request", true)
  }

  /** The directory of the file: any non-empty sub-directory counts. */
  function RequestDirectory(modulePath: string, sub: string): string
  {
    modulePath + "/" + SubDirectory(RequestsTree, sub, NonEmpty)
  }

  function RequestPath(modulePath: string, sub: string, baseName: string): string
  {
    RequestDirectory(modulePath, sub) + "/" + UcFirst(baseName) + "Request.php"
  }

  /** The directory the namespace names, and which is made before the write: a sub-directory "0" does not count. */
  function RequestNamespaceDirectory(sub: string): string
  {
    SubDirectory(RequestsTree, sub, NonEmptyNorZero)
  }

  function RequestRendering(stub: Option<string>, moduleName: string, sub: string, baseName: string): Option<string>
  {
    Render(stub, NamespaceAndClass(Namespace(moduleName, RequestNamespaceDirectory(sub)), UcFirst(baseName) + "Request"))
  }

  /** `handle`, with the prompts' answers and the stub's text as parameters. */
  function Run(fs: FS, moduleName: string, sub: string, requestName: string, stub: Option<string>): (FS, Outcome)
  {
    var mp := ModulePath(moduleName);
    if !fs.Exists(mp) then (fs, Returned(1))
    else
      var s1 := if sub != "" then fs.EnsureDirectory(RequestDirectory(mp, sub)) else fs;
      var baseName := RequestBaseName(requestName);
      var path := RequestPath(mp, sub, baseName);
      if s1.Exists(path) then (s1, Returned(1))
      else
        var s2 := s1.EnsureDirectory(mp + "/" + RequestNamespaceDirectory(sub));
        var content := RequestRendering(stub, moduleName, sub, baseName);
        if content.None? then (s2, Raised(StubUnreadable))
        else (s2.Put(path, content.value), Returned(0))
  }

  method Handle(disk: Disk, moduleName: string, sub: string, requestName: string, stub: Option<string>)
    returns (out: Outcome)
    modifies disk
    ensures (disk.State(), out) == Run(old(disk.State()), moduleName, sub, requestName, stub)
  {
    var mp := ModulePath(moduleName);
    if !disk.Exists(mp) {
      return Returned(1);
    }
    if sub != "" && !disk.Exists(RequestDirectory(mp, sub)) {
      disk.MakeDirectory(RequestDirectory(mp, sub));
    }
    var baseName := RequestBaseName(requestName);
    var path := RequestPath(mp, sub, baseName);
    if disk.Exists(path) {
      return Returned(1);
    }
    var directory := mp + "/" + RequestNamespaceDirectory(sub);
    if !disk.Exists(directory) {
      disk.MakeDirectory(directory);
    }
    var content := RequestRendering(stub, moduleName, sub, baseName);
    if content.None? {
      return Raised(StubUnreadable);
    }
    disk.Put(path, content.value);
    out := Returned(0);
  }

  /**
    The command's contract: exit code 1 when the module is missing or the
    target exists, the `TypeError` when the stub is unreadable, and
    otherwise 0 with exactly the target file added; in every case no
    other file changes and, on success, the file's directory exists.
  */
  lemma RunOutcome(fs: FS, moduleName: string, sub: string, requestName: string, stub: Option<string>)
    ensures var (s, out) := Run(fs, moduleName, sub, requestName, stub);
      var mp := ModulePath(moduleName);
      var baseName := RequestBaseName(requestName);
      var path := RequestPath(mp, sub, baseName);
      && (out == Returned(1) <==> !fs.Exists(mp) || fs.Exists(path))
      && (out == Raised(StubUnreadable) <==> fs.Exists(mp) && !fs.Exists(path) && stub.None?)
      && (out == Returned(0) <==> fs.Exists(mp) && !fs.Exists(path) && stub.Some?)
      && (out == Returned(0) ==> s.files == fs.files[path := RequestRendering(stub, moduleName, sub, baseName).value])
      && (out != Returned(0) ==> s.files == fs.files)
      && s.psr4 == fs.psr4 && fs.dirs <= s.dirs
      && (out == Returned(0) ==> s.Exists(RequestDirectory(mp, sub)))
      && (fs.Valid() ==> s.Valid())
  {
    var mp := ModulePath(moduleName);
    var baseName := RequestBaseName(requestName);
    var path := RequestPath(mp, sub, baseName);
    if fs.Exists(mp) {
      var s1 := if sub != "" then fs.EnsureDirectory(RequestDirectory(mp, sub)) else fs;
      NotInChainShorter(path, RequestDirectory(mp, sub));
      assert s1.Exists(path) <==> fs.Exists(path);
      if !s1.Exists(path) {
        var s2 := s1.EnsureDirectory(mp + "/" + RequestNamespaceDirectory(sub));
        assert s2.files == fs.files;
        if sub == "" {
          assert RequestDirectory(mp, sub) == mp + "/" + RequestNamespaceDirectory(sub);
        }
        assert s2.Exists(RequestDirectory(mp, sub));
      }
    }
  }

  /** Running the command again after a success is refused with exit code 1 and changes nothing. */
  lemma RunTwiceRefused(fs: FS, moduleName: string, sub: string, requestName: string, stub: Option<string>)
    requires Run(fs, moduleName, sub, requestName, stub).1 == Returned(0)
    ensures var s := Run(fs, moduleName, sub, requestName, stub).0;
      Run(s, moduleName, sub, requestName, stub) == (s, Returned(1))
  {
    RunOutcome(fs, moduleName, sub, requestName, stub);
  }

  /** The class's namespace follows the directory it is written to, except for the sub-directory "0". */
  lemma NamespaceFollowsDirectory(moduleName: string, sub: string)
    ensures (Namespace(moduleName, RequestNamespaceDirectory(sub)) == Namespace(moduleName, SubDirectory(RequestsTree, sub, NonEmpty)))
            <==> sub != "0"
  {
    NamespaceRulesDisagreeOnlyOnZero(moduleName, RequestsTree, sub);
  }
}
