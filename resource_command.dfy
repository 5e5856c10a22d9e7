/**
  `make:module-resource` (src/Commands/CreateModuleHttpResource.php): an API
  resource class under the module's `App/Http/Resources`.
*/
module ResourceCommand {
  import opened Options
  import opened PhpStrings
  import opened FileSystem
  import opened Naming
  import opened Generation

  const ResourcesTree := "App/Http/Resources"

  /** The name with every `resource` removed, when it holds `Resource` or `resource`. */
  function ResourceBaseName(resourceName: string): string
  {
    StripKind(resourceName, "Resource", true)
  }

  /** The file goes into any non-empty sub-directory... */
  function ResourcePath(modulePath: string, sub: string, baseName: string): string
  {
    EntityPath(modulePath, ResourcesTree, sub, NonEmpty, UcFirst(baseName) + "Resource.php")
  }

  /** ... while the namespace names a truthy one only. */
  function ResourceNamespaceDirectory(sub: string): string
  {
    SubDirectory(ResourcesTree, sub, NonEmptyNorZero)
  }

  function ResourceRendering(stub: Option<string>, moduleName: string, sub: string, baseName: string): Option<string>
  {
    Render(stub, NamespaceAndClass(Namespace(moduleName, ResourceNamespaceDirectory(sub)), UcFirst(baseName) + "Resource"))
  }

  /** `handle`; it makes no directory. */
  function Run(fs: FS, moduleName: string, sub: string, resourceName: string, stub: Option<string>): (FS, Outcome)
  {
    var mp := ModulePath(moduleName);
    if !fs.Exists(mp) then (fs, Returned(1))
    else
      var baseName := ResourceBaseName(resourceName);
      CreateOnly(fs, ResourcePath(mp, sub, baseName), ResourceRendering(stub, moduleName, sub, baseName))
  }

  method Handle(disk: Disk, moduleName: string, sub: string, resourceName: string, stub: Option<string>)
    returns (out: Outcome)
    modifies disk
    ensures (disk.State(), out) == Run(old(disk.State()), moduleName, sub, resourceName, stub)
  {
    var mp := ModulePath(moduleName);
    if !disk.Exists(mp) {
      return Returned(1);
    }
    var baseName := ResourceBaseName(resourceName);
    out := CreateOnlyOn(disk, ResourcePath(mp, sub, baseName), ResourceRendering(stub, moduleName, sub, baseName));
  }

  lemma RunOutcome(fs: FS, moduleName: string, sub: string, resourceName: string, stub: Option<string>)
    ensures var (s, out) := Run(fs, moduleName, sub, resourceName, stub);
      var mp := ModulePath(moduleName);
      var baseName := ResourceBaseName(resourceName);
      var path := ResourcePath(mp, sub, baseName);
      && (out == Returned(1) <==> !fs.Exists(mp) || fs.Exists(path))
      && (out == Raised(StubUnreadable) <==> fs.Exists(mp) && !fs.Exists(path) && stub.None?)
      && (out == Returned(0) <==> fs.Exists(mp) && !fs.Exists(path) && stub.Some?)
      && (out == Returned(0) ==> s.files == fs.files[path := ResourceRendering(stub, moduleName, sub, baseName).value])
      && (out != Returned(0) ==> s == fs)
      && s.dirs == fs.dirs && s.psr4 == fs.psr4
  {
  }

  lemma RunTwiceRefused(fs: FS, moduleName: string, sub: string, resourceName: string, stub: Option<string>)
    requires Run(fs, moduleName, sub, resourceName, stub).1 == Returned(0)
    ensures var s := Run(fs, moduleName, sub, resourceName, stub).0;
      Run(s, moduleName, sub, resourceName, stub) == (s, Returned(1))
  {
  }

  /** The class's namespace follows the directory it is written to, except for the sub-directory "0". */
  lemma NamespaceFollowsDirectory(moduleName: string, sub: string)
    ensures (Namespace(moduleName, ResourceNamespaceDirectory(sub)) == Namespace(moduleName, SubDirectory(ResourcesTree, sub, NonEmpty)))
            <==> sub != "0"
  {
    NamespaceRulesDisagreeOnlyOnZero(moduleName, ResourcesTree, sub);
  }
}
