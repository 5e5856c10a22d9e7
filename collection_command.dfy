/**
  `make:module-collection` (src/Commands/CreateModuleDomainCollection.php): a
  domain collection class under the module's `Domain/Collections`.
*/
module CollectionCommand {
  import opened Options
  import opened PhpStrings
  import opened FileSystem
  import opened Naming
  import opened Generation

  const CollectionsTree := "Domain/Collections"

  /** The name with every `collection` removed, when it holds `Collection` (case-sensitively). */
  function CollectionBaseName(collectionName: string): string
  {
    StripKind(collectionName, "Collection", false)
  }

  /** The file's directory, which the namespace also names: any non-empty sub-directory counts. */
  function CollectionDirectory(sub: string): string
  {
    SubDirectory(CollectionsTree, sub, NonEmpty)
  }

  function CollectionPath(modulePath: string, sub: string, baseName: string): string
  {
    modulePath + "/" + CollectionDirectory(sub) + "/" + UcFirst(baseName) + "Collection.php"
  }

  function CollectionRendering(stub: Option<string>, moduleName: string, sub: string, baseName: string): Option<string>
  {
    Render(stub, NamespaceAndClass(Namespace(moduleName, CollectionDirectory(sub)), UcFirst(baseName) + "Collection"))
  }

  /** `handle`; it makes no directory. */
  function Run(fs: FS, moduleName: string, sub: string, collectionName: string, stub: Option<string>): (FS, Outcome)
  {
    var mp := ModulePath(moduleName);
    if !fs.Exists(mp) then (fs, Returned(1))
    else
      var baseName := CollectionBaseName(collectionName);
      CreateOnly(fs, CollectionPath(mp, sub, baseName), CollectionRendering(stub, moduleName, sub, baseName))
  }

  method Handle(disk: Disk, moduleName: string, sub: string, collectionName: string, stub: Option<string>)
    returns (out: Outcome)
    modifies disk
    ensures (disk.State(), out) == Run(old(disk.State()), moduleName, sub, collectionName, stub)
  {
    var mp := ModulePath(moduleName);
    if !disk.Exists(mp) {
      return Returned(1);
    }
    var baseName := CollectionBaseName(collectionName);
    out := CreateOnlyOn(disk, CollectionPath(mp, sub, baseName), CollectionRendering(stub, moduleName, sub, baseName));
  }

  lemma RunOutcome(fs: FS, moduleName: string, sub: string, collectionName: string, stub: Option<string>)
    ensures var (s, out) := Run(fs, moduleName, sub, collectionName, stub);
      var mp := ModulePath(moduleName);
      var baseName := CollectionBaseName(collectionName);
      var path := CollectionPath(mp, sub, baseName);
      && (out == Returned(1) <==> !fs.Exists(mp) || fs.Exists(path))
      && (out == Raised(StubUnreadable) <==> fs.Exists(mp) && !fs.Exists(path) && stub.None?)
      && (out == Returned(0) <==> fs.Exists(mp) && !fs.Exists(path) && stub.Some?)
      && (out == Returned(0) ==> s.files == fs.files[path := CollectionRendering(stub, moduleName, sub, baseName).value])
      && (out != Returned(0) ==> s == fs)
      && s.dirs == fs.dirs && s.psr4 == fs.psr4
  {
  }

  lemma RunTwiceRefused(fs: FS, moduleName: string, sub: string, collectionName: string, stub: Option<string>)
    requires Run(fs, moduleName, sub, collectionName, stub).1 == Returned(0)
    ensures var s := Run(fs, moduleName, sub, collectionName, stub).0;
      Run(s, moduleName, sub, collectionName, stub) == (s, Returned(1))
  {
  }
}
