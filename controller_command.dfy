/**
  `make:module-controller` (src/Commands/CreateModuleController.php): an API
  controller under the module's `App/Http/Controllers`. Its naming, path and
  placeholders are those of the shared `CreateController` helper.
*/
module ControllerCommand {
  import opened Options
  import opened PhpStrings
  import opened FileSystem
  import opened Naming
  import opened Generation
  import opened SharedActions

  function ControllerRendering(stub: Option<string>, moduleName: string, sub: string, baseName: string): Option<string>
  {
    Render(stub, ControllerPairs(moduleName, sub, baseName))
  }

  /** `handle`, with the prompts' answers and the stub's text as parameters. */
  function Run(fs: FS, moduleName: string, sub: string, controllerName: string, stub: Option<string>): (FS, Outcome)
  {
    var mp := ModulePath(moduleName);
    if !fs.Exists(mp) then (fs, Returned(1))
    else
      var s1 := if sub != "" then fs.EnsureDirectory(mp + "/" + ControllerDirectory(sub)) else fs;
      var baseName := ControllerBaseName(controllerName);
      CreateOnly(s1, ControllerPath(mp, sub, baseName), ControllerRendering(stub, moduleName, sub, baseName))
  }

  method Handle(disk: Disk, moduleName: string, sub: string, controllerName: string, stub: Option<string>)
    returns (out: Outcome)
    modifies disk
    ensures (disk.State(), out) == Run(old(disk.State()), moduleName, sub, controllerName, stub)
  {
    var mp := ModulePath(moduleName);
    if !disk.Exists(mp) {
      return Returned(1);
    }
    if sub != "" && !disk.Exists(mp + "/" + ControllerDirectory(sub)) {
      disk.MakeDirectory(mp + "/" + ControllerDirectory(sub));
    }
    var baseName := ControllerBaseName(controllerName);
    out := CreateOnlyOn(disk, ControllerPath(mp, sub, baseName), ControllerRendering(stub, moduleName, sub, baseName));
  }

  /**
    Exit code 1 when the module is missing or the target exists, the
    `TypeError` when the stub is unreadable, otherwise 0 with exactly the
    target added. Only a non-empty sub-directory is made.
  */
  lemma RunOutcome(fs: FS, moduleName: string, sub: string, controllerName: string, stub: Option<string>)
    ensures var (s, out) := Run(fs, moduleName, sub, controllerName, stub);
      var mp := ModulePath(moduleName);
      var baseName := ControllerBaseName(controllerName);
      var path := ControllerPath(mp, sub, baseName);
      && (out == Returned(1) <==> !fs.Exists(mp) || fs.Exists(path))
      && (out == Raised(StubUnreadable) <==> fs.Exists(mp) && !fs.Exists(path) && stub.None?)
      && (out == Returned(0) <==> fs.Exists(mp) && !fs.Exists(path) && stub.Some?)
      && (out == Returned(0) ==> s.files == fs.files[path := ControllerRendering(stub, moduleName, sub, baseName).value])
      && (out != Returned(0) ==> s.files == fs.files)
      && s.psr4 == fs.psr4
      && (!fs.Exists(mp) || sub == "" ==> s.dirs == fs.dirs)
      && (fs.Exists(mp) && sub != "" ==> s.Exists(mp + "/" + ControllerDirectory(sub)))
      && (fs.Valid() ==> s.Valid())
  {
    var mp := ModulePath(moduleName);
    var baseName := ControllerBaseName(controllerName);
    var path := ControllerPath(mp, sub, baseName);
    if fs.Exists(mp) {
      var s1 := if sub != "" then fs.EnsureDirectory(mp + "/" + ControllerDirectory(sub)) else fs;
      NotInChainShorter(path, mp + "/" + ControllerDirectory(sub));
      assert s1.Exists(path) <==> fs.Exists(path);
      assert s1.files == fs.files;
    }
  }

  lemma RunTwiceRefused(fs: FS, moduleName: string, sub: string, controllerName: string, stub: Option<string>)
    requires Run(fs, moduleName, sub, controllerName, stub).1 == Returned(0)
    ensures var s := Run(fs, moduleName, sub, controllerName, stub).0;
      Run(s, moduleName, sub, controllerName, stub) == (s, Returned(1))
  {
    RunOutcome(fs, moduleName, sub, controllerName, stub);
  }

  /**
    In an existing module the command writes what the shared helper writes
    for the same inputs; it differs only in making the sub-directory and in
    answering an existing target with exit code 1 instead of silence.
  */
  lemma RunAgreesWithSharedAction(fs: FS, moduleName: string, sub: string, controllerName: string, stub: Option<string>)
    requires fs.Exists(ModulePath(moduleName))
    ensures var (s, out) := Run(fs, moduleName, sub, controllerName, stub);
      var (t, error) := CreateController(fs, controllerName, ModulePath(moduleName), moduleName, sub, stub);
      && s.files == t.files
      && (out == Returned(0) <==> error.None? && t != fs)
      && (out == Raised(StubUnreadable) <==> error == Some(StubUnreadable))
  {
    RunOutcome(fs, moduleName, sub, controllerName, stub);
    CreateControllerWritesOnlyIfAbsent(fs, controllerName, ModulePath(moduleName), moduleName, sub, stub);
  }
}
