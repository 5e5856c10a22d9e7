/**
  `make:module-model` (src/Commands/CreateModuleModel.php): an Eloquent model
  under the module's `App/Models`, preceded by the extras chosen in the
  multiselect (migration, factory, seeder, controller), which run through the
  shared helpers before the model's own target is checked.
*/
module ModelCommand {
  import opened Options
  import opened PhpStrings
  import opened FileSystem
  import opened Naming
  import opened TableNames
  import opened Generation
  import opened SharedActions

  const ModelsTree := "App/Models"

  /** Which extras the multiselect returned (`in_array` of each option). */
  datatype Extras = Extras(migration: bool, factory: bool, seeder: bool, controller: bool)

  /** The text of each stub `file_get_contents` is asked for; `None` is its `false`. */
  datatype Stubs = Stubs(model: Option<string>, migration: Option<string>, factory: Option<string>,
                         seeder: Option<string>, controller: Option<string>)

  /** The name with every `model` removed, when it holds `Model` or `model`. */
  function ModelBaseName(modelName: string): string
  {
    StripKind(modelName, "Model", true)
  }

  /** The model's directory: any non-empty sub-directory counts. */
  function ModelDirectory(modulePath: string, sub: string): string
  {
    modulePath + "/" + SubDirectory(ModelsTree, sub, NonEmpty)
  }

  function ModelPath(modulePath: string, sub: string, baseName: string): string
  {
    ModelDirectory(modulePath, sub) + "/" + UcFirst(baseName) + ".php"
  }

  /** The class's namespace, in which only a truthy sub-directory counts. */
  function ModelNamespace(moduleName: string, sub: string): string
  {
    Namespace(moduleName, SubDirectory(ModelsTree, sub, NonEmptyNorZero))
  }

  function ModelRendering(stub: Option<string>, moduleName: string, sub: string, baseName: string): Option<string>
  {
    Render(stub, NamespaceAndClass(ModelNamespace(moduleName, sub), UcFirst(baseName)))
  }

  /** The extras in the order the command runs them; the first exception stops the command. */
  function RunExtras(fs: FS, modulePath: string, moduleName: string, sub: string, baseName: string, extras: Extras,
                     timestamp: string, stubs: Stubs): (FS, Option<Error>)
  {
    var (s1, e1) := if extras.migration then CreateMigration(fs, modulePath, baseName, timestamp, stubs.migration) else (fs, None);
    if e1.Some? then (s1, e1)
    else
      var (s2, e2) := if extras.factory then CreateModelFactory(s1, modulePath, baseName, moduleName, sub, stubs.factory) else (s1, None);
      if e2.Some? then (s2, e2)
      else
        var (s3, e3) := if extras.seeder then CreateSeeder(s2, modulePath, baseName, moduleName, stubs.seeder) else (s2, None);
        if e3.Some? then (s3, e3)
        else if extras.controller then
          CreateController(s3, UcFirst(baseName) + "Controller", modulePath, moduleName, sub, stubs.controller)
        else (s3, None)
  }

  /** The two directories the command makes before any file: the sub-directory (when non-empty) and `App/Models`. */
  function PrepareDirectories(fs: FS, modulePath: string, sub: string): FS
  {
    var s1 := if sub != "" then fs.EnsureDirectory(ModelDirectory(modulePath, sub)) else fs;
    s1.EnsureDirectory(modulePath + "/" + ModelsTree)
  }

  /** `handle`, with the prompts' answers, the clock and the stubs' text as parameters. */
  function Run(fs: FS, moduleName: string, sub: string, modelName: string, extras: Extras, timestamp: string,
               stubs: Stubs): (FS, Outcome)
  {
    var mp := ModulePath(moduleName);
    if !fs.Exists(mp) then (fs, Returned(1))
    else
      var baseName := ModelBaseName(modelName);
      var (s3, error) := RunExtras(PrepareDirectories(fs, mp, sub), mp, moduleName, sub, baseName, extras, timestamp, stubs);
      if error.Some? then (s3, Raised(error.value))
      else CreateOnly(s3, ModelPath(mp, sub, baseName), ModelRendering(stubs.model, moduleName, sub, baseName))
  }

  method Handle(disk: Disk, moduleName: string, sub: string, modelName: string, extras: Extras, timestamp: string,
                stubs: Stubs) returns (out: Outcome)
    modifies disk
    ensures (disk.State(), out) == Run(old(disk.State()), moduleName, sub, modelName, extras, timestamp, stubs)
  {
    var mp := ModulePath(moduleName);
    if !disk.Exists(mp) {
      return Returned(1);
    }
    if sub != "" && !disk.Exists(ModelDirectory(mp, sub)) {
      disk.MakeDirectory(ModelDirectory(mp, sub));
    }
    var baseName := ModelBaseName(modelName);
    if !disk.Exists(mp + "/" + ModelsTree) {
      disk.MakeDirectory(mp + "/" + ModelsTree);
    }
    var error := RunExtrasOn(disk, mp, moduleName, sub, baseName, extras, timestamp, stubs);
    if error.Some? {
      return Raised(error.value);
    }
    out := CreateOnlyOn(disk, ModelPath(mp, sub, baseName), ModelRendering(stubs.model, moduleName, sub, baseName));
  }

  /** The `in_array` checks and the helper calls on the disk. */
  method RunExtrasOn(disk: Disk, modulePath: string, moduleName: string, sub: string, baseName: string, extras: Extras,
                     timestamp: string, stubs: Stubs) returns (error: Option<Error>)
    modifies disk
    ensures (disk.State(), error) == RunExtras(old(disk.State()), modulePath, moduleName, sub, baseName, extras, timestamp, stubs)
  {
    error := None;
    if extras.migration {
      error := ExecuteCreateMigration(disk, modulePath, baseName, timestamp, stubs.migration);
    }
    if error.None? && extras.factory {
      error := ExecuteCreateModelFactory(disk, modulePath, baseName, moduleName, sub, stubs.factory);
    }
    if error.None? && extras.seeder {
      error := ExecuteCreateSeeder(disk, modulePath, baseName, moduleName, stubs.seeder);
    }
    if error.None? && extras.controller {
      error := ExecuteCreateController(disk, UcFirst(baseName) + "Controller", modulePath, moduleName, sub, stubs.controller);
    }
  }

  // ---------------------------------------------------------------- the extras

  /** Where the controller extra writes, the name handed to it having been suffixed with `Controller`. */
  function ControllerExtraPath(modulePath: string, sub: string, baseName: string): string
  {
    ControllerPath(modulePath, sub, ControllerBaseName(UcFirst(baseName) + "Controller"))
  }

  /** The files the extras may write: every target, whether chosen or not. */
  function ExtraTargets(modulePath: string, sub: string, baseName: string, timestamp: string): set<string>
  {
    TargetsNamed(modulePath, sub, baseName, timestamp, SharedTableName(baseName),
                 ControllerBaseName(UcFirst(baseName) + "Controller"))
  }

  /** The targets, given the migration's table and the controller's base name. */
  function TargetsNamed(modulePath: string, sub: string, baseName: string, timestamp: string, table: string,
                        controllerBase: string): set<string>
  {
    {MigrationPath(modulePath, timestamp, table), FactoryPath(modulePath, baseName),
     SeederPath(modulePath, baseName), ControllerPath(modulePath, sub, controllerBase)}
  }

  /**
    What the extras leave: no directory made, no file outside their targets
    changed, each chosen extra's target existing unless an exception
    escaped, and the only exception the unreadable stub.
  */
  lemma RunExtrasEffect(fs: FS, modulePath: string, moduleName: string, sub: string, baseName: string,
                        extras: Extras, timestamp: string, stubs: Stubs)
    ensures var (s, error) := RunExtras(fs, modulePath, moduleName, sub, baseName, extras, timestamp, stubs);
      && ChangesOnly(fs, s, ExtraTargets(modulePath, sub, baseName, timestamp))
      && (error.None? && extras.migration ==> s.Exists(MigrationPath(modulePath, timestamp, SharedTableName(baseName))))
      && (error.None? && extras.factory ==> s.Exists(FactoryPath(modulePath, baseName)))
      && (error.None? && extras.seeder ==> s.Exists(SeederPath(modulePath, baseName)))
      && (error.None? && extras.controller ==> s.Exists(ControllerExtraPath(modulePath, sub, baseName)))
      && (error.Some? ==> error == Some(StubUnreadable))
  {
    var targets := ExtraTargets(modulePath, sub, baseName, timestamp);
    var table := SharedTableName(baseName);
    var migration := MigrationPath(modulePath, timestamp, table);
    var factory := FactoryPath(modulePath, baseName);
    var seeder := SeederPath(modulePath, baseName);
    var controllerName := UcFirst(baseName) + "Controller";
    var controller := ControllerExtraPath(modulePath, sub, baseName);
    WriteIfAbsentChangesOnly(fs, migration, Render(stubs.migration, [(TableToken, table)]));
    var (s1, e1) := if extras.migration then CreateMigration(fs, modulePath, baseName, timestamp, stubs.migration) else (fs, None);
    assert ChangesOnly(fs, s1, {migration});
    ChangesOnlyThen(fs, s1, s1, {migration}, {}, targets);
    if e1.None? {
      WriteIfAbsentChangesOnly(s1, factory, Render(stubs.factory, FactoryPairs(moduleName, baseName, sub)));
      var (s2, e2) := if extras.factory then CreateModelFactory(s1, modulePath, baseName, moduleName, sub, stubs.factory) else (s1, None);
      ChangesOnlyThen(fs, s1, s2, {migration}, {factory}, targets);
      if e2.None? {
        WriteIfAbsentChangesOnly(s2, seeder, Render(stubs.seeder, NamespaceAndClass(SeederNamespace(moduleName), UcFirst(baseName) + "Seeder")));
        var (s3, e3) := if extras.seeder then CreateSeeder(s2, modulePath, baseName, moduleName, stubs.seeder) else (s2, None);
        ChangesOnlyThen(s1, s2, s3, {factory}, {seeder}, targets);
        ChangesOnlyThen(fs, s1, s3, {migration}, targets, targets);
        if e3.None? {
          var controllerBase := ControllerBaseName(controllerName);
          WriteIfAbsentChangesOnly(s3, controller, Render(stubs.controller, ControllerPairs(moduleName, sub, controllerBase)));
          var (s4, e4) := if extras.controller then CreateController(s3, controllerName, modulePath, moduleName, sub, stubs.controller) else (s3, None);
          ChangesOnlyThen(s2, s3, s4, {seeder}, {controller}, targets);
          ChangesOnlyThen(fs, s2, s4, targets, targets, targets);
        }
      }
    }
  }

  /** After a successful pass, running the extras again changes nothing: every target exists. */
  lemma RunExtrasAgain(fs: FS, modulePath: string, moduleName: string, sub: string, baseName: string,
                       extras: Extras, timestamp: string, stubs: Stubs)
    requires RunExtras(fs, modulePath, moduleName, sub, baseName, extras, timestamp, stubs).1.None?
    ensures var s := RunExtras(fs, modulePath, moduleName, sub, baseName, extras, timestamp, stubs).0;
      RunExtras(s, modulePath, moduleName, sub, baseName, extras, timestamp, stubs) == (s, None)
  {
    RunExtrasEffect(fs, modulePath, moduleName, sub, baseName, extras, timestamp, stubs);
  }

  // ---------------------------------------------------------------- the command

  /** None of the extras' targets is the model's file: they lie in `database/` or `App/Http/`. */
  lemma ExtrasMissModel(mp: string, sub: string, baseName: string, timestamp: string)
    ensures ModelPath(mp, sub, baseName) !in ExtraTargets(mp, sub, baseName, timestamp)
  {
    var table := SharedTableName(baseName);
    var controllerBase := ControllerBaseName(UcFirst(baseName) + "Controller");
    PathsMissModel(mp, sub, baseName, timestamp, table, controllerBase);
    assert ExtraTargets(mp, sub, baseName, timestamp) == TargetsNamed(mp, sub, baseName, timestamp, table, controllerBase);
  }

  lemma PathsMissModel(mp: string, sub: string, baseName: string, timestamp: string, table: string, controllerBase: string)
    ensures ModelPath(mp, sub, baseName) !in TargetsNamed(mp, sub, baseName, timestamp, table, controllerBase)
  {
    var path := ModelPath(mp, sub, baseName);
    ModelPathHead(mp, sub, baseName);
    ControllerPathHead(mp, sub, controllerBase);
    assert MigrationPath(mp, timestamp, table)[|mp| + 1] == 'd';
    assert FactoryPath(mp, baseName)[|mp| + 1] == 'd';
    assert SeederPath(mp, baseName)[|mp| + 1] == 'd';
  }

  /** The model's path is the module's followed by `/App/M`. */
  lemma ModelPathHead(mp: string, sub: string, baseName: string)
    ensures |ModelPath(mp, sub, baseName)| > |mp| + 5
    ensures ModelPath(mp, sub, baseName)[|mp| + 1] == 'A' && ModelPath(mp, sub, baseName)[|mp| + 5] == 'M'
  {
    var directory := SubDirectory(ModelsTree, sub, NonEmpty);
    assert directory[0] == 'A' && directory[4] == 'M';
    assert ModelPath(mp, sub, baseName) == mp + "/" + (directory + "/" + UcFirst(baseName) + ".php");
  }

  /** A controller's path is the module's followed by `/App/H`. */
  lemma ControllerPathHead(mp: string, sub: string, baseName: string)
    ensures |ControllerPath(mp, sub, baseName)| > |mp| + 5 && ControllerPath(mp, sub, baseName)[|mp| + 5] == 'H'
  {
    var directory := SubDirectory(ControllersTree, sub, NonEmpty);
    assert directory[4] == 'H';
    assert ControllerPath(mp, sub, baseName) == mp + "/" + (directory + "/" + UcFirst(baseName) + "Controller.php");
  }

  /**
    The command's contract: exit code 1 when the module is missing or the
    model exists, an exception when a stub it needs is unreadable, 0 when
    the model is written. Whenever the module exists, `App/Models` (and a
    non-empty sub-directory) exist afterwards and every chosen extra has
    run, so that an existing model still gets its extras.
  */
  lemma RunOutcome(fs: FS, moduleName: string, sub: string, modelName: string, extras: Extras, timestamp: string,
                   stubs: Stubs)
    ensures var (s, out) := Run(fs, moduleName, sub, modelName, extras, timestamp, stubs);
      var mp := ModulePath(moduleName);
      var baseName := ModelBaseName(modelName);
      var path := ModelPath(mp, sub, baseName);
      var (x, error) := RunExtras(PrepareDirectories(fs, mp, sub), mp, moduleName, sub, baseName, extras, timestamp, stubs);
      && (!fs.Exists(mp) ==> s == fs && out == Returned(1))
      && (fs.Exists(mp) ==>
            && (error.Some? ==> s == x && out == Raised(StubUnreadable))
            && (error.None? ==> (out == Returned(1) <==> fs.Exists(path)))
            && (error.None? ==> (out == Raised(StubUnreadable) <==> !fs.Exists(path) && stubs.model.None?))
            && (error.None? && out == Returned(0) ==> s.files == x.files[path := ModelRendering(stubs.model, moduleName, sub, baseName).value])
            && (error.None? && out != Returned(0) ==> s == x)
            && s.Exists(mp + "/" + ModelsTree)
            && (sub != "" ==> s.Exists(ModelDirectory(mp, sub))))
      && s.psr4 == fs.psr4
      && (fs.Valid() ==> s.Valid())
  {
    var mp := ModulePath(moduleName);
    if fs.Exists(mp) {
      var baseName := ModelBaseName(modelName);
      var path := ModelPath(mp, sub, baseName);
      var s2 := PrepareDirectories(fs, mp, sub);
      PrepareDirectoriesEffect(fs, mp, sub, baseName);
      RunExtrasEffect(s2, mp, moduleName, sub, baseName, extras, timestamp, stubs);
      ExtrasMissModel(mp, sub, baseName, timestamp);
      var (x, error) := RunExtras(s2, mp, moduleName, sub, baseName, extras, timestamp, stubs);
      ChangesOnlyOutside(s2, x, ExtraTargets(mp, sub, baseName, timestamp), path);
      if error.None? {
        var content := ModelRendering(stubs.model, moduleName, sub, baseName);
        assert Run(fs, moduleName, sub, modelName, extras, timestamp, stubs) == CreateOnly(x, path, content);
        if !x.Exists(path) && content.Some? {
          assert CreateOnly(x, path, content) == (x.Put(path, content.value), Returned(0));
        }
      } else {
        assert Run(fs, moduleName, sub, modelName, extras, timestamp, stubs) == (x, Raised(error.value));
      }
    }
  }

  /**
    The directories made first leave every file as it was, make `App/Models`
    and a non-empty sub-directory exist, and make nothing at the model's path.
  */
  lemma PrepareDirectoriesEffect(fs: FS, mp: string, sub: string, baseName: string)
    ensures var s := PrepareDirectories(fs, mp, sub);
      && s.files == fs.files && s.psr4 == fs.psr4 && fs.dirs <= s.dirs
      && s.Exists(mp + "/" + ModelsTree)
      && (sub != "" ==> s.Exists(ModelDirectory(mp, sub)))
      && (s.Exists(ModelPath(mp, sub, baseName)) <==> fs.Exists(ModelPath(mp, sub, baseName)))
      && (fs.Valid() ==> s.Valid())
  {
    var path := ModelPath(mp, sub, baseName);
    NotInChainShorter(path, ModelDirectory(mp, sub));
    NotInChainShorter(path, mp + "/" + ModelsTree);
  }

  /** A second run after a success, at the same timestamp, changes nothing and is refused with exit code 1. */
  lemma RunTwiceRefused(fs: FS, moduleName: string, sub: string, modelName: string, extras: Extras, timestamp: string,
                        stubs: Stubs)
    requires Run(fs, moduleName, sub, modelName, extras, timestamp, stubs).1 == Returned(0)
    ensures var s := Run(fs, moduleName, sub, modelName, extras, timestamp, stubs).0;
      Run(s, moduleName, sub, modelName, extras, timestamp, stubs) == (s, Returned(1))
  {
    var mp := ModulePath(moduleName);
    var baseName := ModelBaseName(modelName);
    var s2 := PrepareDirectories(fs, mp, sub);
    var (x, error) := RunExtras(s2, mp, moduleName, sub, baseName, extras, timestamp, stubs);
    RunOutcome(fs, moduleName, sub, modelName, extras, timestamp, stubs);
    var s := Run(fs, moduleName, sub, modelName, extras, timestamp, stubs).0;
    assert s == x.Put(ModelPath(mp, sub, baseName), ModelRendering(stubs.model, moduleName, sub, baseName).value);
    RunExtrasEffect(s2, mp, moduleName, sub, baseName, extras, timestamp, stubs);
    ExtrasMissModel(mp, sub, baseName, timestamp);
    assert s.EnsureDirectory(mp + "/" + ModelsTree) == s;
    RunExtrasAgainAfterWrite(s2, mp, moduleName, sub, baseName, extras, timestamp, stubs,
                             ModelPath(mp, sub, baseName), ModelRendering(stubs.model, moduleName, sub, baseName).value);
  }

  /**
    A second run at a later clock is still refused once the model exists, but
    the extras run first at the new timestamp: only their targets there can
    change, so a chosen migration extra adds a fresh migration, and its
    unreadable stub can escape. Without the migration extra nothing changes.
  */
  lemma RunLaterRefused(fs: FS, moduleName: string, sub: string, modelName: string, extras: Extras, timestamp: string,
                        later: string, stubs: Stubs)
    requires Run(fs, moduleName, sub, modelName, extras, timestamp, stubs).1 == Returned(0)
    ensures var s := Run(fs, moduleName, sub, modelName, extras, timestamp, stubs).0;
      var (t, out) := Run(s, moduleName, sub, modelName, extras, later, stubs);
      && (out == Returned(1) || out == Raised(StubUnreadable))
      && ChangesOnly(s, t, ExtraTargets(ModulePath(moduleName), sub, ModelBaseName(modelName), later))
      && (!extras.migration ==> t == s && out == Returned(1))
  {
    var mp := ModulePath(moduleName);
    var baseName := ModelBaseName(modelName);
    var path := ModelPath(mp, sub, baseName);
    var s := Run(fs, moduleName, sub, modelName, extras, timestamp, stubs).0;
    SucceededState(fs, moduleName, sub, modelName, extras, timestamp, stubs);
    assert PrepareDirectories(s, mp, sub) == s;
    var (x, error) := RunExtras(s, mp, moduleName, sub, baseName, extras, later, stubs);
    RunExtrasEffect(s, mp, moduleName, sub, baseName, extras, later, stubs);
    if error.None? {
      assert x.Exists(path);
    }
    if !extras.migration {
      RunExtrasClockFree(s, mp, moduleName, sub, baseName, extras, later, timestamp, stubs);
      RunTwiceRefused(fs, moduleName, sub, modelName, extras, timestamp, stubs);
    }
  }

  /** Without the migration extra the extras do not read the clock. */
  lemma RunExtrasClockFree(fs: FS, modulePath: string, moduleName: string, sub: string, baseName: string,
                           extras: Extras, a: string, b: string, stubs: Stubs)
    requires !extras.migration
    ensures RunExtras(fs, modulePath, moduleName, sub, baseName, extras, a, stubs)
         == RunExtras(fs, modulePath, moduleName, sub, baseName, extras, b, stubs)
  {
  }

  /** After a success the module, the model and the directories the command makes all exist. */
  lemma SucceededState(fs: FS, moduleName: string, sub: string, modelName: string, extras: Extras, timestamp: string,
                       stubs: Stubs)
    requires Run(fs, moduleName, sub, modelName, extras, timestamp, stubs).1 == Returned(0)
    ensures var s := Run(fs, moduleName, sub, modelName, extras, timestamp, stubs).0;
      var mp := ModulePath(moduleName);
      && s.Exists(mp) && ModelPath(mp, sub, ModelBaseName(modelName)) in s.files
      && s.Exists(mp + "/" + ModelsTree) && (sub != "" ==> s.Exists(ModelDirectory(mp, sub)))
  {
    var mp := ModulePath(moduleName);
    var baseName := ModelBaseName(modelName);
    RunOutcome(fs, moduleName, sub, modelName, extras, timestamp, stubs);
    PrepareDirectoriesEffect(fs, mp, sub, baseName);
    RunExtrasEffect(PrepareDirectories(fs, mp, sub), mp, moduleName, sub, baseName, extras, timestamp, stubs);
  }

  /** Writing the model between two passes of the extras does not wake them: their targets still exist. */
  lemma RunExtrasAgainAfterWrite(fs: FS, modulePath: string, moduleName: string, sub: string, baseName: string,
                                 extras: Extras, timestamp: string, stubs: Stubs, p: string, content: string)
    requires RunExtras(fs, modulePath, moduleName, sub, baseName, extras, timestamp, stubs).1.None?
    ensures var s := RunExtras(fs, modulePath, moduleName, sub, baseName, extras, timestamp, stubs).0.Put(p, content);
      RunExtras(s, modulePath, moduleName, sub, baseName, extras, timestamp, stubs) == (s, None)
  {
    RunExtrasEffect(fs, modulePath, moduleName, sub, baseName, extras, timestamp, stubs);
  }

  /** The factory's `{{ namespacedModelPath }}` is the model's class as this command declares it. */
  lemma FactoryNamesTheModel(moduleName: string, sub: string, baseName: string)
    ensures NamespacedModelPath(moduleName, baseName, sub) == ModelNamespace(moduleName, sub) + "\\" + UcFirst(baseName)
  {
  }

  /** The model's namespace follows the directory it is written to, except for the sub-directory "0". */
  lemma NamespaceFollowsDirectory(moduleName: string, sub: string)
    ensures (ModelNamespace(moduleName, sub) == Namespace(moduleName, SubDirectory(ModelsTree, sub, NonEmpty))) <==> sub != "0"
  {
    NamespaceRulesDisagreeOnlyOnZero(moduleName, ModelsTree, sub);
  }
}
