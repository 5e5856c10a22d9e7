/**
  The helpers the model command calls for its extras (src/Commands/SharedActions):
  a controller, a factory, a seeder and a migration for the model. Each
  writes its file only when nothing exists at the target path and otherwise
  returns silently; none of them creates a directory. The result pairs the
  new state with the exception, if any, that escapes the helper.
*/
module SharedActions {
  import opened Options
  import opened PhpStrings
  import opened FileSystem
  import opened Naming
  import opened TableNames
  import opened Generation

  // ---------------------------------------------------------------- CreateController

  const ControllersTree := "App/Http/Controllers"

  /** The controller name with every `controller` removed, when it holds `Controller`. */
  function ControllerBaseName(controllerName: string): string
  {
    StripKind(controllerName, "Controller", false)
  }

  /** The controller's directory inside the module; any non-empty sub-directory counts. */
  function ControllerDirectory(sub: string): string
  {
    SubDirectory(ControllersTree, sub, NonEmpty)
  }

  function ControllerPath(modulePath: string, sub: string, baseName: string): string
  {
    EntityPath(modulePath, ControllersTree, sub, NonEmpty, UcFirst(baseName) + "Controller.php")
  }

  function ControllerClass(baseName: string): string
  {
    UcFirst(baseName) + "Controller"
  }

  function ControllerPairs(moduleName: string, sub: string, baseName: string): seq<(string, string)>
  {
    [ (NamespaceToken, Namespace(moduleName, ControllerDirectory(sub))),
      ("{{ rootNamespace }}", "App\\"),
      (ClassToken, ControllerClass(baseName)) ]
  }

  /** `CreateController::execute`. */
  function CreateController(fs: FS, controllerName: string, modulePath: string, moduleName: string, sub: string,
                            stub: Option<string>): (FS, Option<Error>)
  {
    var baseName := ControllerBaseName(controllerName);
    WriteIfAbsent(fs, ControllerPath(modulePath, sub, baseName), Render(stub, ControllerPairs(moduleName, sub, baseName)))
  }

  // ---------------------------------------------------------------- CreateModelFactory

  /** The module's `database` sub-tree, whose name the factory and seeder namespaces keep in lower case. */
  const DatabaseTree := "database"

  /** The factory goes to `database/factories` whatever the model's sub-directory. */
  function FactoryPath(modulePath: string, modelName: string): string
  {
    modulePath + "/database/factories/" + UcFirst(modelName) + "Factory.php"
  }

  /** The model's fully qualified class, its sub-directory counted only when truthy. */
  function NamespacedModelPath(moduleName: string, modelName: string, sub: string): string
  {
    Namespace(moduleName, SubDirectory("App/Models", sub, NonEmptyNorZero)) + "\\" + UcFirst(modelName)
  }

  function FactoryNamespace(moduleName: string): string
  {
    Namespace(moduleName, DatabaseTree + "/factories")
  }

  /** `{{ namespacedModel }}` and `{{ factory }}` both receive the model name as given. */
  function FactoryPairs(moduleName: string, modelName: string, sub: string): seq<(string, string)>
  {
    [ ("{{ factoryNamespace }}", FactoryNamespace(moduleName)),
      ("{{ namespacedModelPath }}", NamespacedModelPath(moduleName, modelName, sub)),
      ("{{ namespacedModel }}", modelName),
      ("{{ factory }}", modelName) ]
  }

  /** `CreateModelFactory::execute`. */
  function CreateModelFactory(fs: FS, modulePath: string, modelName: string, moduleName: string, sub: string,
                              stub: Option<string>): (FS, Option<Error>)
  {
    WriteIfAbsent(fs, FactoryPath(modulePath, modelName), Render(stub, FactoryPairs(moduleName, modelName, sub)))
  }

  // ---------------------------------------------------------------- CreateSeeder

  function SeederPath(modulePath: string, modelName: string): string
  {
    modulePath + "/database/seeders/" + UcFirst(modelName) + "Seeder.php"
  }

  function SeederNamespace(moduleName: string): string
  {
    Namespace(moduleName, DatabaseTree + "/seeders")
  }

  /** `CreateSeeder::execute`. */
  function CreateSeeder(fs: FS, modulePath: string, modelName: string, moduleName: string,
                        stub: Option<string>): (FS, Option<Error>)
  {
    WriteIfAbsent(fs, SeederPath(modulePath, modelName),
                  Render(stub, NamespaceAndClass(SeederNamespace(moduleName), UcFirst(modelName) + "Seeder")))
  }

  // ---------------------------------------------------------------- CreateMigration

  const TableToken := "{{ table }}"

  /** `<module>/database/migrations/<timestamp>_create_<table>_table.php`; the clock's `Y_m_d_His` is a parameter. */
  function MigrationPath(modulePath: string, timestamp: string, table: string): string
  {
    modulePath + "/database/migrations/" + timestamp + "_create_" + table + "_table.php"
  }

  /** `CreateMigration::execute`. */
  function CreateMigration(fs: FS, modulePath: string, modelName: string, timestamp: string,
                           stub: Option<string>): (FS, Option<Error>)
  {
    var table := SharedTableName(modelName);
    WriteIfAbsent(fs, MigrationPath(modulePath, timestamp, table), Render(stub, [(TableToken, table)]))
  }

  // ---------------------------------------------------------------- what every helper promises

  /**
    A helper's guarded write: an existing target is left as it is and no
    error escapes; an absent one receives the rendering, unless the stub
    was unreadable, in which case that error escapes and nothing is written.
    Directories, the PSR-4 section and every other file are never touched.
  */
  predicate WritesOnlyIfAbsent(fs: FS, p: string, content: Option<string>, result: (FS, Option<Error>))
  {
    var (s, error) := result;
    && s.dirs == fs.dirs && s.psr4 == fs.psr4
    && s.files.Keys - {p} == fs.files.Keys - {p}
    && (forall q :: q in fs.files && q != p ==> q in s.files && s.files[q] == fs.files[q])
    && (fs.Exists(p) ==> s == fs && error.None?)
    && (!fs.Exists(p) && content.None? ==> s == fs && error == Some(StubUnreadable))
    && (!fs.Exists(p) && content.Some? ==> error.None? && p in s.files && s.files[p] == content.value)
  }

  lemma WriteIfAbsentWritesOnlyIfAbsent(fs: FS, p: string, content: Option<string>)
    ensures WritesOnlyIfAbsent(fs, p, content, WriteIfAbsent(fs, p, content))
  {
  }

  /** A second write to the same path changes nothing: the helpers are idempotent. */
  lemma WriteIfAbsentIdempotent(fs: FS, p: string, content: Option<string>)
    ensures var (s, error) := WriteIfAbsent(fs, p, content);
      error.None? ==> WriteIfAbsent(s, p, content) == (s, None)
  {
  }

  lemma CreateControllerWritesOnlyIfAbsent(fs: FS, controllerName: string, modulePath: string, moduleName: string,
                                           sub: string, stub: Option<string>)
    ensures var baseName := ControllerBaseName(controllerName);
      WritesOnlyIfAbsent(fs, ControllerPath(modulePath, sub, baseName),
                         Render(stub, ControllerPairs(moduleName, sub, baseName)),
                         CreateController(fs, controllerName, modulePath, moduleName, sub, stub))
  {
  }

  lemma CreateModelFactoryWritesOnlyIfAbsent(fs: FS, modulePath: string, modelName: string, moduleName: string,
                                             sub: string, stub: Option<string>)
    ensures WritesOnlyIfAbsent(fs, FactoryPath(modulePath, modelName), Render(stub, FactoryPairs(moduleName, modelName, sub)),
                               CreateModelFactory(fs, modulePath, modelName, moduleName, sub, stub))
  {
  }

  lemma CreateSeederWritesOnlyIfAbsent(fs: FS, modulePath: string, modelName: string, moduleName: string, stub: Option<string>)
    ensures WritesOnlyIfAbsent(fs, SeederPath(modulePath, modelName),
                               Render(stub, NamespaceAndClass(SeederNamespace(moduleName), UcFirst(modelName) + "Seeder")),
                               CreateSeeder(fs, modulePath, modelName, moduleName, stub))
  {
  }

  lemma CreateMigrationWritesOnlyIfAbsent(fs: FS, modulePath: string, modelName: string, timestamp: string, stub: Option<string>)
    ensures var table := SharedTableName(modelName);
      WritesOnlyIfAbsent(fs, MigrationPath(modulePath, timestamp, table), Render(stub, [(TableToken, table)]),
                         CreateMigration(fs, modulePath, modelName, timestamp, stub))
  {
    var table := SharedTableName(modelName);
    WriteIfAbsentWritesOnlyIfAbsent(fs, MigrationPath(modulePath, timestamp, table), Render(stub, [(TableToken, table)]));
  }

  // ---------------------------------------------------------------- names the helpers derive

  /**
    The model command hands `ucfirst(name) . "Controller"` to the helper; when
    no case-insensitive `controller` begins inside ucfirst(name), the helper
    strips exactly that suffix, so the file is `<Name>Controller.php`.
  */
  lemma ModelControllerBaseName(modelName: string)
    requires forall j: nat :: j < |UcFirst(modelName)| ==> !MatchAt(UcFirst(modelName) + "Controller", j, "Controller", true)
    ensures ControllerBaseName(UcFirst(modelName) + "Controller") == UcFirst(modelName)
  {
    var stem := UcFirst(modelName);
    assert stem + "Controller" == stem + "Controller" + "";
    StripSingleKindWord(stem, "Controller", "", false);
    assert stem + "" == stem;
  }

  /** The two database directories, with their separator turned into a backslash. */
  lemma BackslashedDatabaseTrees()
    ensures Backslashed(DatabaseTree + "/factories") == "database\\factories"
    ensures Backslashed(DatabaseTree + "/seeders") == "database\\seeders"
  {
    assert Backslashed(DatabaseTree + "/" + "factories") == DatabaseTree + "\\" + "factories" by {
      BackslashedTwoSegments(DatabaseTree, "factories");
    }
    assert Backslashed(DatabaseTree + "/" + "seeders") == DatabaseTree + "\\" + "seeders" by {
      BackslashedTwoSegments(DatabaseTree, "seeders");
    }
    assert DatabaseTree + "/factories" == DatabaseTree + "/" + "factories";
    assert DatabaseTree + "/seeders" == DatabaseTree + "/" + "seeders";
    assert DatabaseTree + "\\" + "factories" == "database\\factories";
    assert DatabaseTree + "\\" + "seeders" == "database\\seeders";
  }

  /** The factory and seeder namespaces keep the lower-case `database` segments of their directories. */
  lemma DatabaseNamespaces(moduleName: string)
    ensures FactoryNamespace(moduleName) == "Modules\\" + UcFirst(Backslashed(moduleName)) + "\\" + "database\\factories"
    ensures SeederNamespace(moduleName) == "Modules\\" + UcFirst(Backslashed(moduleName)) + "\\" + "database\\seeders"
  {
    BackslashedDatabaseTrees();
  }

  /** The migration a model's extra writes is named by a table that is lower-case and ends in `s`. */
  lemma CreateMigrationTable(fs: FS, modulePath: string, modelName: string, timestamp: string, stub: Option<string>)
    ensures var table := SharedTableName(modelName);
      && |table| > 0 && EndsWith(table, "s") && (forall i :: 0 <= i < |table| ==> !IsUpper(table[i]))
      && (!fs.Exists(MigrationPath(modulePath, timestamp, table)) && stub.Some? ==>
            CreateMigration(fs, modulePath, modelName, timestamp, stub).0.files[MigrationPath(modulePath, timestamp, table)]
              == ReplaceAll(stub.value, TableToken, table, false))
  {
    var table := SharedTableName(modelName);
    if stub.Some? {
      var pairs := [(TableToken, table)];
      assert pairs[1..] == [];
      assert ReplacePairs(stub.value, pairs) == ReplaceAll(stub.value, TableToken, table, false);
    }
  }

  // ---------------------------------------------------------------- on the disk

  method ExecuteCreateController(disk: Disk, controllerName: string, modulePath: string, moduleName: string, sub: string,
                                 stub: Option<string>) returns (error: Option<Error>)
    modifies disk
    ensures (disk.State(), error) == CreateController(old(disk.State()), controllerName, modulePath, moduleName, sub, stub)
  {
    var baseName := ControllerBaseName(controllerName);
    error := WriteIfAbsentOn(disk, ControllerPath(modulePath, sub, baseName), Render(stub, ControllerPairs(moduleName, sub, baseName)));
  }

  method ExecuteCreateModelFactory(disk: Disk, modulePath: string, modelName: string, moduleName: string, sub: string,
                                   stub: Option<string>) returns (error: Option<Error>)
    modifies disk
    ensures (disk.State(), error) == CreateModelFactory(old(disk.State()), modulePath, modelName, moduleName, sub, stub)
  {
    error := WriteIfAbsentOn(disk, FactoryPath(modulePath, modelName), Render(stub, FactoryPairs(moduleName, modelName, sub)));
  }

  method ExecuteCreateSeeder(disk: Disk, modulePath: string, modelName: string, moduleName: string,
                             stub: Option<string>) returns (error: Option<Error>)
    modifies disk
    ensures (disk.State(), error) == CreateSeeder(old(disk.State()), modulePath, modelName, moduleName, stub)
  {
    error := WriteIfAbsentOn(disk, SeederPath(modulePath, modelName),
                             Render(stub, NamespaceAndClass(SeederNamespace(moduleName), UcFirst(modelName) + "Seeder")));
  }

  method ExecuteCreateMigration(disk: Disk, modulePath: string, modelName: string, timestamp: string,
                                stub: Option<string>) returns (error: Option<Error>)
    modifies disk
    ensures (disk.State(), error) == CreateMigration(old(disk.State()), modulePath, modelName, timestamp, stub)
  {
    var table := SharedTableName(modelName);
    error := WriteIfAbsentOn(disk, MigrationPath(modulePath, timestamp, table), Render(stub, [(TableToken, table)]));
  }
}
