/**
  `make:module-migration` (src/Commands/CreateModuleMigration.php): a
  create-table migration in the module's `database/migrations`, its table
  named by the command's own derivation.
*/
module MigrationCommand {
  import opened Options
  import opened PhpStrings
  import opened FileSystem
  import opened Naming
  import opened TableNames
  import opened Generation
  import opened SharedActions

  /** The name after pluralising and the camel-case step, before lower-casing. */
  function UnloweredTable(tableName: string): string
  {
    CamelStep(Pluralise(tableName))
  }

  function MigrationRendering(stub: Option<string>, table: string): Option<string>
  {
    Render(stub, [(TableToken, table)])
  }

  /** `handle`, with the clock's `Y_m_d_His` as `timestamp`; it makes no directory. */
  function Run(fs: FS, moduleName: string, tableName: string, timestamp: string, stub: Option<string>): (FS, Outcome)
  {
    var mp := ModulePath(moduleName);
    if !fs.Exists(mp) then (fs, Returned(1))
    else
      var named := UnloweredTable(tableName);
      if named == "" then (fs, Returned(1))
      else
        var table := StrToLower(named);
        CreateOnly(fs, MigrationPath(mp, timestamp, table), MigrationRendering(stub, table))
  }

  method Handle(disk: Disk, moduleName: string, tableName: string, timestamp: string, stub: Option<string>)
    returns (out: Outcome)
    modifies disk
    ensures (disk.State(), out) == Run(old(disk.State()), moduleName, tableName, timestamp, stub)
  {
    var mp := ModulePath(moduleName);
    if !disk.Exists(mp) {
      return Returned(1);
    }
    var named := UnloweredTable(tableName);
    if named == "" {
      return Returned(1);
    }
    var table := StrToLower(named);
    out := CreateOnlyOn(disk, MigrationPath(mp, timestamp, table), MigrationRendering(stub, table));
  }

  /** The "table name is required" branch can never be taken: pluralising always leaves a letter. */
  lemma EmptyTableCheckNeverFires(tableName: string)
    ensures UnloweredTable(tableName) != ""
    ensures StrToLower(UnloweredTable(tableName)) == CommandTableName(tableName)
  {
    assert |Pluralise(tableName)| > 0;
  }

  /**
    Exit code 1 when the module is missing or the migration exists, the
    `TypeError` when the stub is unreadable, otherwise 0 with exactly the
    migration added, its table named by `CommandTableName`.
  */
  lemma RunOutcome(fs: FS, moduleName: string, tableName: string, timestamp: string, stub: Option<string>)
    ensures var (s, out) := Run(fs, moduleName, tableName, timestamp, stub);
      var mp := ModulePath(moduleName);
      var table := CommandTableName(tableName);
      var path := MigrationPath(mp, timestamp, table);
      && (out == Returned(1) <==> !fs.Exists(mp) || fs.Exists(path))
      && (out == Raised(StubUnreadable) <==> fs.Exists(mp) && !fs.Exists(path) && stub.None?)
      && (out == Returned(0) <==> fs.Exists(mp) && !fs.Exists(path) && stub.Some?)
      && (out == Returned(0) ==> s.files == fs.files[path := MigrationRendering(stub, table).value])
      && (out != Returned(0) ==> s == fs)
      && s.dirs == fs.dirs && s.psr4 == fs.psr4
  {
    EmptyTableCheckNeverFires(tableName);
  }

  lemma RunTwiceRefused(fs: FS, moduleName: string, tableName: string, timestamp: string, stub: Option<string>)
    requires Run(fs, moduleName, tableName, timestamp, stub).1 == Returned(0)
    ensures var s := Run(fs, moduleName, tableName, timestamp, stub).0;
      Run(s, moduleName, tableName, timestamp, stub) == (s, Returned(1))
  {
    RunOutcome(fs, moduleName, tableName, timestamp, stub);
  }

  /**
    The migration's path is timestamped, so a second run at another clock is
    not refused: it writes a fresh migration unless something already sits at
    the new path.
  */
  lemma RunLaterWritesAnother(fs: FS, moduleName: string, tableName: string, timestamp: string, later: string,
                              stub: Option<string>)
    requires Run(fs, moduleName, tableName, timestamp, stub).1 == Returned(0)
    ensures var s := Run(fs, moduleName, tableName, timestamp, stub).0;
      var (t, out) := Run(s, moduleName, tableName, later, stub);
      var path := MigrationPath(ModulePath(moduleName), later, CommandTableName(tableName));
      && (out == Returned(0) <==> later != timestamp && !fs.Exists(path))
      && (out == Returned(1) <==> later == timestamp || fs.Exists(path))
      && (out == Returned(0) ==> t.files == s.files[path := MigrationRendering(stub, CommandTableName(tableName)).value])
      && (out != Returned(0) ==> t == s)
  {
    var mp := ModulePath(moduleName);
    var table := CommandTableName(tableName);
    RunOutcome(fs, moduleName, tableName, timestamp, stub);
    var s := Run(fs, moduleName, tableName, timestamp, stub).0;
    RunOutcome(s, moduleName, tableName, later, stub);
    MigrationPathInjective(mp, timestamp, later, table);
  }

  /** Two migrations of one table in one module have the same path only at the same timestamp. */
  lemma MigrationPathInjective(mp: string, a: string, b: string, table: string)
    ensures MigrationPath(mp, a, table) == MigrationPath(mp, b, table) <==> a == b
  {
    var head := mp + "/database/migrations/";
    if MigrationPath(mp, a, table) == MigrationPath(mp, b, table) {
      var r := MigrationPath(mp, a, table);
      assert r == head + a + ("_create_" + table + "_table.php");
      assert r == head + b + ("_create_" + table + "_table.php");
      assert |a| == |b|;
      assert a == r[|head|..|head| + |a|];
      assert b == r[|head|..|head| + |b|];
    }
  }
}
