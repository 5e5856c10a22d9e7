/**
  `make:module` (src/Commands/CreateModuleCommand.php): the directory tree of
  a new module, its config and route files, its three service providers
  and, in the development environment, the composer.json autoload entries
  and the registration of the module's provider in bootstrap/app.php.
*/
module ModuleCommand {
  import opened Options
  import opened PhpStrings
  import opened FileSystem
  import opened Naming
  import opened Registry
  import opened Generation

  const CodeDirectories := ["config", "routes", "database", "domain", "app", "tests"]
  const DatabaseDirectories := ["factories", "migrations", "seeders"]
  const DomainDirectories := ["Actions", "Aggregates", "Collections", "Contracts", "DataFactories",
                              "DataTransferObjects", "Queries", "QueryBuilders"]
  const TestDirectories := ["ArchTest", "Feature", "Unit"]
  const AppDirectories := ["Exceptions", "Http", "Models", "Providers"]
  const HttpDirectories := ["Controllers", "Requests", "Resources"]

  /** The third placeholder of the provider stubs. */
  const KeyToken := "{{ key }}"

  /** The bootstrap file, relative to the project root. */
  const BootstrapPath := "bootstrap/app.php"

  /** The answers to the four yes/no prompts; only the exact text `yes` counts as yes. */
  datatype Answers = Answers(processes: string, events: string, listeners: string, middleware: string)

  /** The six stubs' text, `None` where `file_get_contents` gives `false`. */
  datatype Stubs = Stubs(config: Option<string>, routeWeb: Option<string>, routeApi: Option<string>,
                         routeProvider: Option<string>, eventProvider: Option<string>, moduleProvider: Option<string>)

  predicate Readable(stubs: Stubs)
  {
    && stubs.config.Some? && stubs.routeWeb.Some? && stubs.routeApi.Some?
    && stubs.routeProvider.Some? && stubs.eventProvider.Some? && stubs.moduleProvider.Some?
  }

  /** `base/name` for each name, the directories one `foreach` makes. */
  function Under(base: string, names: seq<string>): seq<string>
  {
    seq(|names|, k requires 0 <= k < |names| => base + "/" + names[k])
  }

  /** The fixed directories of the database, domain and tests trees. */
  function DomainFixed(mp: string): seq<string>
  {
    Under(mp + "/database", DatabaseDirectories) + Under(mp + "/domain", DomainDirectories) + Under(mp + "/tests", TestDirectories)
  }

  /** The fixed directories of the app tree. */
  function AppFixed(mp: string): seq<string>
  {
    Under(mp + "/app", AppDirectories) + Under(mp + "/app/Http", HttpDirectories)
  }

  /** Every directory the command makes whatever the answers. */
  function FixedDirectories(mp: string): seq<string>
  {
    Under(mp, CodeDirectories) + DomainFixed(mp) + AppFixed(mp)
  }

  function ProcessesDirectory(mp: string): string { mp + "/domain/Processes" }
  function EventsDirectory(mp: string): string { mp + "/app/Events" }
  function ListenersDirectory(mp: string): string { mp + "/app/Listeners" }
  function MiddlewareDirectory(mp: string): string { mp + "/app/Http/Middleware" }

  function ConfigPath(mp: string): string { mp + "/config/config.php" }
  function WebRoutePath(mp: string): string { mp + "/routes/web.php" }
  function ApiRoutePath(mp: string): string { mp + "/routes/api.php" }

  /** The file of the provider class `className` in the module's `app/Providers`. */
  function ProviderFile(mp: string, className: string): string
  {
    mp + "/app/Providers/" + className + ".php"
  }

  function RouteProviderPath(mp: string): string { ProviderFile(mp, "RouteServiceProvider") }
  function EventProviderPath(mp: string): string { ProviderFile(mp, "EventServiceProvider") }

  /** The module's own provider, named after the module name as typed, not capitalised. */
  function ModuleProviderPath(mp: string, moduleName: string): string
  {
    ProviderFile(mp, moduleName + "ServiceProvider")
  }

  /** The six files the command writes into the module. */
  function Targets(mp: string, moduleName: string): set<string>
  {
    {ConfigPath(mp), WebRoutePath(mp), ApiRoutePath(mp),
     RouteProviderPath(mp), EventProviderPath(mp), ModuleProviderPath(mp, moduleName)}
  }

  /** `configureStub`'s substitution: namespace, class, then key, each over the result of the one before. */
  function ConfigureStub(stubContent: string, namespace: string, className: string, key: string): string
  {
    ReplacePairs(stubContent, [(NamespaceToken, namespace), (ClassToken, className), (KeyToken, key)])
  }

  /** A provider's text: the stub configured with the providers' namespace, the class and the lower-cased module name. */
  function ProviderContent(stub: Option<string>, moduleName: string, className: string): Option<string>
  {
    if stub.None? then None
    else Some(ConfigureStub(stub.value, ProviderNamespace(moduleName, "Providers"), className, StrToLower(moduleName)))
  }

  /**
    One `file_get_contents`, `if ($content === false) return 1;`, `File::put`
    block: skipped once an earlier block has returned, and returning (the
    flag turning false) on an unreadable stub, with the earlier files written.
  */
  function PutStub(state: (FS, bool), p: string, content: Option<string>): (r: (FS, bool))
    ensures r.0.dirs == state.0.dirs && r.0.psr4 == state.0.psr4
    ensures r.1 <==> state.1 && content.Some?
  {
    if !state.1 then state
    else if content.None? then (state.0, false)
    else (state.0.Put(p, content.value), true)
  }

  /** The config and route files, each written as its stub reads. */
  function WriteBaseFiles(fs: FS, mp: string, stubs: Stubs): (FS, bool)
  {
    var config := PutStub((fs, true), ConfigPath(mp), stubs.config);
    var web := PutStub(config, WebRoutePath(mp), stubs.routeWeb);
    PutStub(web, ApiRoutePath(mp), stubs.routeApi)
  }

  /** The three providers, in the order they are written. */
  function WriteProviders(fs: FS, mp: string, moduleName: string, stubs: Stubs): (FS, bool)
  {
    var route := PutStub((fs, true), RouteProviderPath(mp), ProviderContent(stubs.routeProvider, moduleName, "RouteServiceProvider"));
    var event := PutStub(route, EventProviderPath(mp), ProviderContent(stubs.eventProvider, moduleName, "EventServiceProvider"));
    PutStub(event, ModuleProviderPath(mp, moduleName),
            ProviderContent(stubs.moduleProvider, moduleName, moduleName + "ServiceProvider"))
  }

  /** A directory made only on the answer `yes`. */
  function Optional(fs: FS, answer: string, d: string): (r: FS)
    ensures r.files == fs.files && r.psr4 == fs.psr4 && fs.dirs <= r.dirs
    ensures fs.Valid() ==> r.Valid()
  {
    if answer == "yes" then fs.MakeDirectory(d) else fs
  }

  /** The module's directory and its six top-level directories. */
  function Skeleton(fs: FS, mp: string): (r: FS)
    ensures r.files == fs.files && r.psr4 == fs.psr4 && fs.dirs <= r.dirs
    ensures fs.Valid() ==> r.Valid()
  {
    fs.MakeDirectory(mp).MakeDirectoriesUnder(mp, CodeDirectories)
  }

  /** The database, domain and tests directories, and the process manager's on `yes`. */
  function DomainLayout(fs: FS, mp: string, processes: string): (r: FS)
    ensures r.files == fs.files && r.psr4 == fs.psr4 && fs.dirs <= r.dirs
    ensures fs.Valid() ==> r.Valid()
  {
    var s1 := fs.MakeDirectoriesUnder(mp + "/database", DatabaseDirectories);
    var s2 := s1.MakeDirectoriesUnder(mp + "/domain", DomainDirectories);
    var s3 := s2.MakeDirectoriesUnder(mp + "/tests", TestDirectories);
    Optional(s3, processes, ProcessesDirectory(mp))
  }

  /** In the development environment, the module's `app` and `domain` directories enter the PSR-4 section. */
  function Autoload(fs: FS, moduleName: string, development: bool): FS
  {
    if development then fs.(psr4 := RegisterAutoload(fs.psr4, moduleName)) else fs
  }

  /** The app directories, events and listeners on `yes`, the Http directories, and middleware on `yes`. */
  function AppLayout(fs: FS, mp: string, answers: Answers): (r: FS)
    ensures r.files == fs.files && r.psr4 == fs.psr4 && fs.dirs <= r.dirs
    ensures fs.Valid() ==> r.Valid()
  {
    var s1 := fs.MakeDirectoriesUnder(mp + "/app", AppDirectories);
    var s2 := Optional(s1, answers.events, EventsDirectory(mp));
    var s3 := Optional(s2, answers.listeners, ListenersDirectory(mp));
    var s4 := s3.MakeDirectoriesUnder(mp + "/app/Http", HttpDirectories);
    Optional(s4, answers.middleware, MiddlewareDirectory(mp))
  }

  /** The skeleton holds the module's directory and its six top-level directories. */
  lemma SkeletonMakes(fs: FS, mp: string)
    ensures mp in Skeleton(fs, mp).dirs
    ensures forall d :: d in Under(mp, CodeDirectories) ==> d in Skeleton(fs, mp).dirs
  {
    UnderMade(fs.MakeDirectory(mp), mp, CodeDirectories);
  }

  /** The domain layout holds every fixed directory of the database, domain and tests trees. */
  lemma DomainLayoutMakes(fs: FS, mp: string, processes: string)
    ensures forall d :: d in DomainFixed(mp) ==> d in DomainLayout(fs, mp, processes).dirs
  {
    var s1 := fs.MakeDirectoriesUnder(mp + "/database", DatabaseDirectories);
    var s2 := s1.MakeDirectoriesUnder(mp + "/domain", DomainDirectories);
    var s3 := s2.MakeDirectoriesUnder(mp + "/tests", TestDirectories);
    UnderMade(fs, mp + "/database", DatabaseDirectories);
    UnderMade(s1, mp + "/domain", DomainDirectories);
    UnderMade(s2, mp + "/tests", TestDirectories);
    InThree(Under(mp + "/database", DatabaseDirectories), Under(mp + "/domain", DomainDirectories),
            Under(mp + "/tests", TestDirectories), DomainLayout(fs, mp, processes).dirs);
  }

  /** The app layout holds every fixed directory of the app tree. */
  lemma AppLayoutMakes(fs: FS, mp: string, answers: Answers)
    ensures forall d :: d in AppFixed(mp) ==> d in AppLayout(fs, mp, answers).dirs
  {
    var s1 := fs.MakeDirectoriesUnder(mp + "/app", AppDirectories);
    var s3 := Optional(Optional(s1, answers.events, EventsDirectory(mp)), answers.listeners, ListenersDirectory(mp));
    UnderMade(fs, mp + "/app", AppDirectories);
    UnderMade(s3, mp + "/app/Http", HttpDirectories);
    InTwo(Under(mp + "/app", AppDirectories), Under(mp + "/app/Http", HttpDirectories), AppLayout(fs, mp, answers).dirs);
  }

  /** One `foreach` of recursive `mkdir`s leaves each of its directories in place. */
  lemma UnderMade(fs: FS, base: string, names: seq<string>)
    ensures forall d :: d in Under(base, names) ==> d in fs.MakeDirectoriesUnder(base, names).dirs
  {
    var r := fs.MakeDirectoriesUnder(base, names);
    fs.MadeUnder(base, names);
    forall d | d in Under(base, names) ensures d in r.dirs {
      var k :| 0 <= k < |names| && Under(base, names)[k] == d;
    }
  }

  /** Membership of two joined lists, one list at a time. */
  lemma InTwo(a: seq<string>, b: seq<string>, dirs: set<string>)
    requires (forall d :: d in a ==> d in dirs) && (forall d :: d in b ==> d in dirs)
    ensures forall d :: d in a + b ==> d in dirs
  {
  }

  /** Membership of three joined lists, one list at a time. */
  lemma InThree(a: seq<string>, b: seq<string>, c: seq<string>, dirs: set<string>)
    requires (forall d :: d in a ==> d in dirs) && (forall d :: d in b ==> d in dirs) && (forall d :: d in c ==> d in dirs)
    ensures forall d :: d in a + b + c ==> d in dirs
  {
  }

  /**
    The bootstrap edit: `File::get`'s exception when bootstrap/app.php is no
    file, exit code 1 when it has no `withProviders([`, otherwise the entry
    inserted and 0.
  */
  function RegisterModuleProvider(fs: FS, moduleName: string): (FS, Outcome)
  {
    if BootstrapPath !in fs.files then (fs, Raised(FileNotFound(BootstrapPath)))
    else
      match RegisterProvider(fs.files[BootstrapPath], ProviderEntry(moduleName))
      case None => (fs, Returned(1))
      case Some(text) => (fs.Put(BootstrapPath, text), Returned(0))
  }

  /** The state once the directories, the base files and the autoload entries are in place. */
  function Prepared(s: FS, mp: string, moduleName: string, answers: Answers, development: bool): FS
  {
    AppLayout(Autoload(DomainLayout(s, mp, answers.processes), moduleName, development), mp, answers)
  }

  /** `handle`, with the prompts' answers, the environment and the stubs' text as parameters. */
  function Run(fs: FS, moduleName: string, answers: Answers, development: bool, stubs: Stubs): (FS, Outcome)
  {
    var mp := ModulePath(moduleName);
    if fs.Exists(mp) then (fs, Returned(1))
    else
      var (s1, written) := WriteBaseFiles(Skeleton(fs, mp), mp, stubs);
      if !written then (s1, Returned(1))
      else
        var (s2, configured) := WriteProviders(Prepared(s1, mp, moduleName, answers, development), mp, moduleName, stubs);
        if !configured then (s2, Returned(1))
        else if development then RegisterModuleProvider(s2, moduleName)
        else (s2, Returned(0))
  }

  // ---------------------------------------------------------------- on the disk

  /** The three blocks of the config and route files, each returning on an unreadable stub. */
  method WriteBaseFilesOn(disk: Disk, mp: string, stubs: Stubs) returns (written: bool)
    modifies disk
    ensures (disk.State(), written) == WriteBaseFiles(old(disk.State()), mp, stubs)
  {
    if stubs.config.None? {
      return false;
    }
    disk.Put(ConfigPath(mp), stubs.config.value);
    if stubs.routeWeb.None? {
      return false;
    }
    disk.Put(WebRoutePath(mp), stubs.routeWeb.value);
    if stubs.routeApi.None? {
      return false;
    }
    disk.Put(ApiRoutePath(mp), stubs.routeApi.value);
    written := true;
  }

  /** The three `configureStub` calls, each after the check of its stub. */
  method WriteProvidersOn(disk: Disk, mp: string, moduleName: string, stubs: Stubs) returns (configured: bool)
    modifies disk
    ensures (disk.State(), configured) == WriteProviders(old(disk.State()), mp, moduleName, stubs)
  {
    if stubs.routeProvider.None? {
      return false;
    }
    disk.Put(RouteProviderPath(mp), ProviderContent(stubs.routeProvider, moduleName, "RouteServiceProvider").value);
    if stubs.eventProvider.None? {
      return false;
    }
    disk.Put(EventProviderPath(mp), ProviderContent(stubs.eventProvider, moduleName, "EventServiceProvider").value);
    if stubs.moduleProvider.None? {
      return false;
    }
    disk.Put(ModuleProviderPath(mp, moduleName),
             ProviderContent(stubs.moduleProvider, moduleName, moduleName + "ServiceProvider").value);
    configured := true;
  }

  method OptionalOn(disk: Disk, answer: string, d: string)
    modifies disk
    ensures disk.State() == Optional(old(disk.State()), answer, d)
  {
    if answer == "yes" {
      disk.MakeDirectory(d);
    }
  }

  /** The directories, and the composer.json edit, between the route files and the providers. */
  method PrepareOn(disk: Disk, mp: string, moduleName: string, answers: Answers, development: bool)
    modifies disk
    ensures disk.State() == Prepared(old(disk.State()), mp, moduleName, answers, development)
  {
    disk.MakeDirectoriesUnder(mp + "/database", DatabaseDirectories);
    disk.MakeDirectoriesUnder(mp + "/domain", DomainDirectories);
    disk.MakeDirectoriesUnder(mp + "/tests", TestDirectories);
    OptionalOn(disk, answers.processes, ProcessesDirectory(mp));
    if development {
      disk.SetPsr4(RegisterAutoload(disk.psr4, moduleName));
    }
    disk.MakeDirectoriesUnder(mp + "/app", AppDirectories);
    OptionalOn(disk, answers.events, EventsDirectory(mp));
    OptionalOn(disk, answers.listeners, ListenersDirectory(mp));
    disk.MakeDirectoriesUnder(mp + "/app/Http", HttpDirectories);
    OptionalOn(disk, answers.middleware, MiddlewareDirectory(mp));
  }

  method RegisterModuleProviderOn(disk: Disk, moduleName: string) returns (out: Outcome)
    modifies disk
    ensures (disk.State(), out) == RegisterModuleProvider(old(disk.State()), moduleName)
  {
    var content := disk.Get(BootstrapPath);
    if content.None? {
      return Raised(FileNotFound(BootstrapPath));
    }
    var registered := RegisterProvider(content.value, ProviderEntry(moduleName));
    if registered.None? {
      return Returned(1);
    }
    disk.Put(BootstrapPath, registered.value);
    out := Returned(0);
  }

  method Handle(disk: Disk, moduleName: string, answers: Answers, development: bool, stubs: Stubs) returns (out: Outcome)
    modifies disk
    ensures (disk.State(), out) == Run(old(disk.State()), moduleName, answers, development, stubs)
  {
    var mp := ModulePath(moduleName);
    if disk.Exists(mp) {
      return Returned(1);
    }
    disk.MakeDirectory(mp);
    disk.MakeDirectoriesUnder(mp, CodeDirectories);
    var written := WriteBaseFilesOn(disk, mp, stubs);
    if !written {
      return Returned(1);
    }
    PrepareOn(disk, mp, moduleName, answers, development);
    var configured := WriteProvidersOn(disk, mp, moduleName, stubs);
    if !configured {
      return Returned(1);
    }
    if development {
      out := RegisterModuleProviderOn(disk, moduleName);
    } else {
      out := Returned(0);
    }
  }

  // ---------------------------------------------------------------- what a run does

  /** Every path the command writes lies inside the module, away from bootstrap/app.php. */
  lemma NotTheBootstrap(mp: string, moduleName: string)
    requires |mp| > 0 && mp[0] == 'm'
    ensures BootstrapPath !in Targets(mp, moduleName)
  {
    assert ConfigPath(mp)[0] == 'm' && WebRoutePath(mp)[0] == 'm' && ApiRoutePath(mp)[0] == 'm';
    assert RouteProviderPath(mp)[0] == 'm' && EventProviderPath(mp)[0] == 'm' && ModuleProviderPath(mp, moduleName)[0] == 'm';
  }

  /** The module's own provider is the route or the event provider exactly when the module is named `Route` or `Event`. */
  lemma ProviderCollisions(mp: string, moduleName: string)
    ensures ModuleProviderPath(mp, moduleName) == RouteProviderPath(mp) <==> moduleName == "Route"
    ensures ModuleProviderPath(mp, moduleName) == EventProviderPath(mp) <==> moduleName == "Event"
    ensures RouteProviderPath(mp) != EventProviderPath(mp)
  {
    assert "Route" + "ServiceProvider" == "RouteServiceProvider";
    assert "Event" + "ServiceProvider" == "EventServiceProvider";
    assert ModuleProviderPath(mp, moduleName) == RouteProviderPath(mp) <==> moduleName == "Route" by {
      ProviderClassCollision(mp, moduleName, "Route");
    }
    assert ModuleProviderPath(mp, moduleName) == EventProviderPath(mp) <==> moduleName == "Event" by {
      ProviderClassCollision(mp, moduleName, "Event");
    }
    assert RouteProviderPath(mp) != EventProviderPath(mp) by {
      ProviderFileInjective(mp, "RouteServiceProvider", "EventServiceProvider");
      assert "RouteServiceProvider"[0] != "EventServiceProvider"[0];
    }
  }

  /** The module's provider is the provider of class `stem` exactly when the module is named `stem`. */
  lemma ProviderClassCollision(mp: string, moduleName: string, stem: string)
    ensures ModuleProviderPath(mp, moduleName) == ProviderFile(mp, stem + "ServiceProvider") <==> moduleName == stem
  {
    ProviderFileInjective(mp, moduleName + "ServiceProvider", stem + "ServiceProvider");
    SameStem(moduleName, stem, "ServiceProvider");
  }

  /** Distinct provider classes have distinct files. */
  lemma ProviderFileInjective(mp: string, a: string, b: string)
    ensures ProviderFile(mp, a) == ProviderFile(mp, b) <==> a == b
  {
    var head := mp + "/app/Providers/";
    if ProviderFile(mp, a) == ProviderFile(mp, b) {
      assert |a| == |b|;
      assert a == ProviderFile(mp, a)[|head|..|head| + |a|];
      assert b == ProviderFile(mp, b)[|head|..|head| + |b|];
    }
  }

  lemma SameStem(a: string, b: string, tail: string)
    ensures a + tail == b + tail <==> a == b
  {
    if a + tail == b + tail {
      assert |a| == |b|;
      assert a == (a + tail)[..|a|];
      assert b == (b + tail)[..|b|];
    }
  }

  /** The config and route files: written exactly when their three stubs read, with only the files changing. */
  lemma BaseStage(fs: FS, mp: string, stubs: Stubs)
    ensures var (s, ok) := WriteBaseFiles(fs, mp, stubs);
      && s.dirs == fs.dirs && s.psr4 == fs.psr4
      && (ok <==> stubs.config.Some? && stubs.routeWeb.Some? && stubs.routeApi.Some?)
      && (ok ==> && {ConfigPath(mp), WebRoutePath(mp), ApiRoutePath(mp)} <= s.files.Keys
                 && s.files[ConfigPath(mp)] == stubs.config.value
                 && s.files[WebRoutePath(mp)] == stubs.routeWeb.value
                 && s.files[ApiRoutePath(mp)] == stubs.routeApi.value)
  {
    BaseFilesDistinct(mp);
  }

  /** Writing the config and route files removes no file, and touches none at another path. */
  lemma BaseKeeps(fs: FS, mp: string, stubs: Stubs, q: string)
    ensures var s := WriteBaseFiles(fs, mp, stubs).0;
      && (q in fs.files ==> q in s.files)
      && (q !in {ConfigPath(mp), WebRoutePath(mp), ApiRoutePath(mp)} ==>
            (q in s.files <==> q in fs.files) && (q in fs.files ==> s.files[q] == fs.files[q]))
  {
  }

  lemma BaseFilesDistinct(mp: string)
    ensures ConfigPath(mp) != WebRoutePath(mp) && ConfigPath(mp) != ApiRoutePath(mp) && WebRoutePath(mp) != ApiRoutePath(mp)
  {
    assert ConfigPath(mp)[|mp| + 1] == 'c' && WebRoutePath(mp)[|mp| + 1] == 'r';
    assert WebRoutePath(mp)[|mp| + 8] == 'w' && ApiRoutePath(mp)[|mp| + 8] == 'a';
  }

  /**
    The providers: written exactly when their three stubs read, with only
    the files changing. The module's own provider is written last, so a
    module named `Route` or `Event` has it in place of that provider.
  */
  lemma ProviderStage(fs: FS, mp: string, moduleName: string, stubs: Stubs)
    ensures var (s, ok) := WriteProviders(fs, mp, moduleName, stubs);
      && s.dirs == fs.dirs && s.psr4 == fs.psr4
      && (ok <==> stubs.routeProvider.Some? && stubs.eventProvider.Some? && stubs.moduleProvider.Some?)
      && (ok ==>
            && {RouteProviderPath(mp), EventProviderPath(mp), ModuleProviderPath(mp, moduleName)} <= s.files.Keys
            && s.files[ModuleProviderPath(mp, moduleName)]
               == ProviderContent(stubs.moduleProvider, moduleName, moduleName + "ServiceProvider").value
            && (moduleName != "Route" ==>
                  s.files[RouteProviderPath(mp)] == ProviderContent(stubs.routeProvider, moduleName, "RouteServiceProvider").value)
            && (moduleName != "Event" ==>
                  s.files[EventProviderPath(mp)] == ProviderContent(stubs.eventProvider, moduleName, "EventServiceProvider").value))
  {
    ProviderCollisions(mp, moduleName);
  }

  /** Writing the providers removes no file, and touches none at another path. */
  lemma ProviderKeeps(fs: FS, mp: string, moduleName: string, stubs: Stubs, q: string)
    ensures var s := WriteProviders(fs, mp, moduleName, stubs).0;
      && (q in fs.files ==> q in s.files)
      && (q !in {RouteProviderPath(mp), EventProviderPath(mp), ModuleProviderPath(mp, moduleName)} ==>
            (q in s.files <==> q in fs.files) && (q in fs.files ==> s.files[q] == fs.files[q]))
  {
  }

  /** Writing the providers leaves the config and route files as they were. */
  lemma ProvidersKeepBase(fs: FS, mp: string, moduleName: string, stubs: Stubs)
    ensures var s := WriteProviders(fs, mp, moduleName, stubs).0;
      forall q | q in {ConfigPath(mp), WebRoutePath(mp), ApiRoutePath(mp)} && q in fs.files ::
        q in s.files && s.files[q] == fs.files[q]
  {
    BaseFilesNotProviders(mp, moduleName);
  }

  /** Writing the config and route files leaves bootstrap/app.php as it was. */
  lemma BaseKeepsBootstrap(fs: FS, mp: string, stubs: Stubs)
    requires |mp| > 0 && mp[0] == 'm'
    ensures var s := WriteBaseFiles(fs, mp, stubs).0;
      && (BootstrapPath in s.files <==> BootstrapPath in fs.files)
      && (BootstrapPath in fs.files ==> s.files[BootstrapPath] == fs.files[BootstrapPath])
  {
    assert ConfigPath(mp)[0] == 'm' && WebRoutePath(mp)[0] == 'm' && ApiRoutePath(mp)[0] == 'm';
  }

  /** Writing the providers leaves bootstrap/app.php as it was. */
  lemma ProvidersKeepBootstrap(fs: FS, mp: string, moduleName: string, stubs: Stubs)
    requires |mp| > 0 && mp[0] == 'm'
    ensures var s := WriteProviders(fs, mp, moduleName, stubs).0;
      && (BootstrapPath in s.files <==> BootstrapPath in fs.files)
      && (BootstrapPath in fs.files ==> s.files[BootstrapPath] == fs.files[BootstrapPath])
  {
    assert RouteProviderPath(mp)[0] == 'm' && EventProviderPath(mp)[0] == 'm' && ModuleProviderPath(mp, moduleName)[0] == 'm';
  }

  /** Up to the bootstrap edit, bootstrap/app.php is as it was. */
  lemma BootstrapKept(fs: FS, moduleName: string, answers: Answers, development: bool, stubs: Stubs)
    ensures var mp := ModulePath(moduleName);
      var s1 := WriteBaseFiles(Skeleton(fs, mp), mp, stubs).0;
      var s3 := WriteProviders(Prepared(s1, mp, moduleName, answers, development), mp, moduleName, stubs).0;
      && (BootstrapPath in s1.files <==> BootstrapPath in fs.files)
      && (BootstrapPath in fs.files ==> s1.files[BootstrapPath] == fs.files[BootstrapPath])
      && (BootstrapPath in s3.files <==> BootstrapPath in fs.files)
      && (BootstrapPath in fs.files ==> s3.files[BootstrapPath] == fs.files[BootstrapPath])
  {
    var mp := ModulePath(moduleName);
    var sk := Skeleton(fs, mp);
    BaseKeepsBootstrap(sk, mp, stubs);
    var s1 := WriteBaseFiles(sk, mp, stubs).0;
    PreparedFiles(s1, mp, moduleName, answers, development);
    ProvidersKeepBootstrap(Prepared(s1, mp, moduleName, answers, development), mp, moduleName, stubs);
  }

  /** The bootstrap edit leaves the six files the command writes as they were. */
  lemma RegisterKeepsTargets(fs: FS, moduleName: string)
    ensures var s := RegisterModuleProvider(fs, moduleName).0;
      forall q | q in Targets(ModulePath(moduleName), moduleName) && q in fs.files :: q in s.files && s.files[q] == fs.files[q]
  {
    NotTheBootstrap(ModulePath(moduleName), moduleName);
  }

  /** The bootstrap edit changes at most bootstrap/app.php, and that only when it succeeds. */
  lemma RegisterStage(fs: FS, moduleName: string)
    ensures var (s, out) := RegisterModuleProvider(fs, moduleName);
      var registered := if BootstrapPath in fs.files then RegisterProvider(fs.files[BootstrapPath], ProviderEntry(moduleName)) else None;
      && s.dirs == fs.dirs && s.psr4 == fs.psr4 && s.files.Keys == fs.files.Keys
      && (forall q :: q in fs.files && q != BootstrapPath ==> s.files[q] == fs.files[q])
      && (out == Raised(FileNotFound(BootstrapPath)) <==> BootstrapPath !in fs.files)
      && (out == Returned(1) <==> BootstrapPath in fs.files && registered.None?)
      && (out == Returned(0) <==> registered.Some?)
      && (out == Returned(0) ==> s.files[BootstrapPath] == registered.value)
      && (out != Returned(0) ==> s == fs)
  {
  }

  // ---------------------------------------------------------------- the optional directories

  /** No `mkdir` of a `foreach` under `base` creates `d`. */
  predicate Apart(d: string, base: string, names: seq<string>)
  {
    forall k :: 0 <= k < |names| ==> d !in Chain(base + "/" + names[k])
  }

  /** Such a `foreach` leaves `d` as it was. */
  lemma UnderKeeps(fs: FS, base: string, names: seq<string>, d: string)
    requires Apart(d, base, names)
    ensures d in fs.MakeDirectoriesUnder(base, names).dirs <==> d in fs.dirs
  {
    fs.MadeUnder(base, names);
  }

  /** An optional directory whose `mkdir` does not create `d` leaves `d` as it was. */
  lemma OptionalKeeps(fs: FS, answer: string, o: string, d: string)
    requires d !in Chain(o)
    ensures d in Optional(fs, answer, o).dirs <==> d in fs.dirs
  {
  }

  /** Which letters tell the optional directories apart, and from the rest of the module. */
  lemma ProcessesHead(mp: string)
    ensures var d := ProcessesDirectory(mp);
      |d| == |mp| + 17 && d[|mp| + 1] == 'd' && d[|mp| + 2] == 'o' && d[|mp| + 8] == 'P'
  {
  }

  lemma EventsHead(mp: string)
    ensures var d := EventsDirectory(mp);
      |d| == |mp| + 11 && d[|mp| + 1] == 'a' && d[|mp| + 5] == 'E' && d[|mp| + 6] == 'v'
  {
  }

  lemma ListenersHead(mp: string)
    ensures var d := ListenersDirectory(mp);
      |d| == |mp| + 14 && d[|mp| + 1] == 'a' && d[|mp| + 5] == 'L'
  {
  }

  lemma MiddlewareHead(mp: string)
    ensures var d := MiddlewareDirectory(mp);
      |d| == |mp| + 20 && d[|mp| + 1] == 'a' && d[|mp| + 5] == 'H' && d[|mp| + 10] == 'M'
  {
  }

  /** The optional directories lie inside the module, below every top-level directory. */
  lemma SkeletonApart(mp: string, d: string)
    requires d in {ProcessesDirectory(mp), EventsDirectory(mp), ListenersDirectory(mp), MiddlewareDirectory(mp)}
    ensures |d| > |mp| && d[..|mp|] == mp && d[|mp|] == '/'
    ensures d !in Chain(mp) && Apart(d, mp, CodeDirectories)
  {
    NotInChainShorter(d, mp);
    NotUnderShorter(d, mp, CodeDirectories);
  }

  /** The domain layout's `mkdir`s create no optional directory but the process manager's. */
  lemma DomainApart(mp: string)
    ensures var p := ProcessesDirectory(mp);
      && Apart(p, mp + "/database", DatabaseDirectories) && Apart(p, mp + "/domain", DomainDirectories)
      && Apart(p, mp + "/tests", TestDirectories)
    ensures forall d | d in {EventsDirectory(mp), ListenersDirectory(mp), MiddlewareDirectory(mp)} ::
      && Apart(d, mp + "/database", DatabaseDirectories) && Apart(d, mp + "/domain", DomainDirectories)
      && Apart(d, mp + "/tests", TestDirectories) && d !in Chain(ProcessesDirectory(mp))
  {
    var p := ProcessesDirectory(mp);
    ProcessesHead(mp);
    NotUnderBase(p, mp + "/database", DatabaseDirectories, |mp| + 2);
    NotUnderNamesAt(p, mp + "/domain", DomainDirectories, 0);
    NotUnderBase(p, mp + "/tests", TestDirectories, |mp| + 1);
    EventsHead(mp);
    ListenersHead(mp);
    MiddlewareHead(mp);
    forall d | d in {EventsDirectory(mp), ListenersDirectory(mp), MiddlewareDirectory(mp)}
      ensures && Apart(d, mp + "/database", DatabaseDirectories) && Apart(d, mp + "/domain", DomainDirectories)
              && Apart(d, mp + "/tests", TestDirectories) && d !in Chain(p)
    {
      NotUnderBase(d, mp + "/database", DatabaseDirectories, |mp| + 1);
      NotUnderBase(d, mp + "/domain", DomainDirectories, |mp| + 1);
      NotUnderBase(d, mp + "/tests", TestDirectories, |mp| + 1);
      NotInChainAt(d, p, |mp| + 1);
    }
  }

  /** The app layout's `mkdir`s of fixed directories create no optional directory. */
  lemma AppApart(mp: string)
    ensures forall d | d in {ProcessesDirectory(mp), EventsDirectory(mp), ListenersDirectory(mp), MiddlewareDirectory(mp)} ::
      Apart(d, mp + "/app", AppDirectories) && Apart(d, mp + "/app/Http", HttpDirectories)
  {
    AppApartEarly(mp);
    AppApartLate(mp);
  }

  lemma AppApartEarly(mp: string)
    ensures var p, e := ProcessesDirectory(mp), EventsDirectory(mp);
      && Apart(p, mp + "/app", AppDirectories) && Apart(p, mp + "/app/Http", HttpDirectories)
      && Apart(e, mp + "/app", AppDirectories) && Apart(e, mp + "/app/Http", HttpDirectories)
  {
    var p, e := ProcessesDirectory(mp), EventsDirectory(mp);
    ProcessesHead(mp);
    EventsHead(mp);
    NotUnderBase(p, mp + "/app", AppDirectories, |mp| + 1);
    NotUnderBase(p, mp + "/app/Http", HttpDirectories, |mp| + 1);
    NotUnderNamesAt(e, mp + "/app", AppDirectories, 1);
    NotUnderBase(e, mp + "/app/Http", HttpDirectories, |mp| + 5);
  }

  lemma AppApartLate(mp: string)
    ensures var l, m := ListenersDirectory(mp), MiddlewareDirectory(mp);
      && Apart(l, mp + "/app", AppDirectories) && Apart(l, mp + "/app/Http", HttpDirectories)
      && Apart(m, mp + "/app", AppDirectories) && Apart(m, mp + "/app/Http", HttpDirectories)
  {
    ListenersApart(mp);
    MiddlewareApart(mp);
  }

  lemma ListenersApart(mp: string)
    ensures Apart(ListenersDirectory(mp), mp + "/app", AppDirectories)
    ensures Apart(ListenersDirectory(mp), mp + "/app/Http", HttpDirectories)
  {
    ListenersHead(mp);
    NotUnderNamesAt(ListenersDirectory(mp), mp + "/app", AppDirectories, 0);
    NotUnderBase(ListenersDirectory(mp), mp + "/app/Http", HttpDirectories, |mp| + 5);
  }

  lemma MiddlewareApart(mp: string)
    ensures Apart(MiddlewareDirectory(mp), mp + "/app", AppDirectories)
    ensures Apart(MiddlewareDirectory(mp), mp + "/app/Http", HttpDirectories)
  {
    MiddlewareHead(mp);
    NotUnderShorter(MiddlewareDirectory(mp), mp + "/app", AppDirectories);
    NotUnderNamesAt(MiddlewareDirectory(mp), mp + "/app/Http", HttpDirectories, 0);
  }

  /** The app layout's optional `mkdir`s create no other optional directory. */
  lemma AppOptionalApart(mp: string)
    ensures var p, e, l, m := ProcessesDirectory(mp), EventsDirectory(mp), ListenersDirectory(mp), MiddlewareDirectory(mp);
      && p !in Chain(e) && p !in Chain(l) && p !in Chain(m)
      && e !in Chain(l) && e !in Chain(m) && l !in Chain(e) && l !in Chain(m) && m !in Chain(e) && m !in Chain(l)
  {
    var p, e, l, m := ProcessesDirectory(mp), EventsDirectory(mp), ListenersDirectory(mp), MiddlewareDirectory(mp);
    ProcessesHead(mp);
    EventsHead(mp);
    ListenersHead(mp);
    MiddlewareHead(mp);
    NotInChainAt(p, e, |mp| + 1);
    NotInChainAt(p, l, |mp| + 1);
    NotInChainAt(p, m, |mp| + 1);
    NotInChainAt(e, l, |mp| + 5);
    NotInChainAt(e, m, |mp| + 5);
    NotInChainAt(l, e, |mp| + 5);
    NotInChainAt(l, m, |mp| + 5);
    NotInChainAt(m, e, |mp| + 5);
    NotInChainAt(m, l, |mp| + 5);
  }

  /** A fresh module's skeleton holds none of the four optional directories. */
  lemma SkeletonOptional(fs: FS, mp: string)
    requires fs.Valid() && !fs.Exists(mp) && |mp| > 0
    ensures var r := Skeleton(fs, mp);
      && ProcessesDirectory(mp) !in r.dirs && EventsDirectory(mp) !in r.dirs
      && ListenersDirectory(mp) !in r.dirs && MiddlewareDirectory(mp) !in r.dirs
  {
    forall d | d in {ProcessesDirectory(mp), EventsDirectory(mp), ListenersDirectory(mp), MiddlewareDirectory(mp)}
      ensures d !in Skeleton(fs, mp).dirs
    {
      SkeletonApart(mp, d);
      fs.NothingInside(mp, d);
      UnderKeeps(fs.MakeDirectory(mp), mp, CodeDirectories, d);
    }
  }

  /** The domain layout makes the process manager's directory on `yes` and none of the other three. */
  lemma DomainLayoutOptional(fs: FS, mp: string, processes: string)
    ensures var r := DomainLayout(fs, mp, processes);
      && (ProcessesDirectory(mp) in r.dirs <==> ProcessesDirectory(mp) in fs.dirs || processes == "yes")
      && (EventsDirectory(mp) in r.dirs <==> EventsDirectory(mp) in fs.dirs)
      && (ListenersDirectory(mp) in r.dirs <==> ListenersDirectory(mp) in fs.dirs)
      && (MiddlewareDirectory(mp) in r.dirs <==> MiddlewareDirectory(mp) in fs.dirs)
  {
    var p := ProcessesDirectory(mp);
    var s1 := fs.MakeDirectoriesUnder(mp + "/database", DatabaseDirectories);
    var s2 := s1.MakeDirectoriesUnder(mp + "/domain", DomainDirectories);
    var s3 := s2.MakeDirectoriesUnder(mp + "/tests", TestDirectories);
    DomainApart(mp);
    forall d | d in {p, EventsDirectory(mp), ListenersDirectory(mp), MiddlewareDirectory(mp)}
      ensures d in s3.dirs <==> d in fs.dirs
    {
      UnderKeeps(fs, mp + "/database", DatabaseDirectories, d);
      UnderKeeps(s1, mp + "/domain", DomainDirectories, d);
      UnderKeeps(s2, mp + "/tests", TestDirectories, d);
    }
    forall d | d in {EventsDirectory(mp), ListenersDirectory(mp), MiddlewareDirectory(mp)}
      ensures d in Optional(s3, processes, p).dirs <==> d in fs.dirs
    {
      OptionalKeeps(s3, processes, p, d);
    }
  }

  /** The app layout makes the events, listeners and middleware directories each on its own `yes`. */
  lemma AppLayoutOptional(fs: FS, mp: string, answers: Answers)
    ensures var r := AppLayout(fs, mp, answers);
      && (ProcessesDirectory(mp) in r.dirs <==> ProcessesDirectory(mp) in fs.dirs)
      && (EventsDirectory(mp) in r.dirs <==> EventsDirectory(mp) in fs.dirs || answers.events == "yes")
      && (ListenersDirectory(mp) in r.dirs <==> ListenersDirectory(mp) in fs.dirs || answers.listeners == "yes")
      && (MiddlewareDirectory(mp) in r.dirs <==> MiddlewareDirectory(mp) in fs.dirs || answers.middleware == "yes")
  {
    var p, e, l, m := ProcessesDirectory(mp), EventsDirectory(mp), ListenersDirectory(mp), MiddlewareDirectory(mp);
    var s1 := fs.MakeDirectoriesUnder(mp + "/app", AppDirectories);
    var s2 := Optional(s1, answers.events, e);
    var s3 := Optional(s2, answers.listeners, l);
    var s4 := s3.MakeDirectoriesUnder(mp + "/app/Http", HttpDirectories);
    AppApart(mp);
    AppOptionalApart(mp);
    forall d | d in {p, e, l, m} ensures d in s1.dirs <==> d in fs.dirs {
      UnderKeeps(fs, mp + "/app", AppDirectories, d);
    }
    forall d | d in {p, e, l, m} ensures d in s4.dirs <==> d in s3.dirs {
      UnderKeeps(s3, mp + "/app/Http", HttpDirectories, d);
    }
    OptionalKeeps(s1, answers.events, e, p);
    OptionalKeeps(s1, answers.events, e, l);
    OptionalKeeps(s1, answers.events, e, m);
    OptionalKeeps(s2, answers.listeners, l, p);
    OptionalKeeps(s2, answers.listeners, l, e);
    OptionalKeeps(s2, answers.listeners, l, m);
    OptionalKeeps(s4, answers.middleware, m, p);
    OptionalKeeps(s4, answers.middleware, m, e);
    OptionalKeeps(s4, answers.middleware, m, l);
  }

  // ---------------------------------------------------------------- the command

  /** Between the route files and the providers no file changes. */
  lemma PreparedFiles(s: FS, mp: string, moduleName: string, answers: Answers, development: bool)
    ensures Prepared(s, mp, moduleName, answers, development).files == s.files
  {
  }

  /** Between the route files and the providers the PSR-4 section gains the module's entries in the development environment, and no directory disappears. */
  lemma PreparedFrame(s: FS, mp: string, moduleName: string, answers: Answers, development: bool)
    ensures var r := Prepared(s, mp, moduleName, answers, development);
      && r.files == s.files && s.dirs <= r.dirs
      && r.psr4 == (if development then RegisterAutoload(s.psr4, moduleName) else s.psr4)
      && (s.Valid() ==> r.Valid())
  {
  }

  /** Every fixed directory of the database, domain, tests and app trees is in place before the providers. */
  lemma PreparedMakes(s: FS, mp: string, moduleName: string, answers: Answers, development: bool)
    ensures var r := Prepared(s, mp, moduleName, answers, development);
      && (forall d :: d in DomainFixed(mp) ==> d in r.dirs)
      && (forall d :: d in AppFixed(mp) ==> d in r.dirs)
  {
    DomainLayoutMakes(s, mp, answers.processes);
    AppLayoutMakes(Autoload(DomainLayout(s, mp, answers.processes), moduleName, development), mp, answers);
  }

  /** An optional directory that was absent is in place before the providers exactly when its answer is `yes`. */
  lemma PreparedOptional(s: FS, mp: string, moduleName: string, answers: Answers, development: bool)
    requires ProcessesDirectory(mp) !in s.dirs && EventsDirectory(mp) !in s.dirs
    requires ListenersDirectory(mp) !in s.dirs && MiddlewareDirectory(mp) !in s.dirs
    ensures var r := Prepared(s, mp, moduleName, answers, development);
      && (ProcessesDirectory(mp) in r.dirs <==> answers.processes == "yes")
      && (EventsDirectory(mp) in r.dirs <==> answers.events == "yes")
      && (ListenersDirectory(mp) in r.dirs <==> answers.listeners == "yes")
      && (MiddlewareDirectory(mp) in r.dirs <==> answers.middleware == "yes")
  {
    DomainLayoutOptional(s, mp, answers.processes);
    AppLayoutOptional(Autoload(DomainLayout(s, mp, answers.processes), moduleName, development), mp, answers);
  }

  /** The config and route files are not among the providers. */
  lemma BaseFilesNotProviders(mp: string, moduleName: string)
    ensures ConfigPath(mp) !in {RouteProviderPath(mp), EventProviderPath(mp), ModuleProviderPath(mp, moduleName)}
    ensures WebRoutePath(mp) !in {RouteProviderPath(mp), EventProviderPath(mp), ModuleProviderPath(mp, moduleName)}
    ensures ApiRoutePath(mp) !in {RouteProviderPath(mp), EventProviderPath(mp), ModuleProviderPath(mp, moduleName)}
  {
    assert ConfigPath(mp)[|mp| + 1] == 'c' && WebRoutePath(mp)[|mp| + 1] == 'r' && ApiRoutePath(mp)[|mp| + 1] == 'r';
    ProviderFileAt(mp, "RouteServiceProvider");
    ProviderFileAt(mp, "EventServiceProvider");
    ProviderFileAt(mp, moduleName + "ServiceProvider");
  }

  lemma ProviderFileAt(mp: string, className: string)
    ensures |ProviderFile(mp, className)| > |mp| + 1 && ProviderFile(mp, className)[|mp| + 1] == 'a'
  {
    assert ProviderFile(mp, className) == mp + "/app/Providers/" + (className + ".php");
  }

  /**
    The command's outcome: exit code 1 and nothing done when the module
    exists; otherwise exit code 1 when a stub is unreadable or, in the
    development environment, bootstrap/app.php has no `withProviders([`;
    `File::get`'s exception when that file is missing; 0 otherwise.
  */
  lemma RunOutcome(fs: FS, moduleName: string, answers: Answers, development: bool, stubs: Stubs)
    ensures var (s, out) := Run(fs, moduleName, answers, development, stubs);
      var mp := ModulePath(moduleName);
      var registrable := BootstrapPath in fs.files && RegisterProvider(fs.files[BootstrapPath], ProviderEntry(moduleName)).Some?;
      && (fs.Exists(mp) ==> s == fs && out == Returned(1))
      && (out == Returned(0) <==> !fs.Exists(mp) && Readable(stubs) && (development ==> registrable))
      && (out == Raised(FileNotFound(BootstrapPath)) <==>
            !fs.Exists(mp) && Readable(stubs) && development && BootstrapPath !in fs.files)
      && (out == Returned(1) <==>
            fs.Exists(mp) || !Readable(stubs) || (development && BootstrapPath in fs.files && !registrable))
  {
    var mp := ModulePath(moduleName);
    if !fs.Exists(mp) {
      BootstrapKept(fs, moduleName, answers, development, stubs);
      var sk := Skeleton(fs, mp);
      BaseStage(sk, mp, stubs);
      var s2 := Prepared(WriteBaseFiles(sk, mp, stubs).0, mp, moduleName, answers, development);
      ProviderStage(s2, mp, moduleName, stubs);
      RegisterStage(WriteProviders(s2, mp, moduleName, stubs).0, moduleName);
    }
  }

  /**
    What else a run changes: the PSR-4 section gains the module's entries
    once the route files are written, in the development environment only;
    no directory disappears and a disk closed under parents stays so.
  */
  lemma RunFrame(fs: FS, moduleName: string, answers: Answers, development: bool, stubs: Stubs)
    ensures var (s, out) := Run(fs, moduleName, answers, development, stubs);
      var mp := ModulePath(moduleName);
      && s.psr4 == (if !fs.Exists(mp) && development && stubs.config.Some? && stubs.routeWeb.Some? && stubs.routeApi.Some?
                    then RegisterAutoload(fs.psr4, moduleName) else fs.psr4)
      && fs.dirs <= s.dirs
      && (fs.Valid() ==> s.Valid())
  {
    var mp := ModulePath(moduleName);
    if !fs.Exists(mp) {
      var sk := Skeleton(fs, mp);
      BaseStage(sk, mp, stubs);
      var s1 := WriteBaseFiles(sk, mp, stubs).0;
      PreparedFrame(s1, mp, moduleName, answers, development);
      var s2 := Prepared(s1, mp, moduleName, answers, development);
      ProviderStage(s2, mp, moduleName, stubs);
      RegisterStage(WriteProviders(s2, mp, moduleName, stubs).0, moduleName);
    }
  }

  /** A run that gets past the module check leaves the module's directory and its six top-level directories. */
  lemma RunSkeleton(fs: FS, moduleName: string, answers: Answers, development: bool, stubs: Stubs)
    ensures var s := Run(fs, moduleName, answers, development, stubs).0;
      var mp := ModulePath(moduleName);
      !fs.Exists(mp) ==> mp in s.dirs && forall d :: d in Under(mp, CodeDirectories) ==> d in s.dirs
  {
    var mp := ModulePath(moduleName);
    if !fs.Exists(mp) {
      var sk := Skeleton(fs, mp);
      SkeletonMakes(fs, mp);
      BaseStage(sk, mp, stubs);
      var s1 := WriteBaseFiles(sk, mp, stubs).0;
      PreparedFrame(s1, mp, moduleName, answers, development);
      var s2 := Prepared(s1, mp, moduleName, answers, development);
      ProviderStage(s2, mp, moduleName, stubs);
      RegisterStage(WriteProviders(s2, mp, moduleName, stubs).0, moduleName);
    }
  }

  /** Once the route files are written, every fixed directory of the module exists. */
  lemma RunLayout(fs: FS, moduleName: string, answers: Answers, development: bool, stubs: Stubs)
    ensures var s := Run(fs, moduleName, answers, development, stubs).0;
      var mp := ModulePath(moduleName);
      !fs.Exists(mp) && stubs.config.Some? && stubs.routeWeb.Some? && stubs.routeApi.Some? ==>
        forall d :: d in FixedDirectories(mp) ==> d in s.dirs
  {
    var mp := ModulePath(moduleName);
    if !fs.Exists(mp) {
      var sk := Skeleton(fs, mp);
      SkeletonMakes(fs, mp);
      BaseStage(sk, mp, stubs);
      var s1 := WriteBaseFiles(sk, mp, stubs).0;
      PreparedMakes(s1, mp, moduleName, answers, development);
      PreparedFrame(s1, mp, moduleName, answers, development);
      var s2 := Prepared(s1, mp, moduleName, answers, development);
      InThree(Under(mp, CodeDirectories), DomainFixed(mp), AppFixed(mp), s2.dirs);
      ProviderStage(s2, mp, moduleName, stubs);
      RegisterStage(WriteProviders(s2, mp, moduleName, stubs).0, moduleName);
    }
  }

  /**
    On a disk whose directories are closed under parents, a run that gets
    past the module check leaves each optional directory exactly when the
    route files are written and its answer is `yes`.
  */
  lemma RunOptional(fs: FS, moduleName: string, answers: Answers, development: bool, stubs: Stubs)
    requires fs.Valid()
    ensures var s := Run(fs, moduleName, answers, development, stubs).0;
      var mp := ModulePath(moduleName);
      var written := stubs.config.Some? && stubs.routeWeb.Some? && stubs.routeApi.Some?;
      !fs.Exists(mp) ==>
        && (ProcessesDirectory(mp) in s.dirs <==> written && answers.processes == "yes")
        && (EventsDirectory(mp) in s.dirs <==> written && answers.events == "yes")
        && (ListenersDirectory(mp) in s.dirs <==> written && answers.listeners == "yes")
        && (MiddlewareDirectory(mp) in s.dirs <==> written && answers.middleware == "yes")
  {
    var mp := ModulePath(moduleName);
    if !fs.Exists(mp) {
      var sk := Skeleton(fs, mp);
      SkeletonOptional(fs, mp);
      BaseStage(sk, mp, stubs);
      var s1 := WriteBaseFiles(sk, mp, stubs).0;
      PreparedOptional(s1, mp, moduleName, answers, development);
      var s2 := Prepared(s1, mp, moduleName, answers, development);
      ProviderStage(s2, mp, moduleName, stubs);
      RegisterStage(WriteProviders(s2, mp, moduleName, stubs).0, moduleName);
    }
  }

  /** The files: a run removes none. */
  lemma RunRemovesNothing(fs: FS, moduleName: string, answers: Answers, development: bool, stubs: Stubs, q: string)
    ensures q in fs.files ==> q in Run(fs, moduleName, answers, development, stubs).0.files
  {
    var mp := ModulePath(moduleName);
    if !fs.Exists(mp) {
      var sk := Skeleton(fs, mp);
      BaseKeeps(sk, mp, stubs, q);
      var s1 := WriteBaseFiles(sk, mp, stubs).0;
      PreparedFiles(s1, mp, moduleName, answers, development);
      var s2 := Prepared(s1, mp, moduleName, answers, development);
      ProviderKeeps(s2, mp, moduleName, stubs, q);
      RegisterStage(WriteProviders(s2, mp, moduleName, stubs).0, moduleName);
    }
  }

  /** The files: one other than bootstrap/app.php and the six the command writes is neither added nor changed. */
  lemma RunKeepsFile(fs: FS, moduleName: string, answers: Answers, development: bool, stubs: Stubs, q: string)
    requires q != BootstrapPath && q !in Targets(ModulePath(moduleName), moduleName)
    ensures var s := Run(fs, moduleName, answers, development, stubs).0;
      && (q in s.files <==> q in fs.files)
      && (q in fs.files ==> s.files[q] == fs.files[q])
  {
    var mp := ModulePath(moduleName);
    if !fs.Exists(mp) {
      var sk := Skeleton(fs, mp);
      assert q !in {ConfigPath(mp), WebRoutePath(mp), ApiRoutePath(mp)};
      assert q !in {RouteProviderPath(mp), EventProviderPath(mp), ModuleProviderPath(mp, moduleName)};
      BaseKeeps(sk, mp, stubs, q);
      var s1 := WriteBaseFiles(sk, mp, stubs).0;
      PreparedFiles(s1, mp, moduleName, answers, development);
      var s2 := Prepared(s1, mp, moduleName, answers, development);
      ProviderKeeps(s2, mp, moduleName, stubs, q);
      RegisterStage(WriteProviders(s2, mp, moduleName, stubs).0, moduleName);
    }
  }

  /**
    The written files: with every stub readable, the config and route files
    hold their stubs and each provider its rendering, except that a module
    named `Route` or `Event` has its own provider in place of that one.
  */
  lemma RunWrites(fs: FS, moduleName: string, answers: Answers, development: bool, stubs: Stubs)
    requires !fs.Exists(ModulePath(moduleName)) && Readable(stubs)
    ensures var s := Run(fs, moduleName, answers, development, stubs).0;
      var mp := ModulePath(moduleName);
      && Targets(mp, moduleName) <= s.files.Keys
      && s.files[ConfigPath(mp)] == stubs.config.value
      && s.files[WebRoutePath(mp)] == stubs.routeWeb.value
      && s.files[ApiRoutePath(mp)] == stubs.routeApi.value
      && s.files[ModuleProviderPath(mp, moduleName)]
         == ProviderContent(stubs.moduleProvider, moduleName, moduleName + "ServiceProvider").value
      && (moduleName != "Route" ==>
            s.files[RouteProviderPath(mp)] == ProviderContent(stubs.routeProvider, moduleName, "RouteServiceProvider").value)
      && (moduleName != "Event" ==>
            s.files[EventProviderPath(mp)] == ProviderContent(stubs.eventProvider, moduleName, "EventServiceProvider").value)
  {
    var mp := ModulePath(moduleName);
    var sk := Skeleton(fs, mp);
    BaseStage(sk, mp, stubs);
    var s1 := WriteBaseFiles(sk, mp, stubs).0;
    PreparedFiles(s1, mp, moduleName, answers, development);
    var s2 := Prepared(s1, mp, moduleName, answers, development);
    ProvidersKeepBase(s2, mp, moduleName, stubs);
    ProviderStage(s2, mp, moduleName, stubs);
    RegisterKeepsTargets(WriteProviders(s2, mp, moduleName, stubs).0, moduleName);
  }

  /**
    bootstrap/app.php after a success: in the development environment it
    had a `withProviders([` and now holds the provider's entry inserted
    after it.
  */
  lemma RunBootstrap(fs: FS, moduleName: string, answers: Answers, development: bool, stubs: Stubs)
    requires development
    ensures var (s, out) := Run(fs, moduleName, answers, development, stubs);
      out == Returned(0) ==>
        && BootstrapPath in fs.files
        && RegisterProvider(fs.files[BootstrapPath], ProviderEntry(moduleName)).Some?
        && BootstrapPath in s.files
        && s.files[BootstrapPath] == RegisterProvider(fs.files[BootstrapPath], ProviderEntry(moduleName)).value
  {
    var mp := ModulePath(moduleName);
    if !fs.Exists(mp) {
      BootstrapKept(fs, moduleName, answers, development, stubs);
      var sk := Skeleton(fs, mp);
      BaseStage(sk, mp, stubs);
      var s2 := Prepared(WriteBaseFiles(sk, mp, stubs).0, mp, moduleName, answers, development);
      ProviderStage(s2, mp, moduleName, stubs);
      RegisterStage(WriteProviders(s2, mp, moduleName, stubs).0, moduleName);
    }
  }

  /** bootstrap/app.php is as it was after a failure, and after every run outside the development environment. */
  lemma RunBootstrapKept(fs: FS, moduleName: string, answers: Answers, development: bool, stubs: Stubs)
    ensures var (s, out) := Run(fs, moduleName, answers, development, stubs);
      !(out == Returned(0) && development) ==>
        && (BootstrapPath in s.files <==> BootstrapPath in fs.files)
        && (BootstrapPath in fs.files ==> s.files[BootstrapPath] == fs.files[BootstrapPath])
  {
    var mp := ModulePath(moduleName);
    if !fs.Exists(mp) {
      BootstrapKept(fs, moduleName, answers, development, stubs);
      var sk := Skeleton(fs, mp);
      BaseStage(sk, mp, stubs);
      var s2 := Prepared(WriteBaseFiles(sk, mp, stubs).0, mp, moduleName, answers, development);
      ProviderStage(s2, mp, moduleName, stubs);
      RegisterStage(WriteProviders(s2, mp, moduleName, stubs).0, moduleName);
    }
  }

  /**
    Once a run has got past the module check, the module exists: running
    the command again, whatever the answers, the environment and the stubs,
    is refused with exit code 1 and changes nothing.
  */
  lemma RunTwiceRefused(fs: FS, moduleName: string, answers: Answers, development: bool, stubs: Stubs,
                        answersAgain: Answers, developmentAgain: bool, stubsAgain: Stubs)
    requires !fs.Exists(ModulePath(moduleName))
    ensures var s := Run(fs, moduleName, answers, development, stubs).0;
      Run(s, moduleName, answersAgain, developmentAgain, stubsAgain) == (s, Returned(1))
  {
    RunSkeleton(fs, moduleName, answers, development, stubs);
  }
}
