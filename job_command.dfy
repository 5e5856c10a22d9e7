/**
  `make:module-job` (src/Commands/CreateModuleJob.php): a queued job class in
  the module's `App/Jobs`, named by the trimmed job name.
*/
module JobCommand {
  import opened Options
  import opened PhpStrings
  import opened FileSystem
  import opened Naming
  import opened Generation

  const JobsTree := "App/Jobs"

  function JobsDirectory(modulePath: string): string
  {
    modulePath + "/" + JobsTree
  }

  /** The class name, which is also the file name. */
  function JobClass(jobName: string): string
  {
    UcFirst(Trim(jobName))
  }

  function JobPath(modulePath: string, jobName: string): string
  {
    JobsDirectory(modulePath) + "/" + JobClass(jobName) + ".php"
  }

  function JobFile(stub: string, moduleName: string, jobName: string): string
  {
    ReplacePairs(stub, NamespaceAndClass(Namespace(moduleName, JobsTree), JobClass(jobName)))
  }

  /**
    `handle`: unlike the other commands it checks that the stub was read, and
    answers an unreadable stub like an existing target, with exit code 1.
  */
  function Run(fs: FS, moduleName: string, jobName: string, stub: Option<string>): (FS, Outcome)
  {
    var mp := ModulePath(moduleName);
    if !fs.Exists(mp) then (fs, Returned(1))
    else
      var s1 := fs.EnsureDirectory(JobsDirectory(mp));
      var path := JobPath(mp, jobName);
      if stub.Some? && !s1.Exists(path) then (s1.Put(path, JobFile(stub.value, moduleName, jobName)), Returned(0))
      else (s1, Returned(1))
  }

  method Handle(disk: Disk, moduleName: string, jobName: string, stub: Option<string>) returns (out: Outcome)
    modifies disk
    ensures (disk.State(), out) == Run(old(disk.State()), moduleName, jobName, stub)
  {
    var mp := ModulePath(moduleName);
    if !disk.Exists(mp) {
      return Returned(1);
    }
    if !disk.Exists(JobsDirectory(mp)) {
      disk.MakeDirectory(JobsDirectory(mp));
    }
    var path := JobPath(mp, jobName);
    if stub.Some? && !disk.Exists(path) {
      disk.Put(path, JobFile(stub.value, moduleName, jobName));
      out := Returned(0);
    } else {
      out := Returned(1);
    }
  }

  /**
    Exit code 0 exactly when the module exists, the stub was read and the
    target is absent, with exactly the target added; 1 otherwise, with no
    file changed; no exception escapes. `App/Jobs` exists whenever the
    module does.
  */
  lemma RunOutcome(fs: FS, moduleName: string, jobName: string, stub: Option<string>)
    ensures var (s, out) := Run(fs, moduleName, jobName, stub);
      var mp := ModulePath(moduleName);
      var path := JobPath(mp, jobName);
      && (out == Returned(0) <==> fs.Exists(mp) && stub.Some? && !fs.Exists(path))
      && (out == Returned(0) || out == Returned(1))
      && (out == Returned(0) ==> s.files == fs.files[path := JobFile(stub.value, moduleName, jobName)])
      && (out == Returned(1) ==> s.files == fs.files)
      && s.psr4 == fs.psr4 && fs.dirs <= s.dirs
      && (fs.Exists(mp) ==> s.Exists(JobsDirectory(mp)))
      && (fs.Valid() ==> s.Valid())
  {
    var mp := ModulePath(moduleName);
    var path := JobPath(mp, jobName);
    if fs.Exists(mp) {
      var s1 := fs.EnsureDirectory(JobsDirectory(mp));
      NotInChainShorter(path, JobsDirectory(mp));
      assert s1.Exists(path) <==> fs.Exists(path);
      assert s1.files == fs.files;
    }
  }

  lemma RunTwiceRefused(fs: FS, moduleName: string, jobName: string, stub: Option<string>)
    requires Run(fs, moduleName, jobName, stub).1 == Returned(0)
    ensures var s := Run(fs, moduleName, jobName, stub).0;
      Run(s, moduleName, jobName, stub) == (s, Returned(1))
  {
    RunOutcome(fs, moduleName, jobName, stub);
  }

  /** Surrounding whitespace in the job name makes no difference: the path and the class both use the trimmed name. */
  lemma RunIgnoresSurroundingWhitespace(fs: FS, moduleName: string, jobName: string, otherName: string, stub: Option<string>)
    requires Trim(jobName) == Trim(otherName)
    ensures Run(fs, moduleName, jobName, stub) == Run(fs, moduleName, otherName, stub)
  {
  }
}
