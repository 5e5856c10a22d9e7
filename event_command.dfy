/**
  `make:module-event` (src/Commands/CreateModuleEvent.php): an event class
  under the module's `App/Events`, optionally a listener under
  `App/Listeners`, and the event's entry in the `$listen` array of the
  module's `App/Providers/EventServiceProvider.php`.
*/
module EventCommand {
  import opened Options
  import opened PhpStrings
  import opened FileSystem
  import opened Naming
  import opened Registry
  import opened Generation

  const EventsTree := "App/Events"
  const ListenersTree := "App/Listeners"
  const ProvidersTree := "App/Providers"

  /** What the `$listen` entry lists when no listener was asked for. */
  const NoListener := "// Add listeners here"

  /** The text of each stub `file_get_contents` is asked for; `None` is its `false`. */
  datatype Stubs = Stubs(event: Option<string>, listener: Option<string>)

  /** The event's directory as its namespace and reference name it: any non-empty sub-directory counts. */
  function EventDirectory(sub: string): string
  {
    SubDirectory(EventsTree, sub, NonEmpty)
  }

  /** The event's fully qualified class, which the listener imports. */
  function EventReference(moduleName: string, sub: string, eventName: string): string
  {
    ReferencePath(moduleName, EventDirectory(sub), eventName)
  }

  /** Where the event is written: only a truthy sub-directory counts, and the name is trimmed. */
  function EventPath(modulePath: string, sub: string, eventName: string): string
  {
    EntityPath(modulePath, EventsTree, sub, NonEmptyNorZero, UcFirst(Trim(eventName)) + ".php")
  }

  /** The class is the name as typed, not trimmed. */
  function EventRendering(stub: Option<string>, moduleName: string, sub: string, eventName: string): Option<string>
  {
    Render(stub, NamespaceAndClass(Namespace(moduleName, EventDirectory(sub)), UcFirst(eventName)))
  }

  /** The listener's directory, for its path, its namespace and its reference: only a truthy sub-directory counts. */
  function ListenerDirectory(sub: string): string
  {
    SubDirectory(ListenersTree, sub, NonEmptyNorZero)
  }

  function ListenerPath(modulePath: string, sub: string, listenerName: string): string
  {
    EntityPath(modulePath, ListenersTree, sub, NonEmptyNorZero, UcFirst(Trim(listenerName)) + ".php")
  }

  function ListenerReference(moduleName: string, sub: string, listenerName: string): string
  {
    ReferencePath(moduleName, ListenerDirectory(sub), listenerName) + "::class"
  }

  function ListenerRendering(stub: Option<string>, moduleName: string, sub: string, eventName: string,
                             listenerName: string, eventReference: string): Option<string>
  {
    Render(stub, [ (NamespaceToken, Namespace(moduleName, ListenerDirectory(sub))),
                   (ClassToken, UcFirst(listenerName)),
                   ("{{ event }}", UcFirst(eventName)),
                   ("{{ eventPath }}", eventReference) ])
  }

  function ProviderPath(modulePath: string): string
  {
    modulePath + "/" + ProvidersTree + "/EventServiceProvider.php"
  }

  // ---------------------------------------------------------------- the steps

  /**
    `createListener`: makes a truthy sub-directory, then writes the listener
    unless something is at its path. It always reports that the event may
    follow; only the unreadable stub's exception stops the command.
  */
  function CreateListener(fs: FS, modulePath: string, moduleName: string, sub: string, eventName: string,
                          listenerName: string, eventReference: string, stub: Option<string>): (FS, Option<Error>)
  {
    WriteListener(fs, modulePath, sub, listenerName, ListenerRendering(stub, moduleName, sub, eventName, listenerName, eventReference))
  }

  /** The directory and the guarded write of `createListener`, given the listener's rendering. */
  function WriteListener(fs: FS, modulePath: string, sub: string, listenerName: string, content: Option<string>): (FS, Option<Error>)
  {
    var s1 := if Truthy(sub) then fs.EnsureDirectory(modulePath + "/" + ListenerDirectory(sub)) else fs;
    WriteIfAbsent(s1, ListenerPath(modulePath, sub, listenerName), content)
  }

  /** The listener question: on `y`, `App/Listeners` and the listener, and the reference the `$listen` entry will hold. */
  function ListenerStep(fs: FS, modulePath: string, moduleName: string, sub: string, eventName: string, answer: string,
                        listenerName: string, stub: Option<string>): (FS, Option<Error>, string)
  {
    if answer == "y" then
      var s1 := fs.EnsureDirectory(modulePath + "/" + ListenersTree);
      var (s2, error) := CreateListener(s1, modulePath, moduleName, sub, eventName, listenerName,
                                        EventReference(moduleName, sub, eventName), stub);
      (s2, error, ListenerReference(moduleName, sub, listenerName))
    else (fs, None, NoListener)
  }

  /**
    Registering the event: exit code 1 without a provider, `File::get`'s
    exception when the provider is a directory, the undefined-offset error
    when it has no `$listen` array, 0 when the event is already mentioned
    there or once its entry is spliced in.
  */
  function Register(fs: FS, modulePath: string, eventName: string, eventClassReference: string,
                    listenerReference: string): (FS, Outcome)
  {
    var provider := ProviderPath(modulePath);
    if !fs.Exists(provider) then (fs, Returned(1))
    else if provider !in fs.files then (fs, Raised(FileNotFound(provider)))
    else
      match PatchListen(fs.files[provider], eventName, eventClassReference, listenerReference)
      case NoListenArray => (fs, Raised(UndefinedMatch))
      case AlreadyListed => (fs, Returned(0))
      case Patched(text) => (fs.Put(provider, text), Returned(0))
  }

  /**
    `handle`, with the prompts' answers and the stubs' text as parameters. The
    event's own path, and the guard before it, are decided only after the
    listener question has been dealt with.
  */
  function Run(fs: FS, moduleName: string, sub: string, eventName: string, answer: string, listenerName: string,
               stubs: Stubs): (FS, Outcome)
  {
    var mp := ModulePath(moduleName);
    if !fs.Exists(mp) then (fs, Returned(1))
    else
      var s1 := fs.EnsureDirectory(mp + "/" + EventsTree);
      var (s2, error, listenerReference) := ListenerStep(s1, mp, moduleName, sub, eventName, answer, listenerName, stubs.listener);
      if error.Some? then (s2, Raised(error.value))
      else PlaceEvent(s2, mp, sub, eventName, EventRendering(stubs.event, moduleName, sub, eventName),
                      EventReference(moduleName, sub, eventName) + "::class", listenerReference)
  }

  /**
    The event itself, once the listener question is settled: a truthy
    sub-directory, exit code 1 when something is at the event's path, the
    stub's exception, or the write followed by the registration.
  */
  function PlaceEvent(fs: FS, modulePath: string, sub: string, eventName: string, content: Option<string>,
                      eventClassReference: string, listenerReference: string): (FS, Outcome)
  {
    var path := EventPath(modulePath, sub, eventName);
    var s1 := if Truthy(sub) then fs.EnsureDirectory(modulePath + "/" + SubDirectory(EventsTree, sub, NonEmptyNorZero)) else fs;
    if s1.Exists(path) then (s1, Returned(1))
    else if content.None? then (s1, Raised(StubUnreadable))
    else Register(s1.Put(path, content.value), modulePath, eventName, eventClassReference, listenerReference)
  }

  // ---------------------------------------------------------------- on the disk

  method CreateListenerOn(disk: Disk, modulePath: string, moduleName: string, sub: string, eventName: string,
                          listenerName: string, eventReference: string, stub: Option<string>) returns (error: Option<Error>)
    modifies disk
    ensures (disk.State(), error)
            == CreateListener(old(disk.State()), modulePath, moduleName, sub, eventName, listenerName, eventReference, stub)
  {
    if Truthy(sub) && !disk.Exists(modulePath + "/" + ListenerDirectory(sub)) {
      disk.MakeDirectory(modulePath + "/" + ListenerDirectory(sub));
    }
    error := WriteIfAbsentOn(disk, ListenerPath(modulePath, sub, listenerName),
                             ListenerRendering(stub, moduleName, sub, eventName, listenerName, eventReference));
  }

  method RegisterOn(disk: Disk, modulePath: string, eventName: string, eventClassReference: string,
                    listenerReference: string) returns (out: Outcome)
    modifies disk
    ensures (disk.State(), out) == Register(old(disk.State()), modulePath, eventName, eventClassReference, listenerReference)
  {
    var provider := ProviderPath(modulePath);
    if !disk.Exists(provider) {
      return Returned(1);
    }
    var content := disk.Get(provider);
    if content.None? {
      return Raised(FileNotFound(provider));
    }
    var patch := PatchListen(content.value, eventName, eventClassReference, listenerReference);
    match patch
    case NoListenArray =>
      out := Raised(UndefinedMatch);
    case AlreadyListed =>
      out := Returned(0);
    case Patched(text) =>
      disk.Put(provider, text);
      out := Returned(0);
  }

  method ListenerStepOn(disk: Disk, modulePath: string, moduleName: string, sub: string, eventName: string, answer: string,
                        listenerName: string, stub: Option<string>) returns (error: Option<Error>, listenerReference: string)
    modifies disk
    ensures (disk.State(), error, listenerReference)
            == ListenerStep(old(disk.State()), modulePath, moduleName, sub, eventName, answer, listenerName, stub)
  {
    error, listenerReference := None, NoListener;
    if answer == "y" {
      if !disk.Exists(modulePath + "/" + ListenersTree) {
        disk.MakeDirectory(modulePath + "/" + ListenersTree);
      }
      error := CreateListenerOn(disk, modulePath, moduleName, sub, eventName, listenerName,
                                EventReference(moduleName, sub, eventName), stub);
      listenerReference := ListenerReference(moduleName, sub, listenerName);
    }
  }

  method Handle(disk: Disk, moduleName: string, sub: string, eventName: string, answer: string, listenerName: string,
                stubs: Stubs) returns (out: Outcome)
    modifies disk
    ensures (disk.State(), out) == Run(old(disk.State()), moduleName, sub, eventName, answer, listenerName, stubs)
  {
    var mp := ModulePath(moduleName);
    if !disk.Exists(mp) {
      return Returned(1);
    }
    if !disk.Exists(mp + "/" + EventsTree) {
      disk.MakeDirectory(mp + "/" + EventsTree);
    }
    var error, listenerReference := ListenerStepOn(disk, mp, moduleName, sub, eventName, answer, listenerName, stubs.listener);
    if error.Some? {
      return Raised(error.value);
    }
    var path := EventPath(mp, sub, eventName);
    if Truthy(sub) && !disk.Exists(mp + "/" + SubDirectory(EventsTree, sub, NonEmptyNorZero)) {
      disk.MakeDirectory(mp + "/" + SubDirectory(EventsTree, sub, NonEmptyNorZero));
    }
    if disk.Exists(path) {
      return Returned(1);
    }
    var content := EventRendering(stubs.event, moduleName, sub, eventName);
    if content.None? {
      return Raised(StubUnreadable);
    }
    disk.Put(path, content.value);
    out := RegisterOn(disk, mp, eventName, EventReference(moduleName, sub, eventName) + "::class", listenerReference);
  }

  // ---------------------------------------------------------------- what the steps keep

  /**
    `createListener` never overwrites a file: an existing listener is left
    as it is; an absent one is written, unless its stub is unreadable, in
    which case nothing is written and the exception escapes.
  */
  lemma CreateListenerEffect(fs: FS, mp: string, sub: string, listenerName: string, content: Option<string>)
    ensures var (s, error) := WriteListener(fs, mp, sub, listenerName, content);
      var listener := ListenerPath(mp, sub, listenerName);
      && (forall q :: q in fs.files ==> q in s.files && s.files[q] == fs.files[q])
      && (forall q :: q in s.files && q !in fs.files ==> q == listener)
      && (fs.Exists(listener) ==> s.files == fs.files && error.None?)
      && (!fs.Exists(listener) && content.None? ==> s.files == fs.files && error == Some(StubUnreadable))
      && (!fs.Exists(listener) && content.Some? ==> s.files == fs.files[listener := content.value] && error.None?)
  {
    var listener := ListenerPath(mp, sub, listenerName);
    var directory := mp + "/" + ListenerDirectory(sub);
    EntityPathAt(mp, ListenersTree, sub, NonEmptyNorZero, UcFirst(Trim(listenerName)) + ".php", 4);
    DirectoryAt(mp, ListenersTree, sub, NonEmptyNorZero, 4);
    assert ListenersTree[4] == 'L';
    assert |directory| < |listener| && listener[|mp| + 5] == directory[|mp| + 5] == 'L';
    WriteAfterDirectory(fs, Truthy(sub), directory, listener, content, |mp| + 5);
  }

  /** Only directories under `App/Listeners` are made, and nothing else changes. */
  lemma CreateListenerKeeps(fs: FS, mp: string, sub: string, listenerName: string, content: Option<string>)
    ensures var (s, error) := WriteListener(fs, mp, sub, listenerName, content);
      && s.psr4 == fs.psr4 && fs.dirs <= s.dirs
      && (forall q :: |mp| + 5 < |q| && q[|mp| + 5] != 'L' ==> (s.Exists(q) <==> fs.Exists(q)))
      && (fs.Valid() ==> s.Valid())
  {
    var listener := ListenerPath(mp, sub, listenerName);
    var directory := mp + "/" + ListenerDirectory(sub);
    EntityPathAt(mp, ListenersTree, sub, NonEmptyNorZero, UcFirst(Trim(listenerName)) + ".php", 4);
    DirectoryAt(mp, ListenersTree, sub, NonEmptyNorZero, 4);
    assert ListenersTree[4] == 'L';
    assert |directory| < |listener| && listener[|mp| + 5] == directory[|mp| + 5] == 'L';
    WriteAfterDirectory(fs, Truthy(sub), directory, listener, content, |mp| + 5);
  }

  /**
    The listener question: on `y`, what `createListener` does after
    `App/Listeners` is made, and the listener's class constant for the
    `$listen` entry; otherwise nothing, and the placeholder comment.
  */
  lemma ListenerStepEffect(fs: FS, mp: string, moduleName: string, sub: string, eventName: string, answer: string,
                           listenerName: string, stub: Option<string>)
    ensures var (s, error, reference) := ListenerStep(fs, mp, moduleName, sub, eventName, answer, listenerName, stub);
      var listener := ListenerPath(mp, sub, listenerName);
      && s.psr4 == fs.psr4 && fs.dirs <= s.dirs
      && (forall q :: q in fs.files ==> q in s.files && s.files[q] == fs.files[q])
      && (forall q :: q in s.files && q !in fs.files ==> answer == "y" && q == listener)
      && (error.Some? <==> answer == "y" && !fs.Exists(listener) && stub.None?)
      && (error.Some? ==> error == Some(StubUnreadable) && s.files == fs.files)
      && (answer == "y" && error.None? ==> s.Exists(listener))
      && (answer == "y" ==> reference == ListenerReference(moduleName, sub, listenerName))
      && (answer != "y" ==> s == fs && reference == NoListener)
      && (forall q :: |mp| + 5 < |q| && q[|mp| + 5] != 'L' ==> (s.Exists(q) <==> fs.Exists(q)))
      && (fs.Valid() ==> s.Valid())
  {
    if answer == "y" {
      var listener := ListenerPath(mp, sub, listenerName);
      var root := mp + "/" + ListenersTree;
      EntityPathAt(mp, ListenersTree, sub, NonEmptyNorZero, UcFirst(Trim(listenerName)) + ".php", 4);
      assert root[|mp| + 5] == 'L';
      var s1 := fs.EnsureDirectory(root);
      NotInChainShorter(listener, root);
      forall q | |mp| + 5 < |q| && q[|mp| + 5] != 'L' ensures q !in Chain(root) {
        NotInChainAt(q, root, |mp| + 5);
      }
      var content := ListenerRendering(stub, moduleName, sub, eventName, listenerName, EventReference(moduleName, sub, eventName));
      CreateListenerEffect(s1, mp, sub, listenerName, content);
      CreateListenerKeeps(s1, mp, sub, listenerName, content);
    }
  }

  /**
    Registration changes at most the provider, and that only when the event
    was not yet mentioned in its `$listen` array.
  */
  lemma RegisterOutcome(fs: FS, mp: string, eventName: string, eventClassReference: string, listenerReference: string)
    ensures var (s, out) := Register(fs, mp, eventName, eventClassReference, listenerReference);
      var provider := ProviderPath(mp);
      && s.dirs == fs.dirs && s.psr4 == fs.psr4 && s.files.Keys == fs.files.Keys
      && (forall q :: q in fs.files && q != provider ==> s.files[q] == fs.files[q])
      && (out == Returned(1) <==> !fs.Exists(provider))
      && (out == Raised(FileNotFound(provider)) <==> fs.Exists(provider) && provider !in fs.files)
      && (out == Raised(UndefinedMatch) <==> provider in fs.files && ListenMatch(fs.files[provider]).None?)
      && (out == Returned(0) <==> provider in fs.files && ListenMatch(fs.files[provider]).Some?)
      && (out == Returned(0) && Contains(ListenCapture(fs.files[provider]).value, eventName) ==> s == fs)
      && (out == Returned(0) && !Contains(ListenCapture(fs.files[provider]).value, eventName) ==>
            s.files[provider]
            == ReplaceAll(fs.files[provider], ListenClose,
                          ListenEntry(ListenCapture(fs.files[provider]).value, eventClassReference, listenerReference), false))
  {
  }

  /**
    Registering an event whose entry was just spliced in succeeds again
    without a change, since the provider now mentions it.
  */
  lemma RegisterTwiceUnchanged(fs: FS, mp: string, eventName: string, eventClassReference: string, listenerReference: string)
    requires ProviderPath(mp) in fs.files
    requires var text := fs.files[ProviderPath(mp)];
      && ListenMatch(text).Some?
      && (forall j: nat :: j < ListenMatch(text).value.1 ==> !MatchAt(text, j, ListenClose, false))
      && (forall j :: !MatchAt(ListenEntryHead(ListenCapture(text).value, eventClassReference), j, ListenClose, false))
    requires Contains(eventClassReference, eventName)
    ensures var s := Register(fs, mp, eventName, eventClassReference, listenerReference).0;
      Register(s, mp, eventName, eventClassReference, listenerReference) == (s, Returned(0))
  {
    var text := fs.files[ProviderPath(mp)];
    if !Contains(ListenCapture(text).value, eventName) {
      PatchListenThenListed(text, eventName, eventClassReference, listenerReference);
    }
  }

  // ---------------------------------------------------------------- the command

  /** Every file but the one at `p` is as it was, present or absent. */
  ghost predicate KeepsFilesBut(fs: FS, s: FS, p: string)
  {
    forall q | q != p :: (q in s.files <==> q in fs.files) && (q in fs.files ==> s.files[q] == fs.files[q])
  }

  /** The provider's text after a registration of the event that succeeded. */
  function RegisteredText(text: string, eventName: string, eventClassReference: string, listenerReference: string): string
  {
    match PatchListen(text, eventName, eventClassReference, listenerReference)
    case Patched(patched) => patched
    case _ => text
  }

  /**
    Placing the event: nothing but the provider is overwritten and nothing
    but the event added; an existing event gives exit code 1 and an
    unreadable stub the exception, both without writing; otherwise the event
    is written and registration decides the outcome.
  */
  lemma PlaceEventEffect(fs: FS, mp: string, sub: string, eventName: string, content: Option<string>,
                         eventClassReference: string, listenerReference: string)
    ensures var (s, out) := PlaceEvent(fs, mp, sub, eventName, content, eventClassReference, listenerReference);
      var path := EventPath(mp, sub, eventName);
      var provider := ProviderPath(mp);
      && (forall q :: q in fs.files && q != provider ==> q in s.files && s.files[q] == fs.files[q])
      && (forall q :: q in s.files && q !in fs.files ==> q == path)
      && (fs.Exists(path) ==> out == Returned(1) && s.files == fs.files)
      && (!fs.Exists(path) && content.None? ==> out == Raised(StubUnreadable) && s.files == fs.files)
      && (!fs.Exists(path) && content.Some? ==>
            && path in s.files && s.files[path] == content.value
            && (out == Returned(1) <==> !fs.Exists(provider))
            && (out == Raised(FileNotFound(provider)) <==> fs.Exists(provider) && provider !in fs.files)
            && (out == Raised(UndefinedMatch) <==> provider in fs.files && ListenMatch(fs.files[provider]).None?)
            && (out == Returned(0) <==> provider in fs.files && ListenMatch(fs.files[provider]).Some?)
            && (out == Returned(0) ==>
                  && provider in fs.files && provider in s.files
                  && s.files[provider] == RegisteredText(fs.files[provider], eventName, eventClassReference, listenerReference)))
  {
    var path := EventPath(mp, sub, eventName);
    var provider := ProviderPath(mp);
    var directory := mp + "/" + SubDirectory(EventsTree, sub, NonEmptyNorZero);
    EntityPathAt(mp, EventsTree, sub, NonEmptyNorZero, UcFirst(Trim(eventName)) + ".php", 4);
    DirectoryAt(mp, EventsTree, sub, NonEmptyNorZero, 4);
    assert provider[|mp| + 5] == 'P';
    NotInChainShorter(path, directory);
    NotInChainAt(provider, directory, |mp| + 5);
    var s1 := if Truthy(sub) then fs.EnsureDirectory(directory) else fs;
    if !s1.Exists(path) && content.Some? {
      var s2 := s1.Put(path, content.value);
      assert provider != path;
      RegisterOutcome(s2, mp, eventName, eventClassReference, listenerReference);
    }
  }
  /** Placing the event makes directories under `App/Events` only and leaves the PSR-4 section alone. */
  lemma PlaceEventKeeps(fs: FS, mp: string, sub: string, eventName: string, content: Option<string>,
                        eventClassReference: string, listenerReference: string)
    ensures var (s, out) := PlaceEvent(fs, mp, sub, eventName, content, eventClassReference, listenerReference);
      s.psr4 == fs.psr4 && fs.dirs <= s.dirs && (fs.Valid() ==> s.Valid())
  {
    var path := EventPath(mp, sub, eventName);
    var provider := ProviderPath(mp);
    var directory := mp + "/" + SubDirectory(EventsTree, sub, NonEmptyNorZero);
    EntityPathAt(mp, EventsTree, sub, NonEmptyNorZero, UcFirst(Trim(eventName)) + ".php", 4);
    DirectoryAt(mp, EventsTree, sub, NonEmptyNorZero, 4);
    assert provider[|mp| + 5] == 'P';
    NotInChainShorter(path, directory);
    NotInChainAt(provider, directory, |mp| + 5);
    var s1 := if Truthy(sub) then fs.EnsureDirectory(directory) else fs;
    if !s1.Exists(path) && content.Some? {
      var s2 := s1.Put(path, content.value);
      assert provider != path;
      RegisterOutcome(s2, mp, eventName, eventClassReference, listenerReference);
    }
  }

  /**
    What the command never does: overwrite a file other than the provider,
    add a file other than the listener and the event, touch the PSR-4
    section, remove a directory, or break the disk's shape. A missing module
    changes nothing.
  */
  lemma RunNeverOverwrites(fs: FS, moduleName: string, sub: string, eventName: string, answer: string, listenerName: string,
                           stubs: Stubs)
    ensures var (s, out) := Run(fs, moduleName, sub, eventName, answer, listenerName, stubs);
      var mp := ModulePath(moduleName);
      var provider := ProviderPath(mp);
      && (!fs.Exists(mp) ==> s == fs && out == Returned(1))
      && (forall q :: q in fs.files && q != provider ==> q in s.files && s.files[q] == fs.files[q])
      && (forall q :: q in s.files && q !in fs.files ==>
            q == EventPath(mp, sub, eventName) || (answer == "y" && q == ListenerPath(mp, sub, listenerName)))
      && s.psr4 == fs.psr4 && fs.dirs <= s.dirs
      && (fs.Valid() ==> s.Valid())
  {
    var mp := ModulePath(moduleName);
    if fs.Exists(mp) {
      var s1 := fs.EnsureDirectory(mp + "/" + EventsTree);
      ListenerStepEffect(s1, mp, moduleName, sub, eventName, answer, listenerName, stubs.listener);
      var (s2, error, reference) := ListenerStep(s1, mp, moduleName, sub, eventName, answer, listenerName, stubs.listener);
      if error.None? {
        PlaceEventEffect(s2, mp, sub, eventName, EventRendering(stubs.event, moduleName, sub, eventName),
                         EventReference(moduleName, sub, eventName) + "::class", reference);
        PlaceEventKeeps(s2, mp, sub, eventName, EventRendering(stubs.event, moduleName, sub, eventName),
                        EventReference(moduleName, sub, eventName) + "::class", reference);
      }
    }
  }

  /**
    The listener's part of the outcome once the module exists: an unreadable
    stub, when the listener is new, escapes before any file is written;
    otherwise a listener that was asked for exists afterwards.
  */
  lemma RunListenerOutcome(fs: FS, moduleName: string, sub: string, eventName: string, answer: string, listenerName: string,
                           stubs: Stubs)
    requires fs.Exists(ModulePath(moduleName))
    ensures var (s, out) := Run(fs, moduleName, sub, eventName, answer, listenerName, stubs);
      var listener := ListenerPath(ModulePath(moduleName), sub, listenerName);
      var listenerFails := answer == "y" && !fs.Exists(listener) && stubs.listener.None?;
      && (listenerFails ==> out == Raised(StubUnreadable) && s.files == fs.files)
      && (!listenerFails && answer == "y" ==> s.Exists(listener))
  {
    var mp := ModulePath(moduleName);
    AfterListener(fs, mp, moduleName, sub, eventName, answer, listenerName, stubs.listener);
    var (s2, error, reference) := ListenerStep(fs.EnsureDirectory(mp + "/" + EventsTree), mp, moduleName, sub, eventName,
                                               answer, listenerName, stubs.listener);
    if error.None? {
      NotTheProvider(mp, sub, listenerName);
      PlaceEventEffect(s2, mp, sub, eventName, EventRendering(stubs.event, moduleName, sub, eventName),
                       EventReference(moduleName, sub, eventName) + "::class", reference);
      PlaceEventKeeps(s2, mp, sub, eventName, EventRendering(stubs.event, moduleName, sub, eventName),
                      EventReference(moduleName, sub, eventName) + "::class", reference);
    }
  }

  /**
    Past the listener question, an existing event gives exit code 1 and an
    unreadable event stub the exception; either way no file but the
    listener's has changed.
  */
  lemma RunEventRefused(fs: FS, moduleName: string, sub: string, eventName: string, answer: string, listenerName: string,
                        stubs: Stubs)
    requires fs.Exists(ModulePath(moduleName))
    ensures var (s, out) := Run(fs, moduleName, sub, eventName, answer, listenerName, stubs);
      var mp := ModulePath(moduleName);
      var path := EventPath(mp, sub, eventName);
      var listener := ListenerPath(mp, sub, listenerName);
      var listenerFails := answer == "y" && !fs.Exists(listener) && stubs.listener.None?;
      && (!listenerFails && fs.Exists(path) ==> out == Returned(1) && KeepsFilesBut(fs, s, listener))
      && (!listenerFails && !fs.Exists(path) && stubs.event.None? ==>
            out == Raised(StubUnreadable) && KeepsFilesBut(fs, s, listener))
  {
    var mp := ModulePath(moduleName);
    AfterListener(fs, mp, moduleName, sub, eventName, answer, listenerName, stubs.listener);
    var (s2, error, reference) := ListenerStep(fs.EnsureDirectory(mp + "/" + EventsTree), mp, moduleName, sub, eventName,
                                               answer, listenerName, stubs.listener);
    if error.None? {
      NotTheProvider(mp, sub, listenerName);
      PlaceEventEffect(s2, mp, sub, eventName, EventRendering(stubs.event, moduleName, sub, eventName),
                       EventReference(moduleName, sub, eventName) + "::class", reference);
    }
  }

  /**
    A new event is written, and then registration decides the outcome: exit
    code 1 when the provider is missing (the event file stays), an
    exception when it is a directory or has no `$listen` array, 0 when the
    entry is already there or has been spliced in.
  */
  lemma RunEventWritten(fs: FS, moduleName: string, sub: string, eventName: string, answer: string, listenerName: string,
                        stubs: Stubs)
    requires fs.Exists(ModulePath(moduleName))
    ensures var (s, out) := Run(fs, moduleName, sub, eventName, answer, listenerName, stubs);
      var mp := ModulePath(moduleName);
      var path := EventPath(mp, sub, eventName);
      var provider := ProviderPath(mp);
      var listenerFails := answer == "y" && !fs.Exists(ListenerPath(mp, sub, listenerName)) && stubs.listener.None?;
      !listenerFails && !fs.Exists(path) && stubs.event.Some? ==>
        && path in s.files && s.files[path] == EventRendering(stubs.event, moduleName, sub, eventName).value
        && (out == Returned(1) <==> !fs.Exists(provider))
        && (out == Raised(FileNotFound(provider)) <==> fs.Exists(provider) && provider !in fs.files)
        && (out == Raised(UndefinedMatch) <==> provider in fs.files && ListenMatch(fs.files[provider]).None?)
        && (out == Returned(0) <==> provider in fs.files && ListenMatch(fs.files[provider]).Some?)
  {
    var mp := ModulePath(moduleName);
    AfterListener(fs, mp, moduleName, sub, eventName, answer, listenerName, stubs.listener);
    var (s2, error, reference) := ListenerStep(fs.EnsureDirectory(mp + "/" + EventsTree), mp, moduleName, sub, eventName,
                                               answer, listenerName, stubs.listener);
    if error.None? {
      NotTheProvider(mp, sub, listenerName);
      PlaceEventEffect(s2, mp, sub, eventName, EventRendering(stubs.event, moduleName, sub, eventName),
                       EventReference(moduleName, sub, eventName) + "::class", reference);
    }
  }

  /**
    Running the command again after a success is refused with exit code 1,
    since the event now exists; no file but the listener's is touched, and
    that one exists already.
  */
  lemma RunTwiceRefused(fs: FS, moduleName: string, sub: string, eventName: string, answer: string, listenerName: string,
                        stubs: Stubs)
    requires Run(fs, moduleName, sub, eventName, answer, listenerName, stubs).1 == Returned(0)
    ensures var s := Run(fs, moduleName, sub, eventName, answer, listenerName, stubs).0;
      var (again, out) := Run(s, moduleName, sub, eventName, answer, listenerName, stubs);
      out == Returned(1) && KeepsFilesBut(s, again, ListenerPath(ModulePath(moduleName), sub, listenerName))
  {
    var mp := ModulePath(moduleName);
    var path := EventPath(mp, sub, eventName);
    var listener := ListenerPath(mp, sub, listenerName);
    var s := Run(fs, moduleName, sub, eventName, answer, listenerName, stubs).0;
    RunNeverOverwrites(fs, moduleName, sub, eventName, answer, listenerName, stubs);
    assert fs.Exists(mp) && s.Exists(mp);
    RunListenerOutcome(fs, moduleName, sub, eventName, answer, listenerName, stubs);
    assert !(answer == "y" && !fs.Exists(listener) && stubs.listener.None?);
    assert answer == "y" ==> s.Exists(listener);
    RunEventRefused(fs, moduleName, sub, eventName, answer, listenerName, stubs);
    assert !fs.Exists(path) && stubs.event.Some?;
    RunEventWritten(fs, moduleName, sub, eventName, answer, listenerName, stubs);
    assert s.Exists(path);
    RunEventRefused(s, moduleName, sub, eventName, answer, listenerName, stubs);
  }

  /** Where the command stands once `App/Events` is made and the listener question is dealt with. */
  lemma AfterListener(fs: FS, mp: string, moduleName: string, sub: string, eventName: string, answer: string,
                      listenerName: string, stub: Option<string>)
    ensures var (s, error, reference) := ListenerStep(fs.EnsureDirectory(mp + "/" + EventsTree), mp, moduleName, sub, eventName,
                                                      answer, listenerName, stub);
      var listener := ListenerPath(mp, sub, listenerName);
      && (error.Some? <==> answer == "y" && !fs.Exists(listener) && stub.None?)
      && (error.Some? ==> error == Some(StubUnreadable) && s.files == fs.files)
      && (forall q :: q in fs.files ==> q in s.files && s.files[q] == fs.files[q])
      && (forall q :: q in s.files && q !in fs.files ==> answer == "y" && q == listener)
      && KeepsFilesBut(fs, s, listener)
      && (answer == "y" && error.None? ==> s.Exists(listener))
      && (s.Exists(EventPath(mp, sub, eventName)) <==> fs.Exists(EventPath(mp, sub, eventName)))
      && (s.Exists(ProviderPath(mp)) <==> fs.Exists(ProviderPath(mp)))
  {
    var s1 := fs.EnsureDirectory(mp + "/" + EventsTree);
    EventsDirectoryMissesTargets(mp, sub, eventName, listenerName);
    ListenerStepEffect(s1, mp, moduleName, sub, eventName, answer, listenerName, stub);
    EventPathHead(mp, sub, eventName);
    ProviderPathHead(mp);
  }

  /**
    Making `App/Events` creates nothing at the event's, the listener's or
    the provider's path.
  */
  lemma EventsDirectoryMissesTargets(mp: string, sub: string, eventName: string, listenerName: string)
    ensures var events := Chain(mp + "/" + EventsTree);
      && EventPath(mp, sub, eventName) !in events
      && ListenerPath(mp, sub, listenerName) !in events
      && ProviderPath(mp) !in events
  {
    var events := mp + "/" + EventsTree;
    assert events[|mp| + 5] == 'E';
    EventPathHead(mp, sub, eventName);
    NotInChainShorter(EventPath(mp, sub, eventName), events);
    ListenerPathHead(mp, sub, listenerName);
    NotInChainAt(ListenerPath(mp, sub, listenerName), events, |mp| + 5);
    ProviderPathHead(mp);
    NotInChainAt(ProviderPath(mp), events, |mp| + 5);
  }

  /**
    The character right after `App/` in the event's, listener's and provider's
    paths: `E`, `L` and `P`. These support `AfterListener` and
    `EventsDirectoryMissesTargets`, which tell the paths apart by it.
  */
  lemma EventPathHead(mp: string, sub: string, eventName: string)
    ensures |EventPath(mp, sub, eventName)| > |mp + "/" + EventsTree| && EventPath(mp, sub, eventName)[|mp| + 5] == 'E'
  {
    EntityPathAt(mp, EventsTree, sub, NonEmptyNorZero, UcFirst(Trim(eventName)) + ".php", 4);
  }

  lemma ListenerPathHead(mp: string, sub: string, listenerName: string)
    ensures |ListenerPath(mp, sub, listenerName)| > |mp| + 5 && ListenerPath(mp, sub, listenerName)[|mp| + 5] == 'L'
  {
    EntityPathAt(mp, ListenersTree, sub, NonEmptyNorZero, UcFirst(Trim(listenerName)) + ".php", 4);
  }

  lemma ProviderPathHead(mp: string)
    ensures |ProviderPath(mp)| > |mp| + 5 && ProviderPath(mp)[|mp| + 5] == 'P'
  {
  }

  /** The listener lies under `App/Listeners`, the provider under `App/Providers`. */
  lemma NotTheProvider(mp: string, sub: string, listenerName: string)
    ensures ListenerPath(mp, sub, listenerName) != ProviderPath(mp)
  {
    EntityPathAt(mp, ListenersTree, sub, NonEmptyNorZero, UcFirst(Trim(listenerName)) + ".php", 4);
    assert ProviderPath(mp)[|mp| + 5] == 'P';
  }
}
