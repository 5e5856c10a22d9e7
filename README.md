# Module design commands, modelled in Dafny

This project models the `make:module*` console commands of
laravel-module-design-commands and the `SharedActions` helpers they call.
Every command turns a few prompt answers into names, a namespace and paths
under `modules/<Module>`.
It checks what exists, makes directories, renders a stub and writes a
file only where nothing exists yet.
`make:module` and `make:module-event` also patch existing text: the PSR-4
section of composer.json, the provider list in bootstrap/app.php and the
`$listen` array of an EventServiceProvider.

Layout:

- `php_strings.dfy`: `Options` (the `Option` type) and `PhpStrings`, the PHP
  string functions the commands use. These are `ucfirst`, `strtolower`,
  `trim`, `strpos`/`stripos`, `strrpos`, `substr_replace`,
  `str_replace`/`str_ireplace` and `str_contains`. Only ASCII is modelled.
- `file_system.dfy`: `FileSystem`. The disk as a value `FS` holds a set of
  directories, a map of files and the PSR-4 section. The mutable `Disk`
  class mirrors it. `File::makeDirectory` is always recursive here, as every
  call site asks.
- `naming.dfy`: `Naming`. This covers the module path, `getNamespace`,
  `getReferencePath`, the sub-directory rules ("non-empty" against
  "non-empty and not `0`") and the type-word stripping.
- `generation.dfy`: `Generation`. This covers stub rendering, the helpers'
  silent guarded write and the commands' guarded write that returns 1.
- `table_names.dfy`: `TableNames`. These are the two migration table-name
  derivations, with the regular expressions written out as string functions.
- `registry.dfy`: `Registry`. These are the three text and map patches.
- `shared_actions.dfy`: `SharedActions`. These are the four helpers
  `CreateController`, `CreateModelFactory`, `CreateSeeder` and
  `CreateMigration`.
- One file per command: `module_command.dfy`, `event_command.dfy`,
  `model_command.dfy`, `controller_command.dfy`, `request_command.dfy`,
  `resource_command.dfy`, `collection_command.dfy`, `job_command.dfy` and
  `migration_command.dfy`.

How the commands are modelled:

- Each command has a specification function `Run(fs, answers…, stubs)`. It
  returns the new `FS` and an `Outcome`.
- An `Outcome` is either `Returned(code)` or `Raised(error)`. `Raised` stands
  for an exception that escapes `handle`. These are the `TypeError` of
  `str_replace` on an unreadable stub, `File::get`'s `FileNotFoundException`
  and the undefined `$matches[1]`.
- An unreadable stub is `None`: `file_get_contents` is taken to return
  `false`, without the warning it would also raise (see "Left out").
- Each command also has a `Handle` method on a `Disk`. It performs the
  source's steps one at a time and is proved to end in the state and
  outcome that `Run` gives.
- The lemmas about `Run` state what each command promises:
  - the exit codes, both ways;
  - exactly which files are added or changed;
  - which directories exist afterwards;
  - that a second run is refused and changes nothing, with the same
    timestamp where the command stamps a migration.

## Behaviour worth knowing

- Placeholder substitution is sequential. `str_replace` with arrays
  replaces one token after the other over the result so far, so a value
  that holds a later token is replaced again
  (`PhpStrings.ReplacePairsRescansValues`).
- Name stripping removes the type word without trimming.
  - It removes every case-insensitive occurrence of the type word.
  - It is triggered by a case-sensitive test (`Controller`, `Collection`) or
    by two tests (`Model`/`model`, `Request`/`request`,
    `Resource`/`resource`).
  - A second pass can remove more (`Naming.StripKindIsNotIdempotent`).
- The sub-directory `"0"` is special-cased in some places and kept in others.
  - The request, resource and model commands write into `…/0` and leave
    `0` out of the namespace (`NamespaceFollowsDirectory`).
  - The event's namespace counts it, while the event's path leaves it out.
- The two migration table-name derivations can give different tables.
  - They agree on camel-case names (`TableNames.CommandAndSharedAgree`,
    `UserProfile` → `user_profiles`).
  - They differ on `userProfile` (`TableNames.LowerCamelTablesDiffer`).
- The bootstrap provider insertion always inserts after the last
  `withProviders([`, whether or not the provider is already listed.
- The event-provider patch replaces every `];` of the file, including any
  after the one closing `$listen`.
- On a provider without a `$listen` array, `$matches[1]` is undefined and
  the command ends in that error.
- Re-running `make:module-event` for an event that was just created returns
  1, because the event file exists (`EventCommand.RunTwiceRefused`).
- Migrations are named by `date('Y_m_d_His')`. A later re-run of
  `make:module-migration` writes a fresh migration and exits 0
  (`MigrationCommand.RunLaterWritesAnother`). A later re-run of
  `make:module-model` with the migration extra also adds a fresh migration,
  and still exits 1 because the model exists (`ModelCommand.RunLaterRefused`).
- The collection, resource and migration commands make no directory before
  writing.
- The event file's path uses `trim` of the event name, and its class uses
  the untrimmed name.
- `make:module` names its own provider after the module name as typed. A
  module named `Route` or `Event` therefore has its provider file written
  over the route or event provider (`ModuleCommand.ProviderCollisions`).
- `make:module` creates lower-case `app`, `domain` and `database` trees.
  The entity commands write under `App/…` and `Domain/…`. Paths are
  compared exactly, as on a case-sensitive disk.

## Model

| member | source | states |
|---|---|---|
| `PhpStrings.UcFirst` | src/Commands/CreateModuleController.php:44 | The result has the input's length and keeps every character after the first. A lower-case ASCII first letter becomes its capital, the code point 32 lower, and any other first character is kept. |
| `PhpStrings.StrToLower` | src/Commands/CreateModuleMigration.php:69 | Same length and no capital left. Every non-capital is kept, and every capital becomes the lower-case letter 32 code points higher. |
| `PhpStrings.TrimStart` | src/Commands/CreateModuleJob.php:65 | A suffix of the input that does not start with a trimmable character, and everything cut off is trimmable. |
| `PhpStrings.TrimEnd` | src/Commands/CreateModuleJob.php:65 | A prefix of the input that does not end with a trimmable character, and everything cut off is trimmable. |
| `PhpStrings.Trim` | src/Commands/CreateModuleJob.php:65 | A slice of the input that neither starts nor ends with a trimmable character. Everything cut off before and after the slice is trimmable. An input without trimmable characters is kept, and the result is empty exactly when every character is trimmable. |
| `PhpStrings.IndexOf` | src/Commands/CreateModuleController.php:71 | The first index at or after the offset where the pattern occurs, compared case-insensitively when asked. `None` exactly when it occurs nowhere there. This is the search behind `str_contains` and the `$listen` match. |
| `PhpStrings.ContainsIff` | src/Commands/CreateModuleController.php:71 | `str_contains` holds exactly when the needle occurs at some index. |
| `PhpStrings.LastIndexOf` | src/Commands/CreateModuleCommand.php:300-303 | `strrpos`: an occurrence with none after it. `None` exactly when there is no occurrence. |
| `PhpStrings.InsertAt` | src/Commands/CreateModuleCommand.php:306-311 | `substr_replace` with length 0: the prefix is kept, the text is inserted at the position and the suffix follows. The length grows by the text's length. |
| `PhpStrings.ReplaceAllNoMatch` | src/Commands/CreateModuleEvent.php:152-156 | Replace-all with no occurrence leaves the subject unchanged. |
| `PhpStrings.ReplaceAllKeepsPrefix` | src/Commands/CreateModuleEvent.php:152-156 | A prefix in which no occurrence starts is copied through unchanged, and the rest is replaced on its own. |
| `PhpStrings.ReplaceAllLength` | src/Commands/CreateModuleEvent.php:152-156 | A replacement at least as long as the pattern never shortens the subject, and one at most as long never lengthens it. When the pattern occurs, a longer replacement strictly lengthens and a shorter one strictly shortens. |
| `PhpStrings.ReplaceAllUnchangedIff` | src/Commands/CreateModuleEvent.php:152-156 | With a replacement of a different length, replacing leaves the subject unchanged exactly when the pattern does not occur. |
| `PhpStrings.ReplaceAllWhole` | src/Commands/CreateModuleCommand.php:330-334 | A subject that is one occurrence becomes the replacement. |
| `PhpStrings.ReplacePairsNoTokens` | src/Commands/CreateModuleCommand.php:330-334 | A stub with none of the tokens renders to itself. |
| `PhpStrings.ReplacePairsRescansValues` | src/Commands/CreateModuleCommand.php:330-334 | The array form is sequential: when the first value is the second token, the output is the second value. |
| `PhpStrings.ReplaceAll` | src/Commands/CreateModuleController.php:72 | Specified by `ReplaceAllNoMatch`, `ReplaceAllKeepsPrefix`, `ReplaceAllLength`, `ReplaceAllUnchangedIff` and `ReplaceAllWhole`. No occurrence leaves the subject as it is. An occurrence-free prefix is copied through. A different-length replacement changes the subject exactly when the pattern occurs. |
| `PhpStrings.ReplacePairs` | src/Commands/CreateModuleCommand.php:330-334 | Specified by `ReplacePairsNoTokens` and `ReplacePairsRescansValues`. A subject holding none of the tokens is kept. The pairs are applied in order, each over the result of the one before. |
| `PhpStrings.BackslashedAt` | src/Commands/CreateModuleController.php:116-122 | Every `/` becomes `\` and every other character stays in place. |
| `PhpStrings.BackslashedKeepsPlain` | src/Commands/CreateModuleController.php:120-122 | The rewrite is the identity exactly when there is no `/`, so the `str_contains` guard makes no difference. |
| `PhpStrings.BackslashedAppend` | src/Commands/CreateModuleController.php:116-122 | The rewrite distributes over concatenation. |
| `PhpStrings.BackslashedTwoSegments` | src/Commands/SharedActions/CreateModelFactory.php:27 | `a/b` becomes `a\b` for segments without separators. |
| `PhpStrings.Backslashed` | src/Commands/CreateModuleController.php:120-122 | Specified by `BackslashedAt`, `BackslashedKeepsPlain` and `BackslashedAppend`. Every `/` becomes `\` and every other character stays in place. A text without `/` is kept, and the rewrite distributes over concatenation. |
| `PhpStrings.StrToLowerAppend` | src/Commands/SharedActions/CreateMigration.php:19 | Lower-casing distributes over concatenation. |
| `PhpStrings.IndexOfIs` | src/Commands/CreateModuleController.php:71-72 | A known first occurrence is what the search finds. |
| `PhpStrings.ContainsMiddle` | src/Commands/CreateModuleEvent.php:144 | A needle in a middle part is in the whole. |
| `FileSystem.Chain` | src/Commands/CreateModuleCommand.php:53 | A recursive `mkdir` of `p` creates `p` itself, among its prefixes. |
| `FileSystem.ChainPrefix` | src/Commands/CreateModuleCommand.php:53 | Everything a recursive `mkdir` creates is a prefix of its path. |
| `FileSystem.ChainClosed` | src/Commands/CreateModuleCommand.php:53 | What it creates for a created directory, it has created already. |
| `FileSystem.ChainHasPrefix` | src/Commands/CreateModuleCommand.php:53 | The prefix up to each separator is created. |
| `FileSystem.NotInChainAt` | src/Commands/CreateModuleCommand.php:66 | A path that differs from `p` at a shared position is not created by `mkdir p`. |
| `FileSystem.NotInChainShorter` | src/Commands/CreateModuleController.php:62 | A path longer than `p` is not created by `mkdir p`. |
| `FileSystem.NotUnderBase` | src/Commands/CreateModuleCommand.php:106-108 | No `mkdir` of a `foreach` under `base` creates a path that differs from `base` at a position inside `base`. |
| `FileSystem.NotUnderNamesAt` | src/Commands/CreateModuleCommand.php:122-124 | No `mkdir` of a `foreach` creates a path that differs from every listed name at one position. |
| `FileSystem.NotUnderShorter` | src/Commands/CreateModuleCommand.php:65-67 | No `mkdir` of a `foreach` creates a path longer than all of them. |
| `FileSystem.FS.MakeDirectory` | src/Commands/CreateModuleCommand.php:53 | `File::makeDirectory(p, 0777, true)`: the files and PSR-4 section are kept. The directories gain exactly `p` and its ancestors, and a disk closed under parents stays so. |
| `FileSystem.FS.EnsureDirectory` | src/Commands/CreateModuleController.php:58-64 | The guarded `mkdir`: `p` exists afterwards. The state is unchanged when something was at `p`, and otherwise the directories grow exactly by the `mkdir`. |
| `FileSystem.FS.NothingInside` | src/Commands/CreateModuleCommand.php:47-53 | On a disk closed under parents, nothing lies inside a directory that does not exist. |
| `FileSystem.FS.Put` | src/Commands/CreateModuleController.php:98 | `File::put`: the file at `p` holds the content, and every other file and all directories are kept. |
| `FileSystem.FS.MakeDirectoriesUnder` | src/Commands/CreateModuleCommand.php:65-67 | A `foreach` of `mkdir`s keeps the files and the PSR-4 section, removes no directory and keeps the disk closed under parents. |
| `FileSystem.FS.MadeUnder` | src/Commands/CreateModuleCommand.php:65-67 | After the `foreach`, each `base/name` exists, and every new directory is on the way to one of them. |
| `FileSystem.ChainsUnderStep` | src/Commands/CreateModuleCommand.php:65-67 | What the loop has created after one more name. |
| `FileSystem.Disk.constructor` | src/Commands/CreateModuleCommand.php:37-53 | The disk starts in the given state. |
| `FileSystem.Disk.MakeDirectory` | src/Commands/CreateModuleCommand.php:53 | The disk moves to `FS.MakeDirectory` of its old state. |
| `FileSystem.Disk.MakeDirectoriesUnder` | src/Commands/CreateModuleCommand.php:65-67 | The `foreach` loop; its invariant makes the disk end in `FS.MakeDirectoriesUnder` of its old state. |
| `FileSystem.Disk.Put` | src/Commands/CreateModuleController.php:98 | The disk moves to `FS.Put` of its old state. |
| `FileSystem.Disk.Get` | src/Commands/CreateModuleEvent.php:140 | `File::get`: the contents exactly when a file is at `p`; `None` stands for the exception. |
| `FileSystem.Disk.SetPsr4` | src/Commands/CreateModuleCommand.php:173-177 | Only the PSR-4 section changes. |
| `Naming.Namespace` | src/Commands/CreateModuleController.php:114-125 | `getNamespace` is `Modules\`, then ucfirst of the module name with `/` made `\`, then `\`, then the directory with every `/` made `\` and every other character in place. There is no `/` in it. |
| `Naming.ModulePath` | src/Commands/CreateModuleController.php:36-44 | The module directory has length 8 plus the name's, starts with `modules/`, and continues with ucfirst of the name as typed, so its first letter after the slash is not lower-case. |
| `Naming.ReferencePath` | src/Commands/CreateModuleEvent.php:179-190 | `getReferencePath` is `getNamespace` of the same inputs, then `\` and ucfirst of the trimmed event name. `Registry.EventNameInReference` shows that the trimmed name occurs in it. |
| `Naming.ProviderNamespace` | src/Commands/CreateModuleCommand.php:371-379 | Specified by `Naming.ProviderNamespaceAgreement`. It equals the entity commands' `getNamespace` of `App/` plus the directory exactly when the directory has no `/`. |
| `Naming.SubDirectory` | src/Commands/CreateModuleController.php:75-79 | Specified by `Naming.DirectoryAt` and `Naming.SubRulesDisagreeOnlyOnZero`. The kind's sub-tree comes first, and the two sub-directory rules give different directories exactly for `0`. |
| `Naming.ProviderNamespaceAgreement` | src/Commands/CreateModuleCommand.php:371-379 | The module command's `getNamespace(r, d)` equals the entity commands' `getNamespace(r, "App/" + d)` for a directory without `/`. The module command's version leaves `d` unrewritten. |
| `Naming.DirectoryAt` | src/Commands/CreateModuleController.php:75-79 | A kind's directory spells its sub-tree right after the module path. |
| `Naming.EntityPathAt` | src/Commands/CreateModuleController.php:75-79 | So does a file's path in it, which is longer than the directory. |
| `Naming.SubRulesDisagreeOnlyOnZero` | src/Commands/CreateModuleModel.php:78-121 | The two sub-directory rules give different directories exactly for the sub-directory `0`. |
| `Naming.NamespaceRulesDisagreeOnlyOnZero` | src/Commands/CreateModuleModel.php:121-123 | The same holds for the namespaces built from them. |
| `Naming.StripKind` | src/Commands/CreateModuleController.php:71-73 | When the `str_contains` trigger does not fire, the name is kept. The result is never longer than the name. |
| `Naming.StripKindChangesIff` | src/Commands/CreateModuleModel.php:74-76 | Stripping changes the name exactly when its trigger fires. |
| `Naming.StripSingleKindWord` | src/Commands/SharedActions/CreateController.php:21-23 | A name holding the type word once, and nowhere else case-insensitively, loses exactly that word. |
| `Naming.StripKindIsNotIdempotent` | src/Commands/CreateModuleModel.php:74-76 | `MoModeldel` strips to `Model` and then to the empty name, so stripping twice differs from stripping once. |
| `Naming.StripInnerModel` | src/Commands/CreateModuleModel.php:74-76 | One pass over `MoModeldel` removes the `Model` at index 2 and leaves `Model`. |
| `Generation.Render` | src/Commands/CreateModuleController.php:84-97 | The rendering exists exactly when the stub was read. |
| `Generation.WriteIfAbsentChangesOnly` | src/Commands/SharedActions/CreateController.php:35-52 | The helpers' guarded write changes at most its target. Without an error the target exists afterwards. An error is only the unreadable stub, with nothing changed. |
| `Generation.ChangesOnlyThen` | src/Commands/CreateModuleModel.php:100-114 | Two confined changes in a row are confined to the union of their targets and remove nothing. |
| `Generation.ChangesOnlyOutside` | src/Commands/CreateModuleModel.php:100-114 | Outside its targets a confined change keeps existence and contents. |
| `Generation.WriteAfterDirectory` | src/Commands/CreateModuleEvent.php:205-225 | A guarded `mkdir` followed by the guarded write adds at most the target and overwrites nothing. It errs exactly on an absent target with an unreadable stub, and keeps what exists at paths away from the directory. |
| `Generation.WriteIfAbsentOn` | src/Commands/SharedActions/CreateSeeder.php:27-35 | The disk ends where the guarded write says. |
| `Generation.WriteIfAbsent` | src/Commands/SharedActions/CreateSeeder.php:27-35 | Specified by `Generation.WriteIfAbsentChangesOnly` and `SharedActions.WriteIfAbsentWritesOnlyIfAbsent`. It changes at most its target, writes the rendering only where nothing exists, and its only error is the unreadable stub, with nothing changed. |
| `Generation.CreateOnlyOn` | src/Commands/CreateModuleController.php:85-104 | The disk and exit code are those of the command's guarded write: 1 on an existing target, 0 once written. |
| `Generation.CreateOnly` | src/Commands/CreateModuleController.php:85-104 | Exit code 1 exactly when something exists at the target, the `TypeError` exactly on an unreadable stub for an absent target, and 0 exactly when the stub reads and the target is absent. On anything but 0 the disk is unchanged. On 0 only the target's file is added, holding the rendering. |
| `TableNames.LowerRunEnd` | src/Commands/CreateModuleMigration.php:64 | The end of the run of lower-case letters from an index. |
| `TableNames.CapitalisedWordsLetters` | src/Commands/CreateModuleMigration.php:64 | `(?:[A-Z][a-z]+)+` matched in full implies letters only, starting with a capital, each capital followed by a lower-case letter. |
| `TableNames.LettersCapitalisedWords` | src/Commands/CreateModuleMigration.php:64 | The converse of the above. |
| `TableNames.CapitalisedWordsIff` | src/Commands/CreateModuleMigration.php:64 | `(?:[A-Z][a-z]+)+` matches exactly the strings described letter by letter. |
| `TableNames.CamelPatternSound` | src/Commands/CreateModuleMigration.php:64 | A name the camel-case pattern matches is camel case letter by letter. |
| `TableNames.CamelPatternComplete` | src/Commands/CreateModuleMigration.php:64 | A name that is camel case letter by letter is matched by the pattern. |
| `TableNames.CamelPatternIff` | src/Commands/CreateModuleMigration.php:64 | `^[A-Z][a-z]*(?:[A-Z][a-z]+)+$` matches exactly when the name has only letters, starts with a capital, has a later capital, and every capital after the first is followed by a lower-case letter. |
| `TableNames.CamelStep` | src/Commands/CreateModuleMigration.php:64-66 | Specified by `TableNames.LoweredPluralFacts` and `TableNames.SharedPluralFacts`. On a lower-case name the step is a no-op. After lower-casing, the separated plural gives the plain plural once its underscores are removed. |
| `TableNames.SeparateWords` | src/Commands/CreateModuleMigration.php:65 | Inserting underscores never shortens the name. |
| `TableNames.SeparateWordsEnds` | src/Commands/CreateModuleMigration.php:65 | The first and last characters survive word separation. |
| `TableNames.ConsumingAgrees` | src/Commands/SharedActions/CreateMigration.php:17 | `preg_replace('/([a-z])([A-Z])/', '$1_$2')` gives what the look-around form gives. |
| `TableNames.SeparateWordsConsuming` | src/Commands/SharedActions/CreateMigration.php:17 | Specified by `TableNames.ConsumingAgrees`. The consuming `preg_replace` gives what the look-around separation gives. |
| `TableNames.WithoutUnderscores` | src/Commands/CreateModuleMigration.php:65 | The result has no underscore and is never longer. |
| `TableNames.SeparateWordsOnlyInserts` | src/Commands/CreateModuleMigration.php:65 | Word separation only inserts underscores. |
| `TableNames.SeparateWordsSeparates` | src/Commands/CreateModuleMigration.php:65 | After word separation, no lower-case letter is directly followed by a capital. |
| `TableNames.WithoutUnderscoresAppend` | src/Commands/CreateModuleMigration.php:65 | Removing underscores distributes over concatenation. |
| `TableNames.WithoutUnderscoresLower` | src/Commands/CreateModuleMigration.php:65-69 | Removing underscores and lower-casing commute. |
| `TableNames.Pluralise` | src/Commands/CreateModuleMigration.php:60-62 | The result ends in `s`. A name ending in `s` is kept; otherwise `s` is appended. |
| `TableNames.EndsWithS` | src/Commands/CreateModuleMigration.php:60 | `str_ends_with(s, "s")` holds exactly when the last character is `s`. |
| `TableNames.LoweredEnding` | src/Commands/SharedActions/CreateMigration.php:19-20 | The lowered name ends in `s` exactly when the name ends in `s` or `S`. |
| `TableNames.SeparatedLoweredEnding` | src/Commands/SharedActions/CreateMigration.php:17-20 | Word separation does not change whether the lowered name ends in `s`. |
| `TableNames.LoweredPluralFacts` | src/Commands/CreateModuleMigration.php:60-69 | The lower-cased (possibly separated) plural is non-empty, ends in `s`, and equals the lowered plural once underscores are removed. |
| `TableNames.CommandTableName` | src/Commands/CreateModuleMigration.php:60-69 | The migration command's table name is non-empty, ends in `s` and has no capital. Without underscores it is the lowered plural of the input. It is exactly the lowered plural when the pattern fails. |
| `TableNames.SharedLoweredFacts` | src/Commands/SharedActions/CreateMigration.php:17-19 | The helper's separated, lowered name ends in `s` exactly when the lowered name does, and agrees with it up to underscores. |
| `TableNames.SharedPluralFacts` | src/Commands/SharedActions/CreateMigration.php:20-26 | On a lower-case name the camel-case re-check is a no-op, so the plural stays free of capitals. |
| `TableNames.SharedTableName` | src/Commands/SharedActions/CreateMigration.php:17-26 | The helper's table name is non-empty, ends in `s` and has no capital. Without underscores it is the plural of the lowered name. |
| `TableNames.SeparateWordsConcat` | src/Commands/CreateModuleMigration.php:65 | Separating a concatenation separates the parts and adds an underscore where they meet at a lower→upper boundary. |
| `TableNames.SharedTableNameIs` | src/Commands/SharedActions/CreateMigration.php:17-26 | The helper's table name is the plural of the lowered, separated name. |
| `TableNames.SeparatedEndingWithoutCapitalS` | src/Commands/SharedActions/CreateMigration.php:17-22 | For a name not ending in `S`, the lowered, separated name ends in `s` exactly when the name does. |
| `TableNames.LoweredSeparatedAppendS` | src/Commands/CreateModuleMigration.php:60-69 | Appending `s` commutes with word separation followed by lower-casing. |
| `TableNames.CommandTableNameCamel` | src/Commands/CreateModuleMigration.php:64-69 | For a camel-case plural, the command's table name is the lowered, separated plural. |
| `TableNames.CommandTablePluralName` | src/Commands/CreateModuleMigration.php:60-69 | For a camel-case name already ending in `s`, the command's table name is the lowered, separated name. |
| `TableNames.CommandTableSingularName` | src/Commands/CreateModuleMigration.php:60-69 | For a camel-case name not ending in `s`, the command's table name is the lowered, separated name followed by `s`. |
| `TableNames.CommandAndSharedAgree` | src/Commands/CreateModuleMigration.php:60-69 | On a name whose plural matches the camel-case pattern and which does not end in `S`, the command and the helper derive the same table. |
| `TableNames.SeparateWordsNoCapital` | src/Commands/CreateModuleMigration.php:65 | A name without a capital after its first character is not changed by word separation. |
| `TableNames.SeparateTwoWords` | src/Commands/CreateModuleMigration.php:65 | A word ending in lower case followed by one starting with a capital, neither with a capital after its first character, gets exactly one underscore between them. |
| `TableNames.UserProfileTable` | src/Commands/CreateModuleMigration.php:60-69 | `UserProfile` gives `user_profiles` in the command and in the helper. |
| `TableNames.LowerCamelCommandTable` | src/Commands/CreateModuleMigration.php:60-69 | `userProfile` gives `userprofiles` in the command, because the pattern needs a leading capital. |
| `TableNames.LowerCamelSharedTable` | src/Commands/SharedActions/CreateMigration.php:17-26 | `userProfile` gives `user_profiles` in the helper, whose first rewrite needs no leading capital. |
| `TableNames.LowerCamelTablesDiffer` | src/Commands/SharedActions/CreateMigration.php:17-26 | `userProfile` gives `userprofiles` in the command but `user_profiles` in the helper. |
| `Registry.AutoloadKeysDistinct` | src/Commands/CreateModuleCommand.php:163-171 | The app and domain PSR-4 keys differ. |
| `Registry.RegisterAutoload` | src/Commands/CreateModuleCommand.php:161-173 | The section gains `Modules\X\App\` → `modules/X/app` and `Modules\X\Domain\` → `modules/X/domain`, and keeps every other entry. |
| `Registry.RegisterAutoloadIdempotent` | src/Commands/CreateModuleCommand.php:161-173 | Registering twice equals registering once. |
| `Registry.RegisterProvider` | src/Commands/CreateModuleCommand.php:297-312 | `None` exactly when `withProviders([` does not occur. Otherwise the entry is inserted right after an occurrence with none after it; the prefix and suffix are kept. |
| `Registry.ProviderEntry` | src/Commands/CreateModuleCommand.php:295-297 | Specified by `ModuleCommand.RegisterStage` and `ModuleCommand.RunBootstrap`. This is the text inserted after the last `withProviders([`: a newline and the provider's class constant, under the module command's provider namespace. |
| `Registry.InsertedAfterLast` | src/Commands/CreateModuleCommand.php:300-311 | `substr_replace` right after the last `withProviders([` gives a text of the shape `RegisterProvider` promises. |
| `Registry.ListenMatch` | src/Commands/CreateModuleEvent.php:142 | The match of `/protected \$listen = \[(.*?)];/s` is the leftmost opening followed by the first `];` after it. `None` exactly when no `];` starts at or after the end of an opening. |
| `Registry.ListenCapture` | src/Commands/CreateModuleEvent.php:142 | `$matches[1]` exists exactly when the pattern matches, and holds no `];`. |
| `Registry.NoCloseInSlice` | src/Commands/CreateModuleEvent.php:142 | A slice of a stretch without `];` holds none. |
| `Registry.ListenEntry` | src/Commands/CreateModuleEvent.php:152-156 | The text that replaces every `];` itself ends in `];`. |
| `Registry.ListenEntryHead` | src/Commands/CreateModuleEvent.php:152-156 | Specified by `Registry.CaptureHoldsHead` and `Registry.PatchListenThenListed`. Once spliced in, the `$listen` capture holds the event's class constant, so a second registration finds the event listed. |
| `Registry.PatchListen` | src/Commands/CreateModuleEvent.php:142-157 | No array exactly when the pattern fails. Already listed exactly when the capture contains the event name. Otherwise every `];` is replaced by the entry. |
| `Registry.NoCloseAcross` | src/Commands/CreateModuleEvent.php:152-156 | No `];` starts in a `];`-free text or where it meets a text starting with a space. |
| `Registry.ReplaceFromFirstClose` | src/Commands/CreateModuleEvent.php:152-156 | Replacing from the first `];` copies the text before it. |
| `Registry.LeftmostInKeptPrefix` | src/Commands/CreateModuleEvent.php:142 | Keeping the prefix that holds the leftmost occurrence keeps it leftmost. |
| `Registry.FirstCloseBeyondHead` | src/Commands/CreateModuleEvent.php:142 | After splicing, the first `];` past the opener lies beyond the inserted head. |
| `Registry.ContainsAcross` | src/Commands/CreateModuleEvent.php:144 | A slice spanning the head contains what the head contains. |
| `Registry.CaptureHoldsHead` | src/Commands/CreateModuleEvent.php:142-156 | After the replacement, the new capture contains the event name. |
| `Registry.CaptureOfSpliced` | src/Commands/CreateModuleEvent.php:142-156 | The same, for the spliced text. |
| `Registry.PatchListenThenListed` | src/Commands/CreateModuleEvent.php:142-157 | When `$listen` closes at the file's first `];` and the class constant contains the event name, an unlisted event is patched, and patching the patched text finds it already listed. |
| `Registry.EventNameInReference` | src/Commands/CreateModuleEvent.php:78-190 | A trimmed, capitalised event name occurs in its own class constant. |
| `SharedActions.WriteIfAbsentWritesOnlyIfAbsent` | src/Commands/SharedActions/CreateSeeder.php:27-35 | The guarded write leaves an existing target and everything else as it is with no error. It writes the rendering to an absent target. An unreadable stub escapes as the error with nothing written. |
| `SharedActions.WriteIfAbsentIdempotent` | src/Commands/SharedActions/CreateSeeder.php:27-35 | A second write to the same path changes nothing. |
| `SharedActions.CreateControllerWritesOnlyIfAbsent` | src/Commands/SharedActions/CreateController.php:15-53 | `execute` writes the controller with namespace, `App\` and class only where nothing is at `App/Http/Controllers[/Sub]/<Name>Controller.php`. |
| `SharedActions.CreateModelFactoryWritesOnlyIfAbsent` | src/Commands/SharedActions/CreateModelFactory.php:14-42 | `execute` writes the four-placeholder factory only where nothing is at `database/factories/<Name>Factory.php`, whatever the sub-directory. |
| `SharedActions.CreateSeederWritesOnlyIfAbsent` | src/Commands/SharedActions/CreateSeeder.php:14-36 | `execute` writes the seeder with its namespace and `<Name>Seeder` only where nothing is at `database/seeders/<Name>Seeder.php`. |
| `SharedActions.CreateMigrationWritesOnlyIfAbsent` | src/Commands/SharedActions/CreateMigration.php:14-43 | `execute` writes the migration with `{{ table }}` filled only where nothing is at the timestamped path. |
| `SharedActions.ModelControllerBaseName` | src/Commands/CreateModuleModel.php:111-113 | The controller extra strips back exactly the `Controller` it was given, when no other `controller` occurs. |
| `SharedActions.BackslashedDatabaseTrees` | src/Commands/SharedActions/CreateModelFactory.php:27 | `database/factories` and `database/seeders` become `database\factories` and `database\seeders`. |
| `SharedActions.DatabaseNamespaces` | src/Commands/SharedActions/CreateModelFactory.php:27-60 | The factory and seeder namespaces are `Modules\<Module>\database\factories` and `…\database\seeders`, with the directory part in lower case. |
| `SharedActions.CreateMigrationTable` | src/Commands/SharedActions/CreateMigration.php:17-42 | The migration's table is non-empty, lower-case and plural, and a new migration holds the stub with `{{ table }}` replaced. |
| `SharedActions.ExecuteCreateController` | src/Commands/SharedActions/CreateController.php:15-53 | The disk ends where `CreateController` says. |
| `SharedActions.ExecuteCreateModelFactory` | src/Commands/SharedActions/CreateModelFactory.php:14-42 | The disk ends where `CreateModelFactory` says. |
| `SharedActions.ExecuteCreateSeeder` | src/Commands/SharedActions/CreateSeeder.php:14-36 | The disk ends where `CreateSeeder` says. |
| `SharedActions.ExecuteCreateMigration` | src/Commands/SharedActions/CreateMigration.php:14-43 | The disk ends where `CreateMigration` says. |
| `SharedActions.CreateController` | src/Commands/SharedActions/CreateController.php:15-53 | Specified by `SharedActions.CreateControllerWritesOnlyIfAbsent`. It writes the controller with namespace, `App\` and class only where nothing is at its path. |
| `SharedActions.CreateModelFactory` | src/Commands/SharedActions/CreateModelFactory.php:14-42 | Specified by `SharedActions.CreateModelFactoryWritesOnlyIfAbsent`. It writes the four-placeholder factory only where nothing is at `database/factories/<Name>Factory.php`. |
| `SharedActions.CreateSeeder` | src/Commands/SharedActions/CreateSeeder.php:14-36 | Specified by `SharedActions.CreateSeederWritesOnlyIfAbsent`. It writes the seeder only where nothing is at `database/seeders/<Name>Seeder.php`. |
| `SharedActions.CreateMigration` | src/Commands/SharedActions/CreateMigration.php:14-43 | Specified by `SharedActions.CreateMigrationWritesOnlyIfAbsent`. It writes the migration with `{{ table }}` filled only where nothing is at the timestamped path. |
| `ControllerCommand.Handle` | src/Commands/CreateModuleController.php:34-107 | The disk and the exit code are those of `Run`. |
| `ControllerCommand.Run` | src/Commands/CreateModuleController.php:34-107 | Specified by `ControllerCommand.RunOutcome`, `RunTwiceRefused` and `RunAgreesWithSharedAction`. Exit 1 exactly on a missing module or an existing target, the `TypeError` on an unreadable stub, otherwise 0 with exactly the target added. A second run is refused, and the command writes what the shared helper writes. |
| `ControllerCommand.RunOutcome` | src/Commands/CreateModuleController.php:44-104 | Exit code 1 exactly when the module is missing or the target exists. The `TypeError` exactly on an unreadable stub for a new target. Otherwise 0 with exactly the rendered target added. A non-empty sub-directory exists whenever the module does. |
| `ControllerCommand.RunTwiceRefused` | src/Commands/CreateModuleController.php:85-104 | After a success, a second run returns 1 and changes nothing. |
| `ControllerCommand.RunAgreesWithSharedAction` | src/Commands/CreateModuleController.php:71-98 | In an existing module the command writes the files the shared helper writes. It returns 0 exactly when the helper changes something. |
| `RequestCommand.Handle` | src/Commands/CreateModuleHttpRequest.php:34-109 | The disk and the exit code are those of `Run`. |
| `RequestCommand.Run` | src/Commands/CreateModuleHttpRequest.php:34-109 | Specified by `RequestCommand.RunOutcome`, `RunTwiceRefused` and `NamespaceFollowsDirectory`. Exit 1 exactly on a missing module or an existing target, the `TypeError` on an unreadable stub, otherwise 0 with exactly the target added. A second run is refused. |
| `RequestCommand.RunOutcome` | src/Commands/CreateModuleHttpRequest.php:46-106 | Exit 1 exactly on a missing module or an existing target, the `TypeError` on an unreadable stub, otherwise 0 with exactly the target added. The target's directory exists after a success. |
| `RequestCommand.RunTwiceRefused` | src/Commands/CreateModuleHttpRequest.php:85-106 | A second run after a success returns 1 and changes nothing. |
| `RequestCommand.NamespaceFollowsDirectory` | src/Commands/CreateModuleHttpRequest.php:76-94 | The namespace names the file's directory exactly when the sub-directory is not `0`. |
| `ResourceCommand.Handle` | src/Commands/CreateModuleHttpResource.php:34-95 | The disk and the exit code are those of `Run`. |
| `ResourceCommand.Run` | src/Commands/CreateModuleHttpResource.php:34-95 | Specified by `ResourceCommand.RunOutcome`, `RunTwiceRefused` and `NamespaceFollowsDirectory`. Exit 1 exactly on a missing module or an existing target, the `TypeError` on an unreadable stub, otherwise 0 with exactly the target added and no directory made. A second run is refused. |
| `ResourceCommand.RunOutcome` | src/Commands/CreateModuleHttpResource.php:46-92 | Exit 1 exactly on a missing module or an existing target, the `TypeError` on an unreadable stub, otherwise 0 with exactly the target added. No directory is made. |
| `ResourceCommand.RunTwiceRefused` | src/Commands/CreateModuleHttpResource.php:75-92 | A second run after a success returns 1 and changes nothing. |
| `ResourceCommand.NamespaceFollowsDirectory` | src/Commands/CreateModuleHttpResource.php:66-81 | The namespace names the file's directory exactly when the sub-directory is not `0`. |
| `CollectionCommand.Handle` | src/Commands/CreateModuleDomainCollection.php:34-98 | The disk and the exit code are those of `Run`. |
| `CollectionCommand.Run` | src/Commands/CreateModuleDomainCollection.php:34-98 | Specified by `CollectionCommand.RunOutcome` and `RunTwiceRefused`. Exit 1 exactly on a missing module or an existing target, the `TypeError` on an unreadable stub, otherwise 0 with exactly the target added and no directory made. A second run is refused. |
| `CollectionCommand.RunOutcome` | src/Commands/CreateModuleDomainCollection.php:46-95 | Exit 1 exactly on a missing module or an existing target, the `TypeError` on an unreadable stub, otherwise 0 with exactly the target added. No directory is made. |
| `CollectionCommand.RunTwiceRefused` | src/Commands/CreateModuleDomainCollection.php:78-95 | A second run after a success returns 1 and changes nothing. |
| `JobCommand.Handle` | src/Commands/CreateModuleJob.php:34-87 | The disk and the exit code are those of `Run`. |
| `JobCommand.Run` | src/Commands/CreateModuleJob.php:34-87 | Specified by `JobCommand.RunOutcome`, `RunTwiceRefused` and `RunIgnoresSurroundingWhitespace`. Exit 0 exactly when the module exists, the stub reads and the target is absent, with exactly the target added; otherwise 1 with no file changed. A second run is refused. |
| `JobCommand.RunOutcome` | src/Commands/CreateModuleJob.php:46-85 | Exit 0 exactly when the module exists, the stub was read and the target is absent, with exactly the target added. Otherwise 1 with no file changed. With a failed read taken as `false`, no exception escapes. `App/Jobs` exists whenever the module does. |
| `JobCommand.RunTwiceRefused` | src/Commands/CreateModuleJob.php:69-85 | A second run after a success returns 1 and changes nothing. |
| `JobCommand.RunIgnoresSurroundingWhitespace` | src/Commands/CreateModuleJob.php:65-71 | Names with the same trimmed form give the same run. |
| `MigrationCommand.Handle` | src/Commands/CreateModuleMigration.php:34-96 | The disk and the exit code are those of `Run`. |
| `MigrationCommand.Run` | src/Commands/CreateModuleMigration.php:34-96 | Specified by `MigrationCommand.RunOutcome`, `RunTwiceRefused` and `EmptyTableCheckNeverFires`. Exit 1 exactly on a missing module or an existing migration, the `TypeError` on an unreadable stub, otherwise 0 with exactly the migration for `CommandTableName` added. A second run with the same timestamp is refused, and one at another timestamp writes a fresh migration (`RunLaterWritesAnother`). |
| `MigrationCommand.EmptyTableCheckNeverFires` | src/Commands/CreateModuleMigration.php:68-73 | The name after pluralising is never empty, so "table name is required" cannot be reached. The table is `CommandTableName`. |
| `MigrationCommand.RunOutcome` | src/Commands/CreateModuleMigration.php:46-94 | Exit 1 exactly on a missing module or an existing migration, the `TypeError` on an unreadable stub, otherwise 0 with exactly the migration for `CommandTableName` added. No directory is made. |
| `MigrationCommand.RunTwiceRefused` | src/Commands/CreateModuleMigration.php:82-94 | A second run with the same timestamp returns 1 and changes nothing. |
| `MigrationCommand.RunLaterWritesAnother` | src/Commands/CreateModuleMigration.php:76-94 | After a success, a run at another timestamp returns 0 and adds exactly that new migration, unless something exists at its path; at the same timestamp, or with something there, it returns 1 and changes nothing. |
| `MigrationCommand.MigrationPathInjective` | src/Commands/CreateModuleMigration.php:76 | Two migration paths of one table in one module are equal exactly when their timestamps are. |
| `ModelCommand.Handle` | src/Commands/CreateModuleModel.php:39-139 | The disk and the exit code are those of `Run`. |
| `ModelCommand.Run` | src/Commands/CreateModuleModel.php:39-139 | Specified by `ModelCommand.RunOutcome`, `RunTwiceRefused`, `RunLaterRefused` and `NamespaceFollowsDirectory`. A missing module gives 1 with nothing changed. Otherwise the directories and the chosen extras come first, then 1 on an existing model, the `TypeError` on an unreadable stub, or 0 with exactly the model added. A second run is refused; with the same timestamp it changes nothing. |
| `ModelCommand.RunExtras` | src/Commands/CreateModuleModel.php:100-114 | Specified by `ModelCommand.RunExtrasEffect`. The extras make no directory and change no file outside their targets. Each chosen extra's target exists unless an exception escaped, and the only exception is the unreadable stub. |
| `ModelCommand.PrepareDirectories` | src/Commands/CreateModuleModel.php:63-98 | Specified by `ModelCommand.PrepareDirectoriesEffect`. Every file is kept, `App/Models` and a non-empty sub-directory exist, and nothing is at the model's path. |
| `ModelCommand.RunExtrasOn` | src/Commands/CreateModuleModel.php:100-114 | The disk and error are those of `RunExtras`. |
| `ModelCommand.RunExtrasEffect` | src/Commands/CreateModuleModel.php:100-114 | The extras make no directory and change no file outside their targets. Each chosen extra's target exists unless an exception escaped. The only exception is the unreadable stub. |
| `ModelCommand.RunExtrasAgain` | src/Commands/CreateModuleModel.php:100-114 | After a successful pass of the extras, a second pass changes nothing. |
| `ModelCommand.ExtrasMissModel` | src/Commands/CreateModuleModel.php:78-114 | No extra's target is the model's file. |
| `ModelCommand.RunOutcome` | src/Commands/CreateModuleModel.php:49-136 | A missing module gives 1 with nothing changed. Otherwise the directories are made and the chosen extras run first; an unreadable extra stub escapes. Then 1 exactly on an existing model, the `TypeError` exactly on an unreadable model stub, and otherwise 0 with exactly the model added. `App/Models` and a non-empty sub-directory exist afterwards. |
| `ModelCommand.PrepareDirectoriesEffect` | src/Commands/CreateModuleModel.php:63-98 | The first directories keep every file, make `App/Models` and a non-empty sub-directory exist, and put nothing at the model's path. |
| `ModelCommand.RunTwiceRefused` | src/Commands/CreateModuleModel.php:120-136 | A second run after a success, with the same timestamp, returns 1 and changes nothing. |
| `ModelCommand.RunLaterRefused` | src/Commands/CreateModuleModel.php:100-136 | A second run after a success, at any timestamp, never returns 0: it returns 1 or the unreadable-stub `TypeError` of an extra. Only the extras' targets at the new timestamp can change, so a chosen migration extra can add a fresh migration. Without the migration extra nothing changes and the result is 1. |
| `ModelCommand.SucceededState` | src/Commands/CreateModuleModel.php:63-136 | After a success the module, `App/Models`, a non-empty sub-directory and the model file all exist. |
| `ModelCommand.RunExtrasClockFree` | src/Commands/CreateModuleModel.php:100-114 | Without the migration extra, the extras give the same result at any timestamp. |
| `ModelCommand.RunExtrasAgainAfterWrite` | src/Commands/CreateModuleModel.php:100-130 | After a successful pass of the extras and one more write of any file, a second pass changes nothing. |
| `ModelCommand.FactoryNamesTheModel` | src/Commands/SharedActions/CreateModelFactory.php:21-25 | The factory's `{{ namespacedModelPath }}` is the model's class as the model command declares it. |
| `ModelCommand.NamespaceFollowsDirectory` | src/Commands/CreateModuleModel.php:78-123 | The model's namespace names its directory exactly when the sub-directory is not `0`. |
| `EventCommand.CreateListenerOn` | src/Commands/CreateModuleEvent.php:192-232 | The disk and error are those of `CreateListener`. |
| `EventCommand.RegisterOn` | src/Commands/CreateModuleEvent.php:137-162 | The disk and outcome are those of `Register`. |
| `EventCommand.ListenerStepOn` | src/Commands/CreateModuleEvent.php:83-110 | The disk, error and listener reference are those of `ListenerStep`. |
| `EventCommand.Handle` | src/Commands/CreateModuleEvent.php:37-177 | The disk and the exit code are those of `Run`. |
| `EventCommand.Run` | src/Commands/CreateModuleEvent.php:37-177 | Specified by `EventCommand.RunNeverOverwrites`, `RunListenerOutcome`, `RunEventRefused`, `RunEventWritten` and `RunTwiceRefused`. No file but the provider is overwritten. An existing event gives 1, and a second run after a success is refused. |
| `EventCommand.CreateListener` | src/Commands/CreateModuleEvent.php:192-232 | Specified by `EventCommand.CreateListenerEffect` and `CreateListenerKeeps`. No file is removed or changed, and only the listener can be added. An existing listener is kept, and an absent one is written unless its stub is unreadable. |
| `EventCommand.ListenerStep` | src/Commands/CreateModuleEvent.php:83-110 | Specified by `EventCommand.ListenerStepEffect`. On `y`, `App/Listeners` and the listener as above, with the listener's class constant for the entry. Otherwise nothing changes and the placeholder comment is used. |
| `EventCommand.Register` | src/Commands/CreateModuleEvent.php:137-162 | Specified by `EventCommand.RegisterOutcome` and `RegisterTwiceUnchanged`. Exit 1 exactly without a provider, `File::get`'s exception for a directory there, the undefined-offset error without a `$listen` array, and 0 otherwise. A second registration changes nothing. |
| `EventCommand.PlaceEvent` | src/Commands/CreateModuleEvent.php:112-169 | Specified by `EventCommand.PlaceEventEffect` and `PlaceEventKeeps`. An existing event gives 1 and an unreadable stub the exception, both without writing. Otherwise the event is written and the registration decides the outcome. |
| `EventCommand.CreateListenerEffect` | src/Commands/CreateModuleEvent.php:205-231 | No file is removed or changed, and only the listener can be added. An existing listener is kept as it is. An absent one is written, unless its stub is unreadable, in which case the exception escapes. |
| `EventCommand.CreateListenerKeeps` | src/Commands/CreateModuleEvent.php:205-231 | Existence changes only at paths that have `L` right after the module's `App/`, as `App/Listeners/…` does. The PSR-4 section is kept, no directory disappears and a disk closed under parents stays so. |
| `EventCommand.ListenerStepEffect` | src/Commands/CreateModuleEvent.php:83-110 | On `y`, `App/Listeners` and the listener as above, with the listener's class constant for the entry. Otherwise nothing changes and the placeholder comment is used. |
| `EventCommand.RegisterOutcome` | src/Commands/CreateModuleEvent.php:137-162 | Exit 1 exactly without a provider. `File::get`'s exception exactly for a directory there. The undefined-offset error exactly without a `$listen` array. Otherwise 0, unchanged if the capture mentions the event, else every `];` replaced by the entry. |
| `EventCommand.RegisterTwiceUnchanged` | src/Commands/CreateModuleEvent.php:142-157 | When `$listen` closes at the file's first `];` and the class constant contains the event name, registering a second time returns 0 and changes nothing. |
| `EventCommand.PlaceEventEffect` | src/Commands/CreateModuleEvent.php:112-169 | An existing event gives 1 and an unreadable stub the exception, both without writing. Otherwise the event is written and registration decides. Only the provider can be overwritten. |
| `EventCommand.PlaceEventKeeps` | src/Commands/CreateModuleEvent.php:112-135 | Placing the event keeps the PSR-4 section, removes no directory and keeps a disk closed under parents so. |
| `EventCommand.RunNeverOverwrites` | src/Commands/CreateModuleEvent.php:47-176 | The command changes no file but the provider and adds none but the event and, on `y`, the listener. It keeps the PSR-4 section, removes no directory and keeps a disk closed under parents so. A missing module gives 1 with nothing changed. |
| `EventCommand.RunListenerOutcome` | src/Commands/CreateModuleEvent.php:83-232 | An unreadable listener stub for a new listener escapes before any file is written. Otherwise a listener that was asked for exists afterwards. |
| `EventCommand.RunEventRefused` | src/Commands/CreateModuleEvent.php:127-169 | Past the listener, an existing event gives 1 and an unreadable event stub the exception, with no file but the listener's changed. |
| `EventCommand.RunEventWritten` | src/Commands/CreateModuleEvent.php:127-164 | A new event is written and kept. Registration then decides: 1 without a provider, an exception for a directory or a missing `$listen` array, 0 otherwise. |
| `EventCommand.RunTwiceRefused` | src/Commands/CreateModuleEvent.php:112-169 | After a success, a second run returns 1, because the event exists. No file but the listener's is added or changed, and the listener exists already. |
| `EventCommand.AfterListener` | src/Commands/CreateModuleEvent.php:55-110 | Once `App/Events` is made and the listener is dealt with, the event and provider paths are as they were. |
| `EventCommand.EventsDirectoryMissesTargets` | src/Commands/CreateModuleEvent.php:55-58 | Making `App/Events` creates nothing at the event's, listener's or provider's path. |
| `EventCommand.NotTheProvider` | src/Commands/CreateModuleEvent.php:138-202 | The listener's path is never the provider's. |
| `EventCommand.EventPathHead` | src/Commands/CreateModuleEvent.php:113-115 | The event's path is longer than `App/Events` under the module and has `E` right after `App/`. |
| `EventCommand.ListenerPathHead` | src/Commands/CreateModuleEvent.php:200-202 | The listener's path has `L` right after `App/`. |
| `EventCommand.ProviderPathHead` | src/Commands/CreateModuleEvent.php:138 | The provider's path has `P` right after `App/`. |
| `ModuleCommand.Optional` | src/Commands/CreateModuleCommand.php:142-148 | Only directories are added: the files and the PSR-4 section are kept, and a disk closed under parents stays so. |
| `ModuleCommand.Skeleton` | src/Commands/CreateModuleCommand.php:53-67 | Making the module and its six top-level directories only adds directories: the files and the PSR-4 section are kept, and a disk closed under parents stays so. |
| `ModuleCommand.DomainLayout` | src/Commands/CreateModuleCommand.php:99-148 | Making the database, domain and tests trees and the optional process manager only adds directories, as for `Skeleton`. |
| `ModuleCommand.AppLayout` | src/Commands/CreateModuleCommand.php:183-241 | Making the app trees with the optional events, listeners and middleware only adds directories, as for `Skeleton`. |
| `ModuleCommand.SkeletonMakes` | src/Commands/CreateModuleCommand.php:53-67 | The skeleton holds the module and its six top-level directories. |
| `ModuleCommand.DomainLayoutMakes` | src/Commands/CreateModuleCommand.php:99-135 | The domain layout holds every fixed database, domain and tests directory. |
| `ModuleCommand.AppLayoutMakes` | src/Commands/CreateModuleCommand.php:183-228 | The app layout holds every fixed app and Http directory. |
| `ModuleCommand.UnderMade` | src/Commands/CreateModuleCommand.php:65-67 | Every `base/name` of a `foreach` of `mkdir`s is a directory afterwards. |
| `ModuleCommand.UnderKeeps` | src/Commands/CreateModuleCommand.php:106-135 | A `foreach` of `mkdir`s leaves the existence of a directory apart from all its paths as it was. |
| `ModuleCommand.OptionalKeeps` | src/Commands/CreateModuleCommand.php:142-148 | An optional `mkdir` leaves every directory that is not on its way as it was. |
| `ModuleCommand.WriteBaseFilesOn` | src/Commands/CreateModuleCommand.php:69-97 | The three stub checks and writes end as `WriteBaseFiles` says. |
| `ModuleCommand.WriteProvidersOn` | src/Commands/CreateModuleCommand.php:243-291 | The three provider writes end as `WriteProviders` says. |
| `ModuleCommand.OptionalOn` | src/Commands/CreateModuleCommand.php:142-148 | The disk ends as `Optional` says. |
| `ModuleCommand.PrepareOn` | src/Commands/CreateModuleCommand.php:99-241 | The directories and composer.json edit end as `Prepared` says. |
| `ModuleCommand.RegisterModuleProviderOn` | src/Commands/CreateModuleCommand.php:293-320 | The bootstrap edit ends as `RegisterModuleProvider` says. |
| `ModuleCommand.Handle` | src/Commands/CreateModuleCommand.php:37-326 | The disk and the exit code are those of `Run`. |
| `ModuleCommand.Run` | src/Commands/CreateModuleCommand.php:37-326 | Specified by `ModuleCommand.RunOutcome`, `RunWrites`, `RunLayout`, `RunKeepsFile`, `RunBootstrap` and `RunTwiceRefused`. An existing module gives 1 with nothing done. Otherwise 0 exactly when every stub reads and, in development, the bootstrap insertion succeeds. The six targets and the layout exist after a success, and a second run is refused. |
| `ModuleCommand.WriteBaseFiles` | src/Commands/CreateModuleCommand.php:69-97 | Specified by `ModuleCommand.BaseStage`. The config and route files are written exactly when their three stubs read, and only files change. |
| `ModuleCommand.WriteProviders` | src/Commands/CreateModuleCommand.php:243-291 | Specified by `ModuleCommand.ProviderStage`. The providers are written exactly when their stubs read, each with its configured stub, and only files change. |
| `ModuleCommand.Prepared` | src/Commands/CreateModuleCommand.php:99-241 | Specified by `ModuleCommand.PreparedFrame`, `PreparedMakes` and `PreparedOptional`. Files are kept and no directory disappears. The fixed trees exist afterwards, and the PSR-4 section gains the module's entries in development only. |
| `ModuleCommand.RegisterModuleProvider` | src/Commands/CreateModuleCommand.php:292-321 | Specified by `ModuleCommand.RegisterStage`. Without bootstrap/app.php it raises `File::get`'s exception, and without `withProviders([` it returns 1 unchanged. Otherwise it writes the inserted text and returns 0. |
| `ModuleCommand.ConfigureStub` | src/Commands/CreateModuleCommand.php:328-338 | Specified by `ModuleCommand.ProviderStage` and `ModuleCommand.RunWrites`. Each provider holds its stub with namespace, class and key replaced in that order. |
| `ModuleCommand.NotTheBootstrap` | src/Commands/CreateModuleCommand.php:70-291 | Every file the command writes lies in the module, away from bootstrap/app.php. |
| `ModuleCommand.ProviderCollisions` | src/Commands/CreateModuleCommand.php:246-278 | The module's own provider is the route or event provider exactly when the module is named `Route` or `Event`. The two fixed providers differ. |
| `ModuleCommand.ProviderClassCollision` | src/Commands/CreateModuleCommand.php:278 | The module provider's file is the file of provider `<stem>ServiceProvider` exactly when the module name is `stem`. |
| `ModuleCommand.ProviderFileInjective` | src/Commands/CreateModuleCommand.php:246-278 | Two provider classes share a file exactly when they are the same class. |
| `ModuleCommand.BaseFilesDistinct` | src/Commands/CreateModuleCommand.php:70-90 | The config, web-route and api-route files are three different paths. |
| `ModuleCommand.BaseFilesNotProviders` | src/Commands/CreateModuleCommand.php:70-278 | None of the config and route files is a provider file. |
| `ModuleCommand.PutStub` | src/Commands/CreateModuleCommand.php:71-77 | A stub check and write changes no directory and no PSR-4 entry. The run goes on exactly when it was going on and the stub was read. |
| `ModuleCommand.BaseStage` | src/Commands/CreateModuleCommand.php:69-97 | The config and route files are written exactly when their three stubs read, and only files change. |
| `ModuleCommand.BaseKeeps` | src/Commands/CreateModuleCommand.php:69-97 | Writing the base files removes no file, and a file other than the three targets is neither added nor changed. |
| `ModuleCommand.BaseKeepsBootstrap` | src/Commands/CreateModuleCommand.php:69-97 | Writing the base files leaves bootstrap/app.php as it was. |
| `ModuleCommand.ProviderStage` | src/Commands/CreateModuleCommand.php:243-291 | The providers are written exactly when their stubs read, each with its configured stub, and only files change. |
| `ModuleCommand.ProviderKeeps` | src/Commands/CreateModuleCommand.php:243-291 | Writing the providers removes no file, and a file other than the three provider files is neither added nor changed. |
| `ModuleCommand.ProvidersKeepBootstrap` | src/Commands/CreateModuleCommand.php:243-291 | Writing the providers leaves bootstrap/app.php as it was. |
| `ModuleCommand.ProvidersKeepBase` | src/Commands/CreateModuleCommand.php:243-291 | Writing the providers keeps the config and route files. |
| `ModuleCommand.BootstrapKept` | src/Commands/CreateModuleCommand.php:37-291 | Up to the bootstrap edit, bootstrap/app.php is as it was. |
| `ModuleCommand.RegisterKeepsTargets` | src/Commands/CreateModuleCommand.php:293-320 | The bootstrap edit leaves every file the command wrote before as it was. |
| `ModuleCommand.RegisterStage` | src/Commands/CreateModuleCommand.php:293-320 | The bootstrap edit raises `File::get`'s exception without the file, and returns 1 unchanged without `withProviders([`. Otherwise it writes the inserted text and returns 0. |
| `ModuleCommand.SkeletonOptional` | src/Commands/CreateModuleCommand.php:53-67 | A fresh module's skeleton holds none of the optional directories. |
| `ModuleCommand.DomainLayoutOptional` | src/Commands/CreateModuleCommand.php:99-148 | The domain layout makes the process manager's directory exactly on `yes` and none of the other three. |
| `ModuleCommand.AppLayoutOptional` | src/Commands/CreateModuleCommand.php:183-241 | The app layout makes events, listeners and middleware each exactly on its own `yes`. |
| `ModuleCommand.PreparedFrame` | src/Commands/CreateModuleCommand.php:99-241 | Between the route files and the providers, the files are kept and no directory disappears. The PSR-4 section gains the module's entries in development only. A disk closed under parents stays so. |
| `ModuleCommand.PreparedFiles` | src/Commands/CreateModuleCommand.php:99-241 | The directories and the composer.json edit add or change no file in the model. |
| `ModuleCommand.PreparedMakes` | src/Commands/CreateModuleCommand.php:99-228 | Every fixed database, domain, tests, app and Http directory exists after that stage. |
| `ModuleCommand.PreparedOptional` | src/Commands/CreateModuleCommand.php:142-241 | Starting without them, each optional directory exists after that stage exactly when its answer is `yes`. |
| `ModuleCommand.RunOutcome` | src/Commands/CreateModuleCommand.php:46-320 | An existing module gives 1 with nothing done. Otherwise 0 exactly when every stub reads and, in development, bootstrap/app.php has `withProviders([`. The exception exactly when that file is missing in development. 1 otherwise. |
| `ModuleCommand.RunFrame` | src/Commands/CreateModuleCommand.php:154-181 | The PSR-4 section gains the module's entries exactly in development once the route files are written. No directory disappears. |
| `ModuleCommand.RunSkeleton` | src/Commands/CreateModuleCommand.php:53-67 | Past the module check, the module and its six top-level directories exist. |
| `ModuleCommand.RunLayout` | src/Commands/CreateModuleCommand.php:55-228 | Once the route files are written, every fixed directory of the module exists. |
| `ModuleCommand.RunOptional` | src/Commands/CreateModuleCommand.php:142-241 | On a disk closed under parents, each optional directory exists exactly when the route files were written and its answer is `yes`. |
| `ModuleCommand.RunRemovesNothing` | src/Commands/CreateModuleCommand.php:37-326 | No file disappears. |
| `ModuleCommand.RunKeepsFile` | src/Commands/CreateModuleCommand.php:37-326 | A file other than bootstrap/app.php and the six targets is neither added nor changed. |
| `ModuleCommand.RunWrites` | src/Commands/CreateModuleCommand.php:69-338 | With every stub readable, all six targets exist. The config and route files hold their stubs and each provider its configured stub, except that a `Route` or `Event` module's own provider replaces that one. |
| `ModuleCommand.RunBootstrap` | src/Commands/CreateModuleCommand.php:293-312 | A development success had `withProviders([` and now holds the provider entry inserted after the last one. |
| `ModuleCommand.RunBootstrapKept` | src/Commands/CreateModuleCommand.php:293-320 | After a failure, or outside development, bootstrap/app.php is as it was. |
| `ModuleCommand.RunTwiceRefused` | src/Commands/CreateModuleCommand.php:46-51 | Past the module check the module exists, so any second run returns 1 and changes nothing. |

## Left out

- Prompts and console output (`text`, `multiselect`, `info`, `outro`, `error`) are left out. The answers are parameters.
- Stub reads (`file_get_contents`) and the clock (`date('Y_m_d_His')`) are parameters. A stub is `None` when it cannot be read.
- `app()->environment() === 'development'` is a boolean parameter.
- In composer.json, only the PSR-4 section is modelled. The JSON decoding and encoding, `fluent(...)->scope`, reading the file and `exec('composer dump-autoload')` are left out. A missing composer.json is not modelled.
- `app()->basePath()` is taken as the project root, so bootstrap/app.php is the relative path `bootstrap/app.php`.
- PHP warnings that Laravel turns into exceptions are not modelled, apart from the undefined `$matches[1]`.
  This includes the warning of `file_get_contents` on an unreadable stub. Under Laravel's error handler that warning is an `ErrorException` at the read itself, before the target check.
  The model instead takes the read to return `false` and goes on. So every outcome that depends on an unreadable stub holds only under that choice: the `TypeError` of `str_replace` in the other commands, and the job command's exit code 1 with no exception.
- `File::put` and `File::makeDirectory` failures are not modelled: permissions, a missing parent directory for `put`, or a file in the way of `mkdir`. Directory modes are not modelled either.
- Case-insensitive disks are not modelled. Paths are compared exactly.
- Text is modelled as ASCII only. `ucfirst`, `strtolower` and `str_ireplace` are modelled on ASCII letters.
- `PHP_EOL` is taken to be `"\n"`.
- The `$listen` pattern is modelled as literal text up to the first `];`. Regular-expression engine details beyond that are not modelled.
- `canContinueEventCreation` is always true, because `createListener` always returns true. Its `Event creation failed!` branch, `src/Commands/CreateModuleEvent.php:170-174`, is unreachable and not modelled.
- src/ModuleDesignCommandsServiceProvider.php, src/Facades/ModuleDesignCommands.php, src/Commands/ModuleDesignCommandsCommand.php and src/Commands/ModuleDesignCommands.php are not part of this model. They are framework wiring and hold no logic.
- `ModuleCommand.RunOptional`: needs a disk whose directories are closed under parents. On other disks an optional directory may already have existed.
- `ModuleCommand.RunWrites`: needs every stub readable. With an unreadable stub, `RunOutcome` gives only the exit code, and `RunKeepsFile`/`RunRemovesNothing` the frame.
- `TableNames.CommandAndSharedAgree`: is proved only for names whose plural matches the camel-case pattern and which do not end in `S`. The derivations differ elsewhere, as `TableNames.LowerCamelTablesDiffer` shows.
