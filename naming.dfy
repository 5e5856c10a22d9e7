/**
  Name and namespace derivation shared by every generator: the module root,
  the `getNamespace` / `getReferencePath` helpers, the choice of sub-directory
  and the removal of a redundant type word from an entity name.
*/
module Naming {
  import opened PhpStrings

  /** Every module lives under this directory, relative to the project root. */
  const ModulesRoot := "modules"

  /** `modules/` + ucfirst(name), the directory every command checks first. */
  function ModulePath(moduleName: string): (r: string)
    ensures |r| == 8 + |moduleName| && r[..8] == "modules/"
    ensures r[8..] == UcFirst(moduleName)
    ensures moduleName != [] ==> !IsLower(r[8])
  {
    ModulesRoot + "/" + UcFirst(moduleName)
  }

  /**
    `getNamespace` of the entity commands and shared actions: `Modules\`, the
    module name with `/` rewritten to `\` and its first letter upper-cased,
    then the directory with `/` rewritten to `\`.
  */
  function Namespace(rootNamespace: string, directoryName: string): (r: string)
    ensures |r| == 9 + |rootNamespace| + |directoryName|
    ensures r[..8] == "Modules\\"
    ensures forall i :: 0 <= i < |r| ==> r[i] != '/'
    ensures r[8..8 + |rootNamespace|] == UcFirst(Backslashed(rootNamespace))
    ensures r[8 + |rootNamespace|] == '\\'
    ensures r[9 + |rootNamespace|..] == Backslashed(directoryName)
    ensures forall i :: 0 <= i < |directoryName| ==>
      r[9 + |rootNamespace| + i] == if directoryName[i] == '/' then '\\' else directoryName[i]
  {
    NamespaceParts(rootNamespace, directoryName);
    "Modules\\" + UcFirst(Backslashed(rootNamespace)) + "\\" + Backslashed(directoryName)
  }

  /** The facts `Namespace` promises, about the joined text itself. */
  lemma NamespaceParts(rootNamespace: string, directoryName: string)
    ensures var r := "Modules\\" + UcFirst(Backslashed(rootNamespace)) + "\\" + Backslashed(directoryName);
      && |r| == 9 + |rootNamespace| + |directoryName|
      && r[..8] == "Modules\\"
      && (forall i :: 0 <= i < |r| ==> r[i] != '/')
      && r[8..8 + |rootNamespace|] == UcFirst(Backslashed(rootNamespace))
      && r[8 + |rootNamespace|] == '\\'
      && r[9 + |rootNamespace|..] == Backslashed(directoryName)
      && (forall i :: 0 <= i < |directoryName| ==>
            r[9 + |rootNamespace| + i] == if directoryName[i] == '/' then '\\' else directoryName[i])
  {
    var a, b, c := "Modules\\", UcFirst(Backslashed(rootNamespace)), Backslashed(directoryName);
    assert |b| == |rootNamespace| && forall i :: 0 <= i < |b| ==> b[i] != '/' by { HeadHasNoSlash(rootNamespace); }
    assert |c| == |directoryName| && forall i :: 0 <= i < |c| ==> c[i] == if directoryName[i] == '/' then '\\' else directoryName[i] by {
      BackslashedAt(directoryName);
    }
    assert forall i :: 0 <= i < |a| ==> a[i] != '/';
    JoinedParts(a, b, c);
  }

  /** The module part of a namespace keeps the name's length and holds no `/`. */
  lemma HeadHasNoSlash(s: string)
    ensures |UcFirst(Backslashed(s))| == |s|
    ensures forall i :: 0 <= i < |s| ==> UcFirst(Backslashed(s))[i] != '/'
  {
    BackslashedAt(s);
  }

  /** Where the three parts of `a + b + "\\" + c` sit, and that it holds a `/` only where a part does. */
  lemma JoinedParts(a: string, b: string, c: string)
    ensures var r := a + b + "\\" + c;
      && r[..|a|] == a && r[|a|..|a| + |b|] == b && r[|a| + |b|] == '\\' && r[|a| + |b| + 1..] == c
      && (forall i :: 0 <= i < |c| ==> r[|a| + |b| + 1 + i] == c[i])
      && ((forall i :: 0 <= i < |a| ==> a[i] != '/') ==>
          (forall i :: 0 <= i < |b| ==> b[i] != '/') ==>
          (forall i :: 0 <= i < |c| ==> c[i] != '/') ==>
          forall i :: 0 <= i < |r| ==> r[i] != '/')
  {
    var r := a + b + "\\" + c;
    forall i | 0 <= i < |r|
      ensures r[i] == if i < |a| then a[i] else if i < |a| + |b| then b[i - |a|] else if i == |a| + |b| then '\\' else c[i - |a| - |b| - 1]
    {
    }
  }

  /**
    `getNamespace` of the module command: the directory goes under `\App\`
    and, unlike the entity commands' helper, is not rewritten.
  */
  function ProviderNamespace(rootNamespace: string, directoryName: string): string
  {
    "Modules\\" + UcFirst(Backslashed(rootNamespace)) + "\\App\\" + directoryName
  }

  /** `getReferencePath` of the event command: a fully qualified class name. */
  function ReferencePath(rootNamespace: string, directoryName: string, name: string): (r: string)
    ensures r == Namespace(rootNamespace, directoryName) + "\\" + UcFirst(Trim(name))
  {
    "Modules\\" + UcFirst(Backslashed(rootNamespace)) + "\\" + Backslashed(directoryName) + "\\" + UcFirst(Trim(name))
  }

  /**
    The module command's namespace is the entity commands' namespace of
    `App/` + the directory exactly when the directory holds no `/`; with a
    nested directory the module command keeps the `/` in the namespace.
  */
  lemma ProviderNamespaceAgreement(rootNamespace: string, directoryName: string)
    ensures ProviderNamespace(rootNamespace, directoryName) == Namespace(rootNamespace, "App/" + directoryName)
        <==> forall i :: 0 <= i < |directoryName| ==> directoryName[i] != '/'
  {
    var head := "Modules\\" + UcFirst(Backslashed(rootNamespace)) + "\\App\\";
    assert ProviderNamespace(rootNamespace, directoryName) == head + directoryName;
    assert Namespace(rootNamespace, "App/" + directoryName) == head + Backslashed(directoryName) by {
      BackslashedAppend("App/", directoryName);
      assert Backslashed("App/") == "App\\" by { BackslashedAt("App/"); }
    }
    SameHeadIff(head, directoryName, Backslashed(directoryName));
    BackslashedKeepsPlain(directoryName);
  }

  /** Two texts with the same head are equal exactly when their rests are. */
  lemma SameHeadIff(head: string, x: string, y: string)
    ensures head + x == head + y <==> x == y
  {
    if head + x == head + y {
      assert x == (head + x)[|head|..];
      assert y == (head + y)[|head|..];
    }
  }

  /** Which sub-directory names count: any non-empty one, or one that is also not "0" (PHP truthiness). */
  datatype SubRule = NonEmpty | NonEmptyNorZero

  predicate UsesSub(sub: string, rule: SubRule)
  {
    match rule
    case NonEmpty => sub != ""
    case NonEmptyNorZero => Truthy(sub)
  }

  /** A kind's sub-tree, extended by ucfirst(sub) when the sub-directory counts under `rule`. */
  function SubDirectory(subtree: string, sub: string, rule: SubRule): string
  {
    if UsesSub(sub, rule) then subtree + "/" + UcFirst(sub) else subtree
  }

  /** The file `fileName` in a kind's sub-tree (and sub-directory) of a module. */
  function EntityPath(modulePath: string, subtree: string, sub: string, rule: SubRule, fileName: string): string
  {
    modulePath + "/" + SubDirectory(subtree, sub, rule) + "/" + fileName
  }

  /** A kind's directory inside a module spells the sub-tree's name right after the module's path. */
  lemma DirectoryAt(modulePath: string, subtree: string, sub: string, rule: SubRule, k: nat)
    requires k < |subtree|
    ensures |modulePath + "/" + SubDirectory(subtree, sub, rule)| > |modulePath| + 1 + k
    ensures (modulePath + "/" + SubDirectory(subtree, sub, rule))[|modulePath| + 1 + k] == subtree[k]
  {
    assert SubDirectory(subtree, sub, rule)[k] == subtree[k];
  }

  /** So does a file's path, which is longer than its directory's. */
  lemma EntityPathAt(modulePath: string, subtree: string, sub: string, rule: SubRule, fileName: string, k: nat)
    requires k < |subtree|
    ensures |EntityPath(modulePath, subtree, sub, rule, fileName)| > |modulePath + "/" + SubDirectory(subtree, sub, rule)|
    ensures EntityPath(modulePath, subtree, sub, rule, fileName)[|modulePath| + 1 + k] == subtree[k]
  {
    var directory := modulePath + "/" + SubDirectory(subtree, sub, rule);
    DirectoryAt(modulePath, subtree, sub, rule, k);
    assert EntityPath(modulePath, subtree, sub, rule, fileName) == directory + ("/" + fileName);
  }

  /**
    Where a command decides the file's directory with one rule and its
    namespace with another, the two disagree for the sub-directory "0" only:
    the file goes to `subtree/0` or `subtree`, the namespace says the other.
  */
  lemma SubRulesDisagreeOnlyOnZero(subtree: string, sub: string)
    ensures SubDirectory(subtree, sub, NonEmpty) != SubDirectory(subtree, sub, NonEmptyNorZero) <==> sub == "0"
  {
    if sub == "0" {
      assert |SubDirectory(subtree, sub, NonEmpty)| == |subtree| + 2;
    }
  }

  /**
    So a command that places the file by one rule and names its namespace by
    the other gives a namespace that follows the file's directory for every
    sub-directory except "0".
  */
  lemma NamespaceRulesDisagreeOnlyOnZero(rootNamespace: string, subtree: string, sub: string)
    ensures (Namespace(rootNamespace, SubDirectory(subtree, sub, NonEmptyNorZero))
             == Namespace(rootNamespace, SubDirectory(subtree, sub, NonEmpty))) <==> sub != "0"
  {
    SubRulesDisagreeOnlyOnZero(subtree, sub);
    if sub == "0" {
      assert |SubDirectory(subtree, sub, NonEmpty)| == |subtree| + 2;
    }
  }

  /** The condition under which a command strips its type word from a name. */
  predicate StripTriggered(name: string, word: string, lowerTrigger: bool)
  {
    Contains(name, word) || (lowerTrigger && Contains(name, StrToLower(word)))
  }

  /**
    The commands' suffix stripping: when `name` contains `word` (or, with
    `lowerTrigger`, its lower-case form), every case-insensitive occurrence
    of `word` is removed by one `str_ireplace` pass; otherwise `name` stays.
  */
  function StripKind(name: string, word: string, lowerTrigger: bool): (r: string)
    ensures !StripTriggered(name, word, lowerTrigger) ==> r == name
    ensures |r| <= |name|
  {
    if StripTriggered(name, word, lowerTrigger) then
      if |word| > 0 then ReplaceAllLength(name, word, "", true); ReplaceAll(name, word, "", true)
      else name
    else name
  }

  lemma FoldLowerTwice(s: string)
    ensures Fold(StrToLower(s), true) == Fold(s, true)
  {
  }

  /**
    For a non-empty type word, stripping changes the name exactly when the
    trigger fires: a triggered name always loses at least one occurrence.
  */
  lemma StripKindChangesIff(name: string, word: string, lowerTrigger: bool)
    requires |word| > 0
    ensures StripKind(name, word, lowerTrigger) != name <==> StripTriggered(name, word, lowerTrigger)
  {
    if StripTriggered(name, word, lowerTrigger) {
      var pat := if Contains(name, word) then word else StrToLower(word);
      ContainsIff(name, pat);
      var i: nat :| MatchAt(name, i, pat, false);
      assert name[i..i + |pat|] == pat;
      FoldLowerTwice(word);
      assert MatchAt(name, i, word, true);
      ReplaceAllUnchangedIff(name, word, "", true);
    }
  }

  /**
    A name holding the type word once (case-insensitively: no occurrence
    starts before it and none in what follows) loses exactly that word
    (`InvoiceController` becomes `Invoice`, `UserModelData` becomes `UserData`).
  */
  lemma StripSingleKindWord(stem: string, word: string, rest: string, lowerTrigger: bool)
    requires |word| > 0
    requires forall j: nat :: j < |stem| ==> !MatchAt(stem + word + rest, j, word, true)
    requires forall j: nat :: !MatchAt(rest, j, word, true)
    ensures StripKind(stem + word + rest, word, lowerTrigger) == stem + rest
  {
    var name := stem + word + rest;
    var tail := word + rest;
    assert name == stem + tail;
    assert MatchAt(name, |stem|, word, false) by { assert name[|stem|..|stem| + |word|] == word; }
    ContainsIff(name, word);
    assert StripKind(name, word, lowerTrigger) == ReplaceAll(name, word, "", true);
    ReplaceAllKeepsPrefix(stem, tail, word, "", true);
    assert MatchAt(tail, 0, word, true) by { assert tail[0..|word|] == word; }
    assert tail[|word|..] == rest;
    assert ReplaceAll(tail, word, "", true) == ReplaceAll(rest, word, "", true);
    ReplaceAllNoMatch(rest, word, "", true);
  }

  /**
    Stripping is one pass, so a second pass can remove more: removing
    `Model` from `MoModeldel` joins the rest into a new `Model`, which a
    second pass removes.
  */
  lemma StripKindIsNotIdempotent()
    ensures var once := StripKind("Mo" + "Model" + "del", "Model", true);
      once == "Mo" + "del" && StripKind(once, "Model", true) == "" && once != ""
  {
    StripInnerModel();
    assert "Mo" + "del" == "" + "Model" + "";
    StripSingleKindWord("", "Model", "", true);
  }

  /** The first pass over `MoModeldel`: its only occurrence of `Model` starts at index 2. */
  lemma StripInnerModel()
    ensures StripKind("Mo" + "Model" + "del", "Model", true) == "Mo" + "del"
  {
    var name := "Mo" + "Model" + "del";
    assert !MatchAt(name, 0, "Model", true) by { assert Fold(name[0..5], true)[2] == 'm'; }
    assert !MatchAt(name, 1, "Model", true) by { assert Fold(name[1..6], true)[0] == 'o'; }
    StripSingleKindWord("Mo", "Model", "del", true);
  }
}
