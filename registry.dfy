/**
  The three text registries the commands edit besides the files they
  generate: the `autoload.psr-4` section of composer.json, the
  `withProviders([` list of bootstrap/app.php, and the `$listen` array of a
  module's EventServiceProvider.
*/
module Registry {
  import opened Options
  import opened PhpStrings
  import opened Naming

  // ---------------------------------------------------------------- composer.json

  /** The PSR-4 prefix of a module's `app` directory. */
  function AppAutoloadKey(moduleName: string): string
  {
    "Modules\\" + UcFirst(moduleName) + "\\App\\"
  }

  /** The PSR-4 prefix of a module's `domain` directory. */
  function DomainAutoloadKey(moduleName: string): string
  {
    "Modules\\" + UcFirst(moduleName) + "\\Domain\\"
  }

  lemma AutoloadKeysDistinct(moduleName: string)
    ensures AppAutoloadKey(moduleName) != DomainAutoloadKey(moduleName)
  {
    var n := |"Modules\\" + UcFirst(moduleName) + "\\"|;
    assert AppAutoloadKey(moduleName)[n] == 'A';
    assert DomainAutoloadKey(moduleName)[n] == 'D';
  }

  /**
    The module command's composer.json edit: the module's `app` and
    `domain` directories are mapped under their prefixes and every other
    PSR-4 entry is kept.
  */
  function RegisterAutoload(psr4: map<string, string>, moduleName: string): (r: map<string, string>)
    ensures r.Keys == psr4.Keys + {AppAutoloadKey(moduleName), DomainAutoloadKey(moduleName)}
    ensures r[AppAutoloadKey(moduleName)] == ModulePath(moduleName) + "/app"
    ensures r[DomainAutoloadKey(moduleName)] == ModulePath(moduleName) + "/domain"
    ensures forall k :: k in psr4 && k != AppAutoloadKey(moduleName) && k != DomainAutoloadKey(moduleName) ==> r[k] == psr4[k]
  {
    AutoloadKeysDistinct(moduleName);
    psr4[AppAutoloadKey(moduleName) := ModulePath(moduleName) + "/app"]
        [DomainAutoloadKey(moduleName) := ModulePath(moduleName) + "/domain"]
  }

  /** Registering a module twice leaves the section as registering it once. */
  lemma RegisterAutoloadIdempotent(psr4: map<string, string>, moduleName: string)
    ensures RegisterAutoload(RegisterAutoload(psr4, moduleName), moduleName) == RegisterAutoload(psr4, moduleName)
  {
    var once := RegisterAutoload(psr4, moduleName);
    var twice := RegisterAutoload(once, moduleName);
    assert forall k :: k in twice ==> twice[k] == once[k];
  }

  // ---------------------------------------------------------------- bootstrap/app.php

  /** The call whose list receives the module's service provider. */
  const ProvidersNeedle := "withProviders(["

  /** A newline, then the provider's fully qualified class constant and a comma. */
  function ProviderEntry(moduleName: string): string
  {
    "\n" + "\\" + ProviderNamespace(moduleName, "Providers") + "\\" + moduleName + "ServiceProvider::class,"
  }

  /**
    The bootstrap edit: `entry` inserted right after the last occurrence of
    `withProviders([`, everything else kept in place; `None` (the command's
    exit code 1) when the file has no such occurrence.
  */
  function RegisterProvider(content: string, entry: string): (r: Option<string>)
    ensures r.None? <==> forall j :: !MatchAt(content, j, ProvidersNeedle, false)
    ensures r.Some? ==> exists q: nat ::
      && |ProvidersNeedle| <= q <= |content|
      && MatchAt(content, q - |ProvidersNeedle|, ProvidersNeedle, false)
      && (forall j: nat :: j > q - |ProvidersNeedle| ==> !MatchAt(content, j, ProvidersNeedle, false))
      && |r.value| == |content| + |entry|
      && r.value[..q] == content[..q]
      && r.value[q..q + |entry|] == entry
      && r.value[q + |entry|..] == content[q..]
  {
    match LastIndexOf(content, ProvidersNeedle)
    case None => None
    case Some(p) =>
      var r := InsertAt(content, p + |ProvidersNeedle|, entry);
      InsertedAfterLast(content, entry, p, r);
      Some(r)
  }

  /** Inserting right after the last `withProviders([`, at `p`, is an insertion of the kind the edit promises. */
  lemma InsertedAfterLast(content: string, entry: string, p: nat, r: string)
    requires MatchAt(content, p, ProvidersNeedle, false)
    requires forall j :: p < j ==> !MatchAt(content, j, ProvidersNeedle, false)
    requires r == InsertAt(content, p + |ProvidersNeedle|, entry)
    ensures exists q: nat ::
      && |ProvidersNeedle| <= q <= |content|
      && MatchAt(content, q - |ProvidersNeedle|, ProvidersNeedle, false)
      && (forall j: nat :: j > q - |ProvidersNeedle| ==> !MatchAt(content, j, ProvidersNeedle, false))
      && |r| == |content| + |entry|
      && r[..q] == content[..q]
      && r[q..q + |entry|] == entry
      && r[q + |entry|..] == content[q..]
  {
    var q := p + |ProvidersNeedle|;
    assert q - |ProvidersNeedle| == p;
  }

  // ---------------------------------------------------------------- EventServiceProvider.php

  /** The text `protected \$listen = \[` of the pattern `/protected \$listen = \[(.*?)];/s`. */
  const ListenOpen := "protected $listen = ["
  /** The text that ends the lazily matched capture. */
  const ListenClose := "];"

  /**
    `preg_match('/protected \$listen = \[(.*?)];/s', s, $matches)`, as the
    bounds of `$matches[1]`: the leftmost opening, then the first `];` after
    it; `None` when the pattern does not match.
  */
  function ListenMatch(s: string): (r: Option<(nat, nat)>)
    ensures r.Some? ==> (
      && |ListenOpen| <= r.value.0 <= r.value.1
      && MatchAt(s, r.value.0 - |ListenOpen|, ListenOpen, false)
      && MatchAt(s, r.value.1, ListenClose, false)
      && (forall j: nat :: j < r.value.0 - |ListenOpen| ==> !MatchAt(s, j, ListenOpen, false))
      && (forall j: nat :: r.value.0 <= j < r.value.1 ==> !MatchAt(s, j, ListenClose, false)))
    ensures r.None? <==> forall i: nat, j: nat ::
      MatchAt(s, i, ListenOpen, false) && MatchAt(s, j, ListenClose, false) ==> j < i + |ListenOpen|
  {
    match IndexOf(s, ListenOpen, 0, false)
    case None => None
    case Some(a) =>
      match IndexOf(s, ListenClose, a + |ListenOpen|, false)
      case None =>
        assert forall i: nat, j: nat :: MatchAt(s, i, ListenOpen, false) && MatchAt(s, j, ListenClose, false) ==> j < i + |ListenOpen| by {
          forall i: nat, j: nat | MatchAt(s, i, ListenOpen, false) && MatchAt(s, j, ListenClose, false) ensures j < i + |ListenOpen| {
            assert i >= a;
          }
        }
        None
      case Some(e) => Some((a + |ListenOpen|, e))
  }

  /** `$matches[1]`: the text between the opening of the `$listen` array and its first `];`. */
  function ListenCapture(s: string): (r: Option<string>)
    ensures r.Some? <==> ListenMatch(s).Some?
    ensures r.Some? ==> |r.value| <= |s| && forall j :: !MatchAt(r.value, j, ListenClose, false)
  {
    match ListenMatch(s)
    case None => None
    case Some(bounds) =>
      NoCloseInSlice(s, bounds.0, bounds.1);
      Some(s[bounds.0..bounds.1])
  }

  /** A slice of a stretch without `];` holds none either. */
  lemma NoCloseInSlice(s: string, a: nat, e: nat)
    requires a <= e <= |s|
    requires forall j: nat :: a <= j < e ==> !MatchAt(s, j, ListenClose, false)
    ensures forall j :: !MatchAt(s[a..e], j, ListenClose, false)
  {
    var c := s[a..e];
    assert |ListenClose| == 2;
    forall j: nat | MatchAt(c, j, ListenClose, false) ensures MatchAt(s, a + j, ListenClose, false) {
      assert j + 2 <= |c| == e - a;
      assert c[j] == s[a + j] && c[j + 1] == s[a + j + 1];
      assert s[a + j..a + j + 2] == c[j..j + 2];
    }
  }

  /** The indentation the new entry gets when the array already holds something. */
  function ListenPadding(capture: string): string
  {
    if Truthy(capture) then "        " else ""
  }

  /** The part of a new `$listen` entry up to the event's class constant. */
  function ListenEntryHead(capture: string, eventClassReference: string): string
  {
    " \n" + ListenPadding(capture) + "\\" + eventClassReference
  }

  /** The rest of the entry: the listener list, and the `];` that closes the array again. */
  function ListenEntryTail(listenerReference: string): string
  {
    " => [\n\t\t\t\t \\" + listenerReference + "\n\t\t],\n\t];"
  }

  /** What every `];` of the provider is replaced by. */
  function ListenEntry(capture: string, eventClassReference: string, listenerReference: string): (r: string)
    ensures |r| >= 2 && MatchAt(r, |r| - 2, ListenClose, false)
  {
    var r := ListenEntryHead(capture, eventClassReference) + ListenEntryTail(listenerReference);
    assert r[|r| - 2..|r|] == "];";
    r
  }

  datatype ListenPatch =
    | NoListenArray        // the pattern does not match: reading `$matches[1]` fails
    | AlreadyListed        // the event name occurs in the array: nothing is written
    | Patched(text: string)

  /**
    The event command's provider edit: when the `$listen` array does not
    already mention `eventName`, every `];` of the file (not only the one
    that closes the array) is replaced by the new entry.
  */
  function PatchListen(s: string, eventName: string, eventClassReference: string, listenerReference: string): (r: ListenPatch)
    ensures r.NoListenArray? <==> ListenMatch(s).None?
    ensures r.AlreadyListed? <==> ListenCapture(s).Some? && Contains(ListenCapture(s).value, eventName)
    ensures r.Patched? ==> (
      && ListenCapture(s).Some? && !Contains(ListenCapture(s).value, eventName)
      && r.text == ReplaceAll(s, ListenClose, ListenEntry(ListenCapture(s).value, eventClassReference, listenerReference), false))
  {
    match ListenCapture(s)
    case None => NoListenArray
    case Some(capture) =>
      if Contains(capture, eventName) then AlreadyListed
      else Patched(ReplaceAll(s, ListenClose, ListenEntry(capture, eventClassReference, listenerReference), false))
  }

  /** No `];` starts inside `a` or where `a` meets a text starting with a space. */
  lemma NoCloseAcross(a: string, b: string, j: nat)
    requires forall i :: !MatchAt(a, i, ListenClose, false)
    requires |b| > 0 && b[0] == ' '
    requires j < |a|
    ensures !MatchAt(a + b, j, ListenClose, false)
  {
    if j + 2 <= |a| {
      assert (a + b)[j..j + 2] == a[j..j + 2];
      assert !MatchAt(a, j, ListenClose, false);
    } else if j + 2 <= |a + b| {
      assert (a + b)[j..j + 2][1] == ' ';
    }
  }

  /** Replacing every `];` by `head + tail` when the first one is at `e`: the text before it is copied. */
  lemma ReplaceFromFirstClose(s: string, e: nat, head: string, tail: string)
    requires MatchAt(s, e, ListenClose, false)
    requires forall j: nat :: j < e ==> !MatchAt(s, j, ListenClose, false)
    ensures ReplaceAll(s, ListenClose, head + tail, false)
      == s[..e] + head + (tail + ReplaceAll(s[e + 2..], ListenClose, head + tail, false))
  {
    var rest := ReplaceAll(s[e + 2..], ListenClose, head + tail, false);
    assert s == s[..e] + s[e..];
    ReplaceAllKeepsPrefix(s[..e], s[e..], ListenClose, head + tail, false);
    assert MatchAt(s[e..], 0, ListenClose, false) by { assert s[e..][0..2] == s[e..e + 2]; }
    assert s[e..][2..] == s[e + 2..];
    assert ReplaceAll(s[e..], ListenClose, head + tail, false) == head + tail + rest;
    assert s[..e] + (head + tail + rest) == s[..e] + head + (tail + rest);
  }

  /** A text that keeps the prefix holding the leftmost occurrence keeps that occurrence leftmost. */
  lemma LeftmostInKeptPrefix(s: string, t: string, pat: string, a: nat, e: nat)
    requires e <= |s| && e <= |t| && t[..e] == s[..e]
    requires a + |pat| <= e && MatchAt(s, a, pat, false)
    requires forall j: nat :: j < a ==> !MatchAt(s, j, pat, false)
    ensures IndexOf(t, pat, 0, false) == Some(a)
  {
    forall j: nat | j + |pat| <= e ensures MatchAt(t, j, pat, false) == MatchAt(s, j, pat, false) {
      assert t[j..j + |pat|] == t[..e][j..j + |pat|];
      assert s[j..j + |pat|] == s[..e][j..j + |pat|];
    }
    IndexOfIs(t, pat, 0, a, false);
  }

  /**
    In `p + head + z`, with no `];` in `p` from `f` on, none in `head`, and
    both `head` and `z` starting with a space, the first `];` from `f` lies in `z`.
  */
  lemma FirstCloseBeyondHead(p: string, head: string, z: string, f: nat, k: nat)
    requires f <= |p|
    requires forall j: nat :: f <= j ==> !MatchAt(p, j, ListenClose, false)
    requires forall j: nat :: !MatchAt(head, j, ListenClose, false)
    requires |head| > 0 && head[0] == ' ' && |z| > 0 && z[0] == ' '
    requires MatchAt(z, k, ListenClose, false)
    ensures IndexOf(p + head + z, ListenClose, f, false).Some?
    ensures IndexOf(p + head + z, ListenClose, f, false).value >= |p| + |head|
  {
    var t := p + head + z;
    assert t == p + (head + z);
    MatchAtMiddle(p + head, z, "", k, ListenClose, false);
    assert p + head + z + "" == t;
    forall i: nat ensures !MatchAt(p[f..], i, ListenClose, false) {
      MatchAtTail(p, f + i, f, ListenClose, false);
    }
    forall j: nat | f <= j < |p| + |head| ensures !MatchAt(t, j, ListenClose, false) {
      if j < |p| {
        NoCloseAcross(p[f..], head + z, j - f);
        assert p[f..] + (head + z) == t[f..];
        MatchAtTail(t, j, f, ListenClose, false);
      } else {
        NoCloseAcross(head, z, j - |p|);
        assert t[|p|..] == head + z;
        MatchAtTail(t, j, |p|, ListenClose, false);
      }
    }
  }

  /** A slice that spans all of `head` contains what `head` contains. */
  lemma ContainsAcross(p: string, head: string, z: string, f: nat, m: nat, pat: string)
    requires f <= |p| && |p| + |head| <= m <= |p| + |head| + |z|
    requires Contains(head, pat)
    ensures Contains((p + head + z)[f..m], pat)
  {
    var t := p + head + z;
    assert t[|p|..|p| + |head|] == head;
    assert t[f..m] == t[f..|p|] + t[|p|..|p| + |head|] + t[|p| + |head|..m];
    ContainsMiddle(t[f..|p|], head, t[|p| + |head|..m], pat);
  }

  /**
    Replacing every `];` by `head + tail` when the first `];` of the file
    closes the `$listen` array: the new array's capture holds `head` whole.
  */
  lemma CaptureHoldsHead(s: string, head: string, tail: string, eventName: string)
    requires ListenMatch(s).Some?
    requires forall j: nat :: j < ListenMatch(s).value.1 ==> !MatchAt(s, j, ListenClose, false)
    requires |head| > 0 && head[0] == ' ' && |tail| >= 2 && tail[0] == ' '
    requires MatchAt(tail, |tail| - 2, ListenClose, false)
    requires forall j: nat :: !MatchAt(head, j, ListenClose, false)
    requires Contains(head, eventName)
    ensures var t := ReplaceAll(s, ListenClose, head + tail, false);
      ListenCapture(t).Some? && Contains(ListenCapture(t).value, eventName)
  {
    var e := ListenMatch(s).value.1;
    var rest := ReplaceAll(s[e + 2..], ListenClose, head + tail, false);
    var z := tail + rest;
    assert MatchAt(z, |tail| - 2, ListenClose, false) by {
      assert z[|tail| - 2..|tail|] == tail[|tail| - 2..|tail|];
    }
    CaptureOfSpliced(s, head, z, |tail| - 2, eventName);
    ReplaceFromFirstClose(s, e, head, tail);
  }

  /** The same, for the array's `];` replaced by `head` and followed by a text `z` holding a `];`. */
  lemma CaptureOfSpliced(s: string, head: string, z: string, k: nat, eventName: string)
    requires ListenMatch(s).Some?
    requires forall j: nat :: j < ListenMatch(s).value.1 ==> !MatchAt(s, j, ListenClose, false)
    requires |head| > 0 && head[0] == ' ' && |z| > 0 && z[0] == ' '
    requires MatchAt(z, k, ListenClose, false)
    requires forall j: nat :: !MatchAt(head, j, ListenClose, false)
    requires Contains(head, eventName)
    ensures var t := s[..ListenMatch(s).value.1] + head + z;
      ListenCapture(t).Some? && Contains(ListenCapture(t).value, eventName)
  {
    var f := ListenMatch(s).value.0;
    var e := ListenMatch(s).value.1;
    var p := s[..e];
    var t := p + head + z;
    assert t[..e] == p;
    LeftmostInKeptPrefix(s, t, ListenOpen, f - |ListenOpen|, e);
    NoCloseInSlice(s, 0, e);
    assert s[0..e] == p;
    FirstCloseBeyondHead(p, head, z, f, k);
    var m := IndexOf(t, ListenClose, f, false).value;
    assert ListenMatch(t) == Some((f, m));
    assert ListenCapture(t) == Some(t[f..m]);
    ContainsAcross(p, head, z, f, m, eventName);
  }

  /**
    When the array's `];` is the first one in the file and the event's class
    constant contains the event name (a name typed already trimmed and
    capitalised), the patched provider lists the event: patching it again
    writes nothing.
  */
  lemma PatchListenThenListed(s: string, eventName: string, eventClassReference: string, listenerReference: string)
    requires ListenMatch(s).Some?
    requires forall j: nat :: j < ListenMatch(s).value.1 ==> !MatchAt(s, j, ListenClose, false)
    requires !Contains(ListenCapture(s).value, eventName)
    requires forall j :: !MatchAt(ListenEntryHead(ListenCapture(s).value, eventClassReference), j, ListenClose, false)
    requires Contains(eventClassReference, eventName)
    ensures PatchListen(s, eventName, eventClassReference, listenerReference).Patched?
    ensures PatchListen(PatchListen(s, eventName, eventClassReference, listenerReference).text, eventName, eventClassReference, listenerReference).AlreadyListed?
  {
    var capture := ListenCapture(s).value;
    var lead := " \n" + ListenPadding(capture) + "\\";
    var head := ListenEntryHead(capture, eventClassReference);
    var tail := ListenEntryTail(listenerReference);
    assert head == lead + eventClassReference + "";
    assert head[0] == ' ' && tail[0] == ' ';
    assert tail[|tail| - 2..|tail|] == "];";
    assert ListenEntry(capture, eventClassReference, listenerReference) == head + tail;
    ContainsMiddle(lead, eventClassReference, "", eventName);
    CaptureHoldsHead(s, head, tail, eventName);
  }

  /** A trimmed, capitalised event name occurs in the class constant built from it. */
  lemma EventNameInReference(moduleName: string, directoryName: string, eventName: string)
    requires UcFirst(Trim(eventName)) == eventName
    ensures Contains(ReferencePath(moduleName, directoryName, eventName) + "::class", eventName)
  {
    ContainsIff(eventName, eventName);
    assert MatchAt(eventName, 0, eventName, false) by { assert eventName[0..|eventName|] == eventName; }
    var prefix := Namespace(moduleName, directoryName) + "\\";
    ContainsMiddle(prefix, eventName, "::class", eventName);
  }
}
