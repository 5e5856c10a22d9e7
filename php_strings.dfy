/** The optional value used wherever PHP returns `false` or an absent value. */
module Options {
  datatype Option<+T> = None | Some(value: T)
}

/**
  The PHP 8 string primitives the generator commands rely on, restricted to
  ASCII: `ucfirst`, `strtolower`, `trim`, `str_contains`, `str_ends_with`,
  `strpos`, `strrpos`, `substr_replace` (as an insertion), `str_replace` and
  `str_ireplace` (one left-to-right, non-overlapping pass) and the array form
  of `str_replace` (a left fold, one search token at a time).
*/
module PhpStrings {
  import opened Options

  predicate IsUpper(c: char) { 'A' <= c <= 'Z' }
  predicate IsLower(c: char) { 'a' <= c <= 'z' }

  function ToUpperChar(c: char): char
  {
    if IsLower(c) then (c as int - 32) as char else c
  }

  function ToLowerChar(c: char): char
  {
    if IsUpper(c) then (c as int + 32) as char else c
  }

  /** PHP `ucfirst`: the first character is upper-cased if it is an ASCII lower-case letter. */
  function UcFirst(s: string): (r: string)
    ensures |r| == |s|
    ensures forall i :: 0 < i < |s| ==> r[i] == s[i]
    ensures |s| > 0 ==> !IsLower(r[0]) && (r[0] == s[0] || (IsLower(s[0]) && IsUpper(r[0])))
    ensures |s| > 0 && !IsLower(s[0]) ==> r == s
    ensures |s| > 0 && IsLower(s[0]) ==> r[0] as int == s[0] as int - 32
  {
    if s == [] then s else [ToUpperChar(s[0])] + s[1..]
  }

  /** PHP `strtolower` (locale-independent since PHP 8.2: ASCII only). */
  function StrToLower(s: string): (r: string)
    ensures |r| == |s|
    ensures forall i :: 0 <= i < |r| ==> !IsUpper(r[i])
    ensures forall i :: 0 <= i < |s| && !IsUpper(s[i]) ==> r[i] == s[i]
    ensures forall i :: 0 <= i < |s| && IsUpper(s[i]) ==> IsLower(r[i])
    ensures forall i :: 0 <= i < |s| && IsUpper(s[i]) ==> r[i] as int == s[i] as int + 32
  {
    seq(|s|, i requires 0 <= i < |s| => ToLowerChar(s[i]))
  }

  /** The characters PHP `trim` removes by default: space, tab, LF, CR, NUL and vertical tab. */
  predicate IsTrimmable(c: char)
  {
    c == ' ' || c == '\t' || c == '\n' || c == '\r' || c as int == 0 || c as int == 11
  }

  function TrimStart(s: string): (r: string)
    ensures |r| <= |s| && r == s[|s| - |r|..]
    ensures r == [] || !IsTrimmable(r[0])
    ensures forall i :: 0 <= i < |s| - |r| ==> IsTrimmable(s[i])
  {
    if s != [] && IsTrimmable(s[0]) then TrimStart(s[1..]) else s
  }

  function TrimEnd(s: string): (r: string)
    ensures |r| <= |s| && r == s[..|r|]
    ensures r == [] || !IsTrimmable(r[|r| - 1])
    ensures forall i :: |r| <= i < |s| ==> IsTrimmable(s[i])
  {
    if s != [] && IsTrimmable(s[|s| - 1]) then TrimEnd(s[..|s| - 1]) else s
  }

  /** PHP `trim`: the longest slice of `s` that neither starts nor ends with a trimmable character. */
  function Trim(s: string): (r: string)
    ensures |r| <= |s|
    ensures r == [] || (!IsTrimmable(r[0]) && !IsTrimmable(r[|r| - 1]))
    ensures |r| <= |TrimStart(s)| && r == s[|s| - |TrimStart(s)|..][..|r|]
    ensures forall i :: 0 <= i < |s| - |TrimStart(s)| ==> IsTrimmable(s[i])
    ensures forall i :: |s| - |TrimStart(s)| + |r| <= i < |s| ==> IsTrimmable(s[i])
    ensures (forall i :: 0 <= i < |s| ==> !IsTrimmable(s[i])) ==> r == s
    ensures r == [] <==> forall i :: 0 <= i < |s| ==> IsTrimmable(s[i])
  {
    var t := TrimStart(s);
    var r := TrimEnd(t);
    assert r != [] ==> r[0] == t[0];
    r
  }

  /** PHP truthiness of a string: everything except "" and "0". */
  predicate Truthy(s: string)
  {
    s != "" && s != "0"
  }

  /** The case folding used for a comparison: identity, or ASCII lower-casing for the `i` functions. */
  function Fold(s: string, ignoreCase: bool): string
  {
    if ignoreCase then StrToLower(s) else s
  }

  /** `pat` occurs in `s` at index `i` (compared case-insensitively when `ignoreCase`). */
  predicate MatchAt(s: string, i: nat, pat: string, ignoreCase: bool)
  {
    i + |pat| <= |s| && Fold(s[i..i + |pat|], ignoreCase) == Fold(pat, ignoreCase)
  }

  /** PHP `strpos`/`stripos` with an offset: the first index at or after `from` where `pat` occurs. */
  function IndexOf(s: string, pat: string, from: nat, ignoreCase: bool): (r: Option<nat>)
    decreases |s| - from
    ensures r.Some? ==> from <= r.value && MatchAt(s, r.value, pat, ignoreCase)
    ensures r.Some? ==> forall j :: from <= j < r.value ==> !MatchAt(s, j, pat, ignoreCase)
    ensures r.None? <==> forall j :: from <= j ==> !MatchAt(s, j, pat, ignoreCase)
  {
    if from + |pat| > |s| then None
    else if MatchAt(s, from, pat, ignoreCase) then Some(from)
    else IndexOf(s, pat, from + 1, ignoreCase)
  }

  /** PHP `str_contains` (case-sensitive; the empty needle is contained everywhere). */
  predicate Contains(s: string, pat: string)
  {
    IndexOf(s, pat, 0, false).Some?
  }

  lemma ContainsIff(s: string, pat: string)
    ensures Contains(s, pat) <==> exists i :: MatchAt(s, i, pat, false)
  {
    if !Contains(s, pat) {
      assert forall j :: 0 <= j ==> !MatchAt(s, j, pat, false);
    }
  }

  /** PHP `str_ends_with`. */
  predicate EndsWith(s: string, suffix: string)
  {
    |suffix| <= |s| && s[|s| - |suffix|..] == suffix
  }

  function LastIndexFrom(s: string, pat: string, i: nat): (r: Option<nat>)
    requires i + |pat| <= |s|
    decreases i
    ensures r.Some? ==> r.value <= i && MatchAt(s, r.value, pat, false)
    ensures r.Some? ==> forall j :: r.value < j <= i ==> !MatchAt(s, j, pat, false)
    ensures r.None? ==> forall j: nat :: j <= i ==> !MatchAt(s, j, pat, false)
  {
    if MatchAt(s, i, pat, false) then Some(i)
    else if i == 0 then None
    else LastIndexFrom(s, pat, i - 1)
  }

  /** PHP `strrpos`: the index of the last occurrence of `pat` in `s`. */
  function LastIndexOf(s: string, pat: string): (r: Option<nat>)
    ensures r.Some? ==> MatchAt(s, r.value, pat, false)
    ensures r.Some? ==> forall j :: r.value < j ==> !MatchAt(s, j, pat, false)
    ensures r.None? <==> forall j :: !MatchAt(s, j, pat, false)
  {
    if |pat| > |s| then None else LastIndexFrom(s, pat, |s| - |pat|)
  }

  /** PHP `substr_replace(s, t, pos, 0)`: `t` inserted at `pos`, nothing removed. */
  function InsertAt(s: string, pos: nat, t: string): (r: string)
    requires pos <= |s|
    ensures |r| == |s| + |t|
    ensures r[..pos] == s[..pos] && r[pos..pos + |t|] == t && r[pos + |t|..] == s[pos..]
  {
    s[..pos] + t + s[pos..]
  }

  /**
    PHP `str_replace` (and, with `ignoreCase`, `str_ireplace`) for one search
    string: scanning left to right, every occurrence is replaced and the scan
    resumes after it, so occurrences never overlap and the replacement text is
    not scanned again. An empty search string leaves the subject unchanged.
  */
  function ReplaceAll(s: string, pat: string, rep: string, ignoreCase: bool): string
    decreases |s|
  {
    if |pat| == 0 || s == [] then s
    else if MatchAt(s, 0, pat, ignoreCase) then rep + ReplaceAll(s[|pat|..], pat, rep, ignoreCase)
    else [s[0]] + ReplaceAll(s[1..], pat, rep, ignoreCase)
  }

  /** PHP `str_replace` with an array of searches: one replace-all pass per pair, in list order. */
  function ReplacePairs(s: string, pairs: seq<(string, string)>): string
    decreases |pairs|
  {
    if pairs == [] then s
    else ReplacePairs(ReplaceAll(s, pairs[0].0, pairs[0].1, false), pairs[1..])
  }

  /** `str_replace('/', '\\', s)`: every path separator becomes a namespace separator. */
  function Backslashed(s: string): string
  {
    ReplaceAll(s, "/", "\\", false)
  }

  lemma MatchAtTail(s: string, i: nat, k: nat, pat: string, ignoreCase: bool)
    requires k <= i && k <= |s|
    ensures MatchAt(s, i, pat, ignoreCase) <==> MatchAt(s[k..], i - k, pat, ignoreCase)
  {
    if i + |pat| <= |s| {
      assert s[k..][i - k..i - k + |pat|] == s[i..i + |pat|];
    }
  }

  /** With no occurrence of the search string, replacing leaves the subject unchanged. */
  lemma {:induction false} ReplaceAllNoMatch(s: string, pat: string, rep: string, ignoreCase: bool)
    requires forall i :: !MatchAt(s, i, pat, ignoreCase)
    ensures ReplaceAll(s, pat, rep, ignoreCase) == s
    decreases |s|
  {
    if |pat| != 0 && s != [] {
      assert !MatchAt(s, 0, pat, ignoreCase);
      forall i: nat ensures !MatchAt(s[1..], i, pat, ignoreCase) {
        MatchAtTail(s, i + 1, 1, pat, ignoreCase);
      }
      ReplaceAllNoMatch(s[1..], pat, rep, ignoreCase);
    }
  }

  /** A prefix in which no occurrence starts is copied through unchanged. */
  lemma {:induction false} ReplaceAllKeepsPrefix(a: string, b: string, pat: string, rep: string, ignoreCase: bool)
    requires forall j: nat :: j < |a| ==> !MatchAt(a + b, j, pat, ignoreCase)
    ensures ReplaceAll(a + b, pat, rep, ignoreCase) == a + ReplaceAll(b, pat, rep, ignoreCase)
    decreases |a|
  {
    if |pat| == 0 {
    } else if a != [] {
      var s := a + b;
      assert !MatchAt(s, 0, pat, ignoreCase);
      assert s[1..] == a[1..] + b;
      forall j: nat | j < |a[1..]| ensures !MatchAt(a[1..] + b, j, pat, ignoreCase) {
        MatchAtTail(s, j + 1, 1, pat, ignoreCase);
      }
      ReplaceAllKeepsPrefix(a[1..], b, pat, rep, ignoreCase);
    } else {
      assert a + b == b;
    }
  }

  /** The length moves by |rep| - |pat| per replaced occurrence, and at least once when one exists. */
  lemma {:induction false} ReplaceAllLength(s: string, pat: string, rep: string, ignoreCase: bool)
    requires |pat| > 0
    ensures var r := ReplaceAll(s, pat, rep, ignoreCase);
      && (|rep| >= |pat| ==> |r| >= |s|)
      && (|rep| <= |pat| ==> |r| <= |s|)
      && ((exists i :: MatchAt(s, i, pat, ignoreCase)) && |rep| > |pat| ==> |r| > |s|)
      && ((exists i :: MatchAt(s, i, pat, ignoreCase)) && |rep| < |pat| ==> |r| < |s|)
    decreases |s|
  {
    if s == [] {
      assert forall i :: !MatchAt(s, i, pat, ignoreCase);
    } else if MatchAt(s, 0, pat, ignoreCase) {
      ReplaceAllLength(s[|pat|..], pat, rep, ignoreCase);
    } else {
      ReplaceAllLength(s[1..], pat, rep, ignoreCase);
      if exists i :: MatchAt(s, i, pat, ignoreCase) {
        var i :| MatchAt(s, i, pat, ignoreCase);
        assert i >= 1;
        MatchAtTail(s, i, 1, pat, ignoreCase);
      }
    }
  }

  /**
    When the replacement has a different length from the search string (for
    a deletion, always), replacing changes the subject exactly when the
    search string occurs in it.
  */
  lemma ReplaceAllUnchangedIff(s: string, pat: string, rep: string, ignoreCase: bool)
    requires |pat| > 0 && |rep| != |pat|
    ensures ReplaceAll(s, pat, rep, ignoreCase) == s <==> forall i :: !MatchAt(s, i, pat, ignoreCase)
  {
    ReplaceAllLength(s, pat, rep, ignoreCase);
    if forall i :: !MatchAt(s, i, pat, ignoreCase) {
      ReplaceAllNoMatch(s, pat, rep, ignoreCase);
    }
  }

  /** A subject consisting of one occurrence and nothing else becomes the replacement. */
  lemma ReplaceAllWhole(pat: string, rep: string, ignoreCase: bool)
    requires |pat| > 0
    ensures ReplaceAll(pat, pat, rep, ignoreCase) == rep
  {
    assert pat[0..|pat|] == pat;
    assert pat[|pat|..] == [];
  }

  /** A stub that contains none of the search tokens renders to itself. */
  lemma {:induction false} ReplacePairsNoTokens(s: string, pairs: seq<(string, string)>)
    requires forall k, i :: 0 <= k < |pairs| ==> !MatchAt(s, i, pairs[k].0, false)
    ensures ReplacePairs(s, pairs) == s
    decreases |pairs|
  {
    if pairs != [] {
      ReplaceAllNoMatch(s, pairs[0].0, pairs[0].1, false);
      assert forall k, i :: 0 <= k < |pairs[1..]| ==> !MatchAt(s, i, pairs[1..][k].0, false) by {
        forall k, i | 0 <= k < |pairs[1..]| ensures !MatchAt(s, i, pairs[1..][k].0, false) {
          assert pairs[1..][k] == pairs[k + 1];
        }
      }
      ReplacePairsNoTokens(s, pairs[1..]);
    }
  }

  /**
    The array form of `str_replace` is sequential, not simultaneous: a value
    substituted for an earlier token is scanned again for the later tokens.
    A stub holding only `first` whose value is `second` ends up as the value
    of `second`, where a simultaneous substitution would leave `second`.
  */
  lemma ReplacePairsRescansValues(first: string, second: string, value: string)
    requires |first| > 0 && |second| > 0
    ensures ReplacePairs(first, [(first, second), (second, value)]) == value
  {
    var pairs := [(first, second), (second, value)];
    ReplaceAllWhole(first, second, false);
    ReplaceAllWhole(second, value, false);
    assert pairs[1..] == [(second, value)];
    assert ReplacePairs(first, pairs) == ReplacePairs(second, [(second, value)]);
    assert [(second, value)][1..] == [];
    assert ReplacePairs(second, [(second, value)]) == ReplacePairs(value, []);
  }

  /** `Backslashed` rewrites exactly the `/` characters and keeps every other one in place. */
  lemma {:induction false} BackslashedAt(s: string)
    ensures |Backslashed(s)| == |s|
    ensures forall i :: 0 <= i < |s| ==> Backslashed(s)[i] == if s[i] == '/' then '\\' else s[i]
    decreases |s|
  {
    if s != [] {
      BackslashedAt(s[1..]);
      if s[0] == '/' {
        assert MatchAt(s, 0, "/", false) by { assert s[0..1] == "/"; }
        assert Backslashed(s) == "\\" + Backslashed(s[1..]);
      } else {
        assert !MatchAt(s, 0, "/", false) by { assert s[0..1][0] == s[0]; }
        assert Backslashed(s) == [s[0]] + Backslashed(s[1..]);
      }
    }
  }

  lemma BackslashedKeepsPlain(s: string)
    ensures Backslashed(s) == s <==> forall i :: 0 <= i < |s| ==> s[i] != '/'
  {
    BackslashedAt(s);
    if Backslashed(s) == s {
      forall i | 0 <= i < |s| ensures s[i] != '/' {
        assert Backslashed(s)[i] == s[i];
      }
    }
  }

  lemma BackslashedAppend(a: string, b: string)
    ensures Backslashed(a + b) == Backslashed(a) + Backslashed(b)
  {
    BackslashedAt(a);
    BackslashedAt(b);
    BackslashedAt(a + b);
  }

  /** A two-segment path whose segments hold no separator becomes `a\b`. */
  lemma BackslashedTwoSegments(a: string, b: string)
    requires forall i :: 0 <= i < |a| ==> a[i] != '/'
    requires forall i :: 0 <= i < |b| ==> b[i] != '/'
    ensures Backslashed(a + "/" + b) == a + "\\" + b
  {
    BackslashedAt(a + "/" + b);
    assert Backslashed(a + "/" + b)[|a|] == '\\';
  }

  lemma StrToLowerAppend(a: string, b: string)
    ensures StrToLower(a + b) == StrToLower(a) + StrToLower(b)
  {
    assert forall i :: 0 <= i < |a| ==> (a + b)[i] == a[i];
    assert forall i :: |a| <= i < |a| + |b| ==> (a + b)[i] == b[i - |a|];
  }

  /** The first occurrence at or after `from`, once it is known, is what `IndexOf` finds. */
  lemma IndexOfIs(s: string, pat: string, from: nat, v: nat, ignoreCase: bool)
    requires from <= v && MatchAt(s, v, pat, ignoreCase)
    requires forall j :: from <= j < v ==> !MatchAt(s, j, pat, ignoreCase)
    ensures IndexOf(s, pat, from, ignoreCase) == Some(v)
  {
  }

  /** An occurrence inside a middle part is an occurrence in the whole. */
  lemma MatchAtMiddle(a: string, b: string, c: string, i: nat, pat: string, ignoreCase: bool)
    requires MatchAt(b, i, pat, ignoreCase)
    ensures MatchAt(a + b + c, |a| + i, pat, ignoreCase)
  {
    assert (a + b + c)[|a| + i..|a| + i + |pat|] == b[i..i + |pat|];
  }

  lemma ContainsMiddle(a: string, b: string, c: string, pat: string)
    requires Contains(b, pat)
    ensures Contains(a + b + c, pat)
  {
    ContainsIff(b, pat);
    var i: nat :| MatchAt(b, i, pat, false);
    MatchAtMiddle(a, b, c, i, pat, false);
    ContainsIff(a + b + c, pat);
  }
}
