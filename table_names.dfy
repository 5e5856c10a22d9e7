/**
  The table names of generated migrations. The migration command pluralises
  first and splits camel-case words only when the whole name matches
  `^[A-Z][a-z]*(?:[A-Z][a-z]+)+$`; the shared migration action splits words
  first, lower-cases, pluralises, and then runs the same camel-case check on
  a string that can no longer match it.
*/
module TableNames {
  import opened PhpStrings

  predicate IsLetter(c: char) { IsUpper(c) || IsLower(c) }

  /** `[a-z]*`, matched in full. */
  predicate AllLower(s: string)
  {
    forall i :: 0 <= i < |s| ==> IsLower(s[i])
  }

  /** `(?:[A-Z][a-z]+)+`, matched in full; the end of each word is a backtracking choice. */
  predicate CapitalisedWords(s: string)
    decreases |s|
  {
    && |s| >= 2 && IsUpper(s[0])
    && exists k :: 2 <= k <= |s| && AllLower(s[1..k]) && (k == |s| || CapitalisedWords(s[k..]))
  }

  /**
    `preg_match('/^[A-Z][a-z]*(?:[A-Z][a-z]+)+$/', s)` for a string that does
    not end in a newline (every string the commands test ends in `s`).
  */
  predicate MatchesCamelPattern(s: string)
  {
    && |s| >= 1 && IsUpper(s[0])
    && exists k :: 1 <= k <= |s| && AllLower(s[1..k]) && CapitalisedWords(s[k..])
  }

  /** Every capital is followed directly by a lower-case letter. */
  predicate CapitalsLead(s: string)
  {
    forall i :: 0 <= i < |s| && IsUpper(s[i]) ==> i + 1 < |s| && IsLower(s[i + 1])
  }

  predicate AllLetters(s: string)
  {
    forall i :: 0 <= i < |s| ==> IsLetter(s[i])
  }

  /** The language of `CapitalisedWords`, letter by letter. */
  predicate WordsByLetter(s: string)
  {
    |s| >= 1 && IsUpper(s[0]) && AllLetters(s) && CapitalsLead(s)
  }

  /**
    The language of the camel-case pattern, letter by letter: ASCII letters
    only, a capital first, at least one more capital, and every capital after
    the first followed by a lower-case letter.
  */
  predicate IsCamelCase(s: string)
  {
    && |s| >= 1 && IsUpper(s[0]) && AllLetters(s)
    && (exists i :: 0 < i < |s| && IsUpper(s[i]))
    && CapitalsLead(s[1..])
  }

  /** The end of the run of lower-case letters that starts at `from`. */
  function LowerRunEnd(s: string, from: nat): (k: nat)
    requires from <= |s|
    decreases |s| - from
    ensures from <= k <= |s|
    ensures AllLower(s[from..k])
    ensures k < |s| ==> !IsLower(s[k])
  {
    if from < |s| && IsLower(s[from]) then
      var k := LowerRunEnd(s, from + 1);
      assert forall i :: 0 <= i < k - from ==> s[from..k][i] == s[from + i] && (i > 0 ==> s[from + i] == s[from + 1..k][i - 1]);
      k
    else from
  }

  /** Each capitalised word is a capital followed by lower-case letters, so every capital leads. */
  lemma {:induction false} CapitalisedWordsLetters(s: string)
    requires CapitalisedWords(s)
    ensures WordsByLetter(s)
    decreases |s|
  {
    var k :| 2 <= k <= |s| && AllLower(s[1..k]) && (k == |s| || CapitalisedWords(s[k..]));
    assert forall i :: 1 <= i < k ==> IsLower(s[i]) by {
      forall i | 1 <= i < k ensures IsLower(s[i]) { assert s[1..k][i - 1] == s[i]; }
    }
    if k < |s| {
      var t := s[k..];
      CapitalisedWordsLetters(t);
      assert forall i :: k <= i < |s| ==> s[i] == t[i - k];
      assert AllLetters(s) by {
        forall i | 0 <= i < |s| ensures IsLetter(s[i]) {
          if i >= k { assert IsLetter(t[i - k]); }
        }
      }
      assert CapitalsLead(s) by {
        forall i | 0 <= i < |s| && IsUpper(s[i]) ensures i + 1 < |s| && IsLower(s[i + 1]) {
          if i >= k {
            assert IsUpper(t[i - k]);
            assert i - k + 1 < |t| && IsLower(t[i - k + 1]);
          }
        }
      }
    }
  }

  /** Conversely, a string of leading capitals splits into capitalised words at each capital. */
  lemma {:induction false} LettersCapitalisedWords(s: string)
    requires WordsByLetter(s)
    ensures CapitalisedWords(s)
    decreases |s|
  {
    assert IsLower(s[1]);
    var k := LowerRunEnd(s, 1);
    assert k != 1;
    if k < |s| {
      var t := s[k..];
      assert IsUpper(t[0]);
      assert forall i :: 0 <= i < |t| ==> t[i] == s[k + i];
      assert WordsByLetter(t);
      LettersCapitalisedWords(t);
    }
    assert 2 <= k <= |s| && AllLower(s[1..k]) && (k == |s| || CapitalisedWords(s[k..]));
  }

  lemma CapitalisedWordsIff(s: string)
    ensures CapitalisedWords(s) <==> WordsByLetter(s)
  {
    if CapitalisedWords(s) {
      CapitalisedWordsLetters(s);
    }
    if WordsByLetter(s) {
      LettersCapitalisedWords(s);
    }
  }

  lemma CamelPatternSound(s: string)
    requires MatchesCamelPattern(s)
    ensures IsCamelCase(s)
  {
    var k :| 1 <= k <= |s| && AllLower(s[1..k]) && CapitalisedWords(s[k..]);
    var t := s[k..];
    CapitalisedWordsIff(t);
    assert forall i :: 1 <= i < k ==> IsLower(s[i]) by {
      forall i | 1 <= i < k ensures IsLower(s[i]) { assert s[1..k][i - 1] == s[i]; }
    }
    assert forall i :: k <= i < |s| ==> s[i] == t[i - k];
    assert IsUpper(s[k]) && k > 0;
    forall i | 0 <= i < |s| - 1 && IsUpper(s[1..][i]) ensures i + 1 < |s[1..]| && IsLower(s[1..][i + 1]) {
      assert s[1..][i] == s[i + 1];
      assert i + 1 >= k;
      assert t[i + 1 - k] == s[i + 1];
      assert s[1..][i + 1] == t[i + 2 - k];
    }
  }

  lemma CamelPatternComplete(s: string)
    requires IsCamelCase(s)
    ensures MatchesCamelPattern(s)
  {
    var k := LowerRunEnd(s, 1);
    var j :| 0 < j < |s| && IsUpper(s[j]);
    assert k <= j;
    var t := s[k..];
    assert forall i :: 0 <= i < |t| ==> t[i] == s[k + i];
    assert IsUpper(t[0]);
    forall i | 0 <= i < |t| && IsUpper(t[i]) ensures i + 1 < |t| && IsLower(t[i + 1]) {
      assert s[1..][k + i - 1] == s[k + i];
      assert IsUpper(s[1..][k + i - 1]);
      assert s[1..][k + i] == s[k + i + 1];
    }
    assert WordsByLetter(t);
    CapitalisedWordsIff(t);
  }

  /** The camel-case pattern matches exactly the camel-case names described letter by letter. */
  lemma CamelPatternIff(s: string)
    ensures MatchesCamelPattern(s) <==> IsCamelCase(s)
  {
    if MatchesCamelPattern(s) {
      CamelPatternSound(s);
    }
    if IsCamelCase(s) {
      CamelPatternComplete(s);
    }
  }

  /**
    `preg_replace('/(?<=[a-z])(?=[A-Z])/', '_', s)`: an underscore between
    every lower-case letter and the capital right after it.
  */
  function SeparateWords(s: string): (r: string)
    decreases |s|
    ensures |r| >= |s|
  {
    if |s| < 2 then s
    else if IsLower(s[0]) && IsUpper(s[1]) then [s[0], '_'] + SeparateWords(s[1..])
    else [s[0]] + SeparateWords(s[1..])
  }

  /** Word separation keeps the first and the last character. */
  lemma {:induction false} SeparateWordsEnds(s: string)
    requires |s| > 0
    ensures var r := SeparateWords(s); r[0] == s[0] && r[|r| - 1] == s[|s| - 1]
    decreases |s|
  {
    if |s| >= 2 {
      SeparateWordsEnds(s[1..]);
    }
  }

  /**
    `preg_replace('/([a-z])([A-Z])/', '$1_$2', s)`: each match consumes the
    lower-case letter and the capital, and the scan resumes after the capital.
  */
  function SeparateWordsConsuming(s: string): string
    decreases |s|
  {
    if |s| < 2 then s
    else if IsLower(s[0]) && IsUpper(s[1]) then [s[0], '_', s[1]] + SeparateWordsConsuming(s[2..])
    else [s[0]] + SeparateWordsConsuming(s[1..])
  }

  /**
    The two patterns insert the same underscores: a consumed capital is never
    the lower-case letter of the next match, so consuming loses none.
  */
  lemma {:induction false} ConsumingAgrees(s: string)
    ensures SeparateWordsConsuming(s) == SeparateWords(s)
    decreases |s|
  {
    if |s| >= 2 {
      var t := s[1..];
      if IsLower(s[0]) && IsUpper(s[1]) {
        ConsumingAgrees(s[2..]);
        assert t[1..] == s[2..];
        assert SeparateWords(t) == [t[0]] + SeparateWords(t[1..]) by {
          if |t| < 2 {
            assert s[2..] == [];
          }
        }
        assert SeparateWords(s) == [s[0], '_'] + ([s[1]] + SeparateWords(s[2..]));
        assert SeparateWordsConsuming(s) == [s[0], '_', s[1]] + SeparateWords(s[2..]);
      } else {
        ConsumingAgrees(t);
      }
    }
  }

  /** `s` with every underscore removed. */
  function WithoutUnderscores(s: string): (r: string)
    decreases |s|
    ensures |r| <= |s|
  {
    if s == [] then s
    else if s[0] == '_' then WithoutUnderscores(s[1..])
    else [s[0]] + WithoutUnderscores(s[1..])
  }

  /** Word separation only inserts underscores: removing them gives back the input without its own. */
  lemma {:induction false} SeparateWordsOnlyInserts(s: string)
    ensures WithoutUnderscores(SeparateWords(s)) == WithoutUnderscores(s)
    decreases |s|
  {
    if |s| >= 2 {
      SeparateWordsOnlyInserts(s[1..]);
      if IsLower(s[0]) && IsUpper(s[1]) {
        assert ([s[0], '_'] + SeparateWords(s[1..]))[1..] == ['_'] + SeparateWords(s[1..]);
        assert (['_'] + SeparateWords(s[1..]))[1..] == SeparateWords(s[1..]);
      } else {
        assert ([s[0]] + SeparateWords(s[1..]))[1..] == SeparateWords(s[1..]);
      }
    }
  }

  /** No lower-case letter is directly followed by a capital. */
  predicate NoWordBoundary(r: string)
  {
    forall i :: 0 <= i < |r| - 1 ==> !(IsLower(r[i]) && IsUpper(r[i + 1]))
  }

  /** After word separation every word boundary holds an underscore. */
  lemma {:induction false} SeparateWordsSeparates(s: string)
    ensures NoWordBoundary(SeparateWords(s))
    decreases |s|
  {
    if |s| >= 2 {
      SeparateWordsSeparates(s[1..]);
      var tail := SeparateWords(s[1..]);
      var head := if IsLower(s[0]) && IsUpper(s[1]) then [s[0], '_'] else [s[0]];
      var r := head + tail;
      assert SeparateWords(s) == r;
      SeparateWordsEnds(s[1..]);
      assert tail[0] == s[1];
      forall i | 0 <= i < |r| - 1 ensures !(IsLower(r[i]) && IsUpper(r[i + 1])) {
        if i >= |head| {
          var j := i - |head|;
          assert r[i] == tail[j] && r[i + 1] == tail[j + 1];
          assert !(IsLower(tail[j]) && IsUpper(tail[j + 1]));
        } else if |head| == 1 {
          assert r[i] == s[0] && r[i + 1] == tail[0];
        } else if i == 0 {
          assert r[i + 1] == '_';
        } else {
          assert r[i] == '_';
        }
      }
    }
  }

  lemma {:induction false} WithoutUnderscoresAppend(a: string, b: string)
    ensures WithoutUnderscores(a + b) == WithoutUnderscores(a) + WithoutUnderscores(b)
    decreases |a|
  {
    if a != [] {
      assert (a + b)[1..] == a[1..] + b;
      WithoutUnderscoresAppend(a[1..], b);
    } else {
      assert a + b == b;
    }
  }

  lemma {:induction false} WithoutUnderscoresLower(s: string)
    ensures WithoutUnderscores(StrToLower(s)) == StrToLower(WithoutUnderscores(s))
    decreases |s|
  {
    if s != [] {
      WithoutUnderscoresLower(s[1..]);
      assert StrToLower(s)[1..] == StrToLower(s[1..]);
      assert StrToLower(s)[0] == ToLowerChar(s[0]);
      if s[0] != '_' {
        assert StrToLower([s[0]] + WithoutUnderscores(s[1..])) == [ToLowerChar(s[0])] + StrToLower(WithoutUnderscores(s[1..]));
      }
    }
  }

  /** The plural the commands make: `s` appended unless the name already ends in `s`. */
  function Pluralise(t: string): (r: string)
    ensures EndsWith(r, "s")
    ensures EndsWith(t, "s") ==> r == t
    ensures !EndsWith(t, "s") ==> r == t + "s"
  {
    if EndsWith(t, "s") then t else t + "s"
  }

  /** The camel-case step both paths run: word separation, only when the whole name matches the pattern. */
  function CamelStep(s: string): string
  {
    if MatchesCamelPattern(s) then SeparateWords(s) else s
  }

  lemma EndsWithS(s: string)
    ensures EndsWith(s, "s") <==> |s| > 0 && s[|s| - 1] == 's'
  {
    if |s| > 0 {
      assert s[|s| - 1..] == [s[|s| - 1]];
    }
  }

  lemma SameLastSameEnding(a: string, b: string)
    requires |a| > 0 && |b| > 0 && a[|a| - 1] == b[|b| - 1]
    ensures EndsWith(a, "s") <==> EndsWith(b, "s")
  {
    EndsWithS(a);
    EndsWithS(b);
  }

  /** What lower-casing the (possibly separated) plural yields, whichever branch the camel step takes. */
  lemma LoweredPluralFacts(plural: string)
    requires EndsWith(plural, "s")
    ensures var r := StrToLower(CamelStep(plural));
      |r| > 0 && EndsWith(r, "s") && WithoutUnderscores(r) == StrToLower(WithoutUnderscores(plural))
  {
    var split := CamelStep(plural);
    assert WithoutUnderscores(split) == WithoutUnderscores(plural) by { SeparateWordsOnlyInserts(plural); }
    assert WithoutUnderscores(StrToLower(split)) == StrToLower(WithoutUnderscores(split)) by { WithoutUnderscoresLower(split); }
    assert |split| > 0 && split[|split| - 1] == 's' by {
      EndsWithS(plural);
      SeparateWordsEnds(plural);
    }
    LoweredEnding(split);
  }

  /**
    The migration command's table name (`CreateModuleMigration::handle`):
    non-empty, plural, free of capitals, and, apart from the underscores
    separating words, the lower-cased plural of what was typed.
  */
  function CommandTableName(typed: string): (r: string)
    ensures |r| > 0 && EndsWith(r, "s")
    ensures forall i :: 0 <= i < |r| ==> !IsUpper(r[i])
    ensures WithoutUnderscores(r) == StrToLower(WithoutUnderscores(Pluralise(typed)))
    ensures !MatchesCamelPattern(Pluralise(typed)) ==> r == StrToLower(Pluralise(typed))
  {
    LoweredPluralFacts(Pluralise(typed));
    StrToLower(CamelStep(Pluralise(typed)))
  }

  /** A lower-cased string ends in `s` exactly when the original ends in `s` or `S`. */
  lemma LoweredEnding(s: string)
    requires |s| > 0
    ensures EndsWith(StrToLower(s), "s") <==> s[|s| - 1] == 's' || s[|s| - 1] == 'S'
  {
    var r := StrToLower(s);
    assert r[|r| - 1] == ToLowerChar(s[|s| - 1]);
    EndsWithS(r);
  }

  /** Word separation keeps the last character, so it keeps whether the lower-cased name ends in `s`. */
  lemma SeparatedLoweredEnding(name: string)
    ensures EndsWith(StrToLower(SeparateWords(name)), "s") <==> EndsWith(StrToLower(name), "s")
  {
    if name != [] {
      SeparateWordsEnds(name);
      LoweredEnding(SeparateWords(name));
      LoweredEnding(name);
    }
  }

  /** The lower-cased, separated model name ends in `s` exactly when the lower-cased name does. */
  lemma SharedLoweredFacts(modelName: string)
    ensures var lowered := StrToLower(SeparateWordsConsuming(modelName));
      && (EndsWith(lowered, "s") <==> EndsWith(StrToLower(modelName), "s"))
      && WithoutUnderscores(lowered) == WithoutUnderscores(StrToLower(modelName))
  {
    var sep := SeparateWords(modelName);
    ConsumingAgrees(modelName);
    SeparateWordsOnlyInserts(modelName);
    WithoutUnderscoresLower(sep);
    WithoutUnderscoresLower(modelName);
    SeparatedLoweredEnding(modelName);
  }

  /** The model name becomes a lower-case plural; the camel step is then a no-op, since the pattern needs a capital. */
  lemma SharedPluralFacts(lowered: string)
    requires forall i :: 0 <= i < |lowered| ==> !IsUpper(lowered[i])
    ensures var plural := Pluralise(lowered);
      && CamelStep(plural) == plural
      && (forall i :: 0 <= i < |plural| ==> !IsUpper(plural[i]))
      && WithoutUnderscores(plural) == WithoutUnderscores(lowered) + (if EndsWith(lowered, "s") then "" else "s")
  {
    var plural := Pluralise(lowered);
    assert !IsUpper(plural[0]);
    WithoutUnderscoresAppend(lowered, "s");
    assert plural == lowered + (if EndsWith(lowered, "s") then "" else "s");
  }

  /**
    The shared migration action's table name (`CreateMigration::execute`):
    non-empty, plural, free of capitals, and, apart from the underscores
    separating words, the plural of the lower-cased model name.
  */
  function SharedTableName(modelName: string): (r: string)
    ensures |r| > 0 && EndsWith(r, "s")
    ensures forall i :: 0 <= i < |r| ==> !IsUpper(r[i])
    ensures WithoutUnderscores(r) == WithoutUnderscores(Pluralise(StrToLower(modelName)))
  {
    var lowered := StrToLower(SeparateWordsConsuming(modelName));
    SharedLoweredFacts(modelName);
    SharedPluralFacts(lowered);
    SharedPluralFacts(StrToLower(modelName));
    CamelStep(Pluralise(lowered))
  }

  lemma {:induction false} SeparateWordsAppend(s: string, c: char)
    requires !IsUpper(c)
    ensures SeparateWords(s + [c]) == SeparateWords(s) + [c]
    decreases |s|
  {
    if |s| >= 2 {
      assert (s + [c])[1..] == s[1..] + [c];
      SeparateWordsAppend(s[1..], c);
    } else if |s| == 1 {
      assert s + [c] == [s[0], c];
      assert [s[0], c][1..] == [c];
    }
  }

  lemma SeparateWordsCons(c: char, b: string)
    ensures SeparateWords([c] + b) == (if b != [] && IsLower(c) && IsUpper(b[0]) then [c, '_'] else [c]) + SeparateWords(b)
  {
    assert ([c] + b)[1..] == b;
  }

  /** The underscore, if any, word separation puts between `a` and `b`. */
  function Junction(a: string, b: string): string
    requires |a| > 0 && |b| > 0
  {
    if IsLower(a[|a| - 1]) && IsUpper(b[0]) then "_" else ""
  }

  /** Separating the words of a one-character string followed by `b`. */
  lemma SeparateWordsConcatSingle(c: char, b: string)
    requires |b| > 0
    ensures SeparateWords([c] + b) == SeparateWords([c]) + Junction([c], b) + SeparateWords(b)
  {
    SeparateWordsCons(c, b);
    var j := Junction([c], b);
    var h := if IsLower(c) && IsUpper(b[0]) then [c, '_'] else [c];
    assert SeparateWords([c] + b) == h + SeparateWords(b);
    assert SeparateWords([c]) == [c];
    assert h == [c] + j;
  }

  lemma ConsAppend(a: string, b: string)
    requires |a| > 0
    ensures a + b == [a[0]] + (a[1..] + b)
  {
    assert a == [a[0]] + a[1..];
  }

  lemma AppendAssociates(h: string, x: string, j: string, y: string)
    ensures h + (x + j + y) == h + x + j + y
  {
  }

  /** One step of the induction below: from the tail of `a` to `a`. */
  lemma SeparateWordsConcatStep(a: string, b: string)
    requires |a| > 1 && |b| > 0
    requires SeparateWords(a[1..] + b) == SeparateWords(a[1..]) + Junction(a[1..], b) + SeparateWords(b)
    ensures SeparateWords(a + b) == SeparateWords(a) + Junction(a, b) + SeparateWords(b)
  {
    var t := a[1..];
    ConsAppend(a, b);
    assert (t + b)[0] == t[0];
    assert Junction(t, b) == Junction(a, b) by { assert t[|t| - 1] == a[|a| - 1]; }
    var h := if IsLower(a[0]) && IsUpper(t[0]) then [a[0], '_'] else [a[0]];
    var x, j, y := SeparateWords(t), Junction(a, b), SeparateWords(b);
    SeparateWordsCons(a[0], t + b);
    assert SeparateWords(a + b) == h + (x + j + y);
    SeparateWordsCons(a[0], t);
    assert SeparateWords(a) == h + x;
    AppendAssociates(h, x, j, y);
  }

  /** Separating the words of a concatenation: the parts separately, plus an underscore where they meet at a boundary. */
  lemma {:induction false} SeparateWordsConcat(a: string, b: string)
    requires |a| > 0 && |b| > 0
    ensures SeparateWords(a + b) == SeparateWords(a) + Junction(a, b) + SeparateWords(b)
    decreases |a|
  {
    if |a| == 1 {
      assert a == [a[0]];
      SeparateWordsConcatSingle(a[0], b);
    } else {
      SeparateWordsConcat(a[1..], b);
      SeparateWordsConcatStep(a, b);
    }
  }

  /** The shared table name without the camel step, which cannot fire on a lower-cased name. */
  lemma SharedTableNameIs(name: string)
    ensures SharedTableName(name) == Pluralise(StrToLower(SeparateWords(name)))
  {
    ConsumingAgrees(name);
    SharedPluralFacts(StrToLower(SeparateWords(name)));
  }

  /** For a name not ending in a capital `S`, the lower-cased separated name ends in `s` exactly when the name does. */
  lemma SeparatedEndingWithoutCapitalS(name: string)
    requires !EndsWith(name, "S")
    ensures EndsWith(StrToLower(SeparateWords(name)), "s") <==> EndsWith(name, "s")
  {
    SeparatedLoweredEnding(name);
    if name != [] {
      LoweredEnding(name);
      EndsWithS(name);
      assert name[|name| - 1] != 'S' by { assert name[|name| - 1..] == [name[|name| - 1]]; }
    }
  }

  /** On a plural that matches the camel-case pattern, the command's table name is the lower-cased separated plural. */
  lemma CommandTableNameCamel(name: string)
    requires MatchesCamelPattern(Pluralise(name))
    ensures CommandTableName(name) == StrToLower(SeparateWords(Pluralise(name)))
  {
  }

  /** The command's table name when the name already ends in `s`: the lower-cased separated name. */
  lemma CommandTablePluralName(name: string)
    requires MatchesCamelPattern(Pluralise(name)) && EndsWith(name, "s")
    ensures CommandTableName(name) == StrToLower(SeparateWords(name))
  {
    CommandTableNameCamel(name);
  }

  /** The command's table name otherwise: the lower-cased separated name followed by `s`. */
  lemma CommandTableSingularName(name: string)
    requires MatchesCamelPattern(Pluralise(name)) && !EndsWith(name, "s")
    ensures CommandTableName(name) == StrToLower(SeparateWords(name)) + "s"
  {
    CommandTableNameCamel(name);
    assert Pluralise(name) == name + "s";
    LoweredSeparatedAppendS(name);
  }

  /** Appending `s` commutes with word separation and lower-casing. */
  lemma LoweredSeparatedAppendS(name: string)
    ensures StrToLower(SeparateWords(name + "s")) == StrToLower(SeparateWords(name)) + "s"
  {
    assert SeparateWords(name + "s") == SeparateWords(name) + "s" by { SeparateWordsAppend(name, 's'); }
    StrToLowerAppend(SeparateWords(name), "s");
    assert StrToLower("s") == "s";
  }

  /**
    On a name the command's camel-case step splits, and that does not end in
    a capital `S`, the command and the shared action make the same table.
  */
  lemma CommandAndSharedAgree(name: string)
    requires MatchesCamelPattern(Pluralise(name))
    requires !EndsWith(name, "S")
    ensures CommandTableName(name) == SharedTableName(name)
  {
    var lowered := StrToLower(SeparateWords(name));
    SharedTableNameIs(name);
    SeparatedEndingWithoutCapitalS(name);
    if EndsWith(name, "s") {
      CommandTablePluralName(name);
    } else {
      CommandTableSingularName(name);
    }
  }

  lemma UserProfilesIsCamel()
    ensures MatchesCamelPattern("User" + "Profiles")
  {
    assert "User" + "Profiles" == "UserProfiles";
    assert AllLower("UserProfiles"[1..4]);
    assert CapitalisedWords("Profiles") by { assert AllLower("Profiles"[1..8]); }
    assert "UserProfiles"[4..] == "Profiles";
  }

  /** A string with no capital after its first character has no word boundary to separate. */
  lemma {:induction false} SeparateWordsNoCapital(s: string)
    requires forall i :: 0 < i < |s| ==> !IsUpper(s[i])
    ensures SeparateWords(s) == s
    decreases |s|
  {
    if |s| >= 2 {
      assert !IsUpper(s[1]);
      var t := s[1..];
      assert forall i :: 0 < i < |t| ==> t[i] == s[i + 1];
      SeparateWordsNoCapital(t);
      assert s == [s[0]] + t;
    }
  }

  /** Two words, each without a capital after its first letter, meeting at a word boundary: one underscore between them. */
  lemma SeparateTwoWords(a: string, b: string)
    requires |a| > 0 && |b| > 0 && IsLower(a[|a| - 1]) && IsUpper(b[0])
    requires forall i :: 0 < i < |a| ==> !IsUpper(a[i])
    requires forall i :: 0 < i < |b| ==> !IsUpper(b[i])
    ensures SeparateWords(a + b) == a + "_" + b
  {
    SeparateWordsConcat(a, b);
    SeparateWordsNoCapital(a);
    SeparateWordsNoCapital(b);
  }

  lemma LoweredUserProfiles()
    ensures StrToLower("User" + "_" + "Profiles") == "user" + "_" + "profiles"
  {
    StrToLowerAppend("User" + "_", "Profiles");
    StrToLowerAppend("User", "_");
    assert StrToLower("User") == "user";
    assert StrToLower("_") == "_";
    assert StrToLower("Profiles") == "profiles";
  }

  lemma LoweredLowerCamel()
    ensures StrToLower("user" + "Profiles") == "user" + "profiles"
    ensures StrToLower("user" + "_" + "Profile") == "user" + "_" + "profile"
  {
    assert StrToLower("user") == "user";
    assert StrToLower("_") == "_";
    assert StrToLower("Profiles") == "profiles" && StrToLower("Profile") == "profile";
    StrToLowerAppend("user", "Profiles");
    StrToLowerAppend("user" + "_", "Profile");
    StrToLowerAppend("user", "_");
  }

  lemma UserProfilesSeparated()
    ensures SeparateWords("User" + "Profiles") == "User" + "_" + "Profiles"
  {
    SeparateTwoWords("User", "Profiles");
  }

  lemma UserProfilePlural()
    ensures Pluralise("User" + "Profile") == "User" + "Profiles"
    ensures !EndsWith("User" + "Profile", "S")
  {
    var name := "User" + "Profile";
    assert name[|name| - 1] == 'e';
    assert name[|name| - 1..] == "e";
    EndsWithS(name);
  }

  /** `UserProfile` makes the `user_profiles` table on both paths. */
  lemma UserProfileTable()
    ensures CommandTableName("User" + "Profile") == "user" + "_" + "profiles"
    ensures SharedTableName("User" + "Profile") == "user" + "_" + "profiles"
  {
    var name := "User" + "Profile";
    assert Pluralise(name) == "User" + "Profiles" && !EndsWith(name, "S") by { UserProfilePlural(); }
    assert MatchesCamelPattern(Pluralise(name)) by { UserProfilesIsCamel(); }
    assert CommandTableName(name) == StrToLower("User" + "_" + "Profiles") by { UserProfilesSeparated(); }
    assert StrToLower("User" + "_" + "Profiles") == "user" + "_" + "profiles" by { LoweredUserProfiles(); }
    assert SharedTableName(name) == CommandTableName(name) by { CommandAndSharedAgree(name); }
  }

  lemma UserProfileSeparated()
    ensures SeparateWords("user" + "Profile") == "user" + "_" + "Profile"
    ensures SeparateWordsConsuming("user" + "Profile") == "user" + "_" + "Profile"
  {
    SeparateTwoWords("user", "Profile");
    ConsumingAgrees("user" + "Profile");
  }

  /** `userProfile` does not match the camel-case pattern, so the command only lower-cases its plural. */
  lemma LowerCamelCommandTable()
    ensures CommandTableName("user" + "Profile") == "user" + "profiles"
  {
    var name := "user" + "Profile";
    assert Pluralise(name) == "user" + "Profiles" by {
      assert name[|name| - 1] == 'e';
      EndsWithS(name);
    }
    assert !MatchesCamelPattern(Pluralise(name)) by { assert Pluralise(name)[0] == 'u'; }
    assert CommandTableName(name) == StrToLower("user" + "Profiles");
    LoweredLowerCamel();
  }

  /** The shared action separates the words of `userProfile` before lower-casing. */
  lemma LowerCamelSharedTable()
    ensures SharedTableName("user" + "Profile") == "user" + "_" + "profiles"
  {
    var name := "user" + "Profile";
    assert SharedTableName(name) == Pluralise(StrToLower("user" + "_" + "Profile")) by {
      SharedTableNameIs(name);
      UserProfileSeparated();
    }
    assert StrToLower("user" + "_" + "Profile") == "user" + "_" + "profile" by { LoweredLowerCamel(); }
    SeparatedPlural();
  }

  lemma SeparatedPlural()
    ensures Pluralise("user" + "_" + "profile") == "user" + "_" + "profiles"
  {
    var lowered := "user" + "_" + "profile";
    assert Pluralise(lowered) == lowered + "s" by {
      assert lowered[|lowered| - 1] == 'e';
      EndsWithS(lowered);
    }
    assert lowered + "s" == "user" + "_" + "profiles";
  }

  /**
    A name starting in lower case does not match the camel-case pattern, so
    the command keeps its words together where the shared action separates
    them: `userProfile` gives `userprofiles` and `user_profiles`.
  */
  lemma LowerCamelTablesDiffer()
    ensures CommandTableName("user" + "Profile") == "user" + "profiles"
    ensures SharedTableName("user" + "Profile") == "user" + "_" + "profiles"
    ensures CommandTableName("user" + "Profile") != SharedTableName("user" + "Profile")
  {
    LowerCamelCommandTable();
    LowerCamelSharedTable();
    assert ("user" + "profiles")[4] != ("user" + "_" + "profiles")[4];
  }
}
