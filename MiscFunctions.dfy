/** The two string helpers of src/app/shared/misc.functions.ts (copied verbatim
    into the dashboard component), over ASCII: `toUpperCase`,
    `toLocaleUpperCase` and `toLowerCase` only move the letters a-z / A-Z. */
module MiscFunctions {
  import opened Wrappers

  /** ASCII upper-casing of one character. */
  function ToUpper(c: char): (u: char)
    ensures 'a' <= c <= 'z' ==> 'A' <= u <= 'Z' && u as int == c as int - 32
    ensures !('a' <= c <= 'z') ==> u == c
  {
    if 'a' <= c <= 'z' then (c as int - 32) as char else c
  }

  /** ASCII lower-casing of one character. */
  function ToLower(c: char): (l: char)
    ensures 'A' <= c <= 'Z' ==> 'a' <= l <= 'z' && l as int == c as int + 32
    ensures !('A' <= c <= 'Z') ==> l == c
  {
    if 'A' <= c <= 'Z' then (c as int + 32) as char else c
  }

  /** Case mapping forgets the case it started from: upper- then lower-casing
      a character is lower-casing it, and the other way round. */
  lemma CaseRoundTrip(c: char)
    ensures ToLower(ToUpper(c)) == ToLower(c)
    ensures ToUpper(ToLower(c)) == ToUpper(c)
  {
  }

  /** `s.toUpperCase()` */
  function Upper(s: string): (r: string)
    ensures |r| == |s|
    ensures forall i :: 0 <= i < |s| ==> r[i] == ToUpper(s[i])
  {
    seq(|s|, i requires 0 <= i < |s| => ToUpper(s[i]))
  }

  /** `s.toLowerCase()` */
  function Lower(s: string): (r: string)
    ensures |r| == |s|
    ensures forall i :: 0 <= i < |s| ==> r[i] == ToLower(s[i])
  {
    seq(|s|, i requires 0 <= i < |s| => ToLower(s[i]))
  }

  /** `name.slice(0, 1).toLocaleUpperCase() + name.slice(1).toLowerCase()`:
      `slice` clamps, so the empty name gives the empty string. */
  function UpperCaseFirstLetter(name: string): (r: string)
  {
    if name == [] then [] else Upper(name[..1]) + Lower(name[1..])
  }

  /** The shape of `upperCaseFirstLetter`: same length, first character
      upper-cased, every other character lower-cased. */
  lemma UpperCaseFirstLetterShape(name: string)
    ensures |UpperCaseFirstLetter(name)| == |name|
    ensures name == [] ==> UpperCaseFirstLetter(name) == []
    ensures name != [] ==> UpperCaseFirstLetter(name)[0] == ToUpper(name[0])
    ensures forall i :: 1 <= i < |name| ==> UpperCaseFirstLetter(name)[i] == ToLower(name[i])
  {
    if name != [] {
      assert UpperCaseFirstLetter(name) == Upper(name[..1]) + Lower(name[1..]);
    }
  }

  lemma UpperCaseFirstLetterIdempotent(name: string)
    ensures UpperCaseFirstLetter(UpperCaseFirstLetter(name)) == UpperCaseFirstLetter(name)
  {
  }

  /** The position of the first `c` in `s`, if any (`s.indexOf(c)`). */
  function IndexOf(s: string, c: char): (r: Option<nat>)
    ensures r.None? <==> c !in s
    ensures r.Some? ==> r.value < |s| && s[r.value] == c && c !in s[..r.value]
  {
    if s == [] then None
    else if s[0] == c then Some(0)
    else match IndexOf(s[1..], c)
      case None => None
      case Some(k) =>
        assert s[1..][..k] == s[1..k + 1];
        Some(k + 1)
  }

  /** `s.split(sep)` for a one-character separator: the maximal
      `sep`-free segments, so there is always at least one. */
  function Split(s: string, sep: char): (parts: seq<string>)
    ensures |parts| >= 1
    ensures forall i :: 0 <= i < |parts| ==> sep !in parts[i]
    decreases |s|
  {
    match IndexOf(s, sep)
    case None => [s]
    case Some(k) => [s[..k]] + Split(s[k + 1..], sep)
  }

  /** `parts.join(sep)`, the inverse of `Split`. */
  function Join(parts: seq<string>, sep: char): string
    requires |parts| >= 1
  {
    if |parts| == 1 then parts[0] else parts[0] + [sep] + Join(parts[1..], sep)
  }

  lemma {:induction false} JoinSplit(s: string, sep: char)
    ensures Join(Split(s, sep), sep) == s
    decreases |s|
  {
    match IndexOf(s, sep)
    case None =>
    case Some(k) =>
      var head, tail := s[..k], s[k + 1..];
      var parts := Split(s, sep);
      assert parts == [head] + Split(tail, sep);
      assert parts[1..] == Split(tail, sep);
      JoinSplit(tail, sep);
      assert Join(parts, sep) == head + [sep] + tail;
      assert s == head + [sep] + tail;
  }

  lemma {:induction false} SplitJoin(parts: seq<string>, sep: char)
    requires |parts| >= 1
    requires forall i :: 0 <= i < |parts| ==> sep !in parts[i]
    ensures Split(Join(parts, sep), sep) == parts
  {
    if |parts| == 1 {
      assert IndexOf(parts[0], sep).None?;
    } else {
      var tail := Join(parts[1..], sep);
      var s := parts[0] + [sep] + tail;
      SplitFirst(parts[0], tail, sep);
      SplitJoin(parts[1..], sep);
    }
  }

  /** `IndexOf` finds the first occurrence and no other. */
  lemma IndexOfFirst(s: string, c: char, k: nat)
    requires k < |s| && s[k] == c && c !in s[..k]
    ensures IndexOf(s, c) == Some(k)
  {
  }

  /** A `sep`-free prefix followed by `sep` is the first part of the split. */
  lemma SplitFirst(a: string, t: string, sep: char)
    requires sep !in a
    ensures Split(a + [sep] + t, sep) == [a] + Split(t, sep)
  {
    var s := a + [sep] + t;
    assert s[..|a|] == a;
    IndexOfFirst(s, sep, |a|);
    assert s[|a| + 1..] == t;
  }

  /** A string without `sep` splits into itself alone. */
  lemma SplitNone(s: string, sep: char)
    requires sep !in s
    ensures Split(s, sep) == [s]
  {
  }

  /** The number of parts is one more than the number of separators. */
  lemma {:induction false} SplitCount(s: string, sep: char)
    ensures |Split(s, sep)| == multiset(s)[sep] + 1
    decreases |s|
  {
    match IndexOf(s, sep)
    case None =>
      assert multiset(s)[sep] == 0;
    case Some(k) =>
      SplitCount(s[k + 1..], sep);
      assert s == s[..k] + [sep] + s[k + 1..];
      assert multiset(s) == multiset(s[..k]) + multiset{sep} + multiset(s[k + 1..]);
  }

  /** `formatGenerationString(input)`: the first `-`-separated segment
      capitalised, the second upper-cased, joined by one `-`. Without a `-`
      `parts[1]` is `undefined` and `.toUpperCase()` throws, modelled as None. */
  function FormatGenerationString(input: string): (r: Option<string>)
  {
    var parts := Split(input, '-');
    if |parts| < 2 then None
    else Some(UpperCaseFirstLetter(parts[0]) + "-" + Upper(parts[1]))
  }

  lemma FormatGenerationStringFailsIffNoHyphen(input: string)
    ensures FormatGenerationString(input).None? <==> '-' !in input
  {
  }

  /** Only the first two segments survive: whatever follows a second `-` is dropped. */
  lemma FormatGenerationStringSegments(first: string, second: string, rest: string)
    requires '-' !in first && '-' !in second
    requires rest == [] || rest[0] == '-'
    ensures FormatGenerationString(first + "-" + second + rest)
         == Some(UpperCaseFirstLetter(first) + "-" + Upper(second))
  {
    var input := first + "-" + second + rest;
    assert input == first + ['-'] + (second + rest);
    SplitFirst(first, second + rest, '-');
    var parts := Split(input, '-');
    assert parts == [first] + Split(second + rest, '-');
    var tail := Split(second + rest, '-');
    if rest == [] {
      assert second + rest == second;
      SplitNone(second, '-');
      assert tail == [second];
    } else {
      assert second + rest == second + ['-'] + rest[1..];
      SplitFirst(second, rest[1..], '-');
      assert tail == [second] + Split(rest[1..], '-');
    }
    assert tail[0] == second;
    assert |parts| >= 2 && parts[0] == first && parts[1] == second;
  }

  /** Lower-casing leaves a string without capitals unchanged. */
  lemma LowerNoCapitals(s: string)
    requires forall i :: 0 <= i < |s| ==> !('A' <= s[i] <= 'Z')
    ensures Lower(s) == s
  {
  }

  lemma CapitaliseGeneration()
    ensures UpperCaseFirstLetter("generation") == "Generation"
  {
  }

  /** `formatGenerationString("generation-i")` is `"Generation-I"`. */
  lemma FormatGenerationOne()
    ensures FormatGenerationString("generation-i") == Some("Generation-I")
  {
    var g := "generation";
    CapitaliseGeneration();
    assert Upper("i") == "I";
    assert "generation-i" == g + "-" + "i" + "";
    FormatGenerationStringSegments(g, "i", "");
    assert UpperCaseFirstLetter(g) + "-" + Upper("i") == "Generation" + "-" + "I" == "Generation-I";
  }

  /** `formatGenerationString("generation-iii")` is `"Generation-III"`. */
  lemma FormatGenerationThree()
    ensures FormatGenerationString("generation-iii") == Some("Generation-III")
  {
    var g := "generation";
    CapitaliseGeneration();
    assert Upper("iii") == "III" by {
      assert |Upper("iii")| == 3;
    }
    assert "generation-iii" == g + "-" + "iii" + "";
    FormatGenerationStringSegments(g, "iii", "");
    assert UpperCaseFirstLetter(g) + "-" + Upper("iii") == "Generation" + "-" + "III" == "Generation-III";
  }

  lemma HyphenFreeUpper(s: string)
    requires '-' !in s
    ensures '-' !in Upper(s) && '-' !in UpperCaseFirstLetter(s)
  {
  }

  lemma UpperIdempotent(s: string)
    ensures Upper(Upper(s)) == Upper(s)
  {
  }

  /** Formatting an already formatted name changes nothing. */
  lemma FormatGenerationStringIdempotent(input: string)
    requires '-' in input
    ensures FormatGenerationString(input).Some?
    ensures FormatGenerationString(FormatGenerationString(input).value) == FormatGenerationString(input)
  {
    FormatGenerationStringFailsIffNoHyphen(input);
    var parts := Split(input, '-');
    var first, second := UpperCaseFirstLetter(parts[0]), Upper(parts[1]);
    HyphenFreeUpper(parts[0]);
    HyphenFreeUpper(parts[1]);
    FormatGenerationStringSegments(first, second, []);
    assert first + "-" + second + [] == first + "-" + second;
    UpperCaseFirstLetterIdempotent(parts[0]);
    UpperIdempotent(parts[1]);
  }
}
