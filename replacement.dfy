/**
 * The replacement template of search and replace
 * (`applyReplacementPattern` in search-controller.js). In regex mode a `$`
 * introduces `$$`, `$&`, `` $` ``, `$'`, `$<name>` or a one- or two-digit
 * group number; anything else is copied. This is the template language of
 * `String.prototype.replace` (GetSubstitution, section 22.1.3.19.1 of
 * ECMA-262) with the code's own deviations: a group number that is out of
 * range, zero or unmatched expands to the empty string.
 */
module ReplacementPattern {
  import opened JsString

  /** A search hit on line `line`, covering `[start, end)` of its text. The
      groups are only reported by the regex search; an unmatched group is
      `None` (`undefined`). */
  datatype Match = Match(line: nat, start: nat, end: nat, text: string,
                         groupValues: Option<seq<Option<string>>>,
                         namedGroups: Option<map<string, Option<string>>>)

  /** `/\d/`: an ASCII digit. */
  predicate AllDigits(ds: string)
  {
    forall k :: 0 <= k < |ds| ==> IsDigit(ds[k])
  }

  /** `Number(digits)` for a string of ASCII digits. */
  function Decimal(ds: string): (n: nat)
    requires AllDigits(ds)
    ensures |ds| == 1 ==> n == ds[0] as int - '0' as int
    ensures |ds| == 2 ==> n == 10 * (ds[0] as int - '0' as int) + (ds[1] as int - '0' as int)
    decreases |ds|
  {
    if ds == [] then 0
    else
      var init := ds[..|ds| - 1];
      assert AllDigits(init) by {
        forall k | 0 <= k < |init| ensures IsDigit(init[k]) { assert init[k] == ds[k]; }
      }
      10 * Decimal(init) + (ds[|ds| - 1] as int - '0' as int)
  }

  /** How many digits a `$N` starting with the digit at `k` consumes: at most two. */
  function DigitRun(p: string, k: nat): (n: nat)
    requires k < |p| && IsDigit(p[k])
    ensures 1 <= n <= 2 && k + n <= |p| && AllDigits(p[k..k + n])
    ensures n == 2 <==> k + 1 < |p| && IsDigit(p[k + 1])
  {
    if k + 1 < |p| && IsDigit(p[k + 1]) then
      assert p[k..k + 2] == [p[k], p[k + 1]];
      2
    else
      assert p[k..k + 1] == [p[k]];
      1
  }

  /** Group `index` (1-based) of `match.groupValues || []`, or "" for index
      0, an index past the groups, or an unmatched group. */
  function GroupText(m: Match, index: nat): string
  {
    var groups := if m.groupValues.Some? then m.groupValues.value else [];
    if 0 < index <= |groups| && groups[index - 1].Some? then groups[index - 1].value else ""
  }

  /** The named groups of a match: `match.namedGroups || {}`. */
  function NamedGroups(m: Match): map<string, Option<string>>
  {
    if m.namedGroups.Some? then m.namedGroups.value else map[]
  }

  /** What `$<name>` appends: the group's value when the name is a group
      (an unmatched one gives ""), nothing otherwise. */
  function NamedText(m: Match, name: string): string
  {
    var named := NamedGroups(m);
    if name in named && named[name].Some? then named[name].value else ""
  }

  /** One pass of the template loop at `i`: what it appends and the
      position after what it consumed. */
  function Step(p: string, i: nat, m: Match, fullText: string): (r: (string, nat))
    requires i < |p|
    ensures i < r.1 <= |p|
  {
    if p[i] == '$' && i < |p| - 1 then
      var next := p[i + 1];
      if next == '$' then ("$", i + 2)
      else if next == '&' then (m.text, i + 2)
      else if next == '`' then (Slice(fullText, 0, m.start), i + 2)
      else if next == '\'' then (SliceFrom(fullText, m.end), i + 2)
      else if next == '<' && NextUnit(p, '>', i + 2) != -1 then
        var closing := NextUnit(p, '>', i + 2);
        (NamedText(m, p[i + 2..closing]), closing + 1)
      else if IsDigit(next) then
        var n := DigitRun(p, i + 1);
        (GroupText(m, Decimal(p[i + 1..i + 1 + n])), i + 1 + n)
      else ("$", i + 1)
    else ([p[i]], i + 1)
  }

  /** The expansion of the template `p` from position `i` on, for the match
      `m` found in `fullText`. */
  function ExpandFrom(p: string, i: nat, m: Match, fullText: string): string
    requires i <= |p|
    decreases |p| - i
  {
    if i == |p| then ""
    else
      var (piece, next) := Step(p, i, m, fullText);
      piece + ExpandFrom(p, next, m, fullText)
  }

  function Expand(p: string, m: Match, fullText: string): string
  {
    ExpandFrom(p, 0, m, fullText)
  }

  /** `applyReplacementPattern(match, pattern, fullText, useRegex)`. */
  method ApplyReplacementPattern(m: Match, pattern: string, fullText: string, useRegex: bool)
    returns (result: string)
    ensures !useRegex || '$' !in pattern ==> result == pattern
    ensures useRegex ==> result == Expand(pattern, m, fullText)
  {
    if !useRegex {
      return pattern;
    }
    if '$' !in pattern {
      ExpandNoDollar(pattern, 0, m, fullText);
      return pattern;
    }
    result := "";
    var i := 0;
    while i < |pattern|
      invariant 0 <= i <= |pattern|
      invariant result + ExpandFrom(pattern, i, m, fullText) == Expand(pattern, m, fullText)
      decreases |pattern| - i
    {
      var piece, next := ExpandOnce(m, pattern, fullText, i);
      assert ExpandFrom(pattern, i, m, fullText) == piece + ExpandFrom(pattern, next, m, fullText);
      AppendAssoc(result, piece, ExpandFrom(pattern, next, m, fullText));
      result := result + piece;
      i := next;
    }
  }

  /** One pass of the template loop at `i`: what it appends and where the
      loop goes on. */
  method ExpandOnce(m: Match, pattern: string, fullText: string, i: nat) returns (piece: string, next: nat)
    requires i < |pattern|
    ensures (piece, next) == Step(pattern, i, m, fullText)
  {
    var c := pattern[i];
    if c == '$' && i < |pattern| - 1 {
      var n := pattern[i + 1];
      if n == '$' {
        return "$", i + 2;
      }
      if n == '&' {
        return m.text, i + 2;
      }
      if n == '`' {
        return Slice(fullText, 0, m.start), i + 2;
      }
      if n == '\'' {
        return SliceFrom(fullText, m.end), i + 2;
      }
      if n == '<' {
        var closing := NextUnit(pattern, '>', i + 2);
        if closing != -1 {
          piece := NamedGroupValue(m, pattern[i + 2..closing]);
          return piece, closing + 1;
        }
      }
      if IsDigit(n) {
        piece, next := GroupReference(m, pattern, i);
        return;
      }
    }
    piece, next := [c], i + 1;
  }

  /** `if (hasOwnProperty(named, name)) result += named[name] ?? ""`. */
  method NamedGroupValue(m: Match, name: string) returns (value: string)
    ensures value == NamedText(m, name)
  {
    var named := NamedGroups(m);
    value := "";
    if name in named {
      value := if named[name].Some? then named[name].value else "";
    }
  }

  /** `$` followed by a digit at `i + 1`: up to two digits read as a group number. */
  method GroupReference(m: Match, pattern: string, i: nat) returns (piece: string, next: nat)
    requires i + 1 < |pattern| && pattern[i] == '$' && IsDigit(pattern[i + 1])
    ensures var n := DigitRun(pattern, i + 1);
            next == i + 1 + n && piece == GroupText(m, Decimal(pattern[i + 1..next]))
  {
    var groups := if m.groupValues.Some? then m.groupValues.value else [];
    var j := i + 1;
    var digits := "";
    while j < |pattern| && IsDigit(pattern[j]) && |digits| < 2
      invariant i + 1 <= j <= i + 3 && j <= |pattern|
      invariant digits == pattern[i + 1..j] && |digits| == j - (i + 1)
      invariant AllDigits(digits)
      decreases |pattern| - j
    {
      digits := digits + [pattern[j]];
      j := j + 1;
    }
    var index := Decimal(digits);
    piece := if 0 < index <= |groups| && groups[index - 1].Some? then groups[index - 1].value else "";
    next := i + 1 + |digits|;
  }

  /** A template without `$` expands to itself: the early return for such a
      template agrees with the loop. */
  lemma {:induction false} ExpandNoDollar(p: string, i: nat, m: Match, fullText: string)
    requires i <= |p| && '$' !in p
    ensures ExpandFrom(p, i, m, fullText) == p[i..]
    decreases |p| - i
  {
    if i < |p| {
      ExpandNoDollar(p, i + 1, m, fullText);
      assert p[i..] == [p[i]] + p[i + 1..];
    }
  }

  /** Looking for a unit behind a prefix finds it at the shifted position. */
  lemma {:induction false} NextUnitShift(a: string, b: string, c: char, k: nat)
    requires k <= |b|
    ensures var r := NextUnit(b, c, k);
            NextUnit(a + b, c, |a| + k) == if r == -1 then -1 else |a| + r
    decreases |b| - k
  {
    if k < |b| {
      assert (a + b)[|a| + k] == b[k];
      NextUnitShift(a, b, c, k + 1);
    }
  }

  /** A step reads nothing in front of its position. */
  lemma StepShift(a: string, b: string, j: nat, m: Match, fullText: string)
    requires j < |b|
    ensures var (piece, next) := Step(b, j, m, fullText);
            Step(a + b, |a| + j, m, fullText) == (piece, |a| + next)
  {
    var p := a + b;
    var i := |a| + j;
    assert p[i] == b[j];
    if b[j] == '$' && j < |b| - 1 {
      assert p[i + 1] == b[j + 1];
      if b[j + 1] == '<' {
        NamedStepShift(a, b, j, m, fullText);
      } else if IsDigit(b[j + 1]) {
        DigitStepShift(a, b, j, m, fullText);
      }
    }
  }

  lemma NamedStepShift(a: string, b: string, j: nat, m: Match, fullText: string)
    requires j + 1 < |b| && b[j] == '$' && b[j + 1] == '<'
    ensures var (piece, next) := Step(b, j, m, fullText);
            Step(a + b, |a| + j, m, fullText) == (piece, |a| + next)
  {
    var p := a + b;
    var i := |a| + j;
    assert p[i] == '$' && p[i + 1] == '<';
    NextUnitShift(a, b, '>', j + 2);
    var closing := NextUnit(b, '>', j + 2);
    if closing != -1 {
      assert p[i + 2..|a| + closing] == b[j + 2..closing];
    }
  }

  lemma DigitStepShift(a: string, b: string, j: nat, m: Match, fullText: string)
    requires j + 1 < |b| && b[j] == '$' && IsDigit(b[j + 1])
    ensures var (piece, next) := Step(b, j, m, fullText);
            Step(a + b, |a| + j, m, fullText) == (piece, |a| + next)
  {
    var p := a + b;
    var i := |a| + j;
    assert p[i] == '$' && p[i + 1] == b[j + 1];
    if j + 2 < |b| {
      assert p[i + 2] == b[j + 2];
    }
    var n := DigitRun(b, j + 1);
    assert DigitRun(p, i + 1) == n;
    assert p[i + 1..i + 1 + n] == b[j + 1..j + 1 + n];
  }

  /** The step at a `$` followed by a digit and no second digit. */
  lemma OneDigitStep(p: string, i: nat, m: Match, fullText: string)
    requires i + 1 < |p| && p[i] == '$' && IsDigit(p[i + 1]) && (i + 2 == |p| || !IsDigit(p[i + 2]))
    ensures Step(p, i, m, fullText) == (GroupText(m, p[i + 1] as int - '0' as int), i + 2)
  {
    assert p[i + 1..i + 2] == [p[i + 1]];
  }

  /** The step at a `$` followed by two digits. */
  lemma TwoDigitStep(p: string, i: nat, m: Match, fullText: string)
    requires i + 2 < |p| && p[i] == '$' && IsDigit(p[i + 1]) && IsDigit(p[i + 2])
    ensures Step(p, i, m, fullText)
            == (GroupText(m, 10 * (p[i + 1] as int - '0' as int) + (p[i + 2] as int - '0' as int)), i + 3)
  {
    assert p[i + 1..i + 3] == [p[i + 1], p[i + 2]];
  }

  /** The expansion from a position reads nothing in front of it. */
  lemma {:induction false} ExpandShift(a: string, b: string, j: nat, m: Match, fullText: string)
    requires j <= |b|
    ensures ExpandFrom(a + b, |a| + j, m, fullText) == ExpandFrom(b, j, m, fullText)
    decreases |b| - j
  {
    if j < |b| {
      StepShift(a, b, j, m, fullText);
      ExpandShift(a, b, Step(b, j, m, fullText).1, m, fullText);
    }
  }

  /** Expanding a template that starts with `head` when the first step
      consumes exactly `head`. */
  lemma FirstStep(head: string, rest: string, m: Match, fullText: string)
    requires head != [] && Step(head + rest, 0, m, fullText).1 == |head|
    ensures Expand(head + rest, m, fullText) == Step(head + rest, 0, m, fullText).0 + Expand(rest, m, fullText)
  {
    ExpandShift(head, rest, 0, m, fullText);
  }

  // ----- What the template language means -----

  /** `$$`, `$&`, `` $` `` and `$'` expand to a dollar sign, the matched
      text, the text in front of the match and the text behind it. */
  lemma EscapeExpansions(rest: string, m: Match, fullText: string)
    ensures Expand("$$" + rest, m, fullText) == "$" + Expand(rest, m, fullText)
    ensures Expand("$&" + rest, m, fullText) == m.text + Expand(rest, m, fullText)
    ensures Expand("$`" + rest, m, fullText) == Slice(fullText, 0, m.start) + Expand(rest, m, fullText)
    ensures Expand("$'" + rest, m, fullText) == SliceFrom(fullText, m.end) + Expand(rest, m, fullText)
  {
    FirstStep("$$", rest, m, fullText);
    FirstStep("$&", rest, m, fullText);
    FirstStep("$`", rest, m, fullText);
    FirstStep("$'", rest, m, fullText);
  }

  /** A `$` at the very end, or in front of a unit that starts no
      expansion, is copied. */
  lemma LoneDollar(c: char, rest: string, m: Match, fullText: string)
    requires c !in "$&`'<" && !IsDigit(c)
    ensures Expand("$", m, fullText) == "$"
    ensures Expand("$" + [c] + rest, m, fullText) == "$" + Expand([c] + rest, m, fullText)
  {
    FirstStep("$", [c] + rest, m, fullText);
    assert "$" + [c] + rest == "$" + ([c] + rest);
  }

  /** `$<name>` expands to the named group's value, or to nothing. */
  lemma NamedGroupExpansion(name: string, rest: string, m: Match, fullText: string)
    requires '>' !in name
    ensures Expand("$<" + name + ">" + rest, m, fullText) == NamedText(m, name) + Expand(rest, m, fullText)
  {
    var head := "$<" + name + ">";
    var p := head + rest;
    assert p[|name| + 2] == '>';
    forall k | 2 <= k < |name| + 2
      ensures p[k] != '>'
    {
      assert p[k] == name[k - 2];
    }
    NextUnitFinds(p, '>', 2, |name| + 2);
    assert p[2..|name| + 2] == name;
    FirstStep(head, rest, m, fullText);
  }

  /** Without a closing `>`, `$<` is copied. */
  lemma UnclosedNamedGroup(rest: string, m: Match, fullText: string)
    requires '>' !in rest
    ensures Expand("$<" + rest, m, fullText) == "$<" + Expand(rest, m, fullText)
  {
    var p := "$<" + rest;
    forall k | 2 <= k < |p|
      ensures p[k] != '>'
    {
      assert p[k] == rest[k - 2];
    }
    NextUnitFinds(p, '>', 2, -1);
    assert Step(p, 0, m, fullText) == ("$", 1);
    assert Step(p, 1, m, fullText) == ("<", 2);
    assert ExpandFrom(p, 1, m, fullText) == "<" + ExpandFrom(p, 2, m, fullText);
    assert Expand(p, m, fullText) == "$" + ExpandFrom(p, 1, m, fullText);
    ExpandShift("$<", rest, 0, m, fullText);
  }

  /** `$d` expands to group d (or "" for 0, a missing or an unmatched
      group) when no second digit follows. */
  lemma OneDigitGroup(d: char, rest: string, m: Match, fullText: string)
    requires IsDigit(d) && (rest == [] || !IsDigit(rest[0]))
    ensures Expand("$" + [d] + rest, m, fullText) == GroupText(m, d as int - '0' as int) + Expand(rest, m, fullText)
  {
    var p := "$" + [d] + rest;
    assert p[0] == '$' && p[1] == d;
    if rest != [] {
      assert p[2] == rest[0];
    }
    OneDigitStep(p, 0, m, fullText);
    FirstStep("$" + [d], rest, m, fullText);
  }

  /** `$dd` expands to group dd; a third digit is copied. */
  lemma TwoDigitGroup(d1: char, d2: char, rest: string, m: Match, fullText: string)
    requires IsDigit(d1) && IsDigit(d2)
    ensures Expand("$" + [d1, d2] + rest, m, fullText)
            == GroupText(m, 10 * (d1 as int - '0' as int) + (d2 as int - '0' as int)) + Expand(rest, m, fullText)
  {
    var p := "$" + [d1, d2] + rest;
    assert p[0] == '$' && p[1] == d1 && p[2] == d2;
    TwoDigitStep(p, 0, m, fullText);
    FirstStep("$" + [d1, d2], rest, m, fullText);
  }

  /** `$0` and a reference to a group the match does not have give nothing. */
  lemma MissingGroupIsEmpty(m: Match, index: nat)
    requires index == 0 || m.groupValues.None? || index > |m.groupValues.value|
    ensures GroupText(m, index) == ""
  {
  }

  /** A template that quotes every `$` of a text as `$$` expands to that text. */
  function Quote(s: string): (r: string)
    ensures |r| >= |s|
    decreases |s|
  {
    if s == [] then []
    else (if s[0] == '$' then "$$" else [s[0]]) + Quote(s[1..])
  }

  lemma {:induction false} ExpandQuote(s: string, m: Match, fullText: string)
    ensures Expand(Quote(s), m, fullText) == s
    decreases |s|
  {
    if s != [] {
      ExpandQuote(s[1..], m, fullText);
      var head := if s[0] == '$' then "$$" else [s[0]];
      FirstStep(head, Quote(s[1..]), m, fullText);
      assert s == [s[0]] + s[1..];
    }
  }
}
