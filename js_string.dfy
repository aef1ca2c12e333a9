/**
 * The JavaScript string built-ins the editors rely on, stated over Dafny
 * strings. A `char` is a Unicode scalar value, so it stands for one UTF-16
 * code unit only for text inside the Basic Multilingual Plane; surrogate
 * pairs are not represented. Covered: `slice`, `indexOf`,
 * `split("\n")` / `join("\n")`, an ASCII `toLowerCase` and the white-space
 * set of `trim`.
 */
module JsString {

  datatype Option<T> = None | Some(value: T)

  function Min(a: int, b: int): int { if a <= b then a else b }
  function Max(a: int, b: int): int { if a >= b then a else b }

  predicate IsDigit(c: char)
  {
    '0' <= c <= '9'
  }

  lemma AppendAssoc<T>(a: seq<T>, b: seq<T>, c: seq<T>)
    ensures (a + b) + c == a + (b + c)
  {
  }

  /** Position normalisation of `String.prototype.slice`: a negative
      argument counts from the end, then the result is clamped to [0, len]. */
  function RelIndex(len: nat, k: int): (r: nat)
    ensures r <= len
    ensures 0 <= k <= len ==> r == k
    ensures k < 0 ==> r == Max(0, len + k)
    ensures k > len ==> r == len
  {
    if k < 0 then (if len + k < 0 then 0 else len + k)
    else if k > len then len
    else k
  }

  /** `s.slice(start, end)` */
  function Slice(s: string, start: int, end: int): (r: string)
    ensures 0 <= start <= end <= |s| ==> r == s[start..end]
    ensures |r| <= |s|
  {
    var a := RelIndex(|s|, start);
    var b := RelIndex(|s|, end);
    if a < b then s[a..b] else ""
  }

  /** `s.slice(start)` */
  function SliceFrom(s: string, start: int): (r: string)
    ensures 0 <= start <= |s| ==> r == s[start..]
    ensures start >= |s| ==> r == ""
    ensures start < 0 ==> r == s[Max(0, |s| + start)..]
  {
    Slice(s, start, |s|)
  }

  /** `needle` occurs in `s` at position `k`. */
  predicate OccursAt(s: string, needle: string, k: int)
  {
    0 <= k && k + |needle| <= |s| && s[k..k + |needle|] == needle
  }

  /** `s.indexOf(needle, from)`: the first occurrence at or after the
      (clamped) start position, or -1. */
  function IndexOf(s: string, needle: string, from: int): (r: int)
    ensures r == -1 || (Min(Max(from, 0), |s|) <= r && OccursAt(s, needle, r))
    decreases |s| - Min(Max(from, 0), |s|)
  {
    var p := Min(Max(from, 0), |s|);
    if p + |needle| > |s| then
      -1
    else if s[p..p + |needle|] == needle then
      p
    else
      IndexOf(s, needle, p + 1)
  }

  /** The needle occurs nowhere in `[lo, hi)`. */
  predicate NoOccurrence(s: string, needle: string, lo: int, hi: int)
  {
    forall k :: lo <= k < hi ==> !OccursAt(s, needle, k)
  }

  /** `indexOf` finds the first occurrence: there is none between the start
      position and the result, and none at all when the result is -1. */
  lemma {:induction false} IndexOfFirst(s: string, needle: string, from: int)
    ensures IndexOf(s, needle, from) >= 0 ==> NoOccurrence(s, needle, Min(Max(from, 0), |s|), IndexOf(s, needle, from))
    ensures IndexOf(s, needle, from) == -1 ==> NoOccurrence(s, needle, Min(Max(from, 0), |s|), |s| + 1)
    decreases |s| - Min(Max(from, 0), |s|)
  {
    var p := Min(Max(from, 0), |s|);
    if p + |needle| <= |s| && s[p..p + |needle|] != needle {
      var r := IndexOf(s, needle, p + 1);
      IndexOfFirst(s, needle, p + 1);
      assert IndexOf(s, needle, from) == r;
      assert Min(Max(p + 1, 0), |s|) == p + 1;
      assert !OccursAt(s, needle, p);
      var hi := if r >= 0 then r else |s| + 1;
      assert NoOccurrence(s, needle, p + 1, hi);
      assert NoOccurrence(s, needle, p, hi) by {
        forall k | p <= k < hi ensures !OccursAt(s, needle, k) {
          if k != p { assert p + 1 <= k; }
        }
      }
    }
  }

  /** `text.indexOf(c, p)` for a one-unit needle. */
  function NextUnit(text: string, c: char, p: nat): (r: int)
    requires p <= |text|
    ensures r == -1 || (p <= r < |text| && text[r] == c)
    decreases |text| - p
  {
    if p == |text| then -1
    else if text[p] == c then p
    else NextUnit(text, c, p + 1)
  }

  /** `NextUnit` agrees with `IndexOf`. */
  lemma {:induction false} NextUnitIsIndexOf(text: string, c: char, p: nat)
    requires p <= |text|
    ensures NextUnit(text, c, p) == IndexOf(text, [c], p)
    decreases |text| - p
  {
    if p < |text| {
      assert (text[p..p + 1] == [c]) == (text[p] == c) by {
        assert text[p..p + 1][0] == text[p];
      }
      NextUnitIsIndexOf(text, c, p + 1);
    }
  }

  /** `NextUnit` finds the first `c` at or after `p`. */
  lemma {:induction false} NextUnitFirst(text: string, c: char, p: nat)
    requires p <= |text|
    ensures var r := NextUnit(text, c, p);
            forall k :: p <= k < (if r == -1 then |text| else r) ==> text[k] != c
    decreases |text| - p
  {
    if p < |text| && text[p] != c {
      NextUnitFirst(text, c, p + 1);
    }
  }

  /** A `c` at `k` with none before it, from `p` on, is what `NextUnit` finds. */
  lemma {:induction false} NextUnitFinds(text: string, c: char, p: nat, k: int)
    requires p <= |text|
    requires k == -1 || (p <= k < |text| && text[k] == c)
    requires forall j :: p <= j < (if k == -1 then |text| else k) ==> text[j] != c
    ensures NextUnit(text, c, p) == k
    decreases |text| - p
  {
    if p < |text| && p != k {
      NextUnitFinds(text, c, p + 1, k);
    }
  }

  /** `s.split(sep)` for a one-character separator. */
  function Split(s: string, sep: char): (parts: seq<string>)
    ensures |parts| >= 1
    ensures forall i :: 0 <= i < |parts| ==> sep !in parts[i]
    decreases |s|
  {
    if s == [] then [""]
    else
      var rest := Split(s[1..], sep);
      if s[0] == sep then [""] + rest
      else [[s[0]] + rest[0]] + rest[1..]
  }

  /** `parts.join(sep)` */
  function Join(parts: seq<string>, sep: char): string
    decreases |parts|
  {
    if |parts| == 0 then ""
    else if |parts| == 1 then parts[0]
    else parts[0] + [sep] + Join(parts[1..], sep)
  }

  /** Number of occurrences of `c` in `s`. */
  function Count(s: string, c: char): nat
    decreases |s|
  {
    if s == [] then 0 else (if s[0] == c then 1 else 0) + Count(s[1..], c)
  }

  lemma {:induction false} CountAppend(a: string, b: string, c: char)
    ensures Count(a + b, c) == Count(a, c) + Count(b, c)
    decreases |a|
  {
    if a == [] {
      assert a + b == b;
    } else {
      assert (a + b)[1..] == a[1..] + b;
      CountAppend(a[1..], b, c);
    }
  }

  lemma {:induction false} CountAbsent(s: string, c: char)
    requires c !in s
    ensures Count(s, c) == 0
    decreases |s|
  {
    if s != [] {
      assert s[0] != c;
      assert forall x :: x in s[1..] ==> x in s;
      CountAbsent(s[1..], c);
    }
  }

  /** Joining the pieces of a split gives the string back. */
  lemma {:induction false} JoinSplit(s: string, sep: char)
    ensures Join(Split(s, sep), sep) == s
    decreases |s|
  {
    if s != [] {
      var rest := Split(s[1..], sep);
      JoinSplit(s[1..], sep);
      if s[0] == sep {
        assert Split(s, sep) == [""] + rest;
        assert ([""] + rest)[1..] == rest;
      } else {
        var parts := [[s[0]] + rest[0]] + rest[1..];
        assert Split(s, sep) == parts;
        if |rest| == 1 {
          assert parts == [[s[0]] + rest[0]];
          assert Join(rest, sep) == rest[0];
        } else {
          assert parts[1..] == rest[1..];
          assert Join(rest, sep) == rest[0] + [sep] + Join(rest[1..], sep);
        }
      }
    }
  }

  /** A split has exactly one more piece than there are separators. */
  lemma {:induction false} SplitCount(s: string, sep: char)
    ensures |Split(s, sep)| == Count(s, sep) + 1
    decreases |s|
  {
    if s != [] {
      SplitCount(s[1..], sep);
    }
  }

  /** Splitting a join of separator-free pieces gives the pieces back. */
  lemma {:induction false} SplitJoin(parts: seq<string>, sep: char)
    requires |parts| >= 1
    requires forall i :: 0 <= i < |parts| ==> sep !in parts[i]
    ensures Split(Join(parts, sep), sep) == parts
    decreases |parts|, |parts[0]|
  {
    if |parts| == 1 {
      SplitNoSep(parts[0], sep);
    } else if parts[0] == "" {
      var tail := parts[1..];
      SplitJoin(tail, sep);
      assert Join(parts, sep) == [sep] + Join(tail, sep);
      assert ([sep] + Join(tail, sep))[1..] == Join(tail, sep);
      assert parts == [""] + tail;
    } else {
      var p0 := parts[0];
      var shorter := [p0[1..]] + parts[1..];
      assert forall x :: x in p0[1..] ==> x in p0;
      assert forall i :: 0 <= i < |shorter| ==> sep !in shorter[i] by {
        forall i | 0 <= i < |shorter| ensures sep !in shorter[i] {
          if i > 0 { assert shorter[i] == parts[i]; }
        }
      }
      SplitJoin(shorter, sep);
      var j := Join(parts, sep);
      assert j == p0 + [sep] + Join(parts[1..], sep);
      assert Join(shorter, sep) == p0[1..] + [sep] + Join(parts[1..], sep);
      assert j[1..] == Join(shorter, sep);
      assert j[0] == p0[0] && p0[0] != sep;
      assert p0 == [p0[0]] + p0[1..];
      assert parts == [[p0[0]] + shorter[0]] + shorter[1..];
    }
  }

  lemma {:induction false} SplitNoSep(s: string, sep: char)
    requires sep !in s
    ensures Split(s, sep) == [s]
    decreases |s|
  {
    if s != [] {
      assert forall x :: x in s[1..] ==> x in s;
      SplitNoSep(s[1..], sep);
      assert [s[0]] + s[1..] == s;
    }
  }

  /** Cutting a string at two ordered non-negative positions and gluing the
      pieces back gives the string. */
  lemma SliceSplit(t: string, a: int, b: int)
    requires 0 <= a <= b
    ensures Slice(t, 0, a) + Slice(t, a, b) + SliceFrom(t, b) == t
  {
    var ra, rb := RelIndex(|t|, a), RelIndex(|t|, b);
    assert Slice(t, 0, a) == t[..ra];
    assert Slice(t, a, b) == t[ra..rb];
    assert SliceFrom(t, b) == t[rb..];
    assert t == t[..ra] + t[ra..rb] + t[rb..];
  }

  /** Joining with one more piece at the end. */
  lemma {:induction false} JoinSnoc(parts: seq<string>, z: string, sep: char)
    ensures Join(parts + [z], sep) == if parts == [] then z else Join(parts, sep) + [sep] + z
    decreases |parts|
  {
    if |parts| == 1 {
      assert parts + [z] == [parts[0], z];
      assert Join([z], sep) == z;
    } else if |parts| > 1 {
      assert (parts + [z])[1..] == parts[1..] + [z];
      JoinSnoc(parts[1..], z, sep);
    }
  }

  /** Joining with one more piece at the front. */
  lemma JoinCons(x: string, rest: seq<string>, sep: char)
    requires rest != []
    ensures Join([x] + rest, sep) == x + [sep] + Join(rest, sep)
  {
    assert ([x] + rest)[1..] == rest;
  }

  /** Extending the first piece at the front and the last piece at the back
      extends the joined string the same way. */
  lemma JoinFrame(head: string, a: string, mid: seq<string>, b: string, tail: string, sep: char)
    ensures Join([head + a] + mid + [b + tail], sep) == head + Join([a] + mid + [b], sep) + tail
  {
    assert [head + a] + mid + [b + tail] == [head + a] + (mid + [b + tail]);
    assert [a] + mid + [b] == [a] + (mid + [b]);
    JoinCons(head + a, mid + [b + tail], sep);
    JoinCons(a, mid + [b], sep);
    JoinSnoc(mid, b + tail, sep);
    JoinSnoc(mid, b, sep);
  }

  /** ASCII case folding (the model's stand-in for `toLowerCase`). */
  function LowerChar(c: char): (r: char)
  {
    if 'A' <= c <= 'Z' then (c as int + 32) as char else c
  }

  function ToLower(s: string): (r: string)
    ensures |r| == |s|
    ensures forall i :: 0 <= i < |s| ==> r[i] == LowerChar(s[i])
  {
    seq(|s|, i requires 0 <= i < |s| => LowerChar(s[i]))
  }

  /** ECMAScript WhiteSpace and LineTerminator code units (what `trim` removes). */
  predicate IsJsWhiteSpace(c: char)
  {
    c == '\t' || c == '\n' || c == '\U{000B}' || c == '\U{000C}' || c == '\r' || c == ' '
    || c == '\U{00A0}' || c == '\U{1680}' || ('\U{2000}' <= c <= '\U{200A}')
    || c == '\U{2028}' || c == '\U{2029}' || c == '\U{202F}' || c == '\U{205F}'
    || c == '\U{3000}' || c == '\U{FEFF}'
  }

  /** The number of white-space units `s.trimStart()` removes. */
  function LeadingWhiteSpace(s: string): (n: nat)
    ensures n <= |s|
    ensures n == |s| || !IsJsWhiteSpace(s[n])
    decreases |s|
  {
    if s != [] && IsJsWhiteSpace(s[0]) then 1 + LeadingWhiteSpace(s[1..]) else 0
  }

  /** Every unit `trimStart` removes is white space. */
  lemma {:induction false} LeadingWhiteSpaceIsSpace(s: string)
    ensures forall k :: 0 <= k < LeadingWhiteSpace(s) ==> IsJsWhiteSpace(s[k])
    decreases |s|
  {
    if s != [] && IsJsWhiteSpace(s[0]) {
      LeadingWhiteSpaceIsSpace(s[1..]);
      forall k | 1 <= k < LeadingWhiteSpace(s)
        ensures IsJsWhiteSpace(s[k])
      {
        assert s[k] == s[1..][k - 1];
      }
    }
  }

  /** `s.trimStart()` */
  function TrimStart(s: string): (r: string)
  {
    s[LeadingWhiteSpace(s)..]
  }

  /** The number of white-space units `s.trimEnd()` removes. */
  function TrailingWhiteSpace(s: string): (n: nat)
    ensures n <= |s|
    ensures n == |s| || !IsJsWhiteSpace(s[|s| - 1 - n])
    decreases |s|
  {
    if s != [] && IsJsWhiteSpace(s[|s| - 1]) then 1 + TrailingWhiteSpace(s[..|s| - 1]) else 0
  }

  /** `s.trim()` */
  function Trim(s: string): (r: string)
    ensures r == [] || (!IsJsWhiteSpace(r[0]) && !IsJsWhiteSpace(r[|r| - 1]))
  {
    var t := TrimStart(s);
    t[..|t| - TrailingWhiteSpace(t)]
  }
}
