/**
 * The tokenizer behind `getRenderedSegments`: a text line is cut into
 * display segments, where `https://` links run to the next white space,
 * a closed `[label]` becomes a relative link shown as `label` (or as
 * `[label]` on the caret line), and an unclosed `[` turns the rest of the
 * line into plain text. Image lines have no segments.
 */
module Segments {
  import opened JsString
  import opened Outline

  /** One rendered segment; `target` is absent on plain text. */
  datatype Segment = Segment(displayText: string, isQuote: bool, isLink: bool, isRelativeLink: bool,
                             target: Option<string>)

  function Plain(text: string, quote: bool): Segment
  {
    Segment(text, quote, false, false, None)
  }

  // ----- The three `indexOf` probes of the loop -----

  /** A link scheme starts at `k`, compared unit by unit. */
  predicate LinkAt(text: string, k: nat)
  {
    && k + 8 <= |text|
    && text[k] == 'h' && text[k + 1] == 't' && text[k + 2] == 't' && text[k + 3] == 'p'
    && text[k + 4] == 's' && text[k + 5] == ':' && text[k + 6] == '/' && text[k + 7] == '/'
  }

  /** `LinkAt` is the comparison of eight units with the scheme. */
  lemma LinkAtScheme(text: string, k: nat)
    requires k + 8 <= |text|
    ensures LinkAt(text, k) <==> text[k..k + 8] == "https://"
  {
    var d := text[k..k + 8];
    assert forall j :: 0 <= j < 8 ==> d[j] == text[k + j];
  }

  /** `text.indexOf("https://", p)`. */
  function NextLink(text: string, p: nat): (r: int)
    requires p <= |text|
    ensures r == -1 || (p <= r && LinkAt(text, r))
    decreases |text| - p
  {
    if p + 8 > |text| then -1
    else if LinkAt(text, p) then p
    else NextLink(text, p + 1)
  }

  /** The link probe agrees with `String.prototype.indexOf`. */
  lemma {:induction false} NextLinkIsIndexOf(text: string, p: nat)
    requires p <= |text|
    ensures NextLink(text, p) == IndexOf(text, "https://", p)
    decreases |text| - p
  {
    if p + 8 <= |text| {
      LinkAtScheme(text, p);
      NextLinkIsIndexOf(text, p + 1);
    }
  }

  // ----- One pass of the loop -----

  /** The token whose start is nearest to the scan position. */
  datatype Token = NoToken | LinkToken | BracketToken

  /** The choice at the top of the tokenizer loop: the link start is taken
      when it comes before the end, the bracket when it comes before that. */
  function NextToken(len: nat, linkIndex: int, bracketIndex: int): (r: (nat, Token))
    requires linkIndex >= -1 && bracketIndex >= -1
    ensures r.0 <= len
    ensures r.1 == NoToken <==> r.0 == len && !(0 <= linkIndex < len) && !(0 <= bracketIndex < len)
    ensures r.1 == LinkToken ==> r.0 == linkIndex && (bracketIndex == -1 || bracketIndex >= linkIndex)
    ensures r.1 == BracketToken ==> r.0 == bracketIndex
    ensures r.1 != NoToken ==> (linkIndex == -1 || r.0 <= linkIndex) && (bracketIndex == -1 || r.0 <= bracketIndex)
  {
    var (n1, t1) := if linkIndex != -1 && linkIndex < len then (linkIndex, LinkToken) else (len, NoToken);
    if bracketIndex != -1 && bracketIndex < n1 then (bracketIndex, BracketToken) else (n1, t1)
  }

  /** The end of the run of non-white-space units from `j` (what `\S+` consumes). */
  function NonSpaceEnd(text: string, j: nat): (e: nat)
    requires j <= |text|
    ensures j <= e <= |text|
    ensures e == |text| || IsJsWhiteSpace(text[e])
    decreases |text| - j
  {
    if j < |text| && !IsJsWhiteSpace(text[j]) then NonSpaceEnd(text, j + 1) else j
  }

  /** Every unit of the run is non-white-space. */
  lemma {:induction false} NonSpaceRun(text: string, j: nat)
    requires j <= |text|
    ensures forall k :: j <= k < NonSpaceEnd(text, j) ==> !IsJsWhiteSpace(text[k])
    decreases |text| - j
  {
    if j < |text| && !IsJsWhiteSpace(text[j]) {
      NonSpaceRun(text, j + 1);
    }
  }

  /** `rest.match(/^https:\/\/\S+/)`: the link with at least one non-space unit after the scheme. */
  function MatchLink(rest: string): (m: Option<string>)
    ensures m.Some? ==> |rest| > 8 && |m.value| > 8 && m.value == rest[..NonSpaceEnd(rest, 8)]
  {
    if |rest| > 8 && rest[..8] == "https://" && !IsJsWhiteSpace(rest[8]) then
      Some(rest[..NonSpaceEnd(rest, 8)])
    else
      None
  }

  /** One pass of the tokenizer loop at `i`: the segment it emits and the
      position it continues from, or the last segment when it stops. */
  datatype Step = Emit(seg: Segment, next: nat) | Last(seg: Segment)

  /** What the three probes of one pass report: the next link start `li`
      and the next `[` (both from `i`), and the first `]` after `i`. */
  predicate Probed(text: string, i: nat, li: int, bi: int, close: int)
  {
    && li >= -1 && bi >= -1
    && (li != -1 ==> i <= li && LinkAt(text, li))
    && (bi != -1 ==> i <= bi < |text| && text[bi] == '[')
    && (close != -1 ==> i < close < |text| && text[close] == ']' && forall k :: i < k < close ==> text[k] != ']')
  }

  /** One pass, given the probes' answers. */
  function StepWith(text: string, i: nat, li: int, bi: int, close: int, active: bool, quote: bool): (s: Step)
    requires i < |text| && Probed(text, i, li, bi, close)
    ensures s.Emit? ==> i < s.next <= |text|
  {
    var t := NextToken(|text|, li, bi);
    if t.0 > i then
      Emit(Plain(text[i..t.0], quote), t.0)
    else if t.1 == LinkToken then
      var e := NonSpaceEnd(text, i + 8);
      Emit(Segment(text[i..e], quote, true, false, Some(text[i..e])), e)
    else if close == -1 then
      Last(Plain(text[i..], quote))
    else
      var caption := text[i + 1..close];
      Emit(Segment(if active then "[" + caption + "]" else caption, quote, false, !active, Some(caption)), close + 1)
  }

  /** The probes' answers satisfy `Probed`. */
  lemma ProbesHold(text: string, i: nat)
    requires i < |text|
    ensures Probed(text, i, NextLink(text, i), NextUnit(text, '[', i), NextUnit(text, ']', i + 1))
  {
    NextUnitFirst(text, ']', i + 1);
  }

  function Scan(text: string, i: nat, active: bool, quote: bool): (s: Step)
    requires i < |text|
    ensures s.Emit? ==> i < s.next <= |text|
  {
    ProbesHold(text, i);
    StepWith(text, i, NextLink(text, i), NextUnit(text, '[', i), NextUnit(text, ']', i + 1), active, quote)
  }

  /** The segments the tokenizer loop emits from position `i` to the end of `text`. */
  function Tokens(text: string, i: nat, active: bool, quote: bool): (r: seq<Segment>)
    requires i <= |text|
    decreases |text| - i
  {
    if i == |text| then []
    else
      match Scan(text, i, active, quote)
      case Emit(seg, next) => [seg] + Tokens(text, next, active, quote)
      case Last(seg) => [seg]
  }

  /** `text.trimStart().startsWith(">")`: the first non-white-space unit is `>`. */
  predicate IsQuote(text: string)
  {
    var n := LeadingWhiteSpace(text);
    n < |text| && text[n] == '>'
  }

  /** `IsQuote` reads the first unit of the trimmed text. */
  lemma IsQuoteTrimmed(text: string)
    ensures IsQuote(text) <==> TrimStart(text) != [] && TrimStart(text)[0] == '>'
  {
  }

  /** `getRenderedSegments(line, lineIndex)` with `active` standing for
      `lineIndex === cursor.lineIndex`. */
  function RenderedSegments(line: Line, active: bool): seq<Segment>
  {
    if line.kind.Image? then []
    else
      var segs := Tokens(line.text, 0, active, IsQuote(line.text));
      if segs == [] then [Plain(line.text, IsQuote(line.text))] else segs
  }

  /** The source text a segment was cut from: a relative link off the caret
      line lost its brackets. */
  function Source(s: Segment): string
  {
    if s.isRelativeLink then "[" + s.displayText + "]" else s.displayText
  }

  function SourceOf(segs: seq<Segment>): string
  {
    if segs == [] then "" else Source(segs[0]) + SourceOf(segs[1..])
  }

  function Shown(segs: seq<Segment>): string
  {
    if segs == [] then "" else segs[0].displayText + Shown(segs[1..])
  }

  lemma ConsSegment(seg: Segment, rest: seq<Segment>)
    ensures SourceOf([seg] + rest) == Source(seg) + SourceOf(rest)
    ensures Shown([seg] + rest) == seg.displayText + Shown(rest)
  {
    assert ([seg] + rest)[1..] == rest;
  }

  // ----- The loop -----

  /** The tokenizer loop, emitting segments left to right. */
  method GetRenderedSegments(line: Line, lineIndex: nat, cursorLine: nat) returns (segments: seq<Segment>)
    ensures segments == RenderedSegments(line, lineIndex == cursorLine)
  {
    var isActiveLine := lineIndex == cursorLine;
    segments := [];
    if line.kind.Image? {
      return;
    }
    var text := line.text;
    var isQuote := IsQuote(text);
    var i := 0;
    while i < |text|
      invariant 0 <= i <= |text|
      invariant segments + Tokens(text, i, isActiveLine, isQuote) == Tokens(text, 0, isActiveLine, isQuote)
      decreases |text| - i
    {
      var s := ScanOnce(text, i, isActiveLine, isQuote);
      if s.Emit? {
        AppendAssoc(segments, [s.seg], Tokens(text, s.next, isActiveLine, isQuote));
      }
      segments := segments + [s.seg];
      if s.Last? {
        break;
      }
      i := s.next;
    }
    if segments == [] {
      segments := [Plain(text, isQuote)];
    }
  }

  /** The body of the tokenizer loop at `i`. */
  method ScanOnce(text: string, i: nat, isActiveLine: bool, isQuote: bool) returns (s: Step)
    requires i < |text|
    ensures s.Emit? ==> i < s.next <= |text|
    ensures Tokens(text, i, isActiveLine, isQuote)
            == if s.Emit? then [s.seg] + Tokens(text, s.next, isActiveLine, isQuote) else [s.seg]
  {
    s := ScanBody(text, i, isActiveLine, isQuote);
    TokensUnfold(text, i, isActiveLine, isQuote);
  }

  /** `Tokens` at `i < |text|` is the step at `i` followed by the rest. */
  lemma TokensUnfold(text: string, i: nat, active: bool, quote: bool)
    requires i < |text|
    ensures var s := Scan(text, i, active, quote);
            Tokens(text, i, active, quote) == if s.Emit? then [s.seg] + Tokens(text, s.next, active, quote) else [s.seg]
  {
  }

  method ScanBody(text: string, i: nat, isActiveLine: bool, isQuote: bool) returns (s: Step)
    requires i < |text|
    ensures s == Scan(text, i, isActiveLine, isQuote)
  {
    var nextLinkIndex := NextLink(text, i);
    var nextBracketIndex := NextUnit(text, '[', i);
    ProbesHold(text, i);
    var nextIndex := |text|;
    var tokenType := NoToken;
    if nextLinkIndex != -1 && nextLinkIndex < nextIndex {
      nextIndex, tokenType := nextLinkIndex, LinkToken;
    }
    if nextBracketIndex != -1 && nextBracketIndex < nextIndex {
      nextIndex, tokenType := nextBracketIndex, BracketToken;
    }
    s := EmitToken(text, i, nextLinkIndex, nextBracketIndex, nextIndex, tokenType, isActiveLine, isQuote);
  }

  /** The second half of the loop body: the plain text up to the nearest
      token, or the token itself. */
  method EmitToken(text: string, i: nat, nextLinkIndex: int, nextBracketIndex: int,
                   nextIndex: nat, tokenType: Token, isActiveLine: bool, isQuote: bool) returns (s: Step)
    requires i < |text| && Probed(text, i, nextLinkIndex, nextBracketIndex, NextUnit(text, ']', i + 1))
    requires (nextIndex, tokenType) == NextToken(|text|, nextLinkIndex, nextBracketIndex)
    ensures s == StepWith(text, i, nextLinkIndex, nextBracketIndex, NextUnit(text, ']', i + 1), isActiveLine, isQuote)
  {
    if nextIndex > i {
      s := Emit(Plain(text[i..nextIndex], isQuote), nextIndex);
    } else if tokenType == LinkToken {
      var linkText := LinkText(text, i);
      s := Emit(Segment(linkText, isQuote, true, false, Some(linkText)), i + |linkText|);
    } else {
      var closingIndex := NextUnit(text, ']', i + 1);
      if closingIndex == -1 {
        s := Last(Plain(text[i..], isQuote));
      } else {
        var caption := text[i + 1..closingIndex];
        var displayText := if isActiveLine then "[" + caption + "]" else caption;
        s := Emit(Segment(displayText, isQuote, false, !isActiveLine, Some(caption)), closingIndex + 1);
      }
    }
  }

  /** `match ? match[0] : "https://"` for the link starting at `i`. */
  method LinkText(text: string, i: nat) returns (linkText: string)
    requires LinkAt(text, i)
    ensures linkText == text[i..NonSpaceEnd(text, i + 8)]
  {
    var m := MatchLink(text[i..]);
    linkText := if m.Some? then m.value else "https://";
    LinkTextRunsToSpace(text, i);
  }

  /** The link text the regex match (or its "https://" fallback) yields is
      the scheme plus the non-space run behind it. */
  lemma LinkTextRunsToSpace(text: string, i: nat)
    requires LinkAt(text, i)
    ensures var m := MatchLink(text[i..]);
            (if m.Some? then m.value else "https://") == text[i..NonSpaceEnd(text, i + 8)]
  {
    var rest := text[i..];
    LinkAtScheme(text, i);
    assert rest[..8] == text[i..i + 8];
    NonSpaceEndShift(text, i, i + 8);
  }

  /** The non-space run is the same measured in `text` or in `text[i..]`. */
  lemma {:induction false} NonSpaceEndShift(text: string, i: nat, j: nat)
    requires i <= j <= |text|
    ensures NonSpaceEnd(text[i..], j - i) + i == NonSpaceEnd(text, j)
    decreases |text| - j
  {
    if j < |text| && !IsJsWhiteSpace(text[j]) {
      NonSpaceEndShift(text, i, j + 1);
    }
  }

  // ----- What the segments mean -----

  /** One step cuts exactly the units it moves over (all the rest when it stops). */
  lemma StepSource(text: string, i: nat, li: int, bi: int, close: int, active: bool, quote: bool)
    requires i < |text| && Probed(text, i, li, bi, close)
    ensures var s := StepWith(text, i, li, bi, close, active, quote);
            Source(s.seg) == (if s.Emit? then text[i..s.next] else text[i..])
    ensures active ==> !StepWith(text, i, li, bi, close, active, quote).seg.isRelativeLink
  {
    var t := NextToken(|text|, li, bi);
    var s := StepWith(text, i, li, bi, close, active, quote);
    if t.0 > i {
      assert s == Emit(Plain(text[i..t.0], quote), t.0);
    } else if t.1 == LinkToken {
      var e := NonSpaceEnd(text, i + 8);
      assert s == Emit(Segment(text[i..e], quote, true, false, Some(text[i..e])), e);
    } else if close == -1 {
      assert s == Last(Plain(text[i..], quote));
    } else {
      BracketSource(text, i, close);
    }
  }

  lemma BracketSource(text: string, i: nat, close: nat)
    requires i < close < |text| && text[i] == '[' && text[close] == ']'
    ensures "[" + text[i + 1..close] + "]" == text[i..close + 1]
  {
    assert text[i..close + 1] == [text[i]] + text[i + 1..close] + [text[close]];
  }

  /** What a segment carries: the line's quote flag; a relative link only
      off the caret line, shown as its label, which holds no `]`; a link
      that starts with the scheme and holds no white space. */
  predicate FlagsHold(s: Segment, active: bool, quote: bool)
  {
    && s.isQuote == quote
    && (s.isRelativeLink ==> !active && s.target == Some(s.displayText) && ']' !in s.displayText)
    && (s.isLink ==> |s.displayText| >= 8 && s.displayText[..8] == "https://"
                     && forall k :: 8 <= k < |s.displayText| ==> !IsJsWhiteSpace(s.displayText[k]))
  }

  lemma StepFlags(text: string, i: nat, li: int, bi: int, close: int, active: bool, quote: bool)
    requires i < |text| && Probed(text, i, li, bi, close)
    ensures FlagsHold(StepWith(text, i, li, bi, close, active, quote).seg, active, quote)
  {
    var t := NextToken(|text|, li, bi);
    var s := StepWith(text, i, li, bi, close, active, quote);
    if t.0 > i {
      assert s == Emit(Plain(text[i..t.0], quote), t.0);
    } else if t.1 == LinkToken {
      var e := NonSpaceEnd(text, i + 8);
      NonSpaceRun(text, i + 8);
      LinkFlags(text, i, e);
      assert s == Emit(Segment(text[i..e], quote, true, false, Some(text[i..e])), e);
    } else if close == -1 {
      assert s == Last(Plain(text[i..], quote));
    } else {
      CaptionFlags(text, i, close);
    }
  }

  lemma LinkFlags(text: string, i: nat, e: nat)
    requires i + 8 <= e <= |text| && LinkAt(text, i)
    requires forall k :: i + 8 <= k < e ==> !IsJsWhiteSpace(text[k])
    ensures text[i..e][..8] == "https://"
    ensures forall k :: 8 <= k < e - i ==> !IsJsWhiteSpace(text[i..e][k])
  {
    LinkAtScheme(text, i);
    var d := text[i..e];
    assert d[..8] == text[i..i + 8];
    forall k | 8 <= k < |d|
      ensures !IsJsWhiteSpace(d[k])
    {
      assert d[k] == text[i + k];
    }
  }

  lemma CaptionFlags(text: string, i: nat, close: nat)
    requires i < close <= |text| && forall k :: i < k < close ==> text[k] != ']'
    ensures ']' !in text[i + 1..close]
  {
    var d := text[i + 1..close];
    forall k | 0 <= k < |d|
      ensures d[k] != ']'
    {
      assert d[k] == text[i + 1 + k];
    }
  }

  /** One step, as the inductive lemmas below use it. */
  lemma ScanSource(text: string, i: nat, active: bool, quote: bool)
    requires i < |text|
    ensures var s := Scan(text, i, active, quote);
            && Source(s.seg) == (if s.Emit? then text[i..s.next] else text[i..])
            && (active ==> !s.seg.isRelativeLink)
  {
    ProbesHold(text, i);
    StepSource(text, i, NextLink(text, i), NextUnit(text, '[', i), NextUnit(text, ']', i + 1), active, quote);
  }

  lemma ScanFlags(text: string, i: nat, active: bool, quote: bool)
    requires i < |text|
    ensures FlagsHold(Scan(text, i, active, quote).seg, active, quote)
  {
    ProbesHold(text, i);
    StepFlags(text, i, NextLink(text, i), NextUnit(text, '[', i), NextUnit(text, ']', i + 1), active, quote);
  }

  /** Putting the segments' sources back together gives the text they were cut from. */
  lemma {:induction false} TokensRebuildSource(text: string, i: nat, active: bool, quote: bool)
    requires i <= |text|
    ensures SourceOf(Tokens(text, i, active, quote)) == text[i..]
    decreases |text| - i
  {
    if i < |text| {
      var s := Scan(text, i, active, quote);
      ScanSource(text, i, active, quote);
      if s.Emit? {
        var rest := Tokens(text, s.next, active, quote);
        assert Tokens(text, i, active, quote) == [s.seg] + rest;
        TokensRebuildSource(text, s.next, active, quote);
        RebuildStep(text, i, s.seg, s.next, rest);
      }
    }
  }

  /** A segment cut from `text[i..next]` in front of segments rebuilding `text[next..]`. */
  lemma RebuildStep(text: string, i: nat, seg: Segment, next: nat, rest: seq<Segment>)
    requires i <= next <= |text| && Source(seg) == text[i..next] && SourceOf(rest) == text[next..]
    ensures SourceOf([seg] + rest) == text[i..]
  {
    ConsSegment(seg, rest);
    assert text[i..] == text[i..next] + text[next..];
  }

  /** On the caret line no segment is a relative link, so what is shown is the source. */
  lemma {:induction false} ActiveTokensShowSource(text: string, i: nat, quote: bool)
    requires i <= |text|
    ensures Shown(Tokens(text, i, true, quote)) == SourceOf(Tokens(text, i, true, quote))
    decreases |text| - i
  {
    if i < |text| {
      var s := Scan(text, i, true, quote);
      ScanSource(text, i, true, quote);
      if s.Emit? {
        var rest := Tokens(text, s.next, true, quote);
        assert Tokens(text, i, true, quote) == [s.seg] + rest;
        ActiveTokensShowSource(text, s.next, quote);
        ConsSegment(s.seg, rest);
      } else {
        assert Tokens(text, i, true, quote) == [s.seg];
        ConsSegment(s.seg, []);
      }
    }
  }

  /** Every segment of a line satisfies `FlagsHold`. */
  lemma {:induction false} TokenFlags(text: string, i: nat, active: bool, quote: bool)
    requires i <= |text|
    ensures forall s :: s in Tokens(text, i, active, quote) ==> FlagsHold(s, active, quote)
    decreases |text| - i
  {
    if i < |text| {
      var s := Scan(text, i, active, quote);
      ScanFlags(text, i, active, quote);
      if s.Emit? {
        var rest := Tokens(text, s.next, active, quote);
        assert Tokens(text, i, active, quote) == [s.seg] + rest;
        TokenFlags(text, s.next, active, quote);
      } else {
        assert Tokens(text, i, active, quote) == [s.seg];
      }
    }
  }

  /** On the caret line the segments show the line text unchanged; on any
      text line the segments' sources rebuild it and every segment carries
      the line's flags. */
  lemma RenderedSegmentsRebuildLine(line: Line, active: bool)
    requires line.kind.Text?
    ensures SourceOf(RenderedSegments(line, active)) == line.text
    ensures active ==> Shown(RenderedSegments(line, active)) == line.text
    ensures forall s :: s in RenderedSegments(line, active) ==> FlagsHold(s, active, IsQuote(line.text))
  {
    var q := IsQuote(line.text);
    TokensRebuildSource(line.text, 0, active, q);
    TokenFlags(line.text, 0, active, q);
    if active {
      ActiveTokensShowSource(line.text, 0, q);
    }
  }

  /** At a `[` the scan takes the bracket token. */
  lemma BracketIsNext(text: string, i: nat)
    requires i < |text| && text[i] == '['
    ensures NextToken(|text|, NextLink(text, i), NextUnit(text, '[', i)) == (i, BracketToken)
  {
  }

  /** A closed `[label]` off the caret line is shown as `label`, and the
      scan continues behind the `]`. */
  lemma ClosedBracketShowsLabel(text: string, i: nat, close: nat, quote: bool)
    requires i < close < |text| && text[i] == '[' && text[close] == ']'
    requires forall k :: i < k < close ==> text[k] != ']'
    ensures Scan(text, i, false, quote)
            == Emit(Segment(text[i + 1..close], quote, false, true, Some(text[i + 1..close])), close + 1)
  {
    BracketIsNext(text, i);
    NextUnitFinds(text, ']', i + 1, close);
    ProbesHold(text, i);
    BracketStep(text, i, NextLink(text, i), NextUnit(text, '[', i), close, false, quote);
  }

  /** When the bracket token is at the scan position, the step emits the
      bracketed label or, with no `]`, the rest of the line. */
  lemma BracketStep(text: string, i: nat, li: int, bi: int, close: int, active: bool, quote: bool)
    requires i < |text| && Probed(text, i, li, bi, close)
    requires NextToken(|text|, li, bi) == (i, BracketToken)
    ensures var caption := text[i + 1..if close == -1 then i + 1 else close];
            StepWith(text, i, li, bi, close, active, quote)
            == if close == -1 then Last(Plain(text[i..], quote))
               else Emit(Segment(if active then "[" + caption + "]" else caption, quote, false, !active, Some(caption)), close + 1)
  {
  }

  /** An unclosed `[` turns the rest of the line into one plain segment. */
  lemma UnclosedBracketIsPlain(text: string, i: nat, active: bool, quote: bool)
    requires i < |text| && text[i] == '['
    requires forall k :: i < k < |text| ==> text[k] != ']'
    ensures Tokens(text, i, active, quote) == [Plain(text[i..], quote)]
  {
    BracketIsNext(text, i);
    NextUnitFinds(text, ']', i + 1, -1);
    ProbesHold(text, i);
    BracketStep(text, i, NextLink(text, i), NextUnit(text, '[', i), -1, active, quote);
    TokensUnfold(text, i, active, quote);
    assert Scan(text, i, active, quote) == Last(Plain(text[i..], quote));
  }

  /** A link starting at `i` runs to the next white space or the end of the line. */
  lemma LinkRunsToSpace(text: string, i: nat, active: bool, quote: bool)
    requires LinkAt(text, i)
    ensures var e := NonSpaceEnd(text, i + 8);
            Tokens(text, i, active, quote)
            == [Segment(text[i..e], quote, true, false, Some(text[i..e]))] + Tokens(text, e, active, quote)
  {
    ProbesHold(text, i);
    TokensUnfold(text, i, active, quote);
  }
}
