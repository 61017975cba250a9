/** Recognition of progress information in one output line
    (`extract_progress_info`, src/gui/upload.rs). After trimming, one
    leading `PROGRESS:` or `[PROGRESS]` marker is removed; then the
    leftmost byte-count ratio -- a quantity, optional whitespace, `/`,
    optional whitespace, a quantity, optional whitespace, and a
    parenthesised `\d+%?,?\s*\d+s?`, where a quantity is
    `\d+(\.\d+)?\s*(KiB|MiB|GiB|B)` -- is looked for, and failing that the leftmost percentage `\d{1,3}%`.
    Both patterns are matched by hand here. In the ratio pattern every
    repetition is forced (what follows it can never match the repeated
    character) except the two digit runs inside the parentheses when no
    separator stands between them; the body of the parentheses is
    therefore read from its right end. */
module ProgressInfo {
  import opened Text
  import opened Options

  /** Number of consecutive ASCII digits starting at `i`. */
  function DigitRun(s: string, i: nat): (n: nat)
    requires i <= |s|
    ensures i + n <= |s|
    ensures forall j :: i <= j < i + n ==> IsDigit(s[j])
    ensures i + n == |s| || !IsDigit(s[i + n])
    decreases |s| - i
  {
    if i < |s| && IsDigit(s[i]) then 1 + DigitRun(s, i + 1) else 0
  }

  /** Number of consecutive whitespace characters starting at `i`. */
  function SpaceRun(s: string, i: nat): (n: nat)
    requires i <= |s|
    ensures i + n <= |s|
    ensures forall j :: i <= j < i + n ==> IsWhitespace(s[j])
    ensures i + n == |s| || !IsWhitespace(s[i + n])
    decreases |s| - i
  {
    if i < |s| && IsWhitespace(s[i]) then 1 + SpaceRun(s, i + 1) else 0
  }

  /** A run of `n` digits followed by a non-digit or the end is the digit
      run there. */
  lemma {:induction false} DigitRunIs(s: string, i: nat, n: nat)
    requires i + n <= |s|
    requires forall j :: i <= j < i + n ==> IsDigit(s[j])
    requires i + n == |s| || !IsDigit(s[i + n])
    ensures DigitRun(s, i) == n
    decreases n
  {
    if n > 0 {
      DigitRunIs(s, i + 1, n - 1);
    }
  }

  /** The same for whitespace. */
  lemma {:induction false} SpaceRunIs(s: string, i: nat, n: nat)
    requires i + n <= |s|
    requires forall j :: i <= j < i + n ==> IsWhitespace(s[j])
    requires i + n == |s| || !IsWhitespace(s[i + n])
    ensures SpaceRun(s, i) == n
    decreases n
  {
    if n > 0 {
      SpaceRunIs(s, i + 1, n - 1);
    }
  }

  /** Number of consecutive ASCII digits at the end of `s`. */
  function TrailingDigits(s: string): (n: nat)
    ensures n <= |s|
    ensures forall j :: |s| - n <= j < |s| ==> IsDigit(s[j])
    ensures n == |s| || !IsDigit(s[|s| - n - 1])
  {
    if |s| > 0 && IsDigit(s[|s| - 1]) then 1 + TrailingDigits(s[..|s| - 1]) else 0
  }

  predicate AllDigits(s: string)
  {
    forall j :: 0 <= j < |s| ==> IsDigit(s[j])
  }

  /** The pieces the ratio pattern is written from. Every one of them is
      matched greedily and never needs to give anything back, because
      what follows it can never start with a character it consumed. */
  datatype Atom =
    | Digits     // \d+
    | Fraction   // (\.\d+)?
    | Spaces     // \s*
    | Unit       // (KiB|MiB|GiB|B)
    | Slash      // /
    | Paren      // \(\d+%?,?\s*\d+s?\)

  /** A byte quantity, `\d+(\.\d+)?\s*(KiB|MiB|GiB|B)`. */
  const Quantity: seq<Atom> := [Digits, Fraction, Spaces, Unit]

  /** The ratio pattern up to its parenthesis: a quantity, a slash with
      optional whitespace around it, a quantity and optional whitespace. */
  const RatioFront: seq<Atom> := Quantity + [Spaces, Slash, Spaces] + Quantity + [Spaces]

  /** The full ratio pattern. */
  const RatioPattern: seq<Atom> := RatioFront + [Paren]

  /** One atom matched at `i`: where its match ends. */
  function MatchAtom(s: string, i: nat, a: Atom): (r: Option<nat>)
    requires i <= |s|
    ensures r.Some? ==> i <= r.value <= |s|
    ensures r.Some? && a.Digits? ==> i < r.value && IsDigit(s[i])
    ensures r.Some? && a.Paren? ==> i < r.value && s[r.value - 1] == ')'
  {
    match a
    case Digits => var d := DigitRun(s, i); if d == 0 then None else Some(i + d)
    case Fraction =>
      if i < |s| && s[i] == '.' && DigitRun(s, i + 1) > 0 then Some(i + 1 + DigitRun(s, i + 1)) else Some(i)
    case Spaces => Some(i + SpaceRun(s, i))
    case Unit =>
      if OccursAt(s, "KiB", i) || OccursAt(s, "MiB", i) || OccursAt(s, "GiB", i) then Some(i + 3)
      else if OccursAt(s, "B", i) then Some(i + 1)
      else None
    case Slash => if i < |s| && s[i] == '/' then Some(i + 1) else None
    case Paren => MatchParen(s, i)
  }

  /** A sequence of atoms matched one after the other from `i`. */
  function MatchSeq(s: string, i: nat, pat: seq<Atom>): (r: Option<nat>)
    requires i <= |s|
    ensures r.Some? ==> i <= r.value <= |s|
    decreases |pat|
  {
    if |pat| == 0 then Some(i)
    else match MatchAtom(s, i, pat[0])
      case None => None
      case Some(j) => MatchSeq(s, j, pat[1..])
  }

  predicate IsCloseParen(c: char)
  {
    c == ')'
  }

  /** `d1` is a non-empty digit run followed by an optional `%`, an
      optional `,` and optional whitespace: `\d+%?,?\s*`. */
  predicate LeadingFieldOk(d1: string)
  {
    var a := TrimEnd(d1);
    var b := if |a| > 0 && a[|a| - 1] == ',' then a[..|a| - 1] else a;
    var c := if |b| > 0 && b[|b| - 1] == '%' then b[..|b| - 1] else b;
    |c| > 0 && AllDigits(c)
  }

  /** The text between the parentheses matches `\d+%?,?\s*\d+s?`. */
  predicate ParenBodyOk(x: string)
  {
    var y := if |x| > 0 && x[|x| - 1] == 's' then x[..|x| - 1] else x;
    var k := TrailingDigits(y);
    var lead := y[..|y| - k];
    k > 0 && (if |lead| == 0 then k >= 2 else LeadingFieldOk(lead))
  }

  /** `\(\d+%?,?\s*\d+s?\)` starting at `e`: where the match ends. The
      body cannot hold `)`, so the match closes at the first `)`. */
  function MatchParen(s: string, e: nat): (r: Option<nat>)
    requires e <= |s|
    ensures r.Some? ==> e < r.value <= |s| && s[r.value - 1] == ')'
  {
    if e < |s| && s[e] == '(' then
      match FirstWhere(s[e + 1..], IsCloseParen)
      case None => None
      case Some(k) =>
        assert s[e + 1 + k] == s[e + 1..][k];
        if ParenBodyOk(s[e + 1..e + 1 + k]) then Some(e + k + 2) else None
    else None
  }

  /** The whole ratio pattern starting at `p`: where the match ends. A
      match starts with a digit and ends with the closing parenthesis. */
  function MatchRatioAt(s: string, p: nat): (r: Option<nat>)
    requires p <= |s|
    ensures r.Some? ==> p < r.value <= |s| && IsDigit(s[p]) && s[r.value - 1] == ')'
  {
    RatioStart(s, p);
    RatioEnd(s, p);
    MatchSeq(s, p, RatioPattern)
  }

  /** A ratio match begins with a digit. */
  lemma RatioStart(s: string, p: nat)
    requires p <= |s|
    ensures MatchSeq(s, p, RatioPattern).Some? ==> p < |s| && IsDigit(s[p])
  {
    assert RatioPattern[0] == Digits;
  }

  /** A ratio match ends with the closing parenthesis. */
  lemma RatioEnd(s: string, p: nat)
    requires p <= |s|
    ensures MatchSeq(s, p, RatioPattern).Some? ==>
      p < MatchSeq(s, p, RatioPattern).value && s[MatchSeq(s, p, RatioPattern).value - 1] == ')'
  {
    EndsWithParen(s, p, RatioFront);
  }

  /** Any atom sequence ending in the parenthesis matches up to a `)`. */
  lemma EndsWithParen(s: string, p: nat, front: seq<Atom>)
    requires p <= |s|
    ensures MatchSeq(s, p, front + [Paren]).Some? ==>
      p < MatchSeq(s, p, front + [Paren]).value && s[MatchSeq(s, p, front + [Paren]).value - 1] == ')'
  {
    MatchSeqAppend(s, p, front, [Paren]);
  }

  /** Matching two atom sequences one after the other is matching their
      concatenation. */
  lemma {:induction false} MatchSeqAppend(s: string, i: nat, a: seq<Atom>, b: seq<Atom>)
    requires i <= |s|
    ensures MatchSeq(s, i, a + b) ==
      match MatchSeq(s, i, a)
      case None => None
      case Some(j) => MatchSeq(s, j, b)
    decreases |a|
  {
    if |a| == 0 {
      assert a + b == b;
    } else {
      assert (a + b)[1..] == a[1..] + b;
      match MatchAtom(s, i, a[0])
      case None =>
      case Some(j) => MatchSeqAppend(s, j, a[1..], b);
    }
  }

  /** A match of a pattern: where it starts and where it ends. */
  datatype Span = Span(start: nat, end: nat)

  /** `\d{1,3}%` matches at `p`: the digit run starting there has one to
      three digits and is followed by `%`. (A longer run cannot match at
      `p`, since after at most three digits the next character is still
      a digit.) */
  predicate PercentAt(s: string, p: nat)
  {
    p <= |s| && var k := DigitRun(s, p); 1 <= k <= 3 && p + k < |s| && s[p + k] == '%'
  }

  /** The percentage pattern at `p`: where the digits and `%` end. */
  function PercentEnd(s: string, p: nat): (r: Option<nat>)
    ensures r.Some? <==> PercentAt(s, p)
    ensures r.Some? ==> p < r.value <= |s| && s[r.value - 1] == '%' && AllDigits(s[p..r.value - 1])
  {
    if PercentAt(s, p) then
      var e := p + DigitRun(s, p) + 1;
      assert forall j :: p <= j < e - 1 ==> s[p..e - 1][j - p] == s[j];
      Some(e)
    else None
  }

  /** The regex engine's leftmost match of the ratio pattern: the first
      position at or after `p` where it matches, with the end of that
      match. */
  function FirstRatio(s: string, p: nat): (r: Option<Span>)
    requires p <= |s|
    ensures r.Some? ==> p <= r.value.start < r.value.end <= |s|
    ensures r.Some? ==> IsDigit(s[r.value.start]) && s[r.value.end - 1] == ')'
    decreases |s| - p
  {
    match MatchRatioAt(s, p)
    case Some(e) => Some(Span(p, e))
    case None => if p == |s| then None else FirstRatio(s, p + 1)
  }

  /** The ratio search returns the leftmost match at or after `p`, and
      finds nothing exactly when there is none. */
  lemma {:induction false} FirstRatioSpec(s: string, p: nat)
    requires p <= |s|
    ensures FirstRatio(s, p).Some? ==>
      MatchRatioAt(s, FirstRatio(s, p).value.start) == Some(FirstRatio(s, p).value.end)
    ensures FirstRatio(s, p).Some? ==>
      forall q :: p <= q < FirstRatio(s, p).value.start ==> MatchRatioAt(s, q).None?
    ensures FirstRatio(s, p).None? ==> forall q :: p <= q <= |s| ==> MatchRatioAt(s, q).None?
    decreases |s| - p
  {
    if MatchRatioAt(s, p).None? && p < |s| {
      FirstRatioSpec(s, p + 1);
    }
  }

  /** The leftmost match of the percentage pattern at or after `p`. */
  function FirstPercent(s: string, p: nat): (r: Option<Span>)
    requires p <= |s|
    ensures r.Some? ==> p <= r.value.start < r.value.end <= |s|
    decreases |s| - p
  {
    match PercentEnd(s, p)
    case Some(e) => Some(Span(p, e))
    case None => if p == |s| then None else FirstPercent(s, p + 1)
  }

  /** The percentage search returns the leftmost match at or after `p`,
      and finds nothing exactly when there is none. */
  lemma {:induction false} FirstPercentSpec(s: string, p: nat)
    requires p <= |s|
    ensures FirstPercent(s, p).Some? ==>
      PercentEnd(s, FirstPercent(s, p).value.start) == Some(FirstPercent(s, p).value.end)
    ensures FirstPercent(s, p).Some? ==>
      forall q :: p <= q < FirstPercent(s, p).value.start ==> !PercentAt(s, q)
    ensures FirstPercent(s, p).None? ==> forall q :: p <= q <= |s| ==> !PercentAt(s, q)
    decreases |s| - p
  {
    if PercentEnd(s, p).None? && p < |s| {
      FirstPercentSpec(s, p + 1);
    }
  }

  /** One marker prefix removed: `PROGRESS:` first, else `[PROGRESS]`. */
  function StripMarker(t: string): (u: string)
    ensures StartsWith(t, "PROGRESS:") ==> t == "PROGRESS:" + u
    ensures !StartsWith(t, "PROGRESS:") && StartsWith(t, "[PROGRESS]") ==> t == "[PROGRESS]" + u
    ensures !StartsWith(t, "PROGRESS:") && !StartsWith(t, "[PROGRESS]") ==> u == t
    ensures |u| <= |t| && u == t[|t| - |u|..]
  {
    if StartsWith(t, "PROGRESS:") then
      assert t == t[..9] + t[9..];
      t[9..]
    else if StartsWith(t, "[PROGRESS]") then
      assert t == t[..10] + t[10..];
      t[10..]
    else t
  }

  /** `extract_progress_info`: the progress value a line carries, if any. */
  function ExtractProgressInfo(line: string): (r: Option<string>)
    ensures r.Some? ==> |r.value| > 0
    ensures r.Some? && NoBreak(line) ==> NoBreak(r.value)
  {
    StrippedIsBreakFree(line);
    MatchProgress(StripMarker(Trim(line)))
  }

  /** The pattern search of `extract_progress_info` on the trimmed line
      with its marker removed. */
  function MatchProgress(u: string): (r: Option<string>)
    ensures r.Some? ==> |r.value| > 0
    ensures r.Some? && NoBreak(u) ==> NoBreak(r.value)
  {
    match FirstRatio(u, 0)
    case Some(m) =>
      var v := u[m.start..m.end];
      TrimNoop(v);
      SliceKeepsNoBreak(u, m.start, m.end);
      Some(Trim(v))
    case None =>
      match FirstPercent(u, 0)
      case Some(m) =>
        FirstPercentSpec(u, 0);
        PercentTrimmed(u, m.start, m.end);
        SliceKeepsNoBreak(u, m.start, m.end);
        Some(u[m.start..m.end])
      case None => None
  }

  /** A slice of break-free text is break-free. */
  lemma SliceKeepsNoBreak(u: string, a: nat, b: nat)
    requires a <= b <= |u|
    ensures NoBreak(u) ==> NoBreak(u[a..b])
  {
    if NoBreak(u) {
      NoBreakSlice(u, a, b);
    }
  }

  /** A reported progress value starts with a digit and ends with `)` or
      `%`, so it is never blank and never starts or ends with whitespace. */
  lemma ProgressValueShape(u: string)
    ensures MatchProgress(u).Some? ==>
      var v := MatchProgress(u).value;
      IsDigit(v[0]) && !IsWhitespace(v[|v| - 1])
  {
    match FirstRatio(u, 0)
    case Some(m) => RatioValue(u, m);
    case None =>
      match FirstPercent(u, 0)
      case Some(m) => PercentValue(u, m);
      case None =>
  }

  /** A reported value's shape: it starts with a digit and does not end
      with whitespace. */
  predicate ValueShape(v: string)
  {
    |v| > 0 && IsDigit(v[0]) && !IsWhitespace(v[|v| - 1])
  }

  /** A span of `u` from a digit to a character that is not whitespace. */
  predicate SpanShape(u: string, p: nat, e: nat)
  {
    p < e <= |u| && IsDigit(u[p]) && !IsWhitespace(u[e - 1])
  }

  /** With a ratio match, its span and the value reported. */
  lemma RatioSpan(u: string, m: Span)
    requires FirstRatio(u, 0) == Some(m)
    ensures SpanShape(u, m.start, m.end)
    ensures MatchProgress(u) == Some(Trim(u[m.start..m.end]))
  {
  }

  /** Without a ratio match, the percentage span and the value reported. */
  lemma PercentSpan(u: string, m: Span)
    requires FirstRatio(u, 0).None? && FirstPercent(u, 0) == Some(m)
    ensures SpanShape(u, m.start, m.end)
    ensures MatchProgress(u) == Some(u[m.start..m.end])
  {
    FirstPercentSpec(u, 0);
    PercentStart(u, m.start, m.end);
  }

  /** The shape of a reported ratio value. */
  lemma RatioValue(u: string, m: Span)
    requires FirstRatio(u, 0) == Some(m)
    ensures MatchProgress(u).Some? && ValueShape(MatchProgress(u).value)
  {
    RatioSpan(u, m);
    TrimmedValue(u, m.start, m.end, MatchProgress(u));
  }

  /** The shape of a reported percentage. */
  lemma PercentValue(u: string, m: Span)
    requires FirstRatio(u, 0).None? && FirstPercent(u, 0) == Some(m)
    ensures MatchProgress(u).Some? && ValueShape(MatchProgress(u).value)
  {
    PercentSpan(u, m);
    CutValue(u, m.start, m.end, MatchProgress(u));
  }

  /** A value cut from a span of that shape, then trimmed, has the shape. */
  lemma TrimmedValue(u: string, p: nat, e: nat, r: Option<string>)
    requires SpanShape(u, p, e) && r == Some(Trim(u[p..e]))
    ensures r.Some? && ValueShape(r.value)
  {
    SliceShape(u, p, e);
  }

  /** The same value, not trimmed. */
  lemma CutValue(u: string, p: nat, e: nat, r: Option<string>)
    requires SpanShape(u, p, e) && r == Some(u[p..e])
    ensures r.Some? && ValueShape(r.value)
  {
    SliceShape(u, p, e);
  }

  /** A span of that shape trims to itself and has the value shape. */
  lemma SliceShape(u: string, p: nat, e: nat)
    requires SpanShape(u, p, e)
    ensures Trim(u[p..e]) == u[p..e] && ValueShape(u[p..e])
  {
    var v := u[p..e];
    assert v[0] == u[p];
    assert v[|v| - 1] == u[e - 1];
    TrimNoop(v);
  }

  /** A percentage match starts with a digit. */
  lemma PercentStart(u: string, p: nat, e: nat)
    requires p <= |u| && PercentEnd(u, p) == Some(e)
    ensures p < e <= |u| && IsDigit(u[p]) && u[e - 1] == '%'
  {
    assert u[p..e - 1][0] == u[p];
  }

  /** The same for the whole extraction. */
  lemma ExtractedShape(line: string)
    ensures ExtractProgressInfo(line).Some? ==>
      var v := ExtractProgressInfo(line).value;
      IsDigit(v[0]) && !IsWhitespace(v[|v| - 1])
  {
    ProgressValueShape(StripMarker(Trim(line)));
  }

  /** The trimmed line with its marker removed has no CR or LF when the
      line has none. */
  lemma StrippedIsBreakFree(line: string)
    ensures NoBreak(line) ==> NoBreak(StripMarker(Trim(line)))
  {
    if NoBreak(line) {
      NoBreakTrim(line);
      var t := Trim(line);
      var u := StripMarker(t);
      NoBreakSlice(t, |t| - |u|, |t|);
    }
  }

  /** The percentage match is captured together with the whitespace after
      it and then trimmed, which gives back the digits and `%`. */
  lemma PercentTrimmed(u: string, p: nat, e: nat)
    requires p <= |u| && PercentEnd(u, p) == Some(e)
    ensures e + SpaceRun(u, e) <= |u|
    ensures Trim(u[p..e + SpaceRun(u, e)]) == u[p..e]
  {
    assert IsDigit(u[p]);
    TrimTrailingSpace(u, p, e);
  }

  /** The pattern search finds nothing exactly when neither pattern
      matches anywhere in the text. */
  lemma MatchProgressNone(u: string)
    ensures MatchProgress(u).None? <==>
      forall q :: 0 <= q <= |u| ==> MatchRatioAt(u, q).None? && !PercentAt(u, q)
  {
    FirstRatioSpec(u, 0);
    FirstPercentSpec(u, 0);
    match FirstRatio(u, 0)
    case Some(m) =>
    case None =>
      match FirstPercent(u, 0)
      case Some(m) =>
        assert PercentAt(u, m.start);
      case None =>
  }

  /** The leftmost ratio wins: it is returned whole. */
  lemma MatchProgressRatio(u: string, p: nat, e: nat)
    requires p <= |u| && MatchRatioAt(u, p) == Some(e)
    requires forall q :: 0 <= q < p ==> MatchRatioAt(u, q).None?
    ensures p < e <= |u| && MatchProgress(u) == Some(u[p..e])
  {
    FirstRatioAt(u, 0, p);
    TrimNoop(u[p..e]);
  }

  /** The search for the leftmost ratio stops at the first position where
      the pattern matches. */
  lemma {:induction false} FirstRatioAt(s: string, from: nat, p: nat)
    requires from <= p <= |s| && MatchRatioAt(s, p).Some?
    requires forall q :: from <= q < p ==> MatchRatioAt(s, q).None?
    ensures FirstRatio(s, from) == Some(Span(p, MatchRatioAt(s, p).value))
    decreases p - from
  {
    if from < p {
      FirstRatioAt(s, from + 1, p);
    }
  }

  /** With no ratio anywhere, the leftmost percentage is returned: its
      digits and the `%` sign. */
  lemma MatchProgressPercent(u: string, p: nat)
    requires forall q :: 0 <= q <= |u| ==> MatchRatioAt(u, q).None?
    requires p <= |u| && PercentAt(u, p)
    requires forall q :: 0 <= q < p ==> !PercentAt(u, q)
    ensures p + DigitRun(u, p) + 1 <= |u|
    ensures MatchProgress(u) == Some(u[p..p + DigitRun(u, p) + 1])
  {
    FirstRatioSpec(u, 0);
    FirstPercentAt(u, 0, p);
  }

  /** The search for the leftmost percentage stops at the first position
      where the pattern matches. */
  lemma {:induction false} FirstPercentAt(s: string, from: nat, p: nat)
    requires from <= p <= |s| && PercentAt(s, p)
    requires forall q :: from <= q < p ==> !PercentAt(s, q)
    ensures FirstPercent(s, from) == Some(Span(p, p + DigitRun(s, p) + 1))
    decreases p - from
  {
    if from < p {
      FirstPercentAt(s, from + 1, p);
    }
  }

  /** Trimming a match followed only by whitespace recovers the match. */
  lemma TrimTrailingSpace(u: string, p: nat, e: nat)
    requires p < e <= |u|
    requires !IsWhitespace(u[p]) && !IsWhitespace(u[e - 1])
    ensures Trim(u[p..e + SpaceRun(u, e)]) == u[p..e]
  {
    var v := u[p..e + SpaceRun(u, e)];
    assert TrimStart(v) == v;
    assert v[..e - p] == u[p..e];
    TrimEndSpaces(v, e - p);
    assert Trim(v) == TrimEnd(v);
  }

  /** Trailing whitespace after position `n` is what `trim_end` removes. */
  lemma {:induction false} TrimEndSpaces(v: string, n: nat)
    requires 0 < n <= |v|
    requires !IsWhitespace(v[n - 1])
    requires forall j :: n <= j < |v| ==> IsWhitespace(v[j])
    ensures TrimEnd(v) == v[..n]
    decreases |v|
  {
    if |v| > n {
      TrimEndSpaces(v[..|v| - 1], n);
      assert v[..|v| - 1][..n] == v[..n];
    }
  }

  /** A ratio cannot start where there is no digit. */
  lemma NoDigitNoRatio(s: string, p: nat)
    requires p < |s| && !IsDigit(s[p])
    ensures MatchRatioAt(s, p).None?
  {
  }

  /** Text without a closing parenthesis holds no ratio. */
  lemma NoParenNoRatio(u: string)
    requires forall i :: 0 <= i < |u| ==> u[i] != ')'
    ensures forall q :: 0 <= q <= |u| ==> MatchRatioAt(u, q).None?
  {
  }

  /** A line opening with the bracketed marker and ending in a visible
      character is searched after the marker. */
  lemma BracketMarker(line: string, rest: string)
    requires line == "[PROGRESS]" + rest
    requires |rest| > 0 && !IsWhitespace(rest[|rest| - 1])
    ensures StripMarker(Trim(line)) == rest
  {
    TrimNoop(line);
    BracketPrefix(line, rest);
  }

  lemma BracketPrefix(line: string, rest: string)
    requires line == "[PROGRESS]" + rest
    ensures StripMarker(line) == rest
  {
    assert line[0] == '[';
    assert line[..10] == "[PROGRESS]";
  }

  /** The same for the `PROGRESS:` marker. */
  lemma ColonMarker(line: string, rest: string)
    requires line == "PROGRESS:" + rest
    requires |rest| > 0 && !IsWhitespace(rest[|rest| - 1])
    ensures StripMarker(Trim(line)) == rest
  {
    TrimNoop(line);
    ColonPrefix(line, rest);
  }

  lemma ColonPrefix(line: string, rest: string)
    requires line == "PROGRESS:" + rest
    ensures StripMarker(line) == rest
  {
    assert line[..9] == "PROGRESS:";
  }

  /** A full progress line yields its whole ratio: everything after the
      marker and the space. */
  lemma RatioExample(line: string)
    requires line == "[PROGRESS] 42.0MiB / 100.0MiB (42%, 10s)"
    ensures ExtractProgressInfo(line) == Some(line[11..])
  {
    RatioExampleAt(line, " 42.0MiB / 100.0MiB (42%, 10s)");
  }

  lemma RatioExampleAt(line: string, u: string)
    requires u == " 42.0MiB / 100.0MiB (42%, 10s)"
    requires line == "[PROGRESS]" + u
    ensures ExtractProgressInfo(line) == Some(line[11..])
  {
    assert u[1..|u|] == line[11..];
    RatioExampleMatches(u);
    BracketRatio(line, u, |u|);
  }

  /** A bracketed line whose text after the marker is one non-digit and
      then a ratio yields that ratio. */
  lemma BracketRatio(line: string, rest: string, e: nat)
    requires line == "[PROGRESS]" + rest
    requires |rest| > 0 && !IsWhitespace(rest[|rest| - 1]) && !IsDigit(rest[0])
    requires MatchRatioAt(rest, 1) == Some(e)
    ensures 1 < e <= |rest| && ExtractProgressInfo(line) == Some(rest[1..e])
  {
    BracketMarker(line, rest);
    RatioAfterOne(rest, e);
  }

  /** Text with one leading non-digit followed by a ratio yields that
      ratio. */
  lemma RatioAfterOne(u: string, e: nat)
    requires 0 < |u| && !IsDigit(u[0]) && MatchRatioAt(u, 1) == Some(e)
    ensures 1 < e <= |u| && MatchProgress(u) == Some(u[1..e])
  {
    NoDigitNoRatio(u, 0);
    MatchProgressRatio(u, 1, e);
  }

  /** The ratio pattern, atom by atom, on the example line. */
  lemma RatioExampleMatches(u: string)
    requires u == " 42.0MiB / 100.0MiB (42%, 10s)"
    ensures MatchRatioAt(u, 1) == Some(|u|)
  {
    var slash := [Spaces, Slash, Spaces];
    assert RatioPattern == ((Quantity + slash) + Quantity) + [Spaces, Paren];
    ExampleFirstQuantity(u);
    ExampleSlash(u);
    ExampleSecondQuantity(u);
    ExampleTail(u);
    MatchSeqAppend(u, 1, Quantity, slash);
    MatchSeqAppend(u, 1, Quantity + slash, Quantity);
    MatchSeqAppend(u, 1, (Quantity + slash) + Quantity, [Spaces, Paren]);
  }

  lemma ExampleFirstQuantity(u: string)
    requires u == " 42.0MiB / 100.0MiB (42%, 10s)"
    ensures MatchSeq(u, 1, Quantity) == Some(8)
  {
    ExampleFirstNumber(u);
    ExampleFirstUnit(u);
    QuantityOf(u, 1, 3, 5, 5, 8);
  }

  lemma ExampleFirstNumber(u: string)
    requires u == " 42.0MiB / 100.0MiB (42%, 10s)"
    ensures MatchAtom(u, 1, Digits) == Some(3) && MatchAtom(u, 3, Fraction) == Some(5)
  {
    assert DigitRun(u, 1) == 2 by { assert IsDigit(u[1]) && IsDigit(u[2]) && !IsDigit(u[3]); }
    assert DigitRun(u, 4) == 1 by { assert IsDigit(u[4]) && !IsDigit(u[5]); }
  }

  lemma ExampleFirstUnit(u: string)
    requires u == " 42.0MiB / 100.0MiB (42%, 10s)"
    ensures MatchAtom(u, 5, Spaces) == Some(5) && MatchAtom(u, 5, Unit) == Some(8)
  {
    assert u[5] == 'M';
    assert u[6] == 'i';
    assert u[7] == 'B';
    assert u[5..8] == ['M', 'i', 'B'];
  }

  /** Four atom matches in a row make a quantity. */
  lemma QuantityOf(s: string, i: nat, j: nat, k: nat, l: nat, n: nat)
    requires i <= |s| && MatchAtom(s, i, Digits) == Some(j)
    requires j <= |s| && MatchAtom(s, j, Fraction) == Some(k)
    requires k <= |s| && MatchAtom(s, k, Spaces) == Some(l)
    requires l <= |s| && MatchAtom(s, l, Unit) == Some(n)
    ensures MatchSeq(s, i, Quantity) == Some(n)
  {
    assert Quantity[1..] == [Fraction, Spaces, Unit];
    assert Quantity[1..][1..] == [Spaces, Unit];
    assert Quantity[1..][1..][1..] == [Unit];
  }

  lemma ExampleSlash(u: string)
    requires u == " 42.0MiB / 100.0MiB (42%, 10s)"
    ensures MatchSeq(u, 8, [Spaces, Slash, Spaces]) == Some(11)
  {
    assert SpaceRun(u, 8) == 1 by { assert IsWhitespace(u[8]) && !IsWhitespace(u[9]); }
    assert SpaceRun(u, 10) == 1 by { assert IsWhitespace(u[10]) && !IsWhitespace(u[11]); }
    assert MatchAtom(u, 8, Spaces) == Some(9);
    assert MatchAtom(u, 9, Slash) == Some(10);
    assert MatchAtom(u, 10, Spaces) == Some(11);
    assert [Spaces, Slash, Spaces][1..] == [Slash, Spaces];
    assert [Slash, Spaces][1..] == [Spaces];
  }

  lemma ExampleSecondQuantity(u: string)
    requires u == " 42.0MiB / 100.0MiB (42%, 10s)"
    ensures MatchSeq(u, 11, Quantity) == Some(19)
  {
    ExampleSecondNumber(u);
    ExampleSecondUnit(u);
    QuantityOf(u, 11, 14, 16, 16, 19);
  }

  lemma ExampleSecondNumber(u: string)
    requires u == " 42.0MiB / 100.0MiB (42%, 10s)"
    ensures MatchAtom(u, 11, Digits) == Some(14) && MatchAtom(u, 14, Fraction) == Some(16)
  {
    DigitRunIs(u, 11, 3);
    DigitRunIs(u, 15, 1);
  }

  lemma ExampleSecondUnit(u: string)
    requires u == " 42.0MiB / 100.0MiB (42%, 10s)"
    ensures MatchAtom(u, 16, Spaces) == Some(16) && MatchAtom(u, 16, Unit) == Some(19)
  {
    assert u[16] == 'M';
    assert u[17] == 'i';
    assert u[18] == 'B';
    assert u[16..19] == ['M', 'i', 'B'];
  }

  lemma ExampleTail(u: string)
    requires u == " 42.0MiB / 100.0MiB (42%, 10s)"
    ensures MatchSeq(u, 19, [Spaces, Paren]) == Some(|u|)
  {
    SpaceRunIs(u, 19, 1);
    assert MatchAtom(u, 19, Spaces) == Some(20);
    RatioExampleParen(u);
    assert MatchAtom(u, 20, Paren) == Some(|u|);
    assert [Spaces, Paren][1..] == [Paren];
  }

  /** The parenthesised part of the example line. */
  lemma RatioExampleParen(u: string)
    requires u == " 42.0MiB / 100.0MiB (42%, 10s)"
    ensures MatchParen(u, 20) == Some(|u|)
  {
    var t := u[21..];
    ExampleCloseParen(t);
    var x := u[21..29];
    assert x == t[..8];
    ExampleParenBody(x);
  }

  lemma ExampleCloseParen(t: string)
    requires t == "42%, 10s)"
    ensures FirstWhere(t, IsCloseParen) == Some(8)
  {
    assert t[8] == ')';
    assert forall j :: 0 <= j < 8 ==> t[j] != ')';
  }

  lemma ExampleParenBody(x: string)
    requires x == "42%, 10s"
    ensures ParenBodyOk(x)
  {
    var y := x[..7];
    assert y == ['4', '2', '%', ',', ' ', '1', '0'];
    assert TrailingDigits(y) == 2 by {
      assert y[..6] == ['4', '2', '%', ',', ' ', '1'];
      assert y[..6][..5] == ['4', '2', '%', ',', ' '];
      assert TrailingDigits(y[..6][..5]) == 0;
      assert TrailingDigits(y[..6]) == 1;
    }
    var lead := y[..5];
    assert lead == ['4', '2', '%', ',', ' '];
    assert TrimEnd(lead) == lead[..4] by { assert lead[..4][3] == ','; }
    assert LeadingFieldOk(lead) by {
      assert lead[..4][..3] == ['4', '2', '%'];
      assert lead[..4][..3][..2] == ['4', '2'];
    }
  }

  /** A bare percentage is captured with its digits and sign only. */
  lemma PercentExample(line: string)
    requires line == "PROGRESS: 42%"
    ensures ExtractProgressInfo(line) == Some("42%")
  {
    var u := " 42%";
    ColonMarker(line, u);
    ExamplePercent(u);
  }

  lemma ExamplePercent(u: string)
    requires u == " 42%"
    ensures MatchProgress(u) == Some("42%")
  {
    NoParenNoRatio(u);
    assert DigitRun(u, 1) == 2 by { assert IsDigit(u[1]) && IsDigit(u[2]) && !IsDigit(u[3]); }
    assert !PercentAt(u, 0);
    MatchProgressPercent(u, 1);
    assert u[1..4] == "42%";
  }

  /** At most three digits are taken: of `1234%` only `234%` matches. */
  lemma LongPercentExample(line: string)
    requires line == "1234%"
    ensures ExtractProgressInfo(line) == Some("234%")
  {
    ExampleLongPercentStrip(line);
    ExampleLongPercent(line);
  }

  lemma ExampleLongPercentStrip(line: string)
    requires line == "1234%"
    ensures StripMarker(Trim(line)) == line
  {
    TrimNoop(line);
  }

  lemma ExampleLongPercent(u: string)
    requires u == "1234%"
    ensures MatchProgress(u) == Some("234%")
  {
    NoParenNoRatio(u);
    assert DigitRun(u, 1) == 3 by { assert IsDigit(u[1]) && IsDigit(u[2]) && IsDigit(u[3]) && !IsDigit(u[4]); }
    assert DigitRun(u, 0) == 4;
    assert !PercentAt(u, 0);
    MatchProgressPercent(u, 1);
    assert u[1..5] == "234%";
  }

  /** A marker without a number carries no progress. */
  lemma NoProgressExample(line: string)
    requires line == "[PROGRESS] uploading"
    ensures ExtractProgressInfo(line) == None
  {
    var u := " uploading";
    BracketMarker(line, u);
    ExampleNoProgress(u);
  }

  lemma ExampleNoProgress(u: string)
    requires u == " uploading"
    ensures MatchProgress(u).None?
  {
    NoParenNoRatio(u);
    assert forall q :: 0 <= q < |u| ==> !IsDigit(u[q]);
    MatchProgressNone(u);
  }
}
