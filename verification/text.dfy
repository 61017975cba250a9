/** The parts of Rust's `str` API that the panels rely on, over `string`
    (a sequence of Unicode scalar values). Indices are character indices;
    the source's byte indices coincide with them on ASCII text. */
module Text {
  import opened Options

  /** `char::is_whitespace`, which is also what `str::trim` and the regex
      class `\s` use: the Unicode White_Space property. */
  predicate IsWhitespace(c: char)
  {
    || c == ' ' || c == '\t' || c == '\n' || c == '\U{B}' || c == '\U{C}' || c == '\r'
    || c == '\U{85}' || c == '\U{A0}' || c == '\U{1680}'
    || ('\U{2000}' <= c <= '\U{200A}')
    || c == '\U{2028}' || c == '\U{2029}' || c == '\U{202F}' || c == '\U{205F}' || c == '\U{3000}'
  }

  /** `char::is_ascii_digit`. */
  predicate IsDigit(c: char)
  {
    '0' <= c <= '9'
  }

  /** A line terminator for the streaming splitter: CR or LF. */
  predicate IsTerminator(c: char)
  {
    c == '\n' || c == '\r'
  }

  /** The string holds neither CR nor LF. */
  predicate NoBreak(s: string)
  {
    forall i :: 0 <= i < |s| ==> !IsTerminator(s[i])
  }

  predicate AllWhitespace(s: string)
  {
    forall i :: 0 <= i < |s| ==> IsWhitespace(s[i])
  }

  predicate StartsWith(s: string, prefix: string)
  {
    |prefix| <= |s| && s[..|prefix|] == prefix
  }

  predicate EndsWith(s: string, suffix: string)
  {
    |suffix| <= |s| && s[|s| - |suffix|..] == suffix
  }

  /** `pat` occurs in `s` starting at index `i`. */
  predicate OccursAt(s: string, pat: string, i: int)
  {
    0 <= i && i + |pat| <= |s| && s[i..i + |pat|] == pat
  }

  /** `str::contains` with a string pattern. */
  predicate Contains(s: string, pat: string)
  {
    exists i :: 0 <= i <= |s| && OccursAt(s, pat, i)
  }

  /** `str::find` with a string pattern: the first occurrence. */
  function Find(s: string, pat: string): (r: Option<nat>)
    ensures r.Some? ==> OccursAt(s, pat, r.value)
    ensures r.Some? ==> forall j :: 0 <= j < r.value ==> !OccursAt(s, pat, j)
    ensures r.None? <==> !Contains(s, pat)
  {
    FindFrom(s, pat, 0)
  }

  /** The first occurrence is where the pattern occurs with none before. */
  lemma FindFirst(s: string, pat: string, k: nat)
    requires k + |pat| <= |s| && s[k..k + |pat|] == pat
    requires forall j :: 0 <= j < k ==> !OccursAt(s, pat, j)
    ensures Find(s, pat) == Some(k)
  {
    assert OccursAt(s, pat, k);
  }

  function FindFrom(s: string, pat: string, i: nat): (r: Option<nat>)
    requires i <= |s|
    ensures r.Some? ==> i <= r.value && OccursAt(s, pat, r.value)
    ensures r.Some? ==> forall j :: i <= j < r.value ==> !OccursAt(s, pat, j)
    ensures r.None? ==> forall j :: i <= j <= |s| ==> !OccursAt(s, pat, j)
    decreases |s| - i
  {
    if OccursAt(s, pat, i) then Some(i)
    else if i == |s| then None
    else FindFrom(s, pat, i + 1)
  }

  /** `str::find` with a character predicate: the first index whose
      character satisfies `p`. */
  function FirstWhere(s: string, p: char -> bool): (r: Option<nat>)
    ensures r.Some? ==> r.value < |s| && p(s[r.value])
    ensures r.Some? ==> forall j :: 0 <= j < r.value ==> !p(s[j])
    ensures r.None? ==> forall j :: 0 <= j < |s| ==> !p(s[j])
  {
    if |s| == 0 then None
    else if p(s[0]) then Some(0)
    else match FirstWhere(s[1..], p)
      case None => None
      case Some(i) => Some(i + 1)
  }

  /** The first index whose character satisfies `p` is the one
      `FirstWhere` finds. */
  lemma FirstWhereIs(s: string, p: char -> bool, i: nat)
    requires i < |s| && p(s[i])
    requires forall j :: 0 <= j < i ==> !p(s[j])
    ensures FirstWhere(s, p) == Some(i)
  {
  }

  /** `str::trim_start`. */
  function TrimStart(s: string): (r: string)
    ensures |r| <= |s| && r == s[|s| - |r|..]
    ensures |r| == 0 || !IsWhitespace(r[0])
  {
    if |s| > 0 && IsWhitespace(s[0]) then TrimStart(s[1..]) else s
  }

  /** `trim_start` removes whitespace only. */
  lemma {:induction false} TrimStartSpec(s: string)
    ensures AllWhitespace(s[..|s| - |TrimStart(s)|])
    decreases |s|
  {
    if |s| > 0 && IsWhitespace(s[0]) {
      TrimStartSpec(s[1..]);
      var n := |s| - |TrimStart(s)|;
      assert forall i :: 1 <= i < n ==> s[i] == s[1..][..n - 1][i - 1];
    }
  }

  /** `str::trim_end`. */
  function TrimEnd(s: string): (r: string)
    ensures |r| <= |s| && r == s[..|r|]
    ensures |r| == 0 || !IsWhitespace(r[|r| - 1])
  {
    if |s| > 0 && IsWhitespace(s[|s| - 1]) then TrimEnd(s[..|s| - 1]) else s
  }

  /** `trim_end` removes whitespace only. */
  lemma {:induction false} TrimEndSpec(s: string)
    ensures AllWhitespace(s[|TrimEnd(s)|..])
    decreases |s|
  {
    if |s| > 0 && IsWhitespace(s[|s| - 1]) {
      TrimEndSpec(s[..|s| - 1]);
      var n := |TrimEnd(s)|;
      assert forall i :: n <= i < |s| - 1 ==> s[i] == s[..|s| - 1][n..][i - n];
    }
  }

  /** `r` is the piece of `s` starting at `k`, with only whitespace
      before and after it. */
  ghost predicate TrimmedAt(s: string, r: string, k: int)
  {
    0 <= k <= |s| - |r| && r == s[k..k + |r|]
    && AllWhitespace(s[..k]) && AllWhitespace(s[k + |r|..])
  }

  /** `str::trim`: a contiguous piece of `s` with no whitespace at either
      end, everything around it being whitespace. */
  function Trim(s: string): (r: string)
    ensures |r| <= |s|
    ensures |r| == 0 || (!IsWhitespace(r[0]) && !IsWhitespace(r[|r| - 1]))
  {
    TrimEnd(TrimStart(s))
  }

  /** What trimming keeps: a contiguous piece of the text with nothing
      but whitespace around it. */
  lemma TrimSpec(s: string)
    ensures exists k :: TrimmedAt(s, Trim(s), k)
  {
    var t := TrimStart(s);
    var r := TrimEnd(t);
    var k := |s| - |t|;
    TrimStartSpec(s);
    TrimEndSpec(t);
    TrimmedParts(s, t, r, k);
    assert r == Trim(s);
  }

  /** Whitespace, then a prefix of the rest followed by whitespace, is a
      trimmed piece. */
  lemma TrimmedParts(s: string, t: string, r: string, k: nat)
    requires k <= |s| && t == s[k..] && AllWhitespace(s[..k])
    requires |r| <= |t| && r == t[..|r|] && AllWhitespace(t[|r|..])
    ensures TrimmedAt(s, r, k)
  {
    assert r == s[k..k + |r|];
    assert s[k + |r|..] == t[|r|..];
  }

  /** A piece of break-free text is break-free. */
  lemma NoBreakSlice(s: string, a: nat, b: nat)
    requires a <= b <= |s| && NoBreak(s)
    ensures NoBreak(s[a..b])
  {
    assert forall i :: 0 <= i < b - a ==> s[a..b][i] == s[a + i];
  }

  /** Trimming break-free text leaves it break-free. */
  lemma NoBreakTrim(s: string)
    requires NoBreak(s)
    ensures NoBreak(Trim(s))
  {
    var r := Trim(s);
    TrimSpec(s);
    var k :| TrimmedAt(s, r, k);
    NoBreakSlice(s, k, k + |r|);
  }

  /** Trimming leaves nothing exactly when the text is all whitespace. */
  lemma TrimBlank(s: string)
    ensures Trim(s) == "" <==> AllWhitespace(s)
  {
    var r := Trim(s);
    TrimSpec(s);
    var k :| TrimmedAt(s, r, k);
    if r == "" {
      assert forall i :: 0 <= i < |s| ==> (if i < k then s[..k][i] == s[i] else s[k..][i - k] == s[i]);
    } else {
      assert s[k] == r[0];
    }
  }

  /** Trimming a string with no whitespace at either end changes nothing. */
  lemma TrimNoop(s: string)
    requires |s| == 0 || (!IsWhitespace(s[0]) && !IsWhitespace(s[|s| - 1]))
    ensures Trim(s) == s
  {
  }

  /** Text that starts with a visible character keeps it first when
      trimmed. */
  lemma TrimKeepsFirst(s: string)
    requires |s| > 0 && !IsWhitespace(s[0])
    ensures |Trim(s)| > 0 && Trim(s)[0] == s[0]
  {
    assert TrimStart(s) == s;
    TrimEndSpec(s);
    var k := |TrimEnd(s)|;
    assert k < |s| ==> s[k..][0] == s[k];
  }

  /** Trimming a value with no whitespace at its ends after a single
      space gives the value. */
  lemma TrimAfterSpace(p: string)
    requires |p| > 0 && !IsWhitespace(p[0]) && !IsWhitespace(p[|p| - 1])
    ensures Trim(" " + p) == p
  {
    var t := " " + p;
    assert t[1..] == p;
    assert TrimStart(t) == TrimStart(p) == p;
  }

  /** `str::trim_start_matches` with a string pattern: every leading
      repetition of `pat` is removed. */
  function TrimStartMatches(s: string, pat: string): (r: string)
    ensures |r| <= |s| && r == s[|s| - |r|..]
    ensures |pat| > 0 ==> !StartsWith(r, pat)
  {
    if |pat| > 0 && StartsWith(s, pat) then TrimStartMatches(s[|pat|..], pat) else s
  }

  /** What `trim_start_matches` removes is copies of `pat`, one after
      another. */
  lemma {:induction false} TrimStartMatchesRemoves(s: string, pat: string)
    ensures IsRepetition(s[..|s| - |TrimStartMatches(s, pat)|], pat)
    decreases |s|
  {
    if |pat| > 0 && StartsWith(s, pat) {
      TrimStartMatchesRemoves(s[|pat|..], pat);
      RepetitionCons(s, pat, |s| - |TrimStartMatches(s, pat)|);
    } else {
      assert s[..0] == "";
    }
  }

  /** `p` is some number of copies of `pat` one after another. */
  predicate IsRepetition(p: string, pat: string)
    decreases |p|
  {
    |p| == 0 || (|pat| > 0 && StartsWith(p, pat) && IsRepetition(p[|pat|..], pat))
  }

  /** A leading copy of the pattern is removed and trimming goes on
      behind it. */
  lemma TrimStartMatchesStep(pat: string, rest: string)
    requires |pat| > 0
    ensures TrimStartMatches(pat + rest, pat) == TrimStartMatches(rest, pat)
  {
    assert (pat + rest)[..|pat|] == pat;
    assert (pat + rest)[|pat|..] == rest;
  }

  /** Text that does not start with the pattern is left alone. */
  lemma TrimStartMatchesNoop(s: string, pat: string)
    requires |s| > 0 && |pat| > 0 && s[0] != pat[0]
    ensures TrimStartMatches(s, pat) == s
  {
  }

  /** A copy of `pat` in front of a repetition is a repetition. */
  lemma RepetitionCons(s: string, pat: string, n: nat)
    requires |pat| > 0 && StartsWith(s, pat) && |pat| <= n <= |s|
    requires IsRepetition(s[|pat|..][..n - |pat|], pat)
    ensures IsRepetition(s[..n], pat)
  {
    assert s[..n][..|pat|] == s[..|pat|];
    assert s[..n][|pat|..] == s[|pat|..][..n - |pat|];
  }

  /** `str::trim_end_matches` with a string pattern: every trailing
      repetition of `pat` is removed. */
  function TrimEndMatches(s: string, pat: string): (r: string)
    ensures |r| <= |s| && r == s[..|r|]
    ensures |pat| > 0 ==> !EndsWith(r, pat)
  {
    if |pat| > 0 && EndsWith(s, pat) then TrimEndMatches(s[..|s| - |pat|], pat) else s
  }

  /** `str::trim_end_matches` with a set of characters: every trailing
      character in the set is removed. */
  function TrimEndWhere(s: string, p: char -> bool): (r: string)
    ensures |r| <= |s| && r == s[..|r|]
    ensures |r| == 0 || !p(r[|r| - 1])
    ensures forall i :: |r| <= i < |s| ==> p(s[i])
  {
    if |s| > 0 && p(s[|s| - 1]) then
      var r := TrimEndWhere(s[..|s| - 1], p);
      assert forall i :: |r| <= i < |s| - 1 ==> s[i] == s[..|s| - 1][i];
      r
    else s
  }

  /** Nothing is trimmed from a string with no character in the set. */
  lemma TrimEndWhereNoop(s: string, p: char -> bool)
    requires forall i :: 0 <= i < |s| ==> !p(s[i])
    ensures TrimEndWhere(s, p) == s
  {
  }

  /** `str::trim_matches` with one character: every leading and trailing
      copy of `c` is removed. */
  function TrimMatchesChar(s: string, c: char): (r: string)
    ensures |r| <= |s|
    ensures |r| == 0 || (r[0] != c && r[|r| - 1] != c)
  {
    if |s| > 0 && s[0] == c then TrimMatchesChar(s[1..], c)
    else if |s| > 0 && s[|s| - 1] == c then TrimMatchesChar(s[..|s| - 1], c)
    else s
  }

  /** What `trim_matches` keeps is the piece of `s` right after its
      leading copies of `c`, and only copies of `c` follow it. */
  lemma {:induction false} TrimMatchesCharSlice(s: string, c: char)
    ensures LeadingRun(s, c) + |TrimMatchesChar(s, c)| <= |s|
    ensures TrimMatchesChar(s, c) == s[LeadingRun(s, c)..LeadingRun(s, c) + |TrimMatchesChar(s, c)|]
    ensures forall j :: LeadingRun(s, c) + |TrimMatchesChar(s, c)| <= j < |s| ==> s[j] == c
    decreases |s|
  {
    if |s| > 0 && s[0] == c {
      TrimMatchesCharSlice(s[1..], c);
      TailSlice(s, LeadingRun(s[1..], c), TrimMatchesChar(s[1..], c), c);
    } else if |s| > 0 && s[|s| - 1] == c {
      TrimMatchesCharSlice(s[..|s| - 1], c);
      InitSlice(s, s[..|s| - 1], TrimMatchesChar(s[..|s| - 1], c), c);
    } else {
      assert s[0..|s|] == s;
    }
  }

  /** A slice of the tail, with copies of `c` behind it, is a slice of
      the whole one place further on. */
  lemma TailSlice(s: string, n: nat, r: string, c: char)
    requires |s| > 0 && n + |r| <= |s| - 1 && r == s[1..][n..n + |r|]
    requires forall j :: n + |r| <= j < |s| - 1 ==> s[1..][j] == c
    ensures r == s[n + 1..n + 1 + |r|]
    ensures forall j :: n + 1 + |r| <= j < |s| ==> s[j] == c
  {
    forall j | n + 1 + |r| <= j < |s|
      ensures s[j] == c
    {
      assert s[j] == s[1..][j - 1];
    }
  }

  /** A prefix of all but the last character, with copies of `c` behind
      it, is a prefix of the whole when the last character is `c`. */
  lemma InitSlice(s: string, init: string, r: string, c: char)
    requires |s| > 0 && s[|s| - 1] == c && init == s[..|s| - 1] && |r| <= |init|
    requires r == init[0..|r|]
    requires forall j :: |r| <= j < |init| ==> init[j] == c
    ensures r == s[0..|r|]
    ensures forall j :: |r| <= j < |s| ==> s[j] == c
  {
    assert forall j :: |r| <= j < |init| ==> s[j] == init[j];
  }

  /** The number of copies of `c` that `s` starts with. */
  function LeadingRun(s: string, c: char): (n: nat)
    ensures n <= |s|
    ensures forall j :: 0 <= j < n ==> s[j] == c
    ensures n == |s| || s[n] != c
  {
    if |s| > 0 && s[0] == c then
      var n := LeadingRun(s[1..], c);
      assert forall j :: 1 <= j < n + 1 ==> s[j] == s[1..][j - 1];
      1 + n
    else 0
  }

  /** ASCII lower-casing of one character. */
  function LowerChar(c: char): char
  {
    if 'A' <= c <= 'Z' then (c as int + 32) as char else c
  }

  /** `str::to_lowercase`, restricted to the ASCII letters. */
  function ToLower(s: string): (r: string)
    ensures |r| == |s|
    ensures forall i :: 0 <= i < |s| ==> r[i] == LowerChar(s[i])
  {
    if |s| == 0 then "" else [LowerChar(s[0])] + ToLower(s[1..])
  }

  /** Case-insensitive containment as the panels write it:
      `text.to_lowercase().contains(&search.to_lowercase())`. */
  predicate ContainsIgnoreCase(text: string, search: string)
  {
    Contains(ToLower(text), ToLower(search))
  }

  predicate IsLF(c: char)
  {
    c == '\n'
  }

  /** One line of `str::lines`: the terminating "\n" is already gone and a
      single "\r" before it is dropped. */
  function StripCR(l: string): string
  {
    if |l| > 0 && l[|l| - 1] == '\r' then l[..|l| - 1] else l
  }

  /** `str::lines`: split on "\n" (a "\r\n" pair counting as one ending);
      a final line ending does not produce an empty last line. */
  function Lines(s: string): (r: seq<string>)
    ensures forall i :: 0 <= i < |r| ==> '\n' !in r[i]
    ensures NoCR(s) ==> forall i :: 0 <= i < |r| ==> NoBreak(r[i])
    decreases |s|
  {
    if |s| == 0 then []
    else match FirstWhere(s, IsLF)
      case None => [s]
      case Some(i) => [StripCR(s[..i])] + Lines(s[i + 1..])
  }

  /** `str::find` with a character: the first index holding `c`. */
  function IndexOf(s: string, c: char): (r: Option<nat>)
    ensures r.Some? ==> r.value < |s| && s[r.value] == c
    ensures r.Some? ==> forall j :: 0 <= j < r.value ==> s[j] != c
    ensures r.None? <==> c !in s
  {
    if |s| == 0 then None
    else if s[0] == c then Some(0)
    else match IndexOf(s[1..], c)
      case None => assert forall j :: 1 <= j < |s| ==> s[j] == s[1..][j - 1]; None
      case Some(i) => Some(i + 1)
  }

  /** `str::split` on one character: the pieces between occurrences of
      `c`, with an empty piece wherever two occurrences meet or `c` starts
      or ends the text. */
  function Split(s: string, c: char): (r: seq<string>)
    ensures |r| > 0
    ensures forall i :: 0 <= i < |r| ==> c !in r[i]
    decreases |s|
  {
    match IndexOf(s, c)
    case None => [s]
    case Some(i) =>
      assert forall j :: 0 <= j < i ==> s[..i][j] == s[j];
      [s[..i]] + Split(s[i + 1..], c)
  }

  /** Joining the pieces of a split with the separator gives back the
      text. */
  lemma {:induction false} JoinSplit(s: string, c: char)
    ensures Join(Split(s, c), [c]) == s
    decreases |s|
  {
    match IndexOf(s, c)
    case None =>
    case Some(i) =>
      JoinSplit(s[i + 1..], c);
      var rest := Split(s[i + 1..], c);
      assert Split(s, c) == [s[..i]] + rest;
      assert ([s[..i]] + rest)[1..] == rest;
      assert s == s[..i] + [c] + s[i + 1..];
  }

  /** Splitting a join of separator-free pieces gives back the pieces. */
  lemma {:induction false} SplitJoin(xs: seq<string>, c: char)
    requires |xs| > 0
    requires forall i :: 0 <= i < |xs| ==> c !in xs[i]
    ensures Split(Join(xs, [c]), c) == xs
    decreases |xs|
  {
    if |xs| == 1 {
      assert IndexOf(xs[0], c).None?;
    } else {
      var rest := Join(xs[1..], [c]);
      assert Join(xs, [c]) == xs[0] + [c] + rest;
      SplitAtFirst(xs[0], rest, c);
      SplitJoin(xs[1..], c);
      assert xs == [xs[0]] + xs[1..];
    }
  }

  /** Splitting text whose first separator follows `x` gives `x` and then
      the pieces of the rest. */
  lemma SplitAtFirst(x: string, rest: string, c: char)
    requires c !in x
    ensures Split(x + [c] + rest, c) == [x] + Split(rest, c)
  {
    var s := x + [c] + rest;
    assert s[|x|] == c;
    assert forall j :: 0 <= j < |x| ==> s[j] == x[j];
    IndexOfIs(s, c, |x|);
    assert s[..|x|] == x;
    assert s[|x| + 1..] == rest;
  }

  /** The first index holding `c` is the one before which `c` does not
      occur. */
  lemma {:induction false} IndexOfIs(s: string, c: char, i: nat)
    requires i < |s| && s[i] == c
    requires forall j :: 0 <= j < i ==> s[j] != c
    ensures IndexOf(s, c) == Some(i)
    decreases i
  {
    if i > 0 {
      IndexOfIs(s[1..], c, i - 1);
    }
  }

  /** `slice.join(sep)`. */
  function Join(xs: seq<string>, sep: string): string
  {
    if |xs| == 0 then ""
    else if |xs| == 1 then xs[0]
    else xs[0] + sep + Join(xs[1..], sep)
  }

  /** The text holds no carriage return. */
  predicate NoCR(s: string)
  {
    forall i :: 0 <= i < |s| ==> s[i] != '\r'
  }

  lemma NoCRAppend(a: string, b: string)
    ensures NoCR(a + b) <==> NoCR(a) && NoCR(b)
  {
    if NoCR(a) && NoCR(b) {
      assert forall i :: 0 <= i < |a + b| ==> (a + b)[i] == (if i < |a| then a[i] else b[i - |a|]);
    }
    if NoCR(a + b) {
      assert forall i :: 0 <= i < |a| ==> a[i] == (a + b)[i];
      assert forall i :: 0 <= i < |b| ==> b[i] == (a + b)[|a| + i];
    }
  }

  lemma NoBreakAppend(a: string, b: string)
    ensures NoBreak(a + b) <==> NoBreak(a) && NoBreak(b)
  {
    assert forall i :: 0 <= i < |a + b| ==> (a + b)[i] == (if i < |a| then a[i] else b[i - |a|]);
    if NoBreak(a + b) {
      assert forall i :: 0 <= i < |a| ==> a[i] == (a + b)[i];
      assert forall i :: 0 <= i < |b| ==> b[i] == (a + b)[|a| + i];
    }
  }

  /** Break-free text has no carriage return. */
  lemma NoBreakNoCR(s: string)
    requires NoBreak(s)
    ensures NoCR(s)
  {
  }

  /** A join of several pieces is empty only when there is at most one
      piece and it is empty. */
  lemma JoinEmpty(xs: seq<string>)
    ensures Join(xs, "\n") == "" <==> (xs == [] || xs == [""])
  {
  }

  /** `lines` undoes `join("\n")` on break-free pieces, provided the last
      piece is not empty (an empty last piece leaves no trace). */
  lemma {:induction false} LinesOfJoin(xs: seq<string>)
    requires forall i :: 0 <= i < |xs| ==> IsLinePiece(xs[i])
    requires |xs| == 0 || xs[|xs| - 1] != ""
    ensures Lines(Join(xs, "\n")) == xs
  {
    if |xs| == 1 {
      assert FirstWhere(xs[0], IsLF).None?;
    } else if |xs| > 1 {
      JoinFirstLine(xs);
      PieceKeepsEnd(xs[0]);
      LinesOfJoin(xs[1..]);
      assert xs == [xs[0]] + xs[1..];
    }
  }

  /** The first line of a join is its first piece, carriage-return
      stripped, and the rest is the join of the other pieces. */
  lemma JoinFirstLine(xs: seq<string>)
    requires |xs| > 1 && '\n' !in xs[0]
    ensures Lines(Join(xs, "\n")) == [StripCR(xs[0])] + Lines(Join(xs[1..], "\n"))
  {
    var s := Join(xs, "\n");
    var rest := Join(xs[1..], "\n");
    assert s == xs[0] + "\n" + rest;
    assert s[|xs[0]|] == '\n';
    assert forall j :: 0 <= j < |xs[0]| ==> s[j] == xs[0][j];
    assert FirstWhere(s, IsLF) == Some(|xs[0]|);
    assert s[..|xs[0]|] == xs[0];
    assert s[|xs[0]| + 1..] == rest;
  }

  /** A piece that reads back as itself between line feeds: it holds no
      line feed and does not end in a carriage return. */
  predicate IsLinePiece(s: string)
  {
    '\n' !in s && !EndsWith(s, "\r")
  }

  /** A line piece loses nothing to the carriage-return strip. */
  lemma PieceKeepsEnd(s: string)
    requires !EndsWith(s, "\r")
    ensures StripCR(s) == s
  {
  }

  /** Break-free text is a line piece. */
  lemma BreakFreePiece(s: string)
    requires NoBreak(s)
    ensures IsLinePiece(s)
  {
    if |s| > 0 {
      assert s[|s| - 1..][0] == s[|s| - 1];
    }
  }

  /** A join of break-free pieces followed by a newline reads back as
      exactly those pieces, an empty last piece included. */
  lemma {:induction false} LinesOfJoinTerminated(xs: seq<string>)
    requires |xs| > 0
    requires forall i :: 0 <= i < |xs| ==> NoBreak(xs[i])
    ensures Lines(Join(xs, "\n") + "\n") == xs
    decreases |xs|
  {
    if |xs| == 1 {
      LinesOfTerminated(xs[0]);
    } else {
      var rest := Join(xs[1..], "\n");
      assert Join(xs, "\n") + "\n" == (xs[0] + "\n") + (rest + "\n");
      LinesAppend(xs[0] + "\n", rest + "\n");
      LinesOfTerminated(xs[0]);
      LinesOfJoinTerminated(xs[1..]);
      assert xs == [xs[0]] + xs[1..];
    }
  }

  /** Joining carriage-return-free pieces with newlines adds none. */
  lemma {:induction false} JoinNoCR(xs: seq<string>)
    requires forall i :: 0 <= i < |xs| ==> NoCR(xs[i])
    ensures NoCR(Join(xs, "\n"))
    decreases |xs|
  {
    if |xs| > 1 {
      JoinNoCR(xs[1..]);
      NoCRAppend(xs[0], "\n");
      NoCRAppend(xs[0] + "\n", Join(xs[1..], "\n"));
    }
  }

  /** A line followed by its terminator reads back as that one line. */
  lemma LinesOfTerminated(l: string)
    requires NoBreak(l)
    ensures Lines(l + "\n") == [l]
  {
    var s := l + "\n";
    assert s[|l|] == '\n';
    assert forall j :: 0 <= j < |l| ==> s[j] == l[j];
    assert FirstWhere(s, IsLF) == Some(|l|);
    assert s[..|l|] == l;
    assert s[|l| + 1..] == "";
  }

  /** Text that ends in a newline (or is empty) splits independently of
      what is appended after it. */
  lemma {:induction false} LinesAppend(s: string, t: string)
    requires |s| == 0 || s[|s| - 1] == '\n'
    ensures Lines(s + t) == Lines(s) + Lines(t)
    decreases |s|
  {
    if |s| == 0 {
      assert s + t == t;
    } else {
      var i := FirstWhere(s, IsLF).value;
      FirstLineOfAppend(s, t, i);
      LinesAppend(s[i + 1..], t);
    }
  }

  /** Appending text after a line ending leaves the first line as it
      was and appends to the rest. */
  lemma FirstLineOfAppend(s: string, t: string, i: nat)
    requires FirstWhere(s, IsLF) == Some(i)
    ensures i < |s| && Lines(s + t) == [StripCR(s[..i])] + Lines(s[i + 1..] + t)
  {
    var u := s + t;
    assert forall j :: 0 <= j < |s| ==> u[j] == s[j];
    assert FirstWhere(u, IsLF) == Some(i);
    assert u[..i] == s[..i];
    assert u[i + 1..] == s[i + 1..] + t;
  }
}
