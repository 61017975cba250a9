/** The wallet panel (src/gui/wallet.rs): the numeric filter on amount
    boxes, reading balances from `check-sol` and `check-token`, the usage
    report's line filter and its sections, and the result of the swap and
    withdraw actions. A command that could not be started is `None`;
    otherwise its decoded standard output is given, whatever its exit
    status. */
module Wallet {
  import opened Options
  import opened Text
  import Seqs

  /** The PIPE token's mint address. */
  const PipeMint := "35mhJor7qTD212YXdLkB8sRzTbaYRXmTzHTCFSDP5voJ"

  /** Shown for a value the command did not report. */
  const Unknown := "-"

  // ---- amount boxes ----

  predicate IsNumericChar(c: char)
  {
    IsDigit(c) || c == '.'
  }

  /** After every edit an amount box keeps only its ASCII digits and dots. */
  function FilterNumeric(input: string): (r: string)
    ensures forall i :: 0 <= i < |r| ==> IsNumericChar(r[i])
    ensures |r| <= |input|
  {
    Seqs.Filter(IsNumericChar, input)
  }

  /** The filter only deletes characters, keeps every digit and dot, and
      filtering twice changes nothing. */
  lemma FilterNumericSpec(input: string)
    ensures Seqs.IsSubseq(FilterNumeric(input), input)
    ensures forall i :: 0 <= i < |input| && IsNumericChar(input[i]) ==> input[i] in FilterNumeric(input)
    ensures FilterNumeric(FilterNumeric(input)) == FilterNumeric(input)
    ensures Seqs.IsSelection(FilterNumeric(input), IsNumericChar, input)
  {
    Seqs.FilterSelects(IsNumericChar, input);
    Seqs.FilterIsSubseq(IsNumericChar, input);
    Seqs.FilterKeepsAccepted(IsNumericChar, input);
    Seqs.FilterAllKept(IsNumericChar, FilterNumeric(input));
  }

  // ---- balances ----

  /** The value a line tagged `tag` reports: the trimmed rest of the line. */
  function TaggedValue(tag: string, line: string): (r: Option<string>)
    ensures r.Some? <==> StartsWith(line, tag)
  {
    if StartsWith(line, tag) then Some(Trim(line[|tag|..])) else None
  }

  /** The value of the LAST line starting with `tag`, or `default` when no
      line does: the loop overwrites the value at every tagged line. */
  function LastTagged(lines: seq<string>, tag: string, default: string): (r: string)
    ensures (forall i :: 0 <= i < |lines| ==> !StartsWith(lines[i], tag)) ==> r == default
    ensures (exists i :: 0 <= i < |lines| && StartsWith(lines[i], tag)) ==>
      exists i :: 0 <= i < |lines| && StartsWith(lines[i], tag) && r == Trim(lines[i][|tag|..]) &&
        forall j :: i < j < |lines| ==> !StartsWith(lines[j], tag)
  {
    var found := Seqs.LastSome((line: string) => TaggedValue(tag, line), lines);
    assert forall i :: 0 <= i < |lines| ==> (TaggedValue(tag, lines[i]).Some? <==> StartsWith(lines[i], tag));
    found.GetOr(default)
  }

  /** `check-sol`: the wallet address (`Pubkey:`) and SOL balance (`SOL:`). */
  function CheckSol(out: Option<string>): (r: (string, string))
    ensures out.None? ==> r == (Unknown, Unknown)
    ensures out.Some? ==> r == (LastTagged(Lines(out.value), "Pubkey:", Unknown), LastTagged(Lines(out.value), "SOL:", Unknown))
  {
    match out
    case None => (Unknown, Unknown)
    case Some(text) =>
      var lines := Lines(text);
      (LastTagged(lines, "Pubkey:", Unknown), LastTagged(lines, "SOL:", Unknown))
  }

  /** `check-token`: the PIPE balance (`UI:`) and the mint (`Mint:`),
      which falls back to the PIPE mint. */
  function CheckToken(out: Option<string>): (r: (string, string))
    ensures out.None? ==> r == (Unknown, PipeMint)
    ensures out.Some? ==> r == (LastTagged(Lines(out.value), "UI:", Unknown), LastTagged(Lines(out.value), "Mint:", PipeMint))
  {
    match out
    case None => (Unknown, PipeMint)
    case Some(text) =>
      var lines := Lines(text);
      (LastTagged(lines, "UI:", Unknown), LastTagged(lines, "Mint:", PipeMint))
  }

  // ---- usage report ----

  const NoUsage := "No usage data."

  /** A usage line is kept unless it is blank or one of the login notices
      or the report's own title. */
  predicate IsUsageLine(line: string)
  {
    Trim(line) != ""
    && !Contains(line, "Token expired")
    && !Contains(line, "Credentials saved")
    && !Contains(line, "Token refreshed")
    && !Contains(line, "Token Usage Report")
  }

  /** The report text: the kept lines joined by newlines. */
  function UsageReport(out: Option<string>): (r: string)
    ensures out.None? ==> r == NoUsage
  {
    match out
    case None => NoUsage
    case Some(text) => Join(Seqs.Filter(IsUsageLine, Lines(text)), "\n")
  }

  /** Read back line by line, the report is exactly the kept lines of the
      output, in order. This holds for LF and CRLF output alike; only a
      line that still ends in a carriage return after `lines()` (one that
      ended in `\r\r\n`) would lose it on the way back. */
  lemma UsageReportLines(text: string)
    requires forall i :: 0 <= i < |Lines(text)| ==> !EndsWith(Lines(text)[i], "\r")
    ensures Lines(UsageReport(Some(text))) == Seqs.Filter(IsUsageLine, Lines(text))
  {
    var lines := Lines(text);
    var kept := Seqs.Filter(IsUsageLine, lines);
    Seqs.FilterIn(IsUsageLine, lines);
    assert forall i :: 0 <= i < |kept| ==> kept[i] in lines;
    assert forall i :: 0 <= i < |kept| ==> IsLinePiece(kept[i]);
    if |kept| > 0 {
      assert IsUsageLine(kept[|kept| - 1]);
    }
    LinesOfJoin(kept);
  }

  // ---- usage sections ----

  /** The heading of a usage card. The empty heading is the one in force
      before any header line. */
  datatype Heading = Untitled | Storage | Bandwidth | Total

  /** The heading text each card shows, character for character as the
      program spells it: each emoji is written as the characters its
      UTF-8 bytes give when read as Mac Roman. */
  function HeadingText(h: Heading): (r: string)
    ensures r == "" <==> h == Untitled
  {
    match h
    case Untitled => ""
    case Storage => "\U{F8FF}\U{FC}\U{EC}\U{B6} Storage (Uploads)"
    case Bandwidth => "\U{F8FF}\U{FC}\U{E5}\U{EA} Bandwidth (Downloads)"
    case Total => "\U{F8FF}\U{FC}\U{ED}\U{221E} Total"
  }

  /** The heading a header line starts, tested in this order. */
  function HeaderOf(line: string): Option<Heading>
  {
    if Contains(line, "Storage (Uploads):") then Some(Storage)
    else if Contains(line, "Bandwidth (Downloads):") then Some(Bandwidth)
    else if Contains(line, "Total:") then Some(Total)
    else None
  }

  /** A card's title followed by a colon is read as the header that
      started the card: the title names its own header. */
  lemma HeadingRoundTrip(h: Heading)
    requires h != Untitled
    ensures HeaderOf(HeadingText(h) + ":") == Some(h)
  {
    match h
    case Storage => StorageRoundTrip();
    case Bandwidth => BandwidthRoundTrip();
    case Total => TotalRoundTrip();
  }

  lemma StorageRoundTrip()
    ensures Contains(HeadingText(Storage) + ":", "Storage (Uploads):")
  {
    var e := "\U{F8FF}\U{FC}\U{EC}\U{B6} ";
    assert HeadingText(Storage) + ":" == e + "Storage (Uploads):";
    EndOccurs(e, "Storage (Uploads):");
  }

  lemma BandwidthRoundTrip()
    ensures !Contains(HeadingText(Bandwidth) + ":", "Storage (Uploads):")
    ensures Contains(HeadingText(Bandwidth) + ":", "Bandwidth (Downloads):")
  {
    var e := "\U{F8FF}\U{FC}\U{E5}\U{EA} ";
    assert HeadingText(Bandwidth) + ":" == e + "Bandwidth (Downloads):";
    EndOccurs(e, "Bandwidth (Downloads):");
    Absent(e, "Bandwidth (Downloads):", "Storage (Uploads):");
  }

  lemma TotalRoundTrip()
    ensures !Contains(HeadingText(Total) + ":", "Storage (Uploads):")
    ensures !Contains(HeadingText(Total) + ":", "Bandwidth (Downloads):")
    ensures Contains(HeadingText(Total) + ":", "Total:")
  {
    var e := "\U{F8FF}\U{FC}\U{ED}\U{221E} ";
    assert HeadingText(Total) + ":" == e + "Total:";
    EndOccurs(e, "Total:");
    Absent(e, "Total:", "Storage (Uploads):");
    Absent(e, "Total:", "Bandwidth (Downloads):");
  }

  /** A pattern whose first character is in neither part is not in their
      concatenation. */
  lemma Absent(e: string, n: string, pat: string)
    requires |pat| > 0 && pat[0] !in e && pat[0] !in n
    ensures !Contains(e + n, pat)
  {
    FirstAbsent(e + n, pat);
  }

  /** A text ending in a pattern contains it. */
  lemma EndOccurs(p: string, pat: string)
    ensures Contains(p + pat, pat)
  {
    assert OccursAt(p + pat, pat, |p|);
  }

  /** Text that lacks the first character of a pattern does not contain it. */
  lemma FirstAbsent(s: string, pat: string)
    requires |pat| > 0 && pat[0] !in s
    ensures !Contains(s, pat)
  {
  }

  /** A line shown inside a card: not a header, not blank. */
  predicate IsBodyLine(line: string)
  {
    HeaderOf(line).None? && Trim(line) != ""
  }

  datatype Section = Section(heading: Heading, lines: seq<string>)

  /** The cards emitted so far, and the heading and lines of the card being
      collected. */
  datatype Sectioner = Sectioner(done: seq<Section>, heading: Heading, pending: seq<string>)

  /** The collected card, when it has lines. */
  function Flushed(st: Sectioner): (r: seq<Section>)
    ensures |r| <= 1 && (r == [] <==> st.pending == [])
  {
    if st.pending == [] then [] else [Section(st.heading, st.pending)]
  }

  /** One line: a header closes the card being collected (emitting it if
      it has lines) and starts a new one; a body line joins the card. */
  function Step(st: Sectioner, line: string): Sectioner
  {
    match HeaderOf(line)
    case Some(h) => Sectioner(st.done + Flushed(st), h, [])
    case None => if Trim(line) != "" then st.(pending := st.pending + [line]) else st
  }

  function Collect(lines: seq<string>): Sectioner
    decreases |lines|
  {
    if |lines| == 0 then Sectioner([], Untitled, [])
    else Step(Collect(lines[..|lines| - 1]), lines[|lines| - 1])
  }

  /** The cards of a usage report. Only the first card can lack a
      heading: every later one follows a header line. */
  function UsageSections(usage: string): (r: seq<Section>)
    ensures forall i :: 1 <= i < |r| ==> r[i].heading != Untitled
  {
    var st := Collect(Lines(usage));
    CollectHeadings(Lines(usage));
    st.done + Flushed(st)
  }

  /** Once a card has been emitted, a header has been read: every emitted
      card after the first, and the card being collected, have a heading. */
  predicate HeadedAfterFirst(st: Sectioner)
  {
    (forall i :: 1 <= i < |st.done| ==> st.done[i].heading != Untitled)
    && (|st.done| > 0 ==> st.heading != Untitled)
  }

  lemma {:induction false} CollectHeadings(lines: seq<string>)
    ensures HeadedAfterFirst(Collect(lines))
    decreases |lines|
  {
    if |lines| > 0 {
      var st := Collect(lines[..|lines| - 1]);
      CollectHeadings(lines[..|lines| - 1]);
      var line := lines[|lines| - 1];
      match HeaderOf(line)
      case Some(h) =>
        assert h != Untitled;
        var done := st.done + Flushed(st);
        assert forall i :: 1 <= i < |st.done| ==> done[i] == st.done[i];
      case None =>
    }
  }

  /** All the lines of the cards, in order. */
  function Bodies(sections: seq<Section>): seq<string>
    decreases |sections|
  {
    if |sections| == 0 then [] else Bodies(sections[..|sections| - 1]) + sections[|sections| - 1].lines
  }

  predicate NoEmptyCard(sections: seq<Section>)
  {
    forall i :: 0 <= i < |sections| ==> sections[i].lines != []
  }

  lemma BodiesSnoc(sections: seq<Section>, s: Section)
    ensures Bodies(sections + [s]) == Bodies(sections) + s.lines
  {
    assert (sections + [s])[..|sections|] == sections;
  }

  /** One step adds the line to the cards' lines exactly when it is a
      body line, and emits no empty card. */
  lemma StepKeepsBodies(st: Sectioner, line: string)
    requires NoEmptyCard(st.done)
    ensures var next := Step(st, line);
      Bodies(next.done) + next.pending == Bodies(st.done) + st.pending + (if IsBodyLine(line) then [line] else [])
      && NoEmptyCard(next.done)
  {
    if HeaderOf(line).Some? {
      HeaderStep(st, line);
    }
  }

  /** A header line emits the collected card, if it has lines, and starts
      an empty one. */
  lemma HeaderStep(st: Sectioner, line: string)
    requires NoEmptyCard(st.done) && HeaderOf(line).Some?
    ensures var next := Step(st, line);
      Bodies(next.done) + next.pending == Bodies(st.done) + st.pending && NoEmptyCard(next.done)
  {
    if st.pending != [] {
      BodiesSnoc(st.done, Section(st.heading, st.pending));
    } else {
      assert st.done + Flushed(st) == st.done;
    }
  }

  /** While collecting, the emitted cards and the pending lines together
      are the body lines read so far, and no emitted card is empty. */
  lemma {:induction false} CollectInvariant(lines: seq<string>)
    ensures var st := Collect(lines);
      Bodies(st.done) + st.pending == Seqs.Filter(IsBodyLine, lines) && NoEmptyCard(st.done)
    decreases |lines|
  {
    if |lines| > 0 {
      var init := lines[..|lines| - 1];
      var line := lines[|lines| - 1];
      CollectInvariant(init);
      assert Seqs.Filter(IsBodyLine, lines) == Seqs.Filter(IsBodyLine, init) + (if IsBodyLine(line) then [line] else []) by {
        assert lines == init + [line];
        Seqs.FilterAppend(IsBodyLine, init, [line]);
        assert Seqs.Filter(IsBodyLine, [line]) == if IsBodyLine(line) then [line] else [];
      }
      StepKeepsBodies(Collect(init), line);
    }
  }

  /** The cards partition the report's body lines in order, and none is
      empty. */
  lemma UsageSectionsPartition(usage: string)
    ensures Bodies(UsageSections(usage)) == Seqs.Filter(IsBodyLine, Lines(usage))
    ensures NoEmptyCard(UsageSections(usage))
  {
    var st := Collect(Lines(usage));
    CollectInvariant(Lines(usage));
    if st.pending != [] {
      BodiesSnoc(st.done, Section(st.heading, st.pending));
    } else {
      assert st.done + Flushed(st) == st.done;
    }
  }

  // ---- actions ----

  datatype Action = SwapSolForPipe | WithdrawSol | WithdrawPipe

  /** The argument vector of each action (the `pipe` program on the path). */
  function ActionArgs(action: Action, amount: string, toPubkey: string): (r: seq<string>)
    ensures action.SwapSolForPipe? ==> r == ["swap-sol-for-pipe", amount]
    ensures action.WithdrawSol? ==> r == ["withdraw-sol", amount, toPubkey]
    ensures action.WithdrawPipe? ==> r == ["withdraw-custom-token", PipeMint, amount, toPubkey]
  {
    match action
    case SwapSolForPipe => ["swap-sol-for-pipe", amount]
    case WithdrawSol => ["withdraw-sol", amount, toPubkey]
    case WithdrawPipe => ["withdraw-custom-token", PipeMint, amount, toPubkey]
  }

  function FailureText(action: Action): string
  {
    match action
    case SwapSolForPipe => "Swap failed."
    case WithdrawSol => "Withdraw SOL failed."
    case WithdrawPipe => "Withdraw PIPE failed."
  }

  /** The action status line: the command's output with surrounding
      whitespace removed, whatever its exit status, or the action's fixed
      failure text when it could not be started. */
  function ActionResult(action: Action, out: Option<string>): (r: string)
    ensures out.None? ==> r == FailureText(action)
    ensures out.Some? ==> |r| <= |out.value|
  {
    match out
    case None => FailureText(action)
    case Some(text) => Trim(text)
  }

  /** A started command's status is its output with only surrounding
      whitespace removed. */
  lemma ActionResultOfOutput(action: Action, text: string)
    ensures var r := ActionResult(action, Some(text));
      exists k :: TrimmedAt(text, r, k)
  {
    assert ActionResult(action, Some(text)) == Trim(text);
    TrimSpec(text);
  }
}
