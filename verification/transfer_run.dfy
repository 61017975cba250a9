/** The transfer thread of the upload/download panel (src/gui/upload.rs):
    the read loops over the command's stdout and stderr and the status the
    thread leaves behind. Reads are given as the sequence of decoded chunks
    each stream delivers before it ends (or fails; both stop the loop). */
module TransferRun {
  import opened Text
  import opened LineSplitter
  import opened ProgressInfo
  import opened TransferStatus

  /** Complete stdout lines applied to the status in order. */
  function ApplyStdoutLines(mode: Mode, status: string, lines: seq<string>): (r: string)
    ensures NoCR(status) && (forall i :: 0 <= i < |lines| ==> NoBreak(lines[i])) ==> NoCR(r)
    decreases |lines|
  {
    if |lines| == 0 then status
    else ApplyStdoutLines(mode, ApplyStdoutLine(mode, status, lines[0]), lines[1..])
  }

  /** Applying two runs of lines is applying their concatenation. */
  lemma {:induction false} ApplyStdoutLinesAppend(mode: Mode, status: string, a: seq<string>, b: seq<string>)
    ensures ApplyStdoutLines(mode, status, a + b) == ApplyStdoutLines(mode, ApplyStdoutLines(mode, status, a), b)
    decreases |a|
  {
    if |a| > 0 {
      assert (a + b)[0] == a[0];
      assert (a + b)[1..] == a[1..] + b;
      ApplyStdoutLinesAppend(mode, ApplyStdoutLine(mode, status, a[0]), a[1..], b);
    } else {
      assert a + b == b;
    }
  }

  /** Each line followed by a newline: what appending them one by one
      writes. */
  function Terminated(lines: seq<string>): string
    decreases |lines|
  {
    if |lines| == 0 then "" else lines[0] + "\n" + Terminated(lines[1..])
  }

  /** Terminated break-free lines read back as those lines. */
  lemma {:induction false} TerminatedLines(lines: seq<string>)
    requires forall i :: 0 <= i < |lines| ==> NoBreak(lines[i])
    ensures Lines(Terminated(lines)) == lines
    decreases |lines|
  {
    if |lines| > 0 {
      LinesAppend(lines[0] + "\n", Terminated(lines[1..]));
      LinesOfTerminated(lines[0]);
      TerminatedLines(lines[1..]);
      assert lines[0] + "\n" + Terminated(lines[1..]) == (lines[0] + "\n") + Terminated(lines[1..]);
      assert lines == [lines[0]] + lines[1..];
    }
  }

  lemma {:induction false} TerminatedAppend(a: seq<string>, b: seq<string>)
    ensures Terminated(a + b) == Terminated(a) + Terminated(b)
    decreases |a|
  {
    if |a| > 0 {
      assert (a + b)[0] == a[0];
      assert (a + b)[1..] == a[1..] + b;
      TerminatedAppend(a[1..], b);
    } else {
      assert a + b == b;
    }
  }

  /** Lines that carry no progress are appended, each with a newline,
      and nothing else changes. */
  lemma {:induction false} PlainLinesAppend(mode: Mode, status: string, lines: seq<string>)
    requires forall i :: 0 <= i < |lines| ==> IsPlain(lines[i])
    ensures ApplyStdoutLines(mode, status, lines) == status + Terminated(lines)
    decreases |lines|
  {
    if |lines| > 0 {
      PlainStep(mode, status, lines);
      PlainRest(lines);
      PlainLinesAppend(mode, status + lines[0] + "\n", lines[1..]);
      TerminatedStep(status, lines);
    }
  }

  lemma PlainStep(mode: Mode, status: string, lines: seq<string>)
    requires |lines| > 0 && IsPlain(lines[0])
    ensures ApplyStdoutLines(mode, status, lines) == ApplyStdoutLines(mode, status + lines[0] + "\n", lines[1..])
  {
    ApplyPlain(mode, status, lines[0]);
  }

  lemma PlainRest(lines: seq<string>)
    requires |lines| > 0
    requires forall i :: 0 <= i < |lines| ==> IsPlain(lines[i])
    ensures forall i :: 0 <= i < |lines[1..]| ==> IsPlain(lines[1..][i])
  {
  }

  lemma TerminatedStep(status: string, lines: seq<string>)
    requires |lines| > 0
    ensures (status + lines[0] + "\n") + Terminated(lines[1..]) == status + Terminated(lines)
  {
    Assoc(status, lines[0] + "\n", Terminated(lines[1..]));
  }

  /** The inner loop over the lines one stdout read completed. */
  method ApplyEach(mode: Mode, status0: string, lines: seq<string>) returns (status: string)
    ensures status == ApplyStdoutLines(mode, status0, lines)
  {
    status := status0;
    var j := 0;
    while j < |lines|
      invariant 0 <= j <= |lines|
      invariant status == ApplyStdoutLines(mode, status0, lines[..j])
    {
      ApplyNext(mode, status0, lines, j);
      status := ApplyStdoutLine(mode, status, lines[j]);
      j := j + 1;
    }
    assert lines[..j] == lines;
  }

  lemma Assoc(a: string, b: string, c: string)
    ensures (a + b) + c == a + (b + c)
  {
  }

  /** Applying one more line continues from the status so far. */
  lemma ApplyNext(mode: Mode, status0: string, lines: seq<string>, j: nat)
    requires j < |lines|
    ensures ApplyStdoutLines(mode, status0, lines[..j + 1])
      == ApplyStdoutLine(mode, ApplyStdoutLines(mode, status0, lines[..j]), lines[j])
  {
    assert lines[..j + 1] == lines[..j] + [lines[j]];
    ApplyStdoutLinesAppend(mode, status0, lines[..j], [lines[j]]);
    var s := ApplyStdoutLines(mode, status0, lines[..j]);
    assert [lines[j]][1..] == [];
    assert ApplyStdoutLines(mode, s, [lines[j]]) == ApplyStdoutLines(mode, ApplyStdoutLine(mode, s, lines[j]), []);
  }

  /** The stdout loop: each read is split with the carried fragment and
      its complete lines are applied one by one. The status it leaves is
      the whole stream's lines applied in order. */
  method ReadStdout(mode: Mode, status0: string, chunks: seq<string>) returns (status: string)
    ensures status == ApplyStdoutLines(mode, status0, Drain("", chunks).emitted)
  {
    status := status0;
    var partial := "";
    var i := 0;
    while i < |chunks|
      invariant 0 <= i <= |chunks|
      invariant partial == Drain("", chunks[..i]).fragment
      invariant status == ApplyStdoutLines(mode, status0, Drain("", chunks[..i]).emitted)
    {
      var st := SplitStep(partial, chunks[i]);
      status := ApplyEach(mode, status, st.emitted);
      NextRead(chunks, i);
      ApplyStdoutLinesAppend(mode, status0, Drain("", chunks[..i]).emitted, st.emitted);
      partial := st.fragment;
      i := i + 1;
    }
    assert chunks[..i] == chunks;
  }

  /** The loop state after read `i` is the drain of the reads so far. */
  lemma NextRead(chunks: seq<string>, i: nat)
    requires i < |chunks|
    ensures Drain("", chunks[..i + 1]) ==
      Step(Drain("", chunks[..i]).emitted + SplitStep(Drain("", chunks[..i]).fragment, chunks[i]).emitted,
           SplitStep(Drain("", chunks[..i]).fragment, chunks[i]).fragment)
  {
    assert chunks[..i + 1] == chunks[..i] + [chunks[i]];
    DrainSnoc("", chunks[..i], chunks[i]);
  }

  /** The inner loop over the lines one stderr read completed. */
  method AppendEach(status0: string, lines: seq<string>) returns (status: string)
    ensures status == status0 + Terminated(lines)
  {
    status := status0;
    var j := 0;
    while j < |lines|
      invariant 0 <= j <= |lines|
      invariant status == status0 + Terminated(lines[..j])
    {
      assert lines[..j + 1] == lines[..j] + [lines[j]];
      TerminatedAppend(lines[..j], [lines[j]]);
      assert Terminated([lines[j]]) == lines[j] + "\n" + Terminated([]);
      status := status + lines[j] + "\n";
      j := j + 1;
    }
    assert lines[..j] == lines;
  }

  /** The stderr loop: the same splitting, every complete line appended
      with a newline. */
  method ReadStderr(status0: string, chunks: seq<string>) returns (status: string)
    ensures status == status0 + Terminated(Drain("", chunks).emitted)
  {
    status := status0;
    var partial := "";
    var i := 0;
    while i < |chunks|
      invariant 0 <= i <= |chunks|
      invariant partial == Drain("", chunks[..i]).fragment
      invariant status == status0 + Terminated(Drain("", chunks[..i]).emitted)
    {
      var st := SplitStep(partial, chunks[i]);
      status := AppendEach(status, st.emitted);
      NextRead(chunks, i);
      TerminatedAppend(Drain("", chunks[..i]).emitted, st.emitted);
      Assoc(status0, Terminated(Drain("", chunks[..i]).emitted), Terminated(st.emitted));
      partial := st.fragment;
      i := i + 1;
    }
    assert chunks[..i] == chunks;
  }

  /** What starting the command yields: the chunks each stream delivers,
      or the reason it could not be started. */
  datatype Spawn = Spawned(stdout: seq<string>, stderr: seq<string>) | SpawnFailed(error: string)

  const SpawnFailurePrefix: string := "❌ Failed to run CLI: "

  /** The transfer thread: a failed start appends one error line; otherwise
      stdout is read to its end first and stderr after it. */
  method RunTransfer(mode: Mode, status0: string, spawn: Spawn) returns (status: string)
    ensures spawn.SpawnFailed? ==> status == status0 + SpawnFailurePrefix + spawn.error + "\n"
    ensures spawn.Spawned? ==>
      status == ApplyStdoutLines(mode, status0, Drain("", spawn.stdout).emitted)
                + Terminated(Drain("", spawn.stderr).emitted)
  {
    match spawn
    case SpawnFailed(e) =>
      status := status0 + SpawnFailurePrefix + e + "\n";
    case Spawned(out, err) =>
      status := ReadStdout(mode, status0, out);
      status := ReadStderr(status, err);
  }

  /** When stdout leaves the status on a line boundary, the stderr lines
      follow as lines of their own. */
  lemma StderrLinesFollow(status: string, lines: seq<string>)
    requires status == "" || EndsWith(status, "\n")
    requires forall i :: 0 <= i < |lines| ==> NoBreak(lines[i])
    ensures Lines(status + Terminated(lines)) == Lines(status) + lines
  {
    if status != "" {
      assert status[|status| - 1] == '\n';
    }
    LinesAppend(status, Terminated(lines));
    TerminatedLines(lines);
  }

  /** A download whose output carries no progress: the status is every
      stdout line, then every stderr line. */
  lemma PlainDownload(outLines: seq<string>, errLines: seq<string>)
    requires forall i :: 0 <= i < |outLines| ==> IsPlain(outLines[i]) && NoBreak(outLines[i])
    requires forall i :: 0 <= i < |errLines| ==> NoBreak(errLines[i])
    ensures Lines(ApplyStdoutLines(Download, "", outLines) + Terminated(errLines)) == outLines + errLines
  {
    PlainLinesAppend(Download, "", outLines);
    assert "" + Terminated(outLines) == Terminated(outLines);
    TerminatedAppend(outLines, errLines);
    TerminatedLines(outLines + errLines);
  }
}
