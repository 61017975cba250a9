/** The upload/download panel's transfer (src/gui/upload.rs): the command
    line it builds, the status text it starts from, and how every line the
    command prints changes that status. Progress lines replace the earlier
    progress line; every other line is appended. */
module TransferStatus {
  import opened Options
  import opened Text
  import opened Seqs
  import opened LineSplitter
  import opened ProgressInfo

  /** The panel's two modes (`mode == 0` and `mode == 1`). */
  datatype Mode = Upload | Download

  /** The service tiers, in the order of the tier selector. */
  const TierNames: seq<string> := ["normal", "priority", "premium", "ultra", "enterprise"]

  /** What the transfer button captures from the panel. */
  datatype Request = Request(
    mode: Mode,
    localPath: string,
    remoteName: string,
    saveAs: string,
    password: string,
    encrypt: bool,
    decrypt: bool,
    legacy: bool,
    tier: nat)

  /** The arguments passed to `pipe`. Indexing the tier table with an
      index of 5 or more would panic, so the tier must be in range. */
  function TransferArgs(q: Request): (r: seq<string>)
    requires q.tier < |TierNames|
    ensures q.mode.Upload? ==> |r| == 6 + (if q.encrypt then 3 else 0)
    ensures q.mode.Download? ==> |r| == 4 + (if q.decrypt then 3 else 0) + (if q.legacy then 1 else 0)
    ensures q.mode.Upload? ==> r[..5] == ["upload-file", q.localPath, q.remoteName, "--tier", TierNames[q.tier]]
    ensures q.mode.Upload? && q.encrypt ==> r[5..8] == ["--encrypt", "--password", q.password]
    ensures q.mode.Download? ==> r[..3] == ["download-file", q.remoteName, q.saveAs]
    ensures q.mode.Download? && q.decrypt ==> r[3..6] == ["--decrypt", "--password", q.password]
    ensures q.mode.Download? && q.legacy ==> r[|r| - 2] == "--legacy"
    ensures q.mode.Download? && !q.legacy ==> r[|r| - 2] == (if q.decrypt then q.password else q.saveAs)
    ensures r[|r| - 1] == "--gui-style"
  {
    var base :=
      if q.mode.Upload? then ["upload-file", q.localPath, q.remoteName, "--tier", TierNames[q.tier]]
      else ["download-file", q.remoteName, q.saveAs];
    var enc := if q.mode.Upload? && q.encrypt then ["--encrypt", "--password", q.password] else [];
    var dec := if q.mode.Download? && q.decrypt then ["--decrypt", "--password", q.password] else [];
    var leg := if q.mode.Download? && q.legacy then ["--legacy"] else [];
    base + enc + dec + leg + ["--gui-style"]
  }

  /** The status the button writes before the command starts: a header
      for an upload, nothing for a download. */
  function InitialStatus(q: Request): (r: string)
    ensures q.mode.Download? ==> r == ""
    ensures q.mode.Upload? && NoBreak(q.localPath) && NoBreak(q.remoteName) ==>
      Lines(r) == [UploadHeading, "Local file: " + q.localPath, "Remote file: " + q.remoteName, ""]
    ensures r == "" || EndsWith(r, "\n")
    ensures NoCR(q.localPath) && NoCR(q.remoteName) ==> NoCR(r)
  {
    if q.mode.Upload? then
      UploadHeader(q.localPath, q.remoteName);
      Header(q.localPath, q.remoteName)
    else ""
  }

  const UploadHeading: string := "Uploading"

  lemma HeadingBreakFree()
    ensures NoBreak(UploadHeading)
  {
    assert forall i :: 0 <= i < |UploadHeading| ==> UploadHeading[i] in "Uploading";
  }

  /** The header an upload starts from. */
  function Header(localPath: string, remoteName: string): string
  {
    UploadHeading + "\n" + ("Local file: " + localPath) + "\n" + ("Remote file: " + remoteName) + "\n\n"
  }

  lemma UploadHeader(localPath: string, remoteName: string)
    ensures NoBreak(localPath) && NoBreak(remoteName) ==>
      Lines(Header(localPath, remoteName)) == [UploadHeading, "Local file: " + localPath, "Remote file: " + remoteName, ""]
    ensures EndsWith(Header(localPath, remoteName), "\n")
    ensures NoCR(localPath) && NoCR(remoteName) ==> NoCR(Header(localPath, remoteName))
  {
    var r := Header(localPath, remoteName);
    assert r[|r| - 1] == '\n';
    if NoBreak(localPath) && NoBreak(remoteName) {
      HeaderLinesOf(localPath, remoteName);
    }
    if NoCR(localPath) && NoCR(remoteName) {
      HeaderNoCROf(localPath, remoteName);
    }
  }

  lemma HeaderLinesOf(localPath: string, remoteName: string)
    requires NoBreak(localPath) && NoBreak(remoteName)
    ensures Lines(Header(localPath, remoteName)) == [UploadHeading, "Local file: " + localPath, "Remote file: " + remoteName, ""]
  {
    HeadingBreakFree();
    var l1, l2 := "Local file: " + localPath, "Remote file: " + remoteName;
    NoBreakAppend("Local file: ", localPath);
    NoBreakAppend("Remote file: ", remoteName);
    HeaderLines(UploadHeading, l1, l2);
  }

  lemma HeaderNoCROf(localPath: string, remoteName: string)
    requires NoCR(localPath) && NoCR(remoteName)
    ensures NoCR(Header(localPath, remoteName))
  {
    NoCRAppend("Local file: ", localPath);
    NoCRAppend("Remote file: ", remoteName);
    HeadingBreakFree();
    NoBreakNoCR(UploadHeading);
    HeaderNoCR(UploadHeading, "Local file: " + localPath, "Remote file: " + remoteName);
  }

  /** Three break-free lines and an empty one, each terminated, read
      back as those four lines. */
  lemma HeaderLines(l0: string, l1: string, l2: string)
    requires NoBreak(l0) && NoBreak(l1) && NoBreak(l2)
    ensures Lines(l0 + "\n" + l1 + "\n" + l2 + "\n\n") == [l0, l1, l2, ""]
  {
    var xs := [l0, l1, l2, ""];
    assert xs[1..] == [l1, l2, ""] && xs[1..][1..] == [l2, ""] && xs[1..][1..][1..] == [""];
    assert Join([l2, ""], "\n") == l2 + "\n" + "";
    assert Join([l1, l2, ""], "\n") == l1 + "\n" + (l2 + "\n" + "");
    assert Join(xs, "\n") == l0 + "\n" + (l1 + "\n" + (l2 + "\n" + ""));
    assert Join(xs, "\n") + "\n" == l0 + "\n" + l1 + "\n" + l2 + "\n\n";
    LinesOfJoinTerminated(xs);
  }

  /** The upload header has no carriage return when its fields have none. */
  lemma HeaderNoCR(l0: string, l1: string, l2: string)
    requires NoCR(l0) && NoCR(l1) && NoCR(l2)
    ensures NoCR(l0 + "\n" + l1 + "\n" + l2 + "\n\n")
  {
    var a, b, c, d := l0 + "\n", l1 + "\n", l2 + "\n", "\n";
    assert l0 + "\n" + l1 + "\n" + l2 + "\n\n" == a + (b + (c + d));
    NoCRAppend(l0, "\n");
    NoCRAppend(l1, "\n");
    NoCRAppend(l2, "\n");
    NoCRAppend(c, d);
    NoCRAppend(b, c + d);
    NoCRAppend(a, b + (c + d));
  }

  /** A status line the upload mode counts as progress: after leading
      whitespace it starts with `[PROGRESS]` or `Progress:`. */
  predicate IsUploadProgressLine(l: string)
  {
    StartsWith(TrimStart(l), "[PROGRESS]") || StartsWith(TrimStart(l), "Progress:")
  }

  /** A status line the download mode counts as progress: it starts with
      `[PROGRESS]` exactly. */
  predicate IsDownloadProgressLine(l: string)
  {
    StartsWith(l, "[PROGRESS]")
  }

  predicate KeepInUpload(l: string)
  {
    !IsUploadProgressLine(l)
  }

  predicate KeepInDownload(l: string)
  {
    !IsDownloadProgressLine(l)
  }

  /** The status lines a progress event keeps, in order. */
  function KeptLines(mode: Mode, status: string): (r: seq<string>)
    ensures mode.Upload? ==> forall i :: 0 <= i < |r| ==> !IsUploadProgressLine(r[i])
    ensures mode.Download? ==> forall i :: 0 <= i < |r| ==> !IsDownloadProgressLine(r[i])
  {
    var keep := if mode.Upload? then KeepInUpload else KeepInDownload;
    Filter(keep, Lines(status))
  }

  /** The kept lines are the status lines the mode does not count as
      progress, every one of them, in their original order. */
  lemma KeptLinesInOrder(mode: Mode, status: string)
    ensures IsSubseq(KeptLines(mode, status), Lines(status))
    ensures mode.Upload? ==> forall i :: 0 <= i < |Lines(status)| && !IsUploadProgressLine(Lines(status)[i]) ==>
      Lines(status)[i] in KeptLines(mode, status)
    ensures mode.Download? ==> forall i :: 0 <= i < |Lines(status)| && !IsDownloadProgressLine(Lines(status)[i]) ==>
      Lines(status)[i] in KeptLines(mode, status)
    ensures mode.Upload? ==> IsSelection(KeptLines(mode, status), KeepInUpload, Lines(status))
    ensures mode.Download? ==> IsSelection(KeptLines(mode, status), KeepInDownload, Lines(status))
  {
    var keep := if mode.Upload? then KeepInUpload else KeepInDownload;
    FilterIsSubseq(keep, Lines(status));
    FilterKeepsAccepted(keep, Lines(status));
    FilterSelects(keep, Lines(status));
  }

  /** The lines of a status rebuilt from `kept`: none when they join to
      nothing, otherwise all of them. */
  function Visible(kept: seq<string>): seq<string>
  {
    if kept == [] || kept == [""] then [] else kept
  }

  /** The kept lines joined back, with a newline after them unless they
      join to nothing, followed by `tail`. */
  function Rebuild(kept: seq<string>, tail: string): string
  {
    var joined := Join(kept, "\n");
    (if joined == "" then "" else joined + "\n") + tail
  }

  /** The lines a rebuilt status reads as: the visible kept lines and
      then the tail's line, whether or not the tail ends in a newline. */
  lemma RebuildLines(kept: seq<string>, tail: string)
    requires forall i :: 0 <= i < |kept| ==> NoBreak(kept[i])
    requires NoBreak(tail) && tail != ""
    ensures Lines(Rebuild(kept, tail)) == Visible(kept) + [tail]
    ensures Lines(Rebuild(kept, tail + "\n")) == Visible(kept) + [tail]
  {
    JoinEmpty(kept);
    BreakFreePiece(tail);
    LinesOfJoin([tail]);
    LinesOfTerminated(tail);
    var joined := Join(kept, "\n");
    if joined != "" {
      LinesOfJoinTerminated(kept);
      LinesAppend(joined + "\n", tail);
      LinesAppend(joined + "\n", tail + "\n");
    } else {
      assert "" + tail == tail;
      assert "" + (tail + "\n") == tail + "\n";
    }
  }

  /** A rebuilt status has no carriage return when its parts have none. */
  lemma RebuildNoCR(kept: seq<string>, tail: string)
    requires forall i :: 0 <= i < |kept| ==> NoCR(kept[i])
    requires NoCR(tail)
    ensures NoCR(Rebuild(kept, tail))
  {
    var joined := Join(kept, "\n");
    JoinNoCR(kept);
    NoCRAppend(joined, "\n");
    NoCRAppend(if joined == "" then "" else joined + "\n", tail);
  }

  /** The kept lines of a status without carriage returns are break-free. */
  lemma KeptBreakFree(mode: Mode, status: string)
    requires NoCR(status)
    ensures forall i :: 0 <= i < |KeptLines(mode, status)| ==> NoBreak(KeptLines(mode, status)[i])
  {
    var keep := if mode.Upload? then KeepInUpload else KeepInDownload;
    FilterBreakFree(keep, Lines(status));
  }

  lemma {:induction false} FilterBreakFree(keep: string -> bool, ls: seq<string>)
    requires forall i :: 0 <= i < |ls| ==> NoBreak(ls[i])
    ensures forall i :: 0 <= i < |Filter(keep, ls)| ==> NoBreak(Filter(keep, ls)[i])
    decreases |ls|
  {
    if |ls| > 0 {
      FilterBreakFree(keep, ls[1..]);
    }
  }

  /** The text after `PROGRESS:` that an unparsed progress line reports. */
  function RawProgress(line: string): (r: string)
    ensures NoBreak(line) ==> NoBreak(r)
  {
    var t := Trim(line);
    var c := TrimStartMatches(t, "PROGRESS:");
    if NoBreak(line) then
      NoBreakTrim(line);
      NoBreakSlice(t, |t| - |c|, |t|);
      NoBreakTrim(c);
      Trim(c)
    else Trim(c)
  }

  /** A parsed progress value replaces the progress lines the mode
      recognises with one unterminated `[PROGRESS]` line. */
  function ReplaceProgress(mode: Mode, status: string, p: string): (r: string)
    requires NoCR(status) && NoBreak(p) && p != ""
    ensures NoCR(r) && !EndsWith(r, "\n")
    ensures Lines(r) == Visible(KeptLines(mode, status)) + ["[PROGRESS] " + p]
  {
    var tail := "[PROGRESS] " + p;
    TaggedBreakFree(p);
    ProgressFacts(KeptLines(mode, status), status, mode, tail);
    Rebuild(KeptLines(mode, status), tail)
  }

  /** A line that starts with `PROGRESS:` but yields no value replaces the
      progress lines (as the upload mode recognises them) with a terminated
      `[PROGRESS]` line carrying the rest of the line. */
  function ReplaceRawProgress(status: string, rest: string): (r: string)
    requires NoCR(status) && NoBreak(rest)
    ensures NoCR(r) && EndsWith(r, "\n")
    ensures Lines(r) == Visible(KeptLines(Upload, status)) + ["[PROGRESS] " + rest]
  {
    var tail := "[PROGRESS] " + rest;
    TaggedBreakFree(rest);
    RawProgressFacts(KeptLines(Upload, status), status, tail);
    Rebuild(KeptLines(Upload, status), tail + "\n")
  }

  /** Any other line is appended with its newline. */
  function AppendLine(status: string, line: string): (r: string)
    ensures StartsWith(r, status) && r[|status|..] == line + "\n"
    ensures NoCR(status) && NoCR(line) ==> NoCR(r)
  {
    var r := status + line + "\n";
    assert r[..|status|] == status;
    assert r[|status|..] == line + "\n";
    if NoCR(status) && NoCR(line) then
      NoCRAppend(status, line);
      NoCRAppend(status + line, "\n");
      r
    else r
  }

  /** What one complete stdout line does to the status: a progress value
      replaces the progress lines (the ones the mode recognises) with one
      unterminated progress line; a line that starts with `PROGRESS:` but
      carries no value does the same, always with the upload mode's
      recognition, and leaves a terminated line; any other line is
      appended with a newline and nothing else changes. */
  function ApplyStdoutLine(mode: Mode, status: string, line: string): (r: string)
    ensures NoCR(status) && NoBreak(line) ==> NoCR(r)
    ensures NoCR(status) && NoBreak(line) && ExtractProgressInfo(line).Some? ==>
      Lines(r) == Visible(KeptLines(mode, status)) + ["[PROGRESS] " + ExtractProgressInfo(line).value]
      && !EndsWith(r, "\n")
    ensures NoCR(status) && NoBreak(line) && ExtractProgressInfo(line).None? && StartsWith(Trim(line), "PROGRESS:") ==>
      Lines(r) == Visible(KeptLines(Upload, status)) + ["[PROGRESS] " + RawProgress(line)]
      && EndsWith(r, "\n")
    ensures ExtractProgressInfo(line).None? && !StartsWith(Trim(line), "PROGRESS:") ==>
      StartsWith(r, status) && r[|status|..] == line + "\n"
  {
    var info := ExtractProgressInfo(line);
    if info.Some? && NoCR(status) && NoBreak(line) then
      ReplaceProgress(mode, status, info.value)
    else if info.Some? then
      Rebuild(KeptLines(mode, status), "[PROGRESS] " + info.value)
    else if StartsWith(Trim(line), "PROGRESS:") && NoCR(status) && NoBreak(line) then
      ReplaceRawProgress(status, RawProgress(line))
    else if StartsWith(Trim(line), "PROGRESS:") then
      Rebuild(KeptLines(Upload, status), "[PROGRESS] " + RawProgress(line) + "\n")
    else if NoBreak(line) then
      NoBreakNoCR(line);
      AppendLine(status, line)
    else AppendLine(status, line)
  }

  lemma ProgressFacts(kept: seq<string>, status: string, mode: Mode, tail: string)
    requires NoCR(status) && kept == KeptLines(mode, status)
    requires NoBreak(tail) && |tail| > 0
    ensures Lines(Rebuild(kept, tail)) == Visible(kept) + [tail]
    ensures !EndsWith(Rebuild(kept, tail), "\n")
    ensures NoCR(Rebuild(kept, tail))
  {
    KeptBreakFree(mode, status);
    RebuildLines(kept, tail);
    RebuildNoCR(kept, tail);
    var r := Rebuild(kept, tail);
    assert r[|r| - 1] == tail[|tail| - 1];
  }

  lemma RawProgressFacts(kept: seq<string>, status: string, tail: string)
    requires NoCR(status) && kept == KeptLines(Upload, status)
    requires NoBreak(tail) && |tail| > 0
    ensures Lines(Rebuild(kept, tail + "\n")) == Visible(kept) + [tail]
    ensures EndsWith(Rebuild(kept, tail + "\n"), "\n")
    ensures NoCR(Rebuild(kept, tail + "\n"))
  {
    KeptBreakFree(Upload, status);
    RebuildLines(kept, tail);
    NoCRAppend(tail, "\n");
    RebuildNoCR(kept, tail + "\n");
  }

  /** A line the progress handling leaves alone and appends. */
  predicate IsPlain(line: string)
  {
    ExtractProgressInfo(line).None? && !StartsWith(Trim(line), "PROGRESS:")
  }

  /** Tagging a break-free value keeps it break-free. */
  lemma TaggedBreakFree(v: string)
    requires NoBreak(v)
    ensures NoBreak("[PROGRESS] " + v)
  {
    var t := "[PROGRESS] " + v;
    forall i | 0 <= i < |t|
      ensures !IsTerminator(t[i])
    {
      if i >= 11 {
        assert t[i] == v[i - 11];
      }
    }
  }

  /** A plain line is appended with its newline. */
  lemma ApplyPlain(mode: Mode, status: string, line: string)
    requires IsPlain(line)
    ensures ApplyStdoutLine(mode, status, line) == status + line + "\n"
  {
  }

  /** A progress event leaves the status without a final newline, so a
      plain line printed next is glued onto the progress line, and the
      next progress event removes that glued line together with the plain
      text: the status reads exactly as if the plain line had never been
      printed. */
  lemma PlainLineAfterProgressIsLost(mode: Mode, status: string, pl: string, l: string, ql: string)
    requires NoCR(status) && NoBreak(pl) && NoBreak(l) && NoBreak(ql)
    requires ExtractProgressInfo(pl).Some? && ExtractProgressInfo(ql).Some?
    requires IsPlain(l)
    ensures Lines(ApplyStdoutLine(mode, ApplyStdoutLine(mode, ApplyStdoutLine(mode, status, pl), l), ql))
      == Lines(ApplyStdoutLine(mode, status, ql))
  {
    var s2 := ApplyStdoutLine(mode, ApplyStdoutLine(mode, status, pl), l);
    PlainLineGluedToProgress(mode, status, pl, l);
    LostAt(mode, status, s2, ql, ExtractProgressInfo(pl).value + l);
  }

  /** A status whose only progress line is `g` reacts to the next
      progress event like the status without `g`. */
  lemma LostAt(mode: Mode, status: string, s2: string, ql: string, w: string)
    requires NoCR(status) && NoCR(s2) && NoBreak(ql) && ExtractProgressInfo(ql).Some?
    requires Lines(s2) == Visible(KeptLines(mode, status)) + ["[PROGRESS] " + w]
    ensures Lines(ApplyStdoutLine(mode, s2, ql)) == Lines(ApplyStdoutLine(mode, status, ql))
  {
    GluedIsProgress(mode, w);
    KeptAfterGlue(mode, KeptLines(mode, status), status, s2, "[PROGRESS] " + w);
    assert Visible(Visible(KeptLines(mode, status))) == Visible(KeptLines(mode, status));
  }

  /** A plain line after a progress event extends the progress line
      instead of starting a line of its own. */
  lemma PlainLineGluedToProgress(mode: Mode, status: string, pl: string, l: string)
    requires NoCR(status) && NoBreak(pl) && NoBreak(l)
    requires ExtractProgressInfo(pl).Some? && IsPlain(l)
    ensures var s2 := ApplyStdoutLine(mode, ApplyStdoutLine(mode, status, pl), l);
      && NoCR(s2)
      && Lines(s2) == Visible(KeptLines(mode, status)) + ["[PROGRESS] " + (ExtractProgressInfo(pl).value + l)]
  {
    var s1 := ApplyStdoutLine(mode, status, pl);
    ProgressRebuilds(mode, status, pl);
    ApplyPlain(mode, s1, l);
    GlueAt(mode, status, ExtractProgressInfo(pl).value, l, s1 + l + "\n");
  }

  lemma GlueAt(mode: Mode, status: string, v: string, l: string, s2: string)
    requires NoCR(status) && NoBreak(v) && NoBreak(l)
    requires s2 == Rebuild(KeptLines(mode, status), "[PROGRESS] " + v) + l + "\n"
    ensures Lines(s2) == Visible(KeptLines(mode, status)) + ["[PROGRESS] " + (v + l)]
  {
    var k0 := KeptLines(mode, status);
    var t := "[PROGRESS] " + v;
    TaggedBreakFree(v + l);
    NoBreakAppend(v, l);
    assert t + l == "[PROGRESS] " + (v + l);
    RebuildExtend(k0, t, l);
    KeptBreakFree(mode, status);
    RebuildLines(k0, t + l);
  }

  lemma ProgressRebuilds(mode: Mode, status: string, line: string)
    requires ExtractProgressInfo(line).Some?
    ensures ApplyStdoutLine(mode, status, line)
      == Rebuild(KeptLines(mode, status), "[PROGRESS] " + ExtractProgressInfo(line).value)
  {
  }

  lemma RebuildExtend(kept: seq<string>, t: string, l: string)
    ensures Rebuild(kept, t) + l + "\n" == Rebuild(kept, (t + l) + "\n")
  {
  }

  /** A line starting with `[PROGRESS]` counts as progress in both modes. */
  lemma GluedIsProgress(mode: Mode, v: string)
    ensures !(if mode.Upload? then KeepInUpload else KeepInDownload)("[PROGRESS] " + v)
  {
    var g := "[PROGRESS] " + v;
    assert g[..10] == "[PROGRESS]";
    assert g[0] == '[';
    assert TrimStart(g) == g;
  }

  /** Once the glued line is the status's only progress line, a progress
      event keeps exactly the lines it kept before. */
  lemma KeptAfterGlue(mode: Mode, k0: seq<string>, status: string, s2: string, g: string)
    requires NoCR(status) && k0 == KeptLines(mode, status)
    requires Lines(s2) == Visible(k0) + [g]
    requires !(if mode.Upload? then KeepInUpload else KeepInDownload)(g)
    ensures KeptLines(mode, s2) == Visible(k0)
  {
    if mode.Upload? {
      assert k0 == Filter(KeepInUpload, Lines(status));
      assert KeptLines(mode, s2) == Filter(KeepInUpload, Lines(s2));
      VisibleGlued(KeepInUpload, k0, g, Lines(s2));
    } else {
      assert k0 == Filter(KeepInDownload, Lines(status));
      assert KeptLines(mode, s2) == Filter(KeepInDownload, Lines(s2));
      VisibleGlued(KeepInDownload, k0, g, Lines(s2));
    }
  }

  /** Lines that `keep` accepts, shown as they are, followed by one line
      it rejects, filter back to the shown lines. */
  lemma VisibleGlued(keep: string -> bool, k0: seq<string>, g: string, lines: seq<string>)
    requires forall i :: 0 <= i < |k0| ==> keep(k0[i])
    requires !keep(g) && lines == Visible(k0) + [g]
    ensures Filter(keep, lines) == Visible(k0)
  {
    var v := Visible(k0);
    assert v == [] || v == k0;
    FilterDropsLast(keep, v, g);
  }
}
