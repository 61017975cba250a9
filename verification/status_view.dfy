/** The status area of the upload/download panel: the status buffer is
    shown line by line, under a heading, with progress lines restyled and
    success and failure lines marked (src/gui/upload.rs). */
module StatusView {
  import opened Options
  import opened Text
  import opened ProgressInfo
  import opened TransferStatus
  import Seqs

  /** How a label is styled: the heading, the yellow progress line, the
      green success line, the red failure line, or plain grey text. */
  datatype Tone = Heading | ProgressTone | Success | Failure | Plain

  datatype Label = Label(text: string, tone: Tone)

  const StatusHeading: string := "📦 Status:"
  const ProgressMarker: string := "[PROGRESS]"
  const ProgressCaption: string := "Progress: "
  const SuccessMark: string := "✅ "
  const FailureMark: string := "❌ "

  predicate IsSuccessLine(line: string)
  {
    ContainsIgnoreCase(line, "success") || ContainsIgnoreCase(line, "completed")
  }

  predicate IsFailureLine(line: string)
  {
    ContainsIgnoreCase(line, "failed") || ContainsIgnoreCase(line, "error")
  }

  /** A status line that is not blank, which the status area shows. */
  predicate IsShown(line: string)
  {
    !AllWhitespace(line)
  }

  /** The label one status line becomes, if any: blank lines are skipped,
      a line starting with the progress marker shows what follows the
      marker, every other line is shown whole after its mark. */
  function LineLabel(line: string): (r: Option<Label>)
    ensures r.None? <==> AllWhitespace(line)
    ensures r.Some? ==> r.value.tone != Heading
    ensures r.Some? ==> (r.value.tone == ProgressTone <==> StartsWith(line, ProgressMarker))
    ensures r.Some? && r.value.tone != ProgressTone ==> EndsWith(r.value.text, line)
    ensures r.Some? && !StartsWith(line, ProgressMarker) ==>
      (r.value.tone == Success <==> IsSuccessLine(line)) &&
      (r.value.tone == Failure <==> !IsSuccessLine(line) && IsFailureLine(line))
    ensures r.Some? && r.value.tone == Success ==> r.value.text == SuccessMark + line
    ensures r.Some? && r.value.tone == Failure ==> r.value.text == FailureMark + line
    ensures r.Some? && r.value.tone == Plain ==> r.value.text == line
    ensures StartsWith(line, ProgressMarker) && !AllWhitespace(line) ==>
      r.value.text == ProgressCaption + Trim(TrimStartMatches(line, ProgressMarker))
  {
    TrimBlank(line);
    if Trim(line) == "" then None
    else if StartsWith(line, ProgressMarker) then
      Some(Label(ProgressCaption + Trim(TrimStartMatches(line, ProgressMarker)), ProgressTone))
    else if IsSuccessLine(line) then
      assert (SuccessMark + line)[|SuccessMark|..] == line;
      Some(Label(SuccessMark + line, Success))
    else if IsFailureLine(line) then
      assert (FailureMark + line)[|FailureMark|..] == line;
      Some(Label(FailureMark + line, Failure))
    else
      Some(Label(line, Plain))
  }

  /** The labels for a run of lines, in order, skipping blank lines. */
  function Labels(lines: seq<string>): (r: seq<Label>)
    ensures |r| <= |lines|
    ensures forall i :: 0 <= i < |r| ==> r[i].tone != Heading
    decreases |lines|
  {
    if |lines| == 0 then []
    else
      Labels(lines[..|lines| - 1]) + Shown(LineLabel(lines[|lines| - 1]))
  }

  /** What the status area shows for a status buffer: nothing for an
      empty buffer, otherwise the heading followed by the line labels. */
  function View(status: string): (r: seq<Label>)
    ensures r == [] <==> status == ""
    ensures r != [] ==> r[0] == Label(StatusHeading, Heading)
    ensures forall i :: 1 <= i < |r| ==> r[i].tone != Heading
  {
    LinesNonEmpty(status);
    var lines := Lines(status);
    if |lines| == 0 then [] else [Label(StatusHeading, Heading)] + Labels(lines)
  }

  /** Under the heading, the k-th label is that of the k-th non-blank
      status line, and there is one label per non-blank line. */
  lemma ViewShowsLines(status: string)
    requires status != ""
    ensures |View(status)| == |Seqs.Positions(IsShown, Lines(status))| + 1
    ensures forall k :: 0 <= k < |Seqs.Positions(IsShown, Lines(status))| ==>
      View(status)[k + 1] == LineLabel(Lines(status)[Seqs.Positions(IsShown, Lines(status))[k]]).value
  {
    LinesNonEmpty(status);
    var lines := Lines(status);
    var ls := Labels(lines);
    assert View(status) == [Label(StatusHeading, Heading)] + ls;
    assert forall k :: 0 <= k < |ls| ==> View(status)[k + 1] == ls[k];
    LabelsSelect(lines);
  }

  /** The labels are those of the shown lines, one per shown line, in
      order. */
  lemma {:induction false} LabelsSelect(lines: seq<string>)
    ensures |Labels(lines)| == |Seqs.Positions(IsShown, lines)|
    ensures forall k :: 0 <= k < |Seqs.Positions(IsShown, lines)| ==>
      Labels(lines)[k] == LineLabel(lines[Seqs.Positions(IsShown, lines)[k]]).value
    decreases |lines|
  {
    if |lines| > 0 {
      var init := lines[..|lines| - 1];
      var last := lines[|lines| - 1];
      assert lines == init + [last];
      LabelsSelect(init);
      assert Labels(lines) == Labels(init) + Shown(LineLabel(last));
      SelectStep(LineLabel, IsShown, init, last, lines, Labels(init), Labels(lines));
    }
  }

  /** One more element, for any `f` that gives a value exactly where
      `keep` holds, keeps the selection property. */
  lemma SelectStep<T, U>(f: T -> Option<U>, keep: T -> bool, init: seq<T>, last: T, lines: seq<T>,
                         ls: seq<U>, ms: seq<U>)
    requires forall x :: f(x).Some? <==> keep(x)
    requires lines == init + [last]
    requires |ls| == |Seqs.Positions(keep, init)|
    requires forall k :: 0 <= k < |Seqs.Positions(keep, init)| ==>
      ls[k] == f(init[Seqs.Positions(keep, init)[k]]).value
    requires ms == ls + (if f(last).Some? then [f(last).value] else [])
    ensures |ms| == |Seqs.Positions(keep, lines)|
    ensures forall k :: 0 <= k < |Seqs.Positions(keep, lines)| ==>
      ms[k] == f(lines[Seqs.Positions(keep, lines)[k]]).value
  {
    var ps := Seqs.Positions(keep, init);
    assert lines[..|lines| - 1] == init;
    assert Seqs.Positions(keep, lines) == if keep(last) then ps + [|init|] else ps;
    SelectSnoc(f, init, last, lines, ps, ls, Seqs.Positions(keep, lines), ms);
  }

  /** One more element keeps the earlier values and adds its own when `f`
      gives one. */
  lemma SelectSnoc<T, U>(f: T -> Option<U>, init: seq<T>, last: T, lines: seq<T>,
                         ps: seq<nat>, ls: seq<U>, qs: seq<nat>, ms: seq<U>)
    requires lines == init + [last]
    requires forall k :: 0 <= k < |ps| ==> ps[k] < |init| && f(init[ps[k]]).Some?
    requires |ls| == |ps| && forall k :: 0 <= k < |ps| ==> ls[k] == f(init[ps[k]]).value
    requires qs == if f(last).Some? then ps + [|init|] else ps
    requires ms == if f(last).Some? then ls + [f(last).value] else ls
    ensures |ms| == |qs|
    ensures forall k :: 0 <= k < |qs| ==> qs[k] < |lines| && f(lines[qs[k]]).Some? && ms[k] == f(lines[qs[k]]).value
  {
    assert forall k :: 0 <= k < |ps| ==> init[ps[k]] == lines[ps[k]];
  }

  /** Non-empty text has at least one line. */
  lemma LinesNonEmpty(s: string)
    ensures Lines(s) == [] <==> s == ""
  {
  }

  /** The labels a line contributes: none or one. */
  function Shown(o: Option<Label>): (r: seq<Label>)
    ensures |r| == (if o.Some? then 1 else 0)
  {
    if o.Some? then [o.value] else []
  }

  /** The labels of a run of lines end with the label of its last line. */
  lemma LabelsSnoc(init: seq<string>, last: string)
    ensures Labels(init + [last]) == Labels(init) + Shown(LineLabel(last))
  {
    var zs := init + [last];
    assert zs[..|zs| - 1] == init;
  }

  /** Labels of consecutive runs of lines are the runs' labels in order. */
  lemma {:induction false} LabelsAppend(xs: seq<string>, ys: seq<string>)
    ensures Labels(xs + ys) == Labels(xs) + Labels(ys)
    decreases |ys|
  {
    if |ys| == 0 {
      assert xs + ys == xs;
    } else {
      var ys' := ys[..|ys| - 1];
      var last := ys[|ys| - 1];
      assert ys == ys' + [last];
      assert xs + ys == (xs + ys') + [last];
      LabelsAppend(xs, ys');
      LabelsSnoc(xs + ys', last);
      LabelsSnoc(ys', last);
      Regroup(Labels(xs), Labels(ys'), Shown(LineLabel(last)));
    }
  }

  lemma Regroup(a: seq<Label>, b: seq<Label>, c: seq<Label>)
    ensures (a + b) + c == a + (b + c)
  {
  }

  /** Every non-blank line yields exactly one label. */
  lemma {:induction false} LabelsCount(lines: seq<string>)
    ensures |Labels(lines)| == |Seqs.Filter(IsShown, lines)|
    decreases |lines|
  {
    if |lines| > 0 {
      var init := lines[..|lines| - 1];
      var last := lines[|lines| - 1];
      assert lines == init + [last];
      LabelsCount(init);
      Seqs.FilterAppend(IsShown, init, [last]);
      assert Seqs.Filter(IsShown, [last]) == if IsShown(last) then [last] else [];
    }
  }

  /** After a progress event the status area ends with the progress
      caption and the reported value, under the heading. */
  lemma ProgressShown(mode: Mode, status: string, line: string)
    requires NoCR(status) && NoBreak(line) && ExtractProgressInfo(line).Some?
    ensures var r := View(ApplyStdoutLine(mode, status, line));
      |r| >= 2 && r[0] == Label(StatusHeading, Heading)
      && r[|r| - 1] == Label(ProgressCaption + ExtractProgressInfo(line).value, ProgressTone)
  {
    var front, p := ProgressEvent(mode, status, line);
    ShownAt(ApplyStdoutLine(mode, status, line), front, "[PROGRESS] " + p, p);
  }

  /** The lines after a progress event, and the shape of its value. */
  lemma ProgressEvent(mode: Mode, status: string, line: string) returns (front: seq<string>, p: string)
    requires NoCR(status) && NoBreak(line) && ExtractProgressInfo(line).Some?
    ensures p == ExtractProgressInfo(line).value
    ensures Lines(ApplyStdoutLine(mode, status, line)) == front + ["[PROGRESS] " + p]
    ensures |p| > 0 && IsDigit(p[0]) && !IsWhitespace(p[|p| - 1])
  {
    p := ExtractProgressInfo(line).value;
    ExtractedShape(line);
    front := Visible(KeptLines(mode, status));
  }

  /** The view of text whose lines end with a progress line. */
  lemma ShownAt(s2: string, front: seq<string>, g: string, p: string)
    requires Lines(s2) == front + [g]
    requires g == "[PROGRESS] " + p
    requires |p| > 0 && IsDigit(p[0]) && !IsWhitespace(p[|p| - 1])
    ensures var r := View(s2);
      |r| >= 2 && r[0] == Label(StatusHeading, Heading)
      && r[|r| - 1] == Label(ProgressCaption + p, ProgressTone)
  {
    var l := Label(ProgressCaption + p, ProgressTone);
    ProgressLabel(g, p);
    LabelsSnoc(front, g);
    ViewEndsWith(s2, Labels(front) + [l], l);
  }

  /** A non-empty buffer whose labels end with `l` shows the heading
      first and `l` last. */
  lemma ViewEndsWith(s2: string, ls: seq<Label>, l: Label)
    requires Labels(Lines(s2)) == ls && |ls| > 0 && ls[|ls| - 1] == l
    ensures var r := View(s2);
      |r| >= 2 && r[0] == Label(StatusHeading, Heading) && r[|r| - 1] == l
  {
    LinesNonEmpty(s2);
  }

  /** The label of a `[PROGRESS] ` line is the caption and the value. */
  lemma ProgressLabel(g: string, p: string)
    requires g == "[PROGRESS] " + p
    requires |p| > 0 && IsDigit(p[0]) && !IsWhitespace(p[|p| - 1])
    ensures LineLabel(g) == Some(Label(ProgressCaption + p, ProgressTone))
  {
    var m := ProgressMarker;
    assert g[..|m|] == m;
    assert g[|m|..] == " " + p;
    assert !IsWhitespace(g[0]);
    MarkerRemoved(g[|m|..], p);
    assert TrimStartMatches(g, m) == TrimStartMatches(g[|m|..], m);
    TrimAfterSpace(p);
  }

  /** Removing the marker from the text after it changes nothing, since
      that text starts with a space. */
  lemma MarkerRemoved(t: string, p: string)
    requires t == " " + p
    ensures TrimStartMatches(t, ProgressMarker) == t
  {
    assert t[0] != ProgressMarker[0];
  }

  /** Blank lines yield no labels. */
  lemma {:induction false} LabelsOfBlank(lines: seq<string>)
    requires forall i :: 0 <= i < |lines| ==> AllWhitespace(lines[i])
    ensures Labels(lines) == []
    decreases |lines|
  {
    if |lines| > 0 {
      LabelsOfBlank(lines[..|lines| - 1]);
    }
  }

  /** The heading is shown as soon as the buffer holds anything, even
      when every line in it is blank. */
  lemma BlankStatusShowsHeading(status: string)
    requires status != ""
    requires forall i :: 0 <= i < |Lines(status)| ==> AllWhitespace(Lines(status)[i])
    ensures View(status) == [Label(StatusHeading, Heading)]
  {
    LabelsOfBlank(Lines(status));
  }

  /** A buffer holding one empty line shows just the heading. */
  lemma EmptyLineShowsHeading()
    ensures View("\n") == [Label(StatusHeading, Heading)]
  {
    LinesOfTerminated("");
    assert "" + "\n" == "\n";
    BlankStatusShowsHeading("\n");
  }
}
