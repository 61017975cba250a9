/** The streaming line splitter of the transfer panel (src/gui/upload.rs,
    the two read loops). Each decoded chunk is appended to the fragment
    carried over from the previous read; the buffer is split at every CR
    and every LF; the piece after the last terminator is kept back as the
    next fragment unless the buffer itself ends in a terminator, in which
    case the (empty) last piece is emitted too. */
module LineSplitter {
  import opened Text
  import opened Seqs
  import opened Options

  /** Number of CR and LF characters in `s`. */
  function CountTerminators(s: string): nat
  {
    if |s| == 0 then 0
    else (if IsTerminator(s[0]) then 1 else 0) + CountTerminators(s[1..])
  }

  /** `s` with every CR and LF deleted. */
  function RemoveTerminators(s: string): string
  {
    if |s| == 0 then ""
    else (if IsTerminator(s[0]) then "" else [s[0]]) + RemoveTerminators(s[1..])
  }

  predicate EndsInTerminator(s: string)
  {
    |s| > 0 && IsTerminator(s[|s| - 1])
  }

  /** `piece` is what follows the last terminator of `s`. */
  predicate IsTailAfterLastTerminator(s: string, piece: string)
  {
    NoBreak(piece) && EndsWith(s, piece)
    && (|piece| == |s| || IsTerminator(s[|s| - |piece| - 1]))
  }

  /** `str::split(|c| c == '\n' || c == '\r')`: one more piece than there
      are terminators; the pieces are the text between terminators. */
  function SplitTerminators(s: string): (r: seq<string>)
    ensures |r| == CountTerminators(s) + 1
    ensures forall i :: 0 <= i < |r| ==> NoBreak(r[i])
    ensures Concat(r) == RemoveTerminators(s)
    ensures IsTailAfterLastTerminator(s, r[|r| - 1])
    decreases |s|
  {
    match FirstWhere(s, IsTerminator)
    case None =>
      NoTerminatorCounts(s);
      [s]
    case Some(i) =>
      var rest := SplitTerminators(s[i + 1..]);
      SplitCons(s, i, rest);
      [s[..i]] + rest
  }

  /** The facts `SplitTerminators` promises, carried from the text after
      the first terminator (at `i`) to the whole text. */
  lemma SplitCons(s: string, i: nat, rest: seq<string>)
    requires i < |s| && IsTerminator(s[i])
    requires forall j :: 0 <= j < i ==> !IsTerminator(s[j])
    requires |rest| == CountTerminators(s[i + 1..]) + 1
    requires forall k :: 0 <= k < |rest| ==> NoBreak(rest[k])
    requires Concat(rest) == RemoveTerminators(s[i + 1..])
    requires IsTailAfterLastTerminator(s[i + 1..], rest[|rest| - 1])
    ensures |[s[..i]] + rest| == CountTerminators(s) + 1
    ensures forall k :: 0 <= k < |[s[..i]] + rest| ==> NoBreak(([s[..i]] + rest)[k])
    ensures Concat([s[..i]] + rest) == RemoveTerminators(s)
    ensures IsTailAfterLastTerminator(s, rest[|rest| - 1])
  {
    ConsCount(s, i, rest);
    ConsBreakFree(s, i, rest);
    ConsConcat(s, i, rest);
    TailCarries(s, i, rest[|rest| - 1]);
  }

  lemma ConsCount(s: string, i: nat, rest: seq<string>)
    requires i < |s| && IsTerminator(s[i])
    requires forall j :: 0 <= j < i ==> !IsTerminator(s[j])
    requires |rest| == CountTerminators(s[i + 1..]) + 1
    ensures |[s[..i]] + rest| == CountTerminators(s) + 1
  {
    SplitAt(s, i);
  }

  lemma ConsBreakFree(s: string, i: nat, rest: seq<string>)
    requires i < |s| && IsTerminator(s[i])
    requires forall j :: 0 <= j < i ==> !IsTerminator(s[j])
    requires forall k :: 0 <= k < |rest| ==> NoBreak(rest[k])
    ensures forall k :: 0 <= k < |[s[..i]] + rest| ==> NoBreak(([s[..i]] + rest)[k])
  {
    assert forall j :: 0 <= j < i ==> s[..i][j] == s[j];
    var r := [s[..i]] + rest;
    assert forall k :: 1 <= k < |r| ==> r[k] == rest[k - 1];
  }

  lemma ConsConcat(s: string, i: nat, rest: seq<string>)
    requires i < |s| && IsTerminator(s[i])
    requires forall j :: 0 <= j < i ==> !IsTerminator(s[j])
    requires Concat(rest) == RemoveTerminators(s[i + 1..])
    ensures Concat([s[..i]] + rest) == RemoveTerminators(s)
  {
    SplitAt(s, i);
    var r := [s[..i]] + rest;
    assert r[1..] == rest;
  }

  /** The text after the last terminator of `s[i + 1..]` is also the text
      after the last terminator of `s`. */
  lemma TailCarries(s: string, i: nat, last: string)
    requires i < |s| && IsTerminator(s[i])
    requires IsTailAfterLastTerminator(s[i + 1..], last)
    ensures IsTailAfterLastTerminator(s, last)
  {
    var t := s[i + 1..];
    assert |last| <= |t|;
    assert s[|s| - |last|..] == t[|t| - |last|..];
    if |last| < |t| {
      assert s[|s| - |last| - 1] == t[|t| - |last| - 1];
    } else {
      assert |s| - |last| - 1 == i;
    }
  }

  /** Counting and deleting terminators in a string that has none. */
  lemma {:induction false} NoTerminatorCounts(s: string)
    requires forall j :: 0 <= j < |s| ==> !IsTerminator(s[j])
    ensures CountTerminators(s) == 0
    ensures RemoveTerminators(s) == s
  {
    if |s| > 0 {
      NoTerminatorCounts(s[1..]);
    }
  }

  /** Counting and deleting terminators around the first terminator, at `i`. */
  lemma {:induction false} SplitAt(s: string, i: nat)
    requires i < |s| && IsTerminator(s[i])
    requires forall j :: 0 <= j < i ==> !IsTerminator(s[j])
    ensures CountTerminators(s) == 1 + CountTerminators(s[i + 1..])
    ensures RemoveTerminators(s) == s[..i] + RemoveTerminators(s[i + 1..])
  {
    if i == 0 {
      assert CountTerminators(s) == 1 + CountTerminators(s[1..]);
      assert RemoveTerminators(s) == "" + RemoveTerminators(s[1..]);
    } else {
      SplitAt(s[1..], i - 1);
      assert s[1..][i..] == s[i + 1..];
      assert !IsTerminator(s[0]);
      assert CountTerminators(s) == CountTerminators(s[1..]);
      assert RemoveTerminators(s) == [s[0]] + RemoveTerminators(s[1..]);
      assert s[..i] == [s[0]] + s[1..][..i - 1];
    }
  }

  /** What one successful read does: the lines it completes and the
      fragment it carries over. */
  datatype Step = Step(emitted: seq<string>, fragment: string)

  /** One iteration of the read loop: `fragment` is the carried text,
      `chunk` the newly decoded text. */
  function SplitStep(fragment: string, chunk: string): (r: Step)
    ensures forall i :: 0 <= i < |r.emitted| ==> NoBreak(r.emitted[i])
    ensures NoBreak(r.fragment)
    ensures Concat(r.emitted) + r.fragment == RemoveTerminators(fragment + chunk)
    ensures EndsInTerminator(fragment + chunk) ==>
      && r.fragment == ""
      && |r.emitted| == CountTerminators(fragment + chunk) + 1
      && r.emitted[|r.emitted| - 1] == ""
    ensures !EndsInTerminator(fragment + chunk) ==>
      && |r.emitted| == CountTerminators(fragment + chunk)
      && IsTailAfterLastTerminator(fragment + chunk, r.fragment)
  {
    var buf := fragment + chunk;
    var pieces := SplitTerminators(buf);
    if EndsInTerminator(buf) then
      assert pieces[|pieces| - 1] == "";
      assert Concat(pieces) == Concat(pieces) + "";
      Step(pieces, "")
    else
      var n := |pieces| - 1;
      HoldBackLast(pieces);
      Step(pieces[..n], pieces[n])
  }

  /** Holding back the last piece keeps the text: the pieces before it,
      then it. */
  lemma HoldBackLast(pieces: seq<string>)
    requires |pieces| > 0
    ensures Concat(pieces[..|pieces| - 1]) + pieces[|pieces| - 1] == Concat(pieces)
  {
    var n := |pieces| - 1;
    assert pieces == pieces[..n] + [pieces[n]];
    ConcatAppend(pieces[..n], [pieces[n]]);
    assert Concat([pieces[n]]) == pieces[n];
  }

  /** A whole stream read in `chunks`: every line the loop emits, in order,
      and the fragment still held when the stream ends (which the source
      then drops). Defined read by read, as the loop runs. */
  function Drain(fragment: string, chunks: seq<string>): Step
    decreases |chunks|
  {
    if |chunks| == 0 then Step([], fragment)
    else
      var before := Drain(fragment, chunks[..|chunks| - 1]);
      var st := SplitStep(before.fragment, chunks[|chunks| - 1]);
      Step(before.emitted + st.emitted, st.fragment)
  }

  /** One more read continues from the fragment the earlier reads left. */
  lemma DrainSnoc(fragment: string, chunks: seq<string>, c: string)
    ensures Drain(fragment, chunks + [c]) ==
      Step(Drain(fragment, chunks).emitted + SplitStep(Drain(fragment, chunks).fragment, c).emitted,
           SplitStep(Drain(fragment, chunks).fragment, c).fragment)
  {
    assert (chunks + [c])[..|chunks|] == chunks;
  }

  /** Over a whole stream the loop loses only the terminators: the lines
      it emits followed by the fragment it still holds are the stream's
      text with every CR and LF deleted, and none of them holds a
      terminator. */
  lemma {:induction false} DrainText(fragment: string, chunks: seq<string>)
    requires NoBreak(fragment)
    ensures forall i :: 0 <= i < |Drain(fragment, chunks).emitted| ==> NoBreak(Drain(fragment, chunks).emitted[i])
    ensures NoBreak(Drain(fragment, chunks).fragment)
    ensures Concat(Drain(fragment, chunks).emitted) + Drain(fragment, chunks).fragment
            == RemoveTerminators(fragment + Concat(chunks))
    decreases |chunks|
  {
    if |chunks| == 0 {
      assert fragment + Concat(chunks) == fragment;
      NoTerminatorCounts(fragment);
    } else {
      var n := |chunks| - 1;
      var before := Drain(fragment, chunks[..n]);
      var st := SplitStep(before.fragment, chunks[n]);
      DrainText(fragment, chunks[..n]);
      ConcatLast(chunks);
      DrainStepText(fragment, Concat(chunks[..n]), chunks[n], Concat(chunks),
                    before.emitted, before.fragment, st.emitted, st.fragment);
    }
  }

  /** The text bookkeeping of one more read. */
  lemma DrainStepText(fragment: string, init: string, last: string, whole: string,
                      e1: seq<string>, f1: string, e2: seq<string>, f2: string)
    requires whole == init + last
    requires Concat(e1) + f1 == RemoveTerminators(fragment + init)
    requires Concat(e2) + f2 == RemoveTerminators(f1 + last)
    requires NoBreak(f1)
    ensures Concat(e1 + e2) + f2 == RemoveTerminators(fragment + whole)
  {
    TailText(f1, last, e2, f2);
    HeadText(fragment, init, last, whole);
    ConcatAppend(e1, e2);
    Regroup(e1, e2, f1, f2, RemoveTerminators(fragment + init), RemoveTerminators(last),
            RemoveTerminators(fragment + whole));
  }

  /** The carried fragment passes through the next read untouched. */
  lemma TailText(f1: string, last: string, e2: seq<string>, f2: string)
    requires Concat(e2) + f2 == RemoveTerminators(f1 + last)
    requires NoBreak(f1)
    ensures Concat(e2) + f2 == f1 + RemoveTerminators(last)
  {
    RemoveAppend(f1, last);
    NoTerminatorCounts(f1);
  }

  lemma HeadText(fragment: string, init: string, last: string, whole: string)
    requires whole == init + last
    ensures RemoveTerminators(fragment + whole) == RemoveTerminators(fragment + init) + RemoveTerminators(last)
  {
    assert fragment + whole == (fragment + init) + last;
    RemoveAppend(fragment + init, last);
  }

  /** The text of a stream is the text of all but its last read, then the
      last read. */
  lemma ConcatLast(chunks: seq<string>)
    requires |chunks| > 0
    ensures Concat(chunks) == Concat(chunks[..|chunks| - 1]) + chunks[|chunks| - 1]
  {
    var n := |chunks| - 1;
    assert chunks == chunks[..n] + [chunks[n]];
    ConcatAppend(chunks[..n], [chunks[n]]);
    assert Concat([chunks[n]]) == chunks[n] + Concat([]);
  }

  /** The fragment carried between two steps cancels out. */
  lemma Regroup(e1: seq<string>, e2: seq<string>, f1: string, f2: string, h: string, rr: string, x: string)
    requires Concat(e1 + e2) == Concat(e1) + Concat(e2)
    requires Concat(e2) + f2 == f1 + rr
    requires Concat(e1) + f1 == h
    requires x == h + rr
    ensures Concat(e1 + e2) + f2 == x
  {
    var c1, c2 := Concat(e1), Concat(e2);
    assert (c1 + c2) + f2 == c1 + (c2 + f2);
    assert c1 + (f1 + rr) == (c1 + f1) + rr;
  }

  /** Deleting terminators distributes over concatenation. */
  lemma {:induction false} RemoveAppend(a: string, b: string)
    ensures RemoveTerminators(a + b) == RemoveTerminators(a) + RemoveTerminators(b)
  {
    if |a| > 0 {
      assert (a + b)[1..] == a[1..] + b;
      RemoveAppend(a[1..], b);
    } else {
      assert a + b == b;
    }
  }

  /** Break-free text is one piece. */
  lemma SplitNone(l: string)
    requires NoBreak(l)
    ensures SplitTerminators(l) == [l]
  {
    assert FirstWhere(l, IsTerminator).None?;
  }

  /** Break-free text followed by a terminator is split right there. */
  lemma SplitFirst(l: string, t: string)
    requires NoBreak(l) && |t| > 0 && IsTerminator(t[0])
    ensures SplitTerminators(l + t) == [l] + SplitTerminators(t[1..])
  {
    var s := l + t;
    assert forall j :: 0 <= j < |l| ==> s[j] == l[j];
    FirstWhereIs(s, IsTerminator, |l|);
    assert s[..|l|] == l;
    assert s[|l| + 1..] == t[1..];
  }

  /** A buffer that ends in a terminator emits a final empty line:
      `l` followed by LF yields `l` and "". */
  lemma TerminatedBufferEmitsEmptyLine(l: string)
    requires NoBreak(l)
    ensures SplitStep("", l + "\n") == Step([l, ""], "")
  {
    var s := l + "\n";
    assert SplitTerminators(s) == [l, ""] by {
      SplitFirst(l, "\n");
      SplitNone("");
      assert "\n"[1..] == "";
    }
    assert "" + s == s;
    StepOfTerminated("", s);
  }

  /** A buffer ending in a terminator is emitted whole, as its pieces. */
  lemma StepOfTerminated(fragment: string, chunk: string)
    requires EndsInTerminator(fragment + chunk)
    ensures SplitStep(fragment, chunk) == Step(SplitTerminators(fragment + chunk), "")
  {
  }

  /** The pieces of "\n": two empty lines. */
  lemma SplitLF()
    ensures SplitTerminators("\n") == ["", ""]
  {
    SplitFirst("", "\n");
    SplitNone("");
    assert "" + "\n" == "\n";
    assert "\n"[1..] == "";
  }

  /** A stream of one read. */
  lemma DrainOne(fragment: string, c: string)
    ensures Drain(fragment, [c]) == SplitStep(fragment, c)
  {
    assert [c][..0] == [];
    var st := SplitStep(fragment, c);
    assert Drain(fragment, []) == Step([], fragment);
    assert [] + st.emitted == st.emitted;
  }

  /** A read that leaves the buffer ending in a terminator emits every
      piece and carries nothing over. */
  lemma StepEnded(c: string, pieces: seq<string>)
    requires EndsInTerminator(c) && SplitTerminators(c) == pieces
    ensures SplitStep("", c) == Step(pieces, "")
  {
    assert "" + c == c;
  }

  /** The source splits CR and LF separately, so a CRLF pair read at once
      yields an extra empty line. */
  lemma CrLfInOneRead(l: string)
    requires NoBreak(l)
    ensures Drain("", [l + "\r\n"]).emitted == [l, "", ""]
  {
    var s := l + "\r\n";
    CrLfPieces(l);
    StepEnded(s, [l, "", ""]);
    DrainOne("", s);
  }

  lemma CrLfPieces(l: string)
    requires NoBreak(l)
    ensures SplitTerminators(l + "\r\n") == [l, "", ""]
    ensures EndsInTerminator(l + "\r\n")
  {
    SplitFirst(l, "\r\n");
    assert "\r\n"[1..] == "\n";
    SplitLF();
  }

  /** The same bytes split across two reads yield yet another empty line:
      what a stream emits depends on where its reads end. */
  lemma CrLfAcrossReads(l: string)
    requires NoBreak(l)
    ensures Drain("", [l + "\r", "\n"]).emitted == [l, "", "", ""]
  {
    CrLfAcrossReadsAt(l, "\n", [l + "\r", "\n"], [l, "", "", ""]);
  }

  lemma CrLfAcrossReadsAt(l: string, nl: string, cs: seq<string>, want: seq<string>)
    requires NoBreak(l) && nl == "\n" && cs == [l + "\r", nl] && want == [l, "", "", ""]
    ensures Drain("", cs).emitted == want
  {
    CrRead(l);
    LfRead(nl);
    DrainOne("", l + "\r");
    DrainTwo("", cs, l + "\r", nl, [l, ""], "", ["", ""], "");
    assert [l, ""] + ["", ""] == want;
  }

  /** Two reads: the second continues from the fragment the first left. */
  lemma DrainTwo(fragment: string, cs: seq<string>, a: string, b: string,
                 e1: seq<string>, mid: string, e2: seq<string>, f2: string)
    requires cs == [a, b]
    requires Drain(fragment, [a]) == Step(e1, mid)
    requires SplitStep(mid, b) == Step(e2, f2)
    ensures Drain(fragment, cs) == Step(e1 + e2, f2)
  {
    assert cs == [a] + [b];
    DrainSnoc(fragment, [a], b);
  }

  lemma CrRead(l: string)
    requires NoBreak(l)
    ensures SplitStep("", l + "\r") == Step([l, ""], "")
  {
    CrPieces(l);
    StepEnded(l + "\r", [l, ""]);
  }

  lemma LfRead(nl: string)
    requires nl == "\n"
    ensures SplitStep("", nl) == Step(["", ""], "")
  {
    SplitLF();
    StepEnded(nl, ["", ""]);
  }

  lemma CrPieces(l: string)
    requires NoBreak(l)
    ensures SplitTerminators(l + "\r") == [l, ""]
    ensures EndsInTerminator(l + "\r")
  {
    SplitFirst(l, "\r");
    assert "\r"[1..] == "";
    SplitNone("");
  }

  /** A trailing piece without a terminator is never emitted: a stream that
      ends without a final line ending loses its last line. */
  lemma UnterminatedTailIsDropped(l: string)
    requires NoBreak(l)
    ensures Drain("", [l]) == Step([], l)
  {
    assert "" + l == l;
    SplitNone(l);
    assert SplitStep("", l) == Step([], l);
    DrainOne("", l);
  }
}
