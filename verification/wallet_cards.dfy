/** The usage cards stated through the positions of the header lines
    (src/gui/wallet.rs): every body line is placed under the last header
    line before it, a card is a run of body lines placed under the same
    header, and its title is the one that header names. */
module WalletCards {
  import opened Options
  import opened Text
  import opened Wallet
  import Seqs

  predicate IsHeader(line: string)
  {
    HeaderOf(line).Some?
  }

  /** The index of the last header line, if there is one. */
  function LastHeader(lines: seq<string>): (r: Option<nat>)
    ensures r.Some? ==> r.value < |lines| && IsHeader(lines[r.value])
    ensures r.Some? ==> forall j :: r.value < j < |lines| ==> !IsHeader(lines[j])
    ensures r.None? ==> forall j :: 0 <= j < |lines| ==> !IsHeader(lines[j])
    decreases |lines|
  {
    if |lines| == 0 then None
    else if IsHeader(lines[|lines| - 1]) then Some(|lines| - 1)
    else
      var init := lines[..|lines| - 1];
      var r := LastHeader(init);
      assert r.Some? ==> lines[r.value] == init[r.value];
      assert forall j :: 0 <= j < |init| ==> init[j] == lines[j];
      r
  }

  /** A body line and the index of the header line it follows. */
  datatype Placed = Placed(opener: Option<nat>, line: string)

  /** The body lines in order, each placed under the last header line
      before it. */
  function PlacedBodies(lines: seq<string>): (r: seq<Placed>)
    decreases |lines|
  {
    if |lines| == 0 then []
    else
      var init := lines[..|lines| - 1];
      var line := lines[|lines| - 1];
      PlacedBodies(init) + (if IsBodyLine(line) then [Placed(LastHeader(init), line)] else [])
  }

  /** Consecutive body lines placed under the same header. */
  datatype Group = Group(opener: Option<nat>, lines: seq<string>)

  /** Placed lines grouped into maximal runs with the same header. */
  function Grouped(ps: seq<Placed>): (r: seq<Group>)
    decreases |ps|
  {
    if |ps| == 0 then []
    else
      var gs := Grouped(ps[..|ps| - 1]);
      var p := ps[|ps| - 1];
      if |gs| > 0 && gs[|gs| - 1].opener == p.opener then
        gs[..|gs| - 1] + [Group(p.opener, gs[|gs| - 1].lines + [p.line])]
      else gs + [Group(p.opener, [p.line])]
  }

  /** The title a header line gives its card; `Untitled` before any
      header. */
  function OpenerHeading(lines: seq<string>, opener: Option<nat>): Heading
  {
    match opener
    case None => Untitled
    case Some(h) => if h < |lines| && IsHeader(lines[h]) then HeaderOf(lines[h]).value else Untitled
  }

  /** The groups as cards, each titled by its header line. */
  function AsSections(lines: seq<string>, gs: seq<Group>): (r: seq<Section>)
    ensures |r| == |gs|
  {
    seq(|gs|, i requires 0 <= i < |gs| => Section(OpenerHeading(lines, gs[i].opener), gs[i].lines))
  }

  /** Header indices in reading order: no header comes before the first
      one. */
  predicate Before(a: Option<nat>, b: Option<nat>)
  {
    (a.None? && b.Some?) || (a.Some? && b.Some? && a.value < b.value)
  }

  predicate AtMost(a: Option<nat>, b: Option<nat>)
  {
    a == b || Before(a, b)
  }

  /** The groups' headers strictly increase and none is after `cur`. */
  predicate Increasing(gs: seq<Group>, cur: Option<nat>)
  {
    && (forall i, j :: 0 <= i < j < |gs| ==> Before(gs[i].opener, gs[j].opener))
    && (forall i :: 0 <= i < |gs| ==> AtMost(gs[i].opener, cur))
  }

  /** The collector after some lines, read through the groups: the
      emitted cards are the closed groups, the pending lines are the open
      group's, and the heading is the last header line's. */
  predicate Tracks(lines: seq<string>, st: Sectioner)
  {
    var gs := Grouped(PlacedBodies(lines));
    var cur := LastHeader(lines);
    && st.heading == OpenerHeading(lines, cur)
    && Increasing(gs, cur)
    && (st.pending == [] ==> st.done == AsSections(lines, gs) && (|gs| == 0 || gs[|gs| - 1].opener != cur))
    && (st.pending != [] ==>
          && |gs| > 0 && gs[|gs| - 1].opener == cur && st.pending == gs[|gs| - 1].lines
          && st.done == AsSections(lines, gs[..|gs| - 1]))
  }

  /** The cards of a usage report are the groups of its body lines by the
      header line they follow, each titled by that header. */
  lemma UsageSectionsByHeader(usage: string)
    ensures var lines := Lines(usage);
      UsageSections(usage) == AsSections(lines, Grouped(PlacedBodies(lines)))
  {
    var lines := Lines(usage);
    var st := Collect(lines);
    var gs := Grouped(PlacedBodies(lines));
    CollectTracks(lines);
    if st.pending != [] {
      AsSectionsSnoc(lines, gs);
    } else {
      assert st.done + Flushed(st) == st.done;
    }
  }

  /** The collector keeps to the groups line by line. */
  lemma {:induction false} CollectTracks(lines: seq<string>)
    ensures Tracks(lines, Collect(lines))
    decreases |lines|
  {
    if |lines| > 0 {
      var init := lines[..|lines| - 1];
      var line := lines[|lines| - 1];
      assert lines == init + [line];
      CollectTracks(init);
      if IsHeader(line) {
        HeaderTracks(init, line, lines);
      } else if IsBodyLine(line) {
        BodyTracks(init, line, lines);
      } else {
        BlankTracks(init, line, lines);
      }
    }
  }

  /** A card's title and the cards of groups read the same after more
      lines: they only look at header lines already read. */
  lemma Stable(init: seq<string>, lines: seq<string>, gs: seq<Group>, cur: Option<nat>)
    requires |init| <= |lines| && lines[..|init|] == init
    requires cur == LastHeader(init) && Increasing(gs, cur)
    ensures OpenerHeading(lines, cur) == OpenerHeading(init, cur)
    ensures AsSections(lines, gs) == AsSections(init, gs)
    ensures |gs| > 0 ==> AsSections(lines, gs[..|gs| - 1]) == AsSections(init, gs[..|gs| - 1])
  {
    OpenerStable(init, lines, cur);
    assert forall i :: 0 <= i < |gs| && gs[i].opener.Some? ==> gs[i].opener.value < |init|;
    SectionsStable(init, lines, gs);
    if |gs| > 0 {
      SectionsStable(init, lines, gs[..|gs| - 1]);
    }
  }

  lemma OpenerStable(init: seq<string>, lines: seq<string>, k: Option<nat>)
    requires |init| <= |lines| && lines[..|init|] == init
    requires k.Some? ==> k.value < |init|
    ensures OpenerHeading(lines, k) == OpenerHeading(init, k)
  {
    if k.Some? {
      assert lines[k.value] == init[k.value];
    }
  }

  lemma SectionsStable(init: seq<string>, lines: seq<string>, gs: seq<Group>)
    requires |init| <= |lines| && lines[..|init|] == init
    requires forall i :: 0 <= i < |gs| && gs[i].opener.Some? ==> gs[i].opener.value < |init|
    ensures AsSections(lines, gs) == AsSections(init, gs)
  {
    forall i | 0 <= i < |gs|
      ensures AsSections(lines, gs)[i] == AsSections(init, gs)[i]
    {
      OpenerStable(init, lines, gs[i].opener);
    }
  }

  /** The cards of all groups are those of all but the last, then the
      last one's. */
  lemma AsSectionsSnoc(lines: seq<string>, gs: seq<Group>)
    requires |gs| > 0
    ensures AsSections(lines, gs) ==
      AsSections(lines, gs[..|gs| - 1]) + [Section(OpenerHeading(lines, gs[|gs| - 1].opener), gs[|gs| - 1].lines)]
  {
  }

  /** A header line closes the open group and starts a new heading. */
  lemma HeaderTracks(init: seq<string>, line: string, lines: seq<string>)
    requires lines == init + [line] && IsHeader(line)
    requires Tracks(init, Collect(init))
    ensures Tracks(lines, Collect(lines))
  {
    var st := Collect(init);
    var gs := Grouped(PlacedBodies(init));
    var cur := LastHeader(init);
    assert lines[..|lines| - 1] == init;
    assert PlacedBodies(lines) == PlacedBodies(init);
    assert LastHeader(lines) == Some(|init|);
    Stable(init, lines, gs, cur);
    if st.pending != [] {
      AsSectionsSnoc(init, gs);
    } else {
      assert st.done + Flushed(st) == st.done;
    }
  }

  /** A blank line changes nothing. */
  lemma BlankTracks(init: seq<string>, line: string, lines: seq<string>)
    requires lines == init + [line] && !IsHeader(line) && !IsBodyLine(line)
    requires Tracks(init, Collect(init))
    ensures Tracks(lines, Collect(lines))
  {
    var gs := Grouped(PlacedBodies(init));
    assert lines[..|lines| - 1] == init;
    assert PlacedBodies(lines) == PlacedBodies(init);
    assert LastHeader(lines) == LastHeader(init);
    Stable(init, lines, gs, LastHeader(init));
  }

  /** A body line joins the open group, or opens one under the current
      header. */
  lemma BodyTracks(init: seq<string>, line: string, lines: seq<string>)
    requires lines == init + [line] && IsBodyLine(line)
    requires Tracks(init, Collect(init))
    ensures Tracks(lines, Collect(lines))
  {
    var st := Collect(init);
    var ps := PlacedBodies(init);
    var gs := Grouped(ps);
    var cur := LastHeader(init);
    var p := Placed(cur, line);
    assert lines[..|lines| - 1] == init;
    assert PlacedBodies(lines) == ps + [p];
    assert (ps + [p])[..|ps|] == ps;
    assert LastHeader(lines) == cur;
    Stable(init, lines, gs, cur);
    var gs' := Grouped(ps + [p]);
    if st.pending != [] {
      assert gs' == gs[..|gs| - 1] + [Group(cur, gs[|gs| - 1].lines + [line])];
      assert gs'[..|gs'| - 1] == gs[..|gs| - 1];
      IncreasingJoin(gs, cur, line);
    } else {
      assert gs' == gs + [Group(cur, [line])];
      assert gs'[..|gs'| - 1] == gs;
      IncreasingOpen(gs, cur, line);
    }
  }

  /** Adding a line to the open group keeps the headers in order. */
  lemma IncreasingJoin(gs: seq<Group>, cur: Option<nat>, line: string)
    requires Increasing(gs, cur) && |gs| > 0 && gs[|gs| - 1].opener == cur
    ensures Increasing(gs[..|gs| - 1] + [Group(cur, gs[|gs| - 1].lines + [line])], cur)
  {
  }

  /** A new group under the current header, when the last group is under
      an earlier one, keeps the headers in order. */
  lemma IncreasingOpen(gs: seq<Group>, cur: Option<nat>, line: string)
    requires Increasing(gs, cur) && (|gs| == 0 || gs[|gs| - 1].opener != cur)
    ensures Increasing(gs + [Group(cur, [line])], cur)
  {
    if |gs| > 0 {
      assert Before(gs[|gs| - 1].opener, cur);
    }
  }

  /** The lines of the placed body lines that follow header `k`, in
      order. */
  function LinesUnder(ps: seq<Placed>, k: Option<nat>): seq<string>
    decreases |ps|
  {
    if |ps| == 0 then []
    else LinesUnder(ps[..|ps| - 1], k) + (if ps[|ps| - 1].opener == k then [ps[|ps| - 1].line] else [])
  }

  lemma LinesUnderSnoc(ps: seq<Placed>, p: Placed, k: Option<nat>)
    ensures LinesUnder(ps + [p], k) == LinesUnder(ps, k) + (if p.opener == k then [p.line] else [])
  {
    assert (ps + [p])[..|ps|] == ps;
  }

  /** No placed line follows `k`: nothing is under it. */
  lemma {:induction false} LinesUnderNone(ps: seq<Placed>, k: Option<nat>)
    requires forall j :: 0 <= j < |ps| ==> ps[j].opener != k
    ensures LinesUnder(ps, k) == []
    decreases |ps|
  {
    if |ps| > 0 {
      LinesUnderNone(ps[..|ps| - 1], k);
    }
  }

  /** The cards' header lines strictly increase: no two cards follow the
      same header line. */
  lemma GroupsIncrease(lines: seq<string>)
    ensures var gs := Grouped(PlacedBodies(lines));
      forall i, j :: 0 <= i < j < |gs| ==> Before(gs[i].opener, gs[j].opener)
  {
    CollectTracks(lines);
  }

  /** Each card holds exactly the body lines that follow its header line,
      in order. */
  lemma {:induction false} GroupMembers(lines: seq<string>)
    ensures var gs := Grouped(PlacedBodies(lines));
      forall i :: 0 <= i < |gs| ==> gs[i].lines == LinesUnder(PlacedBodies(lines), gs[i].opener)
    ensures Members(PlacedBodies(lines), Grouped(PlacedBodies(lines)))
    decreases |lines|
  {
    if |lines| > 0 {
      var init := lines[..|lines| - 1];
      var line := lines[|lines| - 1];
      assert lines == init + [line];
      GroupMembers(init);
      CollectTracks(init);
      if IsBodyLine(line) {
        BodyMembers(init, line, lines, PlacedBodies(init), Grouped(PlacedBodies(init)));
      } else {
        assert PlacedBodies(lines) == PlacedBodies(init);
      }
    }
  }

  /** Members of the groups: each group's lines are those under its
      header, and every placed line's header is at most the last group's. */
  predicate Members(ps: seq<Placed>, gs: seq<Group>)
  {
    && (forall i :: 0 <= i < |gs| ==> gs[i].lines == LinesUnder(ps, gs[i].opener))
    && (forall k :: 0 <= k < |ps| ==> |gs| > 0 && AtMost(ps[k].opener, gs[|gs| - 1].opener))
  }

  lemma BodyMembers(init: seq<string>, line: string, lines: seq<string>, ps: seq<Placed>, gs: seq<Group>)
    requires lines == init + [line] && IsBodyLine(line)
    requires ps == PlacedBodies(init) && gs == Grouped(ps)
    requires Increasing(gs, LastHeader(init)) && Members(ps, gs)
    ensures Members(PlacedBodies(lines), Grouped(PlacedBodies(lines)))
  {
    var p := Placed(LastHeader(init), line);
    assert lines[..|lines| - 1] == init;
    assert PlacedBodies(lines) == ps + [p];
    if |gs| > 0 && gs[|gs| - 1].opener == p.opener {
      JoinMembers(ps, gs, p);
    } else {
      NewMembers(ps, gs, p);
    }
  }

  /** A line under the open group's header joins it. */
  lemma JoinMembers(ps: seq<Placed>, gs: seq<Group>, p: Placed)
    requires gs == Grouped(ps) && |gs| > 0 && gs[|gs| - 1].opener == p.opener
    requires forall i, j :: 0 <= i < j < |gs| ==> Before(gs[i].opener, gs[j].opener)
    requires Members(ps, gs)
    ensures Members(ps + [p], Grouped(ps + [p]))
  {
    assert (ps + [p])[..|ps|] == ps;
    var gs' := Grouped(ps + [p]);
    assert gs' == gs[..|gs| - 1] + [Group(p.opener, gs[|gs| - 1].lines + [p.line])];
    forall i | 0 <= i < |gs'|
      ensures gs'[i].lines == LinesUnder(ps + [p], gs'[i].opener)
    {
      LinesUnderSnoc(ps, p, gs[i].opener);
    }
  }

  /** A line under a later header opens a new group. */
  lemma NewMembers(ps: seq<Placed>, gs: seq<Group>, p: Placed)
    requires gs == Grouped(ps) && (|gs| == 0 || gs[|gs| - 1].opener != p.opener)
    requires forall i :: 0 <= i < |gs| ==> AtMost(gs[i].opener, p.opener)
    requires forall i, j :: 0 <= i < j < |gs| ==> Before(gs[i].opener, gs[j].opener)
    requires Members(ps, gs)
    ensures Members(ps + [p], Grouped(ps + [p]))
  {
    assert (ps + [p])[..|ps|] == ps;
    assert Grouped(ps + [p]) == gs + [Group(p.opener, [p.line])];
    OpenedMembers(ps, gs, p, gs + [Group(p.opener, [p.line])]);
  }

  /** A new group for a header after all earlier ones holds just the new
      line, and the earlier groups keep theirs. */
  lemma OpenedMembers(ps: seq<Placed>, gs: seq<Group>, p: Placed, gs': seq<Group>)
    requires gs' == gs + [Group(p.opener, [p.line])]
    requires |gs| == 0 || gs[|gs| - 1].opener != p.opener
    requires forall i :: 0 <= i < |gs| ==> AtMost(gs[i].opener, p.opener)
    requires forall i, j :: 0 <= i < j < |gs| ==> Before(gs[i].opener, gs[j].opener)
    requires Members(ps, gs)
    ensures Members(ps + [p], gs')
  {
    OpenerFresh(ps, gs, p);
    LinesUnderNone(ps, p.opener);
    OpenedLines(ps, gs, p, gs');
    UnderLast(ps, p, gs');
  }

  /** With every earlier line under an earlier header, every line is at
      most under the last group's header, the new line's. */
  lemma UnderLast(ps: seq<Placed>, p: Placed, gs': seq<Group>)
    requires |gs'| > 0 && gs'[|gs'| - 1].opener == p.opener
    requires forall k :: 0 <= k < |ps| ==> Before(ps[k].opener, p.opener)
    ensures forall k :: 0 <= k < |ps + [p]| ==> AtMost((ps + [p])[k].opener, gs'[|gs'| - 1].opener)
  {
  }

  /** Every earlier line sits under a header before the new one. */
  lemma OpenerFresh(ps: seq<Placed>, gs: seq<Group>, p: Placed)
    requires |gs| == 0 || gs[|gs| - 1].opener != p.opener
    requires forall i :: 0 <= i < |gs| ==> AtMost(gs[i].opener, p.opener)
    requires Members(ps, gs)
    ensures forall k :: 0 <= k < |ps| ==> ps[k].opener != p.opener && Before(ps[k].opener, p.opener)
  {
  }

  lemma OpenedLines(ps: seq<Placed>, gs: seq<Group>, p: Placed, gs': seq<Group>)
    requires gs' == gs + [Group(p.opener, [p.line])]
    requires |gs| == 0 || gs[|gs| - 1].opener != p.opener
    requires forall i :: 0 <= i < |gs| ==> AtMost(gs[i].opener, p.opener)
    requires forall i, j :: 0 <= i < j < |gs| ==> Before(gs[i].opener, gs[j].opener)
    requires forall i :: 0 <= i < |gs| ==> gs[i].lines == LinesUnder(ps, gs[i].opener)
    requires LinesUnder(ps, p.opener) == []
    ensures forall i :: 0 <= i < |gs'| ==> gs'[i].lines == LinesUnder(ps + [p], gs'[i].opener)
  {
    forall i | 0 <= i < |gs'|
      ensures gs'[i].lines == LinesUnder(ps + [p], gs'[i].opener)
    {
      if i < |gs| - 1 {
        assert Before(gs[i].opener, gs[|gs| - 1].opener);
      }
      LinesUnderSnoc(ps, p, gs'[i].opener);
    }
  }

  /** The lines before `a` and before `b` end under the same header line
      exactly when no header line lies between `a` and `b`. */
  lemma {:induction false} SameHeaderIffNoneBetween(lines: seq<string>, a: nat, b: nat)
    requires a <= b <= |lines|
    ensures LastHeader(lines[..a]) == LastHeader(lines[..b]) <==>
      forall j :: a <= j < b ==> !IsHeader(lines[j])
    decreases b - a
  {
    if a < b {
      LastHeaderStep(lines, b);
      if !IsHeader(lines[b - 1]) {
        SameHeaderIffNoneBetween(lines, a, b - 1);
        NoneBetweenStep(lines, a, b);
      } else {
        HeaderBetween(lines, a, b);
      }
    }
  }

  /** Two body lines of the report are placed under the same header line
      exactly when no header line lies between them. */
  lemma BodiesShareHeaderIffNoneBetween(lines: seq<string>, k1: nat, k2: nat)
    requires k1 < k2 < |PlacedBodies(lines)|
    ensures var ns := Seqs.Positions(IsBodyLine, lines);
      k2 < |ns| && ns[k1] < ns[k2] &&
      (PlacedBodies(lines)[k1].opener == PlacedBodies(lines)[k2].opener <==>
       forall j :: ns[k1] <= j < ns[k2] ==> !IsHeader(lines[j]))
  {
    var ns := Seqs.Positions(IsBodyLine, lines);
    PlacedAt(lines);
    SameHeaderIffNoneBetween(lines, ns[k1], ns[k2]);
  }

  /** A last line that is no header does not change whether a header
      lies in the range. */
  lemma NoneBetweenStep(lines: seq<string>, a: nat, b: nat)
    requires a < b <= |lines| && !IsHeader(lines[b - 1])
    ensures (forall j :: a <= j < b ==> !IsHeader(lines[j])) <==>
      (forall j :: a <= j < b - 1 ==> !IsHeader(lines[j]))
  {
  }

  /** A header as the last line of the range is a header between, and it
      is not the last header of the shorter prefix. */
  lemma HeaderBetween(lines: seq<string>, a: nat, b: nat)
    requires a < b <= |lines| && IsHeader(lines[b - 1])
    ensures LastHeader(lines[..a]) != Some(b - 1)
    ensures !(forall j :: a <= j < b ==> !IsHeader(lines[j]))
  {
    assert a <= b - 1 < b && IsHeader(lines[b - 1]);
  }

  /** The last header line of a prefix one line longer. */
  lemma LastHeaderStep(lines: seq<string>, b: nat)
    requires 0 < b <= |lines|
    ensures LastHeader(lines[..b]) == if IsHeader(lines[b - 1]) then Some(b - 1) else LastHeader(lines[..b - 1])
  {
    var front := lines[..b];
    assert front[..b - 1] == lines[..b - 1];
    assert front[b - 1] == lines[b - 1];
  }

  /** The k-th placed line is the k-th body line of the report, placed
      under the last header line before it. */
  lemma {:induction false} PlacedAt(lines: seq<string>)
    ensures |PlacedBodies(lines)| == |Seqs.Positions(IsBodyLine, lines)|
    ensures forall k :: 0 <= k < |PlacedBodies(lines)| ==>
      var n := Seqs.Positions(IsBodyLine, lines)[k];
      PlacedBodies(lines)[k] == Placed(LastHeader(lines[..n]), lines[n])
    decreases |lines|
  {
    if |lines| > 0 {
      var init := lines[..|lines| - 1];
      var line := lines[|lines| - 1];
      assert lines == init + [line];
      var ps := PlacedBodies(init);
      var ns := Seqs.Positions(IsBodyLine, init);
      assert PlacedBodies(lines) == ps + (if IsBodyLine(line) then [Placed(LastHeader(init), line)] else []);
      assert Seqs.Positions(IsBodyLine, lines) == if IsBodyLine(line) then ns + [|init|] else ns;
      PlacedAt(init);
      PlacedSnoc(LastHeader, IsBodyLine, init, line, lines, ps, ns, PlacedBodies(lines), Seqs.Positions(IsBodyLine, lines));
    }
  }

  /** One more line keeps every earlier placement and, for a body line,
      places it under the header `under` finds in everything before it. */
  lemma PlacedSnoc(under: seq<string> -> Option<nat>, body: string -> bool,
                   init: seq<string>, line: string, lines: seq<string>,
                   ps: seq<Placed>, ns: seq<nat>, ms: seq<Placed>, qs: seq<nat>)
    requires lines == init + [line]
    requires |ps| == |ns|
    requires forall k :: 0 <= k < |ns| ==> ns[k] < |init| && ps[k] == Placed(under(init[..ns[k]]), init[ns[k]])
    requires qs == if body(line) then ns + [|init|] else ns
    requires ms == if body(line) then ps + [Placed(under(init), line)] else ps
    ensures |ms| == |qs|
    ensures forall k :: 0 <= k < |qs| ==> qs[k] < |lines| && ms[k] == Placed(under(lines[..qs[k]]), lines[qs[k]])
  {
    forall k | 0 <= k < |ns|
      ensures lines[..ns[k]] == init[..ns[k]] && lines[ns[k]] == init[ns[k]]
    {
    }
    assert lines[..|init|] == init;
  }

  /** A report with a storage header, a line, a total header and a line
      shows two cards, each holding the line under its header. */
  lemma CardsExample()
    ensures UsageSections(Join(["Storage (Uploads):", "a", "Total:", "b"], "\n")) ==
      [Section(Storage, ["a"]), Section(Total, ["b"])]
  {
    StorageLine();
    TotalLine();
    LetterBody('a');
    LetterBody('b');
    TwoCards("Storage (Uploads):", "a", "Total:", "b");
  }

  lemma StorageLine()
    ensures HeaderOf("Storage (Uploads):") == Some(Storage) && IsLinePiece("Storage (Uploads):")
  {
    var storage := "Storage (Uploads):";
    EndOccurs("", storage);
    assert "" + storage == storage;
  }

  lemma TotalLine()
    ensures HeaderOf("Total:") == Some(Total) && IsLinePiece("Total:")
  {
    var total := "Total:";
    Shorter(total, "Storage (Uploads):");
    Shorter(total, "Bandwidth (Downloads):");
    EndOccurs("", total);
    assert "" + total == total;
  }

  /** A text shorter than a pattern does not contain it. */
  lemma Shorter(s: string, pat: string)
    requires |s| < |pat|
    ensures !Contains(s, pat)
  {
  }

  /** A single lower-case letter is a body line and a line piece. */
  lemma LetterBody(c: char)
    requires 'a' <= c <= 'z'
    ensures IsBodyLine([c]) && IsLinePiece([c])
  {
    Shorter([c], "Storage (Uploads):");
    Shorter([c], "Bandwidth (Downloads):");
    Shorter([c], "Total:");
    TrimNoop([c]);
  }

  /** Two headers, each followed by one body line, give two cards. */
  lemma TwoCards(h1: string, a: string, h2: string, b: string)
    requires IsLinePiece(h1) && IsLinePiece(a) && IsLinePiece(h2) && IsLinePiece(b) && b != ""
    requires IsHeader(h1) && IsHeader(h2) && IsBodyLine(a) && IsBodyLine(b)
    ensures UsageSections(Join([h1, a, h2, b], "\n")) ==
      [Section(HeaderOf(h1).value, [a]), Section(HeaderOf(h2).value, [b])]
  {
    var xs := [h1, a, h2, b];
    LinesOfJoin(xs);
    SectionsOfLines(Join(xs, "\n"), xs);
    CollectFour(h1, a, h2, b);
  }

  /** Collecting a header, a line, a header and a line. */
  lemma CollectFour(h1: string, a: string, h2: string, b: string)
    requires IsHeader(h1) && IsHeader(h2) && IsBodyLine(a) && IsBodyLine(b)
    ensures Collect([h1, a, h2, b]) == Sectioner([Section(HeaderOf(h1).value, [a])], HeaderOf(h2).value, [b])
  {
    var st0 := Collect([]);
    var st2 := HeaderThenLine([], h1, a, st0);
    assert [] + [h1, a] == [h1, a];
    var st4 := HeaderThenLine([h1, a], h2, b, st2);
    assert [h1, a] + [h2, b] == [h1, a, h2, b];
  }

  /** A header and a line after some lines: the open card is flushed and
      the new one holds the line. */
  lemma HeaderThenLine(init: seq<string>, h: string, a: string, st: Sectioner) returns (st': Sectioner)
    requires st == Collect(init) && IsHeader(h) && IsBodyLine(a)
    ensures st' == Collect(init + [h, a])
    ensures st' == Sectioner(st.done + Flushed(st), HeaderOf(h).value, [a])
  {
    var st1 := CollectSnoc(init, h);
    StepHeader(st, h);
    st' := CollectSnoc(init + [h], a);
    StepBody(st1, a);
    assert init + [h] + [a] == init + [h, a];
  }

  /** The cards of a report are what collecting its lines leaves. */
  lemma SectionsOfLines(usage: string, lines: seq<string>)
    requires Lines(usage) == lines
    ensures UsageSections(usage) == Collect(lines).done + Flushed(Collect(lines))
  {
  }

  /** A header line flushes the open card and starts its heading. */
  lemma StepHeader(st: Sectioner, line: string)
    requires IsHeader(line)
    ensures Step(st, line) == Sectioner(st.done + Flushed(st), HeaderOf(line).value, [])
  {
  }

  /** A body line joins the open card. */
  lemma StepBody(st: Sectioner, line: string)
    requires IsBodyLine(line)
    ensures Step(st, line) == st.(pending := st.pending + [line])
  {
  }

  /** Collecting one more line is one more step; the result is returned
      so that each step can be named. */
  lemma CollectSnoc(init: seq<string>, line: string) returns (st: Sectioner)
    ensures st == Collect(init + [line]) && st == Step(Collect(init), line)
  {
    assert (init + [line])[..|init|] == init;
    st := Collect(init + [line]);
  }
}
