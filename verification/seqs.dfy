/** Order-preserving sequence operations shared by the panels: `retain`,
    `filter`, `reverse` and concatenation of a sequence of strings. */
module Seqs {
  import opened Options

  /** `a` is obtained from `b` by deleting elements: the elements of `a`
      occur in `b` in the same relative order. */
  ghost predicate IsSubseq<T>(a: seq<T>, b: seq<T>)
    decreases |b|
  {
    if |a| == 0 then true
    else if |b| == 0 then false
    else if a[0] == b[0] then IsSubseq(a[1..], b[1..])
    else IsSubseq(a, b[1..])
  }

  /** `Vec::retain` / `Iterator::filter` followed by `collect`. */
  function Filter<T>(keep: T -> bool, s: seq<T>): (r: seq<T>)
    ensures |r| <= |s|
    ensures forall i :: 0 <= i < |r| ==> keep(r[i])
  {
    if |s| == 0 then []
    else if keep(s[0]) then [s[0]] + Filter(keep, s[1..])
    else Filter(keep, s[1..])
  }

  /** `Iterator::filter_map` followed by `collect`: the values of the
      elements `f` accepts, in order. */
  function FilterMap<T, U>(f: T -> Option<U>, s: seq<T>): (r: seq<U>)
    ensures |r| <= |s|
  {
    if |s| == 0 then []
    else
      var rest := FilterMap(f, s[1..]);
      match f(s[0])
      case None => rest
      case Some(u) => [u] + rest
  }

  /** A value is produced exactly when some element maps to it. */
  lemma {:induction false} FilterMapMembers<T, U>(f: T -> Option<U>, s: seq<T>, u: U)
    ensures u in FilterMap(f, s) <==> exists i :: 0 <= i < |s| && f(s[i]) == Some(u)
  {
    if |s| > 0 {
      FilterMapMembers(f, s[1..], u);
      if exists i :: 0 <= i < |s| && f(s[i]) == Some(u) {
        var i :| 0 <= i < |s| && f(s[i]) == Some(u);
        if i > 0 {
          assert s[1..][i - 1] == s[i];
        }
      }
      if exists i :: 0 <= i < |s[1..]| && f(s[1..][i]) == Some(u) {
        var i :| 0 <= i < |s[1..]| && f(s[1..][i]) == Some(u);
        assert s[i + 1] == s[1..][i];
      }
    }
  }

  /** The value of the first element `f` accepts: a loop that stops at
      the first hit. */
  function FirstSome<T, U>(f: T -> Option<U>, s: seq<T>): (r: Option<U>)
    ensures r.None? <==> forall i :: 0 <= i < |s| ==> f(s[i]).None?
    ensures r.Some? ==>
      exists i :: 0 <= i < |s| && f(s[i]) == r && forall j :: 0 <= j < i ==> f(s[j]).None?
  {
    if |s| == 0 then None
    else match f(s[0])
      case Some(u) => Some(u)
      case None =>
        var rest := FirstSome(f, s[1..]);
        assert forall j :: 1 <= j < |s| ==> s[j] == s[1..][j - 1];
        rest
  }

  /** The value of the last element `f` accepts: a loop that overwrites
      its answer at every hit. */
  function LastSome<T, U>(f: T -> Option<U>, s: seq<T>): (r: Option<U>)
    ensures r.None? <==> forall i :: 0 <= i < |s| ==> f(s[i]).None?
    ensures r.Some? ==>
      exists i :: 0 <= i < |s| && f(s[i]) == r && forall j :: i < j < |s| ==> f(s[j]).None?
  {
    if |s| == 0 then None
    else match f(s[|s| - 1])
      case Some(u) => Some(u)
      case None =>
        var rest := LastSome(f, s[..|s| - 1]);
        assert forall j :: 0 <= j < |s| - 1 ==> s[j] == s[..|s| - 1][j];
        rest
  }

  /** A filter keeps the survivors in their original relative order. */
  lemma {:induction false} FilterIsSubseq<T>(keep: T -> bool, s: seq<T>)
    ensures IsSubseq(Filter(keep, s), s)
  {
    if |s| > 0 {
      FilterIsSubseq(keep, s[1..]);
      if !keep(s[0]) {
        SubseqDropHead(Filter(keep, s[1..]), s);
      }
    }
  }

  /** Every element the condition accepts survives the filter. */
  lemma {:induction false} FilterKeepsAccepted<T>(keep: T -> bool, s: seq<T>)
    ensures forall i :: 0 <= i < |s| && keep(s[i]) ==> s[i] in Filter(keep, s)
  {
    if |s| > 0 {
      FilterKeepsAccepted(keep, s[1..]);
      forall i | 0 <= i < |s| && keep(s[i])
        ensures s[i] in Filter(keep, s)
      {
        if i > 0 {
          assert s[i] == s[1..][i - 1];
        }
      }
    }
  }

  /** A subsequence of the tail is a subsequence of the whole. */
  lemma {:induction false} SubseqDropHead<T>(a: seq<T>, b: seq<T>)
    requires |b| > 0
    requires IsSubseq(a, b[1..])
    ensures IsSubseq(a, b)
    decreases |b|, 0
  {
    if |a| > 0 && a[0] == b[0] {
      SubseqTail(a, b[1..]);
    }
  }

  /** Dropping the first element of a subsequence keeps it a subsequence. */
  lemma {:induction false} SubseqTail<T>(a: seq<T>, c: seq<T>)
    requires |a| > 0
    requires IsSubseq(a, c)
    ensures IsSubseq(a[1..], c)
    decreases |c|, 1
  {
    if a[0] != c[0] {
      SubseqTail(a, c[1..]);
    }
    SubseqDropHead(a[1..], c);
  }

  /** A filter only keeps elements of its input. */
  lemma {:induction false} FilterIn<T>(keep: T -> bool, s: seq<T>)
    ensures forall x :: x in Filter(keep, s) ==> x in s
  {
    if |s| > 0 {
      FilterIn(keep, s[1..]);
    }
  }

  /** A filter whose condition holds nowhere returns nothing. */
  lemma {:induction false} FilterNoneKept<T>(keep: T -> bool, s: seq<T>)
    requires forall i :: 0 <= i < |s| ==> !keep(s[i])
    ensures Filter(keep, s) == []
  {
    if |s| > 0 {
      FilterNoneKept(keep, s[1..]);
    }
  }

  /** A filter whose condition holds everywhere returns its input. */
  lemma {:induction false} FilterAllKept<T>(keep: T -> bool, s: seq<T>)
    requires forall i :: 0 <= i < |s| ==> keep(s[i])
    ensures Filter(keep, s) == s
  {
    if |s| > 0 {
      FilterAllKept(keep, s[1..]);
    }
  }

  /** The pieces before, between and after two cut points spell the
      list. */
  lemma ThreeSlices<T>(s: seq<T>, i: nat, j: nat)
    requires i <= j <= |s|
    ensures s[..i] + s[i..j] + s[j..] == s
  {
  }

  /** A four-element list is the display of its elements. */
  lemma FourElements<T>(r: seq<T>, a: T, b: T, c: T, d: T)
    requires |r| == 4 && r[0] == a && r[1] == b && r[2] == c && r[3] == d
    ensures r == [a, b, c, d]
  {
  }

  /** A list that `keep` accepts throughout, followed by one element it
      rejects, filters back to the list. */
  lemma FilterDropsLast<T>(keep: T -> bool, s: seq<T>, x: T)
    requires forall i :: 0 <= i < |s| ==> keep(s[i])
    requires !keep(x)
    ensures Filter(keep, s + [x]) == s
  {
    FilterAppend(keep, s, [x]);
    FilterAllKept(keep, s);
  }

  /** Filtering distributes over concatenation. */
  lemma {:induction false} FilterAppend<T>(keep: T -> bool, a: seq<T>, b: seq<T>)
    ensures Filter(keep, a + b) == Filter(keep, a) + Filter(keep, b)
  {
    if |a| > 0 {
      assert (a + b)[1..] == a[1..] + b;
      FilterAppend(keep, a[1..], b);
    } else {
      assert a + b == b;
    }
  }

  /** The indices of the elements `keep` accepts, in increasing order:
      `iter().enumerate()` followed by a filter on the element. */
  function Positions<T>(keep: T -> bool, s: seq<T>): (r: seq<nat>)
    ensures forall i :: 0 <= i < |r| ==> r[i] < |s| && keep(s[r[i]])
    ensures forall i, j :: 0 <= i < j < |r| ==> r[i] < r[j]
    decreases |s|
  {
    if |s| == 0 then []
    else
      var init := Positions(keep, s[..|s| - 1]);
      assert forall i :: 0 <= i < |init| ==> s[..|s| - 1][init[i]] == s[init[i]];
      if keep(s[|s| - 1]) then init + [|s| - 1] else init
  }

  /** Every accepted index is listed. */
  lemma {:induction false} PositionsComplete<T>(keep: T -> bool, s: seq<T>, n: nat)
    requires n < |s| && keep(s[n])
    ensures n in Positions(keep, s)
    decreases |s|
  {
    if n < |s| - 1 {
      assert s[..|s| - 1][n] == s[n];
      PositionsComplete(keep, s[..|s| - 1], n);
    }
  }

  /** `r` lists exactly the elements of `s` that `keep` accepts, in
      their order: its k-th element is the one at the k-th accepted index
      (`Positions` lists every accepted index, increasing). */
  ghost predicate IsSelection<T>(r: seq<T>, keep: T -> bool, s: seq<T>)
  {
    |r| == |Positions(keep, s)| &&
    forall k :: 0 <= k < |r| ==> r[k] == s[Positions(keep, s)[k]]
  }

  /** A filter returns exactly the accepted elements, one per accepted
      index, in order: nothing is dropped, duplicated or reordered. */
  lemma {:induction false} FilterSelects<T>(keep: T -> bool, s: seq<T>)
    ensures IsSelection(Filter(keep, s), keep, s)
    decreases |s|
  {
    if |s| > 0 {
      var init, last := s[..|s| - 1], s[|s| - 1];
      FilterSelects(keep, init);
      assert s == init + [last];
      FilterAppend(keep, init, [last]);
      assert Filter(keep, [last]) == if keep(last) then [last] else [];
      var ps := Positions(keep, init);
      assert forall k :: 0 <= k < |ps| ==> init[ps[k]] == s[ps[k]];
    }
  }

  /** What filtering promises, for any test: the kept elements in order,
      every accepted element among them, and exactly the accepted ones. */
  lemma FilterFacts<T>(keep: T -> bool, s: seq<T>)
    ensures IsSubseq(Filter(keep, s), s)
    ensures forall i :: 0 <= i < |s| && keep(s[i]) ==> s[i] in Filter(keep, s)
    ensures IsSelection(Filter(keep, s), keep, s)
  {
    FilterIsSubseq(keep, s);
    FilterKeepsAccepted(keep, s);
    FilterSelects(keep, s);
  }

  /** `Vec::reverse`. */
  function Reverse<T>(s: seq<T>): (r: seq<T>)
    ensures |r| == |s|
    ensures forall i :: 0 <= i < |s| ==> r[i] == s[|s| - 1 - i]
  {
    if |s| == 0 then [] else Reverse(s[1..]) + [s[0]]
  }

  /** Concatenation of a sequence of strings (no separator). */
  function Concat(parts: seq<string>): (r: string)
  {
    if |parts| == 0 then "" else parts[0] + Concat(parts[1..])
  }

  lemma {:induction false} ConcatAppend(a: seq<string>, b: seq<string>)
    ensures Concat(a + b) == Concat(a) + Concat(b)
  {
    if |a| > 0 {
      assert (a + b)[1..] == a[1..] + b;
      ConcatAppend(a[1..], b);
    } else {
      assert a + b == b;
    }
  }
}
