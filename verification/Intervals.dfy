/** Busy intervals and their normal form (icsparse.go, Merge). */
module Intervals {
  import opened Sorting

  /** A half-open span; instants are integers in the calendar's own unit. */
  datatype Interval = Interval(start: int, end: int) {
    predicate Valid() {
      start < end
    }

    predicate Overlaps(o: Interval) {
      start < o.end && o.start < end
    }
  }

  ghost predicate AllValid(s: seq<Interval>) {
    forall iv <- s :: iv.Valid()
  }

  /** Some interval of the list contains the instant. */
  ghost predicate Covered(s: seq<Interval>, t: int) {
    exists iv <- s :: iv.start <= t < iv.end
  }

  ghost predicate SameInstants(a: seq<Interval>, b: seq<Interval>) {
    forall t :: Covered(a, t) <==> Covered(b, t)
  }

  /** Sorted, every interval real, and a strictly positive gap between neighbours. */
  ghost predicate Canonical(s: seq<Interval>) {
    && AllValid(s)
    && forall i, j :: 0 <= i < j < |s| ==> s[i].end < s[j].start
  }

  // ---------- the computation ----------

  predicate ByStart(a: Interval, b: Interval) {
    if a.start == b.start then a.end < b.end else a.start < b.start
  }

  /** One step of the loop: open a new interval or widen the last one. */
  function Absorb(out: seq<Interval>, cur: Interval): seq<Interval> {
    if out == [] || cur.start > out[|out| - 1].end then out + [cur]
    else if cur.end > out[|out| - 1].end then out[|out| - 1 := Interval(out[|out| - 1].start, cur.end)]
    else out
  }

  function Coalesce(s: seq<Interval>): seq<Interval> {
    if s == [] then [] else Absorb(Coalesce(s[..|s| - 1]), s[|s| - 1])
  }

  function Merged(s: seq<Interval>): seq<Interval> {
    Coalesce(Sort(ByStart, s))
  }

  /** Merge: sorts its argument in place, then coalesces. */
  method Merge(a: array<Interval>) returns (out: seq<Interval>)
    modifies a
    ensures out == Merged(old(a[..]))
    ensures multiset(a[..]) == multiset(old(a[..]))
  {
    ghost var was := a[..];
    hide Sort, Coalesce, ByStart, Insert;
    SortPermutes(ByStart, was);
    if a.Length == 0 {
      NothingMerged();
      return [];
    }
    InsertionSort(a, ByStart);
    ghost var sorted := a[..];
    out := [a[0]];
    CoalesceNext(sorted, 0);
    NothingMerged();
    for i := 1 to a.Length
      invariant a[..] == sorted && out != [] && out == Coalesce(sorted[..i])
    {
      var cur, last := a[i], out[|out| - 1];
      CoalesceNext(sorted, i);
      if cur.start > last.end {
        out := out + [cur];
        continue;
      }
      if cur.end > last.end {
        out := out[|out| - 1 := Interval(last.start, cur.end)];
      }
    }
    assert sorted[..a.Length] == sorted;
  }

  lemma NothingMerged()
    ensures Coalesce([]) == [] && Merged([]) == []
  {
  }

  lemma CoalesceNext(s: seq<Interval>, i: nat)
    requires i < |s|
    ensures Coalesce(s[..i + 1]) == Absorb(Coalesce(s[..i]), s[i])
  {
    assert s[..i + 1][..i] == s[..i];
  }

  // ---------- what it means ----------

  lemma CoveredSplits(a: seq<Interval>, b: seq<Interval>, t: int)
    ensures Covered(a + b, t) <==> Covered(a, t) || Covered(b, t)
  {
    assert forall iv <- a :: iv in a + b;
    assert forall iv <- b :: iv in a + b;
  }

  lemma CoveredByOne(iv: Interval, t: int)
    ensures Covered([iv], t) <==> iv.start <= t < iv.end
  {
    assert iv in [iv];
  }

  /** Widening the last interval adds exactly the instants it grows by. */
  lemma WidenMeaning(init: seq<Interval>, last: Interval, wide: Interval)
    requires Canonical(init + [last]) && wide.start == last.start && last.end <= wide.end
    ensures Canonical(init + [wide])
    ensures forall t :: Covered(init + [wide], t) <==> Covered(init + [last], t) || last.start <= t < wide.end
  {
    var s, r := init + [last], init + [wide];
    forall i | 0 <= i < |init| ensures init[i].Valid() && init[i].end < wide.start {
      assert s[i] == init[i] && s[|init|] == last && s[i] in s;
    }
    forall t ensures Covered(r, t) <==> Covered(s, t) || last.start <= t < wide.end {
      CoveredSplits(init, [last], t);
      CoveredSplits(init, [wide], t);
      CoveredByOne(last, t);
      CoveredByOne(wide, t);
    }
    forall i, j | 0 <= i < j < |r| ensures r[i].end < r[j].start {
      assert r[i] == s[i] && (j < |init| ==> r[j] == s[j]);
    }
    assert s[|init|] in s;
  }

  /** Absorbing an interval that starts no earlier than everything so far keeps
      the list canonical and adds exactly its instants. */
  lemma AbsorbMeaning(out: seq<Interval>, cur: Interval)
    requires Canonical(out) && cur.Valid() && forall iv <- out :: iv.start <= cur.start
    ensures Canonical(Absorb(out, cur))
    ensures forall iv <- Absorb(out, cur) :: iv.start <= cur.start
    ensures forall t :: Covered(Absorb(out, cur), t) <==> Covered(out, t) || cur.start <= t < cur.end
  {
    if out == [] || cur.start > out[|out| - 1].end {
      forall t ensures Covered(out + [cur], t) <==> Covered(out, t) || cur.start <= t < cur.end {
        CoveredSplits(out, [cur], t);
        CoveredByOne(cur, t);
      }
    } else {
      var init, last := out[..|out| - 1], out[|out| - 1];
      assert last in out && out == init + [last];
      var wide := Interval(last.start, if cur.end > last.end then cur.end else last.end);
      WidenMeaning(init, last, wide);
      assert Absorb(out, cur) == init + [wide];
      forall t | last.start <= t < wide.end ensures Covered(out, t) || cur.start <= t < cur.end {
        assert last.start <= t < last.end ==> Covered(out, t);
      }
      assert forall iv <- init :: iv in out;
    }
  }

  ghost predicate StartsAscend(s: seq<Interval>) {
    forall i, j :: 0 <= i < j < |s| ==> s[i].start <= s[j].start
  }

  lemma {:induction false} CoalesceMeaning(s: seq<Interval>)
    requires AllValid(s) && StartsAscend(s)
    ensures Canonical(Coalesce(s)) && SameInstants(Coalesce(s), s)
    ensures s != [] ==> forall iv <- Coalesce(s) :: iv.start <= s[|s| - 1].start
  {
    if s != [] {
      var init, cur := s[..|s| - 1], s[|s| - 1];
      assert cur in s && forall iv <- init :: iv in s;
      CoalesceMeaning(init);
      assert init != [] ==> init[|init| - 1].start <= cur.start;
      AbsorbMeaning(Coalesce(init), cur);
      AppendedInstants(init, cur, Coalesce(init), Coalesce(s));
      assert s == init + [cur];
    }
  }

  lemma AppendedInstants(init: seq<Interval>, cur: Interval, out: seq<Interval>, out': seq<Interval>)
    requires SameInstants(out, init)
    requires forall t :: Covered(out', t) <==> Covered(out, t) || cur.start <= t < cur.end
    ensures SameInstants(out', init + [cur])
  {
    forall t ensures Covered(out', t) <==> Covered(init + [cur], t) {
      CoveredSplits(init, [cur], t);
      CoveredByOne(cur, t);
    }
  }

  lemma SameCoverage(a: seq<Interval>, b: seq<Interval>)
    requires multiset(a) == multiset(b)
    ensures SameInstants(a, b) && (AllValid(a) <==> AllValid(b))
  {
    forall iv ensures iv in a <==> iv in b {
      SameElements(a, b, iv);
    }
  }

  /** Merging yields a canonical list of exactly the same instants. */
  lemma MergedMeaning(s: seq<Interval>)
    requires AllValid(s)
    ensures Canonical(Merged(s)) && SameInstants(Merged(s), s)
  {
    var sorted := Sort(ByStart, s);
    SortPermutes(ByStart, s);
    SameCoverage(sorted, s);
    SortOrders(ByStart, s, s);
    assert StartsAscend(sorted);
    CoalesceMeaning(sorted);
  }

  /** There is only one canonical list of given instants. */
  lemma {:induction false} CanonicalIsUnique(a: seq<Interval>, b: seq<Interval>)
    requires Canonical(a) && Canonical(b) && SameInstants(a, b)
    ensures a == b
  {
    if a == [] || b == [] {
      NonemptyCovers(a);
      NonemptyCovers(b);
    } else {
      FirstStart(a, b);
      FirstStart(b, a);
      FirstEnd(a, b);
      FirstEnd(b, a);
      forall t ensures Covered(a[1..], t) <==> Covered(b[1..], t) {
        TailCovers(a, t);
        TailCovers(b, t);
      }
      CanonicalIsUnique(a[1..], b[1..]);
    }
  }

  lemma NonemptyCovers(a: seq<Interval>)
    requires AllValid(a)
    ensures a != [] ==> exists t :: Covered(a, t)
  {
    if a != [] {
      assert a[0] in a && Covered(a, a[0].start);
    }
  }

  lemma FirstStart(a: seq<Interval>, b: seq<Interval>)
    requires Canonical(a) && Canonical(b) && SameInstants(a, b) && a != [] && b != []
    ensures b[0].start <= a[0].start
  {
    assert a[0] in a && Covered(a, a[0].start);
    var iv :| iv in b && iv.start <= a[0].start < iv.end;
    var k :| 0 <= k < |b| && b[k] == iv;
    assert b[0] in b;
  }

  lemma GapAfterFirst(a: seq<Interval>)
    requires Canonical(a) && a != []
    ensures !Covered(a, a[0].end)
  {
    forall iv <- a ensures !(iv.start <= a[0].end < iv.end) {
      var k :| 0 <= k < |a| && a[k] == iv;
    }
  }

  lemma FirstEnd(a: seq<Interval>, b: seq<Interval>)
    requires Canonical(a) && Canonical(b) && SameInstants(a, b) && a != [] && b != [] && a[0].start == b[0].start
    ensures b[0].end <= a[0].end
  {
    GapAfterFirst(a);
    assert a[0] in a && b[0] in b;
    var e := a[0].end;
    assert e < b[0].end ==> Covered(b, e);
  }

  lemma TailCovers(a: seq<Interval>, t: int)
    requires Canonical(a) && a != []
    ensures Covered(a[1..], t) <==> Covered(a, t) && t >= a[0].end
  {
    assert a == [a[0]] + a[1..];
    CoveredSplits([a[0]], a[1..], t);
    assert a[0] in [a[0]] && a[0] in a;
    forall iv <- a[1..] ensures a[0].end < iv.start {
      var k :| 0 <= k < |a[1..]| && a[1..][k] == iv;
      assert a[k + 1] == iv;
    }
  }

  /** Merging depends on nothing but the instants covered: in particular not on
      the order of its input, nor on whether it was merged already. */
  lemma MergedDependsOnInstants(s: seq<Interval>, s': seq<Interval>)
    requires AllValid(s) && AllValid(s')
    ensures Merged(s) == Merged(s') <==> SameInstants(s, s')
    ensures Merged(Merged(s)) == Merged(s)
  {
    MergedMeaning(s);
    MergedMeaning(s');
    MergedMeaning(Merged(s));
    CanonicalIsUnique(Merged(Merged(s)), Merged(s));
    if SameInstants(s, s') {
      CanonicalIsUnique(Merged(s), Merged(s'));
    } else {
      var t :| Covered(s, t) != Covered(s', t);
      assert Covered(Merged(s), t) != Covered(Merged(s'), t);
    }
  }

  lemma MergedIgnoresOrder(s: seq<Interval>, s': seq<Interval>)
    requires AllValid(s) && multiset(s) == multiset(s')
    ensures Merged(s) == Merged(s')
  {
    SameCoverage(s, s');
    MergedDependsOnInstants(s, s');
  }

  // ---------- asking whether a span is free ----------

  predicate Hits(span: Interval, blocks: seq<Interval>) {
    exists b <- blocks :: b.Overlaps(span)
  }

  /** A span that takes time collides just when it shares an instant with a block. */
  lemma HitsIffShared(span: Interval, blocks: seq<Interval>)
    requires span.Valid() && AllValid(blocks)
    ensures Hits(span, blocks) <==> exists t :: span.start <= t < span.end && Covered(blocks, t)
  {
    if Hits(span, blocks) {
      var b :| b in blocks && b.Overlaps(span);
      var t := if b.start >= span.start then b.start else span.start;
      assert Covered(blocks, t);
    }
  }

  lemma HitsSameMerged(span: Interval, blocks: seq<Interval>)
    requires span.Valid() && AllValid(blocks)
    ensures Hits(span, Merged(blocks)) <==> Hits(span, blocks)
  {
    MergedMeaning(blocks);
    HitsIffShared(span, blocks);
    HitsIffShared(span, Merged(blocks));
  }

  ghost predicate MergeNeutral(start: int, duration: int, blocks: seq<Interval>) {
    Hits(Interval(start, start + duration), Merged(blocks)) <==> Hits(Interval(start, start + duration), blocks)
  }

  /** A meeting of no length can sit exactly between two abutting blocks, which merging joins. */
  lemma MergingHidesTheSeam(duration: int)
    requires duration <= 0
    ensures exists blocks :: AllValid(blocks) && !MergeNeutral(0, duration, blocks)
  {
    var before, after, whole := Interval(duration - 1, 0), Interval(0, 1), Interval(duration - 1, 1);
    var blocks := [before, after];
    forall t ensures Covered(blocks, t) <==> Covered([whole], t) {
      CoveredSplits([before], [after], t);
      assert [before] + [after] == blocks;
      CoveredByOne(before, t);
      CoveredByOne(after, t);
      CoveredByOne(whole, t);
    }
    MergedMeaning(blocks);
    CanonicalIsUnique(Merged(blocks), [whole]);
    assert whole in [whole];
    assert Hits(Interval(0, 0 + duration), Merged(blocks));
    assert AllValid(blocks) && !MergeNeutral(0, duration, blocks);
  }

  /** Raw and merged blocks answer alike for every start and every list of
      blocks just when the duration is positive. */
  lemma MergingIsNeutralIff(duration: int)
    ensures (forall start, blocks :: AllValid(blocks) ==> MergeNeutral(start, duration, blocks)) <==> duration > 0
  {
    if duration > 0 {
      forall start, blocks | AllValid(blocks) ensures MergeNeutral(start, duration, blocks) {
        HitsSameMerged(Interval(start, start + duration), blocks);
      }
    } else {
      MergingHidesTheSeam(duration);
    }
  }
}
