/** Suggesting a slot from free/busy data alone (proposal.go), and the
    collision test of the calendar import (calendar.go, coveredBy). */
module Proposal {
  import opened Options
  import opened Sorting
  import opened Intervals

  /** `busy` is None when no calendar is connected; an empty list means free throughout. */
  datatype Member = Member(id: string, name: string, busy: Option<seq<Interval>>)

  datatype Result = Result(slot: Option<int>, considered: seq<string>)

  function Connected(ms: seq<Member>): seq<Member> {
    if ms == [] then []
    else Connected(ms[..|ms| - 1]) + (if ms[|ms| - 1].busy.Some? then [ms[|ms| - 1]] else [])
  }

  lemma {:induction false} ConnectedMeaning(ms: seq<Member>)
    ensures forall m :: m in Connected(ms) <==> m in ms && m.busy.Some?
  {
    if ms != [] {
      assert ms == ms[..|ms| - 1] + [ms[|ms| - 1]];
      ConnectedMeaning(ms[..|ms| - 1]);
    }
  }

  /** Nobody with a connected calendar is busy at any point of the meeting. */
  ghost predicate FreeFor(slot: int, duration: int, ms: seq<Member>) {
    forall m <- ms :: m.busy.Some? ==> !Hits(Interval(slot, slot + duration), m.busy.value)
  }

  /** coveredBy: a search for the first colliding block. */
  method CoveredBy(start: int, duration: int, blocks: seq<Interval>) returns (hit: bool)
    ensures hit == Hits(Interval(start, start + duration), blocks)
  {
    for i := 0 to |blocks|
      invariant !Hits(Interval(start, start + duration), blocks[..i])
    {
      if blocks[i].Overlaps(Interval(start, start + duration)) {
        assert blocks[i] in blocks;
        return true;
      }
    }
    assert blocks[..|blocks|] == blocks;
    hit := false;
  }

  /** freeForAll, over members whose calendars are all connected. */
  method FreeForAll(slot: int, duration: int, ms: seq<Member>) returns (free: bool)
    requires forall m <- ms :: m.busy.Some?
    ensures free == FreeFor(slot, duration, ms)
  {
    for i := 0 to |ms|
      invariant FreeFor(slot, duration, ms[..i])
    {
      assert ms[i] in ms;
      var hit := CoveredBy(slot, duration, ms[i].busy.value);
      if hit {
        return false;
      }
    }
    assert ms[..|ms|] == ms;
    free := true;
  }

  /** The earliest candidate at which everyone connected is free. */
  ghost predicate EarliestFree(slot: Option<int>, candidates: seq<int>, duration: int, ms: seq<Member>) {
    match slot
    case Some(s) => s in candidates && FreeFor(s, duration, ms)
                    && forall c <- candidates :: FreeFor(c, duration, ms) ==> s <= c
    case None => forall c <- candidates :: !FreeFor(c, duration, ms)
  }

  predicate StringLess(a: string, b: string) {
    if b == [] then false
    else if a == [] then true
    else if a[0] != b[0] then a[0] < b[0]
    else StringLess(a[1..], b[1..])
  }

  lemma {:induction false} StringsOrdered(a: string, b: string, c: string)
    ensures !(StringLess(a, b) && StringLess(b, a))
    ensures StringLess(a, c) ==> StringLess(a, b) || StringLess(b, c)
  {
    if a != [] && b != [] && c != [] {
      StringsOrdered(a[1..], b[1..], c[1..]);
    } else if a != [] && b != [] {
      StringsOrdered(a[1..], b[1..], []);
    }
  }

  ghost function Names(ms: seq<Member>): seq<string> {
    seq(|ms|, i requires 0 <= i < |ms| => ms[i].name)
  }

  predicate Sooner(a: int, b: int) {
    a < b
  }

  method ConnectedMembers(members: seq<Member>) returns (connected: seq<Member>)
    ensures connected == Connected(members)
  {
    connected := [];
    for i := 0 to |members|
      invariant connected == Connected(members[..i])
    {
      assert members[..i + 1][..i] == members[..i];
      if members[i].busy.Some? {
        connected := connected + [members[i]];
      }
    }
    assert members[..|members|] == members;
  }

  /** Best's scan of the candidates in order. */
  method FirstFree(candidates: seq<int>, duration: int, connected: seq<Member>) returns (slot: Option<int>)
    requires forall m <- connected :: m.busy.Some?
    ensures EarliestFree(slot, candidates, duration, connected)
  {
    var sorted := SortedCopy(candidates, Sooner);
    SortPermutes(Sooner, candidates);
    SortOrders(Sooner, candidates, candidates);
    forall c ensures c in sorted <==> c in candidates {
      SameElements(sorted, candidates, c);
    }
    for i := 0 to |sorted|
      invariant forall k :: 0 <= k < i ==> !FreeFor(sorted[k], duration, connected)
    {
      var free := FreeForAll(sorted[i], duration, connected);
      if free {
        assert sorted[i] in sorted;
        forall c <- candidates | FreeFor(c, duration, connected) ensures sorted[i] <= c {
          var k :| 0 <= k < |sorted| && sorted[k] == c;
          assert i < k ==> !Sooner(sorted[k], sorted[i]);
        }
        return Some(sorted[i]);
      }
    }
    slot := None;
  }

  /** Best. */
  method Best(candidates: seq<int>, duration: int, members: seq<Member>) returns (r: Result)
    ensures (forall m <- members :: m.busy.None?) ==> r == Result(None, [])
    ensures (exists m <- members :: m.busy.Some?) ==> EarliestFree(r.slot, candidates, duration, members)
    ensures multiset(r.considered) == multiset(Names(Connected(members))) && InOrder(StringLess, r.considered)
  {
    var connected := ConnectedMembers(members);
    ConnectedMeaning(members);
    if |connected| == 0 {
      return Result(None, []);
    }
    assert connected[0] in connected;
    var names := seq(|connected|, i requires 0 <= i < |connected| => connected[i].name);
    assert names == Names(connected);
    var considered := SortedCopy(names, StringLess);
    SortPermutes(StringLess, names);
    NamesInOrder(names);
    var slot := FirstFree(candidates, duration, connected);
    forall c ensures FreeFor(c, duration, connected) <==> FreeFor(c, duration, members) {
      assert forall m <- members :: m.busy.Some? ==> m in connected;
    }
    r := Result(slot, considered);
  }

  lemma NamesInOrder(names: seq<string>)
    ensures InOrder(StringLess, Sort(StringLess, names))
  {
    forall a, b, c
      ensures StringLess(a, c) ==> StringLess(a, b) || StringLess(b, c)
      ensures !(StringLess(a, b) && StringLess(b, a))
    {
      StringsOrdered(a, b, c);
    }
    SortOrders(StringLess, names, names);
  }

  // ---------- stored blocks may be raw or merged ----------

  function MergedMember(m: Member): Member {
    if m.busy.Some? then m.(busy := Some(Merged(m.busy.value))) else m
  }

  function MergedMembers(ms: seq<Member>): seq<Member> {
    seq(|ms|, i requires 0 <= i < |ms| => MergedMember(ms[i]))
  }

  /** For a meeting of positive length the suggestion is the same on raw and merged calendars. */
  lemma SameSuggestionMerged(slot: Option<int>, candidates: seq<int>, duration: int, ms: seq<Member>)
    requires duration > 0 && forall m <- ms :: m.busy.Some? ==> AllValid(m.busy.value)
    ensures EarliestFree(slot, candidates, duration, MergedMembers(ms)) <==>
              EarliestFree(slot, candidates, duration, ms)
  {
    forall c ensures FreeFor(c, duration, MergedMembers(ms)) <==> FreeFor(c, duration, ms) {
      forall i | 0 <= i < |ms| && ms[i].busy.Some?
        ensures Hits(Interval(c, c + duration), Merged(ms[i].busy.value)) <==>
                  Hits(Interval(c, c + duration), ms[i].busy.value)
      {
        assert ms[i] in ms;
        HitsSameMerged(Interval(c, c + duration), ms[i].busy.value);
      }
      forall i | 0 <= i < |ms| ensures MergedMembers(ms)[i] in MergedMembers(ms) && ms[i] in ms {
      }
    }
  }
}
