/** The order in which skill.py replays sets: only sets with a completion
    time, sorted by that time with Python's stable `sorted` (ties keep their
    input order; there is no secondary key). */
module Ordering {
  import opened Wrappers
  import opened Snapshot

  ghost predicate AllCompleted(xs: seq<MatchSet>)
  {
    forall i :: 0 <= i < |xs| ==> xs[i].completedAt.Some?
  }

  /** Non-decreasing completion times. */
  ghost predicate SortedByCompletion(xs: seq<MatchSet>)
    requires AllCompleted(xs)
  {
    forall i, j :: 0 <= i < j < |xs| ==> xs[i].completedAt.value <= xs[j].completedAt.value
  }

  /** The sets of `xs` completed at time t, in their order in `xs`. */
  function CompletedAt(xs: seq<MatchSet>, t: int): seq<MatchSet>
  {
    if xs == [] then []
    else (if xs[0].completedAt == Some(t) then [xs[0]] else []) + CompletedAt(xs[1..], t)
  }

  lemma {:induction false} CompletedAtAppend(xs: seq<MatchSet>, ys: seq<MatchSet>, t: int)
    ensures CompletedAt(xs + ys, t) == CompletedAt(xs, t) + CompletedAt(ys, t)
  {
    if xs == [] {
      assert xs + ys == ys;
    } else {
      var head := if xs[0].completedAt == Some(t) then [xs[0]] else [];
      assert (xs + ys)[0] == xs[0];
      assert (xs + ys)[1..] == xs[1..] + ys;
      assert CompletedAt(xs + ys, t) == head + CompletedAt(xs[1..] + ys, t);
      CompletedAtAppend(xs[1..], ys, t);
      assert CompletedAt(xs, t) == head + CompletedAt(xs[1..], t);
      assert head + (CompletedAt(xs[1..], t) + CompletedAt(ys, t))
          == (head + CompletedAt(xs[1..], t)) + CompletedAt(ys, t);
    }
  }

  /** The sets that have a completion time, in their original order (skill.py:33). */
  function Replayable(xs: seq<MatchSet>): (r: seq<MatchSet>)
    ensures AllCompleted(r)
    ensures forall s :: s in r <==> s in xs && s.completedAt.Some?
  {
    if xs == [] then []
    else (if xs[0].completedAt.Some? then [xs[0]] else []) + Replayable(xs[1..])
  }

  /** Filtering out unplayed sets keeps, for every time t, the sets completed
      at t in their order. */
  lemma {:induction false} ReplayableKeepsOrder(xs: seq<MatchSet>, t: int)
    ensures CompletedAt(Replayable(xs), t) == CompletedAt(xs, t)
  {
    if xs != [] {
      var head := if xs[0].completedAt.Some? then [xs[0]] else [];
      ReplayableKeepsOrder(xs[1..], t);
      CompletedAtAppend(head, Replayable(xs[1..]), t);
      assert CompletedAt(head, t) == (if xs[0].completedAt == Some(t) then [xs[0]] else []) by {
        if head != [] {
          assert head[1..] == [];
        }
      }
    }
  }

  /** Places x before the first element whose time is not smaller. */
  function Insert(x: MatchSet, ys: seq<MatchSet>): (r: seq<MatchSet>)
    requires x.completedAt.Some? && AllCompleted(ys)
    ensures AllCompleted(r)
    ensures |r| == |ys| + 1 && (r[0] == x || (ys != [] && r[0] == ys[0]))
    ensures multiset(r) == multiset(ys) + multiset{x}
  {
    if ys == [] || x.completedAt.value <= ys[0].completedAt.value then [x] + ys
    else
      assert ys == [ys[0]] + ys[1..];
      [ys[0]] + Insert(x, ys[1..])
  }

  lemma {:induction false} InsertSorted(x: MatchSet, ys: seq<MatchSet>)
    requires x.completedAt.Some? && AllCompleted(ys) && SortedByCompletion(ys)
    ensures SortedByCompletion(Insert(x, ys))
  {
    if ys != [] && x.completedAt.value > ys[0].completedAt.value {
      var rest := Insert(x, ys[1..]);
      InsertSorted(x, ys[1..]);
      var r := [ys[0]] + rest;
      assert r == Insert(x, ys);
      forall i, j | 0 <= i < j < |r|
        ensures r[i].completedAt.value <= r[j].completedAt.value
      {
        if i == 0 {
          assert ys[0].completedAt.value <= rest[0].completedAt.value;
          if j > 1 {
            assert rest[0].completedAt.value <= rest[j - 1].completedAt.value;
          }
        } else {
          assert r[i] == rest[i - 1] && r[j] == rest[j - 1];
        }
      }
    }
  }

  /** A stable sort by completion time, as an insertion sort. */
  function SortByCompletion(xs: seq<MatchSet>): (r: seq<MatchSet>)
    requires AllCompleted(xs)
    ensures AllCompleted(r) && SortedByCompletion(r)
    ensures multiset(r) == multiset(xs)
  {
    if xs == [] then []
    else
      assert xs == [xs[0]] + xs[1..];
      var sorted := SortByCompletion(xs[1..]);
      InsertSorted(xs[0], sorted);
      Insert(xs[0], sorted)
  }

  /** The order of replay (skill.py:32-35). */
  function ReplayOrder(sets: seq<MatchSet>): seq<MatchSet>
  {
    SortByCompletion(Replayable(sets))
  }

  lemma CompletedAtCons(x: MatchSet, ys: seq<MatchSet>, t: int)
    ensures CompletedAt([x] + ys, t) == (if x.completedAt == Some(t) then [x] else []) + CompletedAt(ys, t)
  {
    assert ([x] + ys)[0] == x;
    assert ([x] + ys)[1..] == ys;
  }

  lemma {:induction false} InsertStable(x: MatchSet, ys: seq<MatchSet>, t: int)
    requires x.completedAt.Some? && AllCompleted(ys)
    ensures CompletedAt(Insert(x, ys), t) ==
            (if x.completedAt == Some(t) then [x] else []) + CompletedAt(ys, t)
  {
    if ys == [] || x.completedAt.value <= ys[0].completedAt.value {
      CompletedAtCons(x, ys, t);
    } else {
      var rest := Insert(x, ys[1..]);
      InsertStable(x, ys[1..], t);
      CompletedAtCons(ys[0], rest, t);
      CompletedAtCons(ys[0], ys[1..], t);
      assert ys == [ys[0]] + ys[1..];
    }
  }

  lemma {:induction false} SortStable(xs: seq<MatchSet>, t: int)
    requires AllCompleted(xs)
    ensures CompletedAt(SortByCompletion(xs), t) == CompletedAt(xs, t)
  {
    if xs != [] {
      SortStable(xs[1..], t);
      InsertStable(xs[0], SortByCompletion(xs[1..]), t);
    }
  }

  /** The replay order holds exactly the completed sets, each as often as in
      the input, in non-decreasing completion time, and sets completed at the
      same time keep their input order. */
  lemma ReplayOrderSpec(sets: seq<MatchSet>)
    ensures AllCompleted(ReplayOrder(sets)) && SortedByCompletion(ReplayOrder(sets))
    ensures forall s :: s in ReplayOrder(sets) <==> s in sets && s.completedAt.Some?
    ensures multiset(ReplayOrder(sets)) == multiset(Replayable(sets))
    ensures forall t :: CompletedAt(ReplayOrder(sets), t) == CompletedAt(sets, t)
  {
    var r := ReplayOrder(sets);
    forall s
      ensures s in r <==> s in sets && s.completedAt.Some?
    {
      calc {
        s in r;
        s in multiset(r);
        s in multiset(Replayable(sets));
        s in Replayable(sets);
      }
    }
    forall t
      ensures CompletedAt(r, t) == CompletedAt(sets, t)
    {
      SortStable(Replayable(sets), t);
      ReplayableKeepsOrder(sets, t);
    }
  }
}
