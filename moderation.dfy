/** The moderation queue of the flags handler: every circle that has at
    least one flag, with its number of flags, ordered by that number from
    most to fewest. `Queue` places circles with equal counts in the order of
    their first flag, but its contract, like the query's ORDER BY, leaves
    that order open. */
module Moderation {
  import opened Tables
  import opened Circles

  /** One row of the queue: the circle, its id and its flag count. */
  datatype QueueEntry = QueueEntry(circleId: int, circle: Circle, flagCount: nat)

  ghost predicate SortedByCount(q: seq<QueueEntry>) {
    forall i, j :: 0 <= i < j < |q| ==> q[i].flagCount >= q[j].flagCount
  }

  ghost predicate UniqueIds(q: seq<QueueEntry>) {
    forall i, j :: 0 <= i < j < |q| ==> q[i].circleId != q[j].circleId
  }

  ghost function IdsOf(q: seq<QueueEntry>): set<int> {
    set e | e in q :: e.circleId
  }

  /** The ids that occur in the flags table, each once, in order of first
      occurrence. */
  function FlaggedIds(flags: seq<Flag>): (ids: seq<int>)
    ensures forall i, j :: 0 <= i < j < |ids| ==> ids[i] != ids[j]
    ensures forall id :: id in ids <==> FlagCount(flags, id) > 0
  {
    if flags == [] then []
    else
      var init, last := flags[..|flags| - 1], flags[|flags| - 1];
      assert flags == init + [last];
      var rest := FlaggedIds(init);
      if last.circleId in rest then rest else rest + [last.circleId]
  }

  /** One entry per id that names an existing circle (the join with the
      circles table), in the order of `ids`. */
  function Entries(ids: seq<int>, circles: map<int, Circle>, flags: seq<Flag>): (es: seq<QueueEntry>)
    ensures forall e :: e in es ==>
              e.circleId in circles && e.circle == circles[e.circleId] && e.flagCount == FlagCount(flags, e.circleId)
    ensures IdsOf(es) == set id | id in ids && id in circles
    ensures (forall i, j :: 0 <= i < j < |ids| ==> ids[i] != ids[j]) ==> UniqueIds(es)
  {
    if ids == [] then []
    else
      var rest := Entries(ids[1..], circles, flags);
      assert forall id :: id in ids <==> id == ids[0] || id in ids[1..];
      if ids[0] in circles then
        var e := QueueEntry(ids[0], circles[ids[0]], FlagCount(flags, ids[0]));
        assert IdsOf([e] + rest) == {ids[0]} + IdsOf(rest);
        [e] + rest
      else rest
  }

  /** Places `x` in a queue sorted by count, before the first entry with a
      smaller or equal count. */
  function Insert(x: QueueEntry, q: seq<QueueEntry>): (r: seq<QueueEntry>)
    requires SortedByCount(q)
    ensures SortedByCount(r)
    ensures multiset(r) == multiset(q) + multiset{x}
    ensures r[0] == x || r[0] == q[0]
  {
    if q == [] || x.flagCount >= q[0].flagCount then [x] + q
    else
      var rest := Insert(x, q[1..]);
      assert q == [q[0]] + q[1..];
      assert q[0].flagCount >= rest[0].flagCount;
      [q[0]] + rest
  }

  /** Reordering a queue keeps its set of ids. */
  lemma SameEntriesSameIds(a: seq<QueueEntry>, b: seq<QueueEntry>)
    requires multiset(a) == multiset(b)
    ensures IdsOf(a) == IdsOf(b)
  {
    forall id | id in IdsOf(a) ensures id in IdsOf(b) {
      var e :| e in a && e.circleId == id;
      assert e in multiset(b);
    }
    forall id | id in IdsOf(b) ensures id in IdsOf(a) {
      var e :| e in b && e.circleId == id;
      assert e in multiset(a);
    }
  }

  /** Inserting an entry whose id is new into a queue without repeated ids
      gives a queue without repeated ids. */
  lemma {:induction false} InsertUnique(x: QueueEntry, q: seq<QueueEntry>)
    requires SortedByCount(q) && UniqueIds(q) && x.circleId !in IdsOf(q)
    ensures UniqueIds(Insert(x, q))
  {
    if q != [] && x.flagCount < q[0].flagCount {
      var tail := q[1..];
      assert IdsOf(tail) <= IdsOf(q) by {
        forall id | id in IdsOf(tail) ensures id in IdsOf(q) {
          var e :| e in tail && e.circleId == id;
          assert e in q;
        }
      }
      InsertUnique(x, tail);
      var rest := Insert(x, tail);
      forall k | 0 <= k < |rest| ensures rest[k].circleId != q[0].circleId {
        assert rest[k] in multiset(rest);
        if rest[k] != x {
          assert rest[k] in tail;
          var m :| 0 <= m < |tail| && tail[m] == rest[k];
          assert tail[m] == q[m + 1];
        } else {
          assert q[0] in q;
        }
      }
    }
  }

  /** Insertion sort by count, most flags first. */
  function SortByCount(q: seq<QueueEntry>): (r: seq<QueueEntry>)
    ensures SortedByCount(r)
    ensures multiset(r) == multiset(q)
  {
    if q == [] then []
    else
      assert q == [q[0]] + q[1..];
      Insert(q[0], SortByCount(q[1..]))
  }

  /** Sorting a queue without repeated ids gives one without repeated ids. */
  lemma {:induction false} SortUnique(q: seq<QueueEntry>)
    requires UniqueIds(q)
    ensures UniqueIds(SortByCount(q))
  {
    if q != [] {
      var tail := q[1..];
      assert UniqueIds(tail) by {
        forall i, j | 0 <= i < j < |tail| ensures tail[i].circleId != tail[j].circleId {
          assert tail[i] == q[i + 1] && tail[j] == q[j + 1];
        }
      }
      SortUnique(tail);
      var rest := SortByCount(tail);
      SameEntriesSameIds(rest, tail);
      assert q[0].circleId !in IdsOf(tail);
      InsertUnique(q[0], rest);
    }
  }

  /** The queue for the current tables: exactly the existing circles with at
      least one flag, each once, each with its number of flag rows, ordered
      by that number, most first. */
  function Queue(circles: map<int, Circle>, flags: seq<Flag>): (q: seq<QueueEntry>)
    ensures SortedByCount(q)
    ensures UniqueIds(q)
    ensures IdsOf(q) == set id | id in circles && FlagCount(flags, id) > 0
    ensures forall e :: e in q ==>
              e.circleId in circles && e.circle == circles[e.circleId] &&
              e.flagCount == FlagCount(flags, e.circleId) && e.flagCount > 0
  {
    var ids := FlaggedIds(flags);
    var es := Entries(ids, circles, flags);
    var q := SortByCount(es);
    QueueFacts(ids, es, q, circles, flags);
    q
  }

  lemma QueueFacts(ids: seq<int>, es: seq<QueueEntry>, q: seq<QueueEntry>, circles: map<int, Circle>, flags: seq<Flag>)
    requires ids == FlaggedIds(flags) && es == Entries(ids, circles, flags) && q == SortByCount(es)
    ensures UniqueIds(q)
    ensures IdsOf(q) == set id | id in circles && FlagCount(flags, id) > 0
    ensures forall e :: e in q ==>
              e.circleId in circles && e.circle == circles[e.circleId] &&
              e.flagCount == FlagCount(flags, e.circleId) && e.flagCount > 0
  {
    SameEntriesSameIds(q, es);
    SortUnique(es);
    assert (set id | id in ids && id in circles) == set id | id in circles && FlagCount(flags, id) > 0;
    forall e | e in q
      ensures e.circleId in circles && e.circle == circles[e.circleId]
      ensures e.flagCount == FlagCount(flags, e.circleId) && e.flagCount > 0
    {
      assert e in multiset(q);
      assert e in es;
      assert e.circleId in IdsOf(es);
    }
  }

  /** Circle 1 with three flags and circle 2 with one: the queue is circle 1
      then circle 2. */
  lemma QueueScenario(a: Circle, b: Circle)
    ensures Queue(map[1 := a, 2 := b], [Flag(1, 10), Flag(2, 11), Flag(1, 12), Flag(1, 13)])
            == [QueueEntry(1, a, 3), QueueEntry(2, b, 1)]
  {
    var circles := map[1 := a, 2 := b];
    var flags := [Flag(1, 10), Flag(2, 11), Flag(1, 12), Flag(1, 13)];
    assert flags[..3] == [Flag(1, 10), Flag(2, 11), Flag(1, 12)];
    assert flags[..3][..2] == flags[..2] == [Flag(1, 10), Flag(2, 11)];
    assert flags[..2][..1] == [Flag(1, 10)];
    assert [Flag(1, 10)][..0] == [];
    assert FlaggedIds([Flag(1, 10)]) == [1];
    assert FlaggedIds(flags[..2]) == [1, 2];
    assert FlaggedIds(flags[..3]) == [1, 2];
    assert FlaggedIds(flags) == [1, 2];
    assert FlagCount(flags, 1) == 3 && FlagCount(flags, 2) == 1;
    var e1, e2 := QueueEntry(1, a, 3), QueueEntry(2, b, 1);
    assert Entries([1, 2], circles, flags) == [e1, e2] by {
      assert [1, 2][1..] == [2];
      assert Entries([2], circles, flags) == [e2];
    }
    assert SortByCount([e1, e2]) == [e1, e2] by {
      assert [e1, e2][1..] == [e2];
      assert SortByCount([e2]) == [e2];
    }
  }
}
