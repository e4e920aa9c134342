/** Rows of the circle side tables (registrations, per-circle tags, flags)
    and the two table operations the handlers issue against them: INSERT,
    which appends a row, and DELETE ... WHERE, which keeps the rows the
    WHERE clause does not match. A table is a sequence of rows in storage
    order; no uniqueness constraint is assumed, so a table may hold the
    same row more than once. */
module Tables {

  /** A row of circles_registrations. */
  datatype Registration = Registration(circleId: int, userId: int)

  /** A row of circle_tags. */
  datatype CircleTag = CircleTag(circleId: int, tag: string)

  /** A row of flags: one user's report against one circle. */
  datatype Flag = Flag(circleId: int, flagUserId: int)

  /** The rows of `s` that `keep` accepts, in their original order. */
  function Filter<T(!new)>(s: seq<T>, keep: T -> bool): (r: seq<T>)
    ensures |r| <= |s|
    ensures forall i :: 0 <= i < |r| ==> keep(r[i])
    ensures forall x :: multiset(r)[x] == if keep(x) then multiset(s)[x] else 0
  {
    if s == [] then []
    else
      var init, last := s[..|s| - 1], s[|s| - 1];
      assert s == init + [last];
      var rest := Filter(init, keep);
      if keep(last) then rest + [last] else rest
  }

  lemma FilterAppend<T(!new)>(s: seq<T>, x: T, keep: T -> bool)
    ensures Filter(s + [x], keep) == if keep(x) then Filter(s, keep) + [x] else Filter(s, keep)
  {
    assert (s + [x])[..|s|] == s;
  }

  /** Filtering with a predicate that accepts every row changes nothing. */
  lemma {:induction false} FilterKeepsAll<T(!new)>(s: seq<T>, keep: T -> bool)
    requires forall i :: 0 <= i < |s| ==> keep(s[i])
    ensures Filter(s, keep) == s
  {
    if s != [] {
      var init := s[..|s| - 1];
      assert s == init + [s[|s| - 1]];
      FilterKeepsAll(init, keep);
      FilterAppend(init, s[|s| - 1], keep);
    }
  }

  /** DELETE ... WHERE every column equals `x`: removes every copy of the row
      `x` and keeps every other row with its multiplicity. */
  function Without<T(==, !new)>(rows: seq<T>, x: T): (r: seq<T>)
    ensures multiset(r) == multiset(rows)[x := 0]
    ensures x !in r
  {
    Filter(rows, Differs(x))
  }

  /** The WHERE clause of a delete that matches only rows equal to `x`. */
  function Differs<T(==, !new)>(x: T): T -> bool {
    row => row != x
  }

  /** Inserting a row and then deleting it leaves the table as deleting it
      alone would; when the row was absent, that is the original table. */
  lemma {:induction false} AddThenRemove<T(!new)>(rows: seq<T>, x: T)
    ensures Without(rows + [x], x) == Without(rows, x)
    ensures x !in rows ==> Without(rows + [x], x) == rows
  {
    FilterAppend(rows, x, Differs(x));
    if x !in rows {
      RemoveAbsent(rows, x);
    }
  }

  /** Deleting a row that is not in the table is a no-op. */
  lemma {:induction false} RemoveAbsent<T(!new)>(rows: seq<T>, x: T)
    requires x !in rows
    ensures Without(rows, x) == rows
  {
    FilterKeepsAll(rows, Differs(x));
  }

  /** DELETE FROM flags WHERE circle_id = c: drops exactly the flags of
      circle `c`. */
  function WithoutCircleFlags(flags: seq<Flag>, c: int): (r: seq<Flag>)
    ensures forall f :: multiset(r)[f] == if f.circleId == c then 0 else multiset(flags)[f]
    ensures forall i :: 0 <= i < |r| ==> r[i].circleId != c
  {
    Filter(flags, OutsideCircle(c))
  }

  /** The rows a `WHERE circle_id = c` delete leaves behind. */
  function OutsideCircle(c: int): Flag -> bool {
    (f: Flag) => f.circleId != c
  }

  /** The number of flag rows that name circle `c`. */
  function FlagCount(flags: seq<Flag>, c: int): (n: nat)
    ensures n <= |flags|
    ensures n == 0 <==> forall i :: 0 <= i < |flags| ==> flags[i].circleId != c
  {
    if flags == [] then 0
    else
      var init, last := flags[..|flags| - 1], flags[|flags| - 1];
      assert flags == init + [last];
      FlagCount(init, c) + if last.circleId == c then 1 else 0
  }

  /** The rows a `WHERE circle_id = c` select returns. */
  function InCircle(c: int): Flag -> bool {
    (f: Flag) => f.circleId == c
  }

  /** A circle's flag count is the number of rows a `WHERE circle_id = c`
      select returns, as `COUNT(*)` under `GROUP BY circle_id` gives. */
  lemma {:induction false} FlagCountRows(flags: seq<Flag>, c: int)
    ensures FlagCount(flags, c) == |Filter(flags, InCircle(c))|
  {
    if flags != [] {
      var init, last := flags[..|flags| - 1], flags[|flags| - 1];
      assert flags == init + [last];
      FlagCountRows(init, c);
      FilterAppend(init, last, InCircle(c));
    }
  }

  /** A new flag raises its own circle's count by one and no other count. */
  lemma FlagCountAppend(flags: seq<Flag>, f: Flag, d: int)
    ensures FlagCount(flags + [f], d) == FlagCount(flags, d) + if f.circleId == d then 1 else 0
  {
    assert (flags + [f])[..|flags|] == flags;
  }

  /** Deleting rows that never name circle `d` leaves `d`'s count unchanged. */
  lemma {:induction false} FlagCountFilter(flags: seq<Flag>, keep: Flag -> bool, d: int)
    requires forall f: Flag :: f.circleId == d ==> keep(f)
    ensures FlagCount(Filter(flags, keep), d) == FlagCount(flags, d)
  {
    if flags != [] {
      var init, last := flags[..|flags| - 1], flags[|flags| - 1];
      assert flags == init + [last];
      FlagCountFilter(init, keep, d);
      FilterAppend(init, last, keep);
      FlagCountAppend(init, last, d);
      FlagCountAppend(Filter(init, keep), last, d);
    }
  }

  /** Clearing a circle's flags zeroes its count and keeps every other
      circle's count. */
  lemma ClearFlagsCounts(flags: seq<Flag>, c: int, d: int)
    ensures FlagCount(WithoutCircleFlags(flags, c), d) == if d == c then 0 else FlagCount(flags, d)
  {
    if d != c {
      FlagCountFilter(flags, OutsideCircle(c), d);
    }
  }

  /** Withdrawing one user's flags on circle `c` keeps every other circle's
      count, and never raises `c`'s. */
  lemma WithdrawFlagCounts(flags: seq<Flag>, c: int, u: int, d: int)
    ensures d != c ==> FlagCount(Without(flags, Flag(c, u)), d) == FlagCount(flags, d)
    ensures FlagCount(Without(flags, Flag(c, u)), c) <= FlagCount(flags, c)
    ensures FlagCount(Without(flags, Flag(c, u)), c) == FlagCount(flags, c) - multiset(flags)[Flag(c, u)]
  {
    if d != c {
      FlagCountFilter(flags, Differs(Flag(c, u)), d);
    }
    FlagCountFilterLe(flags, Differs(Flag(c, u)), c);
    FlagCountWithout(flags, Flag(c, u));
  }

  /** Deleting every copy of one flag row lowers its circle's count by the
      number of copies. */
  lemma {:induction false} FlagCountWithout(flags: seq<Flag>, x: Flag)
    ensures FlagCount(Without(flags, x), x.circleId) == FlagCount(flags, x.circleId) - multiset(flags)[x]
  {
    if flags != [] {
      var init, last := flags[..|flags| - 1], flags[|flags| - 1];
      assert flags == init + [last];
      FlagCountWithout(init, x);
      FilterAppend(init, last, Differs(x));
      FlagCountAppend(init, last, x.circleId);
      FlagCountAppend(Without(init, x), last, x.circleId);
    }
  }

  /** Deleting rows never raises a count. */
  lemma {:induction false} FlagCountFilterLe(flags: seq<Flag>, keep: Flag -> bool, d: int)
    ensures FlagCount(Filter(flags, keep), d) <= FlagCount(flags, d)
  {
    if flags != [] {
      var init, last := flags[..|flags| - 1], flags[|flags| - 1];
      assert flags == init + [last];
      FlagCountFilterLe(init, keep, d);
      FilterAppend(init, last, keep);
      FlagCountAppend(init, last, d);
      FlagCountAppend(Filter(init, keep), last, d);
    }
  }

  /** The tag names of circle `c`, in table order, one per matching row. */
  function TagNames(rows: seq<CircleTag>, c: int): (names: seq<string>)
    ensures forall t :: multiset(names)[t] == multiset(rows)[CircleTag(c, t)]
  {
    if rows == [] then []
    else
      var init, last := rows[..|rows| - 1], rows[|rows| - 1];
      assert rows == init + [last];
      var rest := TagNames(init, c);
      if last.circleId == c then rest + [last.tag] else rest
  }
}
