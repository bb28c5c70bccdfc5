/** Small shared vocabulary: optional values, the LINQ operators the
    controllers and services query with, and the calendar arithmetic that
    .NET's DateOnly, TimeOnly and DateTime perform. */
module Wrappers {
  datatype Option<+T> = None | Some(value: T) {
    function GetOr(default: T): T {
      match this
      case Some(v) => v
      case None => default
    }
  }
}

/** The LINQ operators over an in-memory table, in table order. */
module Linq {
  import opened Wrappers

  /** Enumerable.Any(predicate): stops at the first row that satisfies p. */
  function Any<T>(s: seq<T>, p: T -> bool): (r: bool)
    ensures r <==> exists i :: 0 <= i < |s| && p(s[i])
  {
    if s == [] then false
    else if p(s[0]) then
      assert p(s[0]);
      true
    else
      var rest := Any(s[1..], p);
      assert forall i :: 1 <= i < |s| ==> s[i] == s[1..][i - 1];
      rest
  }

  /** Enumerable.Where(predicate): the rows satisfying p, in their order. */
  function Where<T(!new)>(s: seq<T>, p: T -> bool): (r: seq<T>)
    ensures |r| <= |s|
    ensures forall x :: x in r <==> x in s && p(x)
    ensures multiset(r) <= multiset(s)
    ensures forall x :: multiset(r)[x] == if p(x) then multiset(s)[x] else 0
  {
    if s == [] then []
    else
      var rest := Where(s[1..], p);
      assert s == [s[0]] + s[1..];
      assert multiset(s) == multiset{s[0]} + multiset(s[1..]);
      if p(s[0]) then [s[0]] + rest else rest
  }

  /** Where keeps pairwise distinct rows pairwise distinct. */
  lemma {:induction false} WhereDistinct<T(!new)>(s: seq<T>, p: T -> bool)
    ensures (forall i, j :: 0 <= i < j < |s| ==> s[i] != s[j]) ==>
              forall a, b :: 0 <= a < b < |Where(s, p)| ==> Where(s, p)[a] != Where(s, p)[b]
    decreases |s|
  {
    if s != [] && forall i, j :: 0 <= i < j < |s| ==> s[i] != s[j] {
      var tail := s[1..];
      assert forall i, j :: 0 <= i < j < |tail| ==> tail[i] != tail[j] by {
        forall i, j | 0 <= i < j < |tail| ensures tail[i] != tail[j] {
          assert tail[i] == s[i + 1] && tail[j] == s[j + 1];
        }
      }
      WhereDistinct(tail, p);
      assert s[0] !in tail by {
        forall k | 0 <= k < |tail| ensures tail[k] != s[0] {
          assert tail[k] == s[k + 1];
        }
      }
    }
  }

  /** Enumerable.Select(selector): f applied to every row, in order. */
  function Select<T, U>(s: seq<T>, f: T -> U): (r: seq<U>)
    ensures |r| == |s| && forall i :: 0 <= i < |s| ==> r[i] == f(s[i])
  {
    if s == [] then [] else [f(s[0])] + Select(s[1..], f)
  }

  lemma {:induction false} SelectMembers<T, U>(s: seq<T>, f: T -> U)
    ensures forall y :: y in Select(s, f) <==> exists x :: x in s && y == f(x)
  {
    var r := Select(s, f);
    forall y | y in r ensures exists x :: x in s && y == f(x) {
      var i :| 0 <= i < |r| && r[i] == y;
      assert s[i] in s;
    }
    forall y, x | x in s && y == f(x) ensures y in r {
      var i :| 0 <= i < |s| && s[i] == x;
      assert r[i] == y;
    }
  }

  /** Enumerable.SelectMany(selector), which is also what nested foreach loops
      appending to one list produce: the sequences f(x), one after another. */
  function SelectMany<A, T>(s: seq<A>, f: A -> seq<T>): seq<T> {
    if s == [] then [] else SelectMany(s[..|s| - 1], f) + f(s[|s| - 1])
  }

  lemma SelectManySnoc<A, T>(s: seq<A>, x: A, f: A -> seq<T>)
    ensures SelectMany(s + [x], f) == SelectMany(s, f) + f(x)
  {
    assert (s + [x])[..|s|] == s;
  }

  /** Every f(x) of width w: |s| * w elements in all. */
  lemma {:induction false} SelectManyLength<A, T>(s: seq<A>, f: A -> seq<T>, w: nat)
    requires forall i :: 0 <= i < |s| ==> |f(s[i])| == w
    ensures |SelectMany(s, f)| == |s| * w
    decreases |s|
  {
    if s != [] {
      SelectManyLength(s[..|s| - 1], f, w);
      assert (|s| - 1) * w + w == |s| * w;
    }
  }

  /** Element j of f(s[i]) comes right after the elements of the earlier f(s[..i]). */
  lemma {:induction false} SelectManyAt<A, T>(s: seq<A>, f: A -> seq<T>, i: nat, j: nat)
    requires i < |s| && j < |f(s[i])|
    ensures |SelectMany(s[..i], f)| + j < |SelectMany(s, f)|
    ensures SelectMany(s, f)[|SelectMany(s[..i], f)| + j] == f(s[i])[j]
    decreases |s|
  {
    var m := |s| - 1;
    var front := s[..m];
    assert SelectMany(s, f) == SelectMany(front, f) + f(s[m]);
    if i < m {
      assert front[..i] == s[..i];
      assert front[i] == s[i];
      SelectManyAt(front, f, i, j);
    } else {
      assert s[..i] == front;
    }
  }

  /** The position of the row FirstOrDefault(predicate) returns, if any. */
  function FirstIndex<T>(s: seq<T>, p: T -> bool): (r: Option<nat>)
    ensures r.None? <==> forall i :: 0 <= i < |s| ==> !p(s[i])
    ensures r.Some? ==> r.value < |s| && p(s[r.value])
    ensures r.Some? ==> forall i :: 0 <= i < r.value ==> !p(s[i])
  {
    if s == [] then None
    else if p(s[0]) then Some(0)
    else
      var rest := FirstIndex(s[1..], p);
      assert forall i :: 1 <= i < |s| ==> s[i] == s[1..][i - 1];
      if rest.Some? then Some(rest.value + 1) else None
  }

  /** Enumerable.FirstOrDefault(predicate), with null as None. */
  function FirstOrDefault<T>(s: seq<T>, p: T -> bool): (r: Option<T>)
    ensures r.None? <==> forall i :: 0 <= i < |s| ==> !p(s[i])
    ensures r.Some? ==> exists i :: 0 <= i < |s| && s[i] == r.value && p(s[i]) &&
                         forall j :: 0 <= j < i ==> !p(s[j])
  {
    var k := FirstIndex(s, p);
    if k.Some? then Some(s[k.value]) else None
  }
}

/** Dates, times of day and local instants, at a granularity of one second.
    A date is DateOnly.DayNumber: day 0 is Monday 0001-01-01. */
module Calendar {
  type Day = int

  const SecondsPerDay: int := 86400
  const SecondsPerHour: int := 3600
  const SecondsPerMinute: int := 60

  /** A TimeOnly value: seconds since midnight. */
  type TimeOfDay = t: int | 0 <= t < SecondsPerDay

  /** A local DateTime value: seconds since 0001-01-01 00:00:00. */
  type Instant = int

  /** System.DayOfWeek numbering: Sunday = 0, Monday = 1, ..., Saturday = 6. */
  const Sunday: int := 0
  const Monday: int := 1
  const Thursday: int := 4
  const Friday: int := 5

  function HourMinute(h: int, m: int): int { h * SecondsPerHour + m * SecondsPerMinute }

  /** DateOnly.DayOfWeek: day 0 is a Monday. */
  function DayOfWeek(d: Day): (r: int)
    ensures 0 <= r < 7
    ensures r == Monday <==> d % 7 == 0
  {
    (d + 1) % 7
  }

  /** new DateTime(date, time): the instant at time t of day d. */
  function At(d: Day, t: TimeOfDay): Instant { d * SecondsPerDay + t }

  /** DateOnly.FromDateTime. */
  function DateOf(i: Instant): Day { i / SecondsPerDay }

  /** TimeOnly.FromDateTime. */
  function TimeOf(i: Instant): TimeOfDay { i % SecondsPerDay }

  /** TimeOnly.Minute: the minute within the hour. */
  function MinuteOf(t: TimeOfDay): (r: int)
    ensures 0 <= r < 60
  {
    (t / SecondsPerMinute) % 60
  }

  /** An instant is its date and its time of day put back together. */
  lemma DateTimeParts(i: Instant)
    ensures At(DateOf(i), TimeOf(i)) == i
  {
  }

  lemma AtParts(d: Day, t: TimeOfDay)
    ensures DateOf(At(d, t)) == d && TimeOf(At(d, t)) == t
  {
    var i := At(d, t);
    assert i == d * SecondsPerDay + t;
    DivModUnique(i, d, t);
  }

  lemma DivModUnique(i: int, q: int, r: int)
    requires 0 <= r < SecondsPerDay && i == q * SecondsPerDay + r
    ensures i / SecondsPerDay == q && i % SecondsPerDay == r
  {
  }

  /** Instants order first by date, then by time of day. */
  lemma AtOrder(d1: Day, t1: TimeOfDay, d2: Day, t2: TimeOfDay)
    ensures At(d1, t1) < At(d2, t2) <==> d1 < d2 || (d1 == d2 && t1 < t2)
  {
    if d1 < d2 {
      assert At(d1, t1) < (d1 + 1) * SecondsPerDay <= At(d2, t2);
    } else if d2 < d1 {
      assert At(d2, t2) < (d2 + 1) * SecondsPerDay <= At(d1, t1);
    }
  }

  /** Instants with date d are exactly those in [At(d, 0), At(d + 1, 0)). */
  lemma DateOfBounds(i: Instant, d: Day)
    ensures DateOf(i) == d <==> d * SecondsPerDay <= i < (d + 1) * SecondsPerDay
  {
    DateTimeParts(i);
    var q := DateOf(i);
    if q < d {
      assert i < (q + 1) * SecondsPerDay <= d * SecondsPerDay;
    } else if q > d {
      assert i >= q * SecondsPerDay >= (d + 1) * SecondsPerDay;
    }
  }
}

/** The string tests the controllers apply to names. */
module Text {
  /** char.IsWhiteSpace: Unicode categories Zs, Zl and Zp, and U+0009..U+000D, U+0085. */
  predicate IsWhiteSpace(c: char) {
    c == ' ' || ('\t' <= c <= '\r') || c == '\U{0085}' || c == '\U{00A0}' || c == '\U{1680}' ||
    ('\U{2000}' <= c <= '\U{200A}') || c == '\U{2028}' || c == '\U{2029}' || c == '\U{202F}' ||
    c == '\U{205F}' || c == '\U{3000}'
  }

  predicate IsBlank(s: string) {
    forall i :: 0 <= i < |s| ==> IsWhiteSpace(s[i])
  }

  /** string.Trim(): drops leading and trailing white space. */
  function Trim(s: string): (r: string)
    ensures r == [] || (!IsWhiteSpace(r[0]) && !IsWhiteSpace(r[|r| - 1]))
    ensures exists a, b :: 0 <= a <= b <= |s| && r == s[a..b] && IsBlank(s[..a]) && IsBlank(s[b..])
  {
    var a := TrimStart(s, 0);
    var b := TrimEnd(s, a, |s|);
    s[a..b]
  }

  function TrimStart(s: string, a: nat): (r: nat)
    requires a <= |s|
    requires IsBlank(s[..a])
    ensures a <= r <= |s| && IsBlank(s[..r]) && (r == |s| || !IsWhiteSpace(s[r]))
    decreases |s| - a
  {
    if a < |s| && IsWhiteSpace(s[a]) then
      assert s[..a + 1] == s[..a] + [s[a]];
      TrimStart(s, a + 1)
    else a
  }

  function TrimEnd(s: string, a: nat, b: nat): (r: nat)
    requires a <= b <= |s|
    requires IsBlank(s[b..])
    requires a == |s| || !IsWhiteSpace(s[a])
    ensures a <= r <= b && IsBlank(s[r..]) && (r == a || !IsWhiteSpace(s[r - 1]))
    decreases b - a
  {
    if a < b && IsWhiteSpace(s[b - 1]) then
      assert s[b - 1..] == [s[b - 1]] + s[b..];
      TrimEnd(s, a, b - 1)
    else b
  }
}
