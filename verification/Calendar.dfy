/** Cron occurrences in a time zone: wall-clock times that do not exist are skipped, and a wall-clock
    time that occurs twice fires only the first time. Instants and wall times count seconds. */
module Calendar {
  import opened Wrappers

  // From the instant `at` on, local time is `offset` ahead of UTC.
  datatype Shift = Shift(at: int, offset: int)

  datatype Zone = Zone(base: int, shifts: seq<Shift>)

  // The offset in force before shift i.
  function Before(z: Zone, i: nat): int
    requires i < |z.shifts|
  {
    if i == 0 then z.base else z.shifts[i - 1].offset
  }

  function Max(a: int, b: int): int { if a < b then b else a }

  function Min(a: int, b: int): int { if a < b then a else b }

  // Wall times from Lower up to Upper either do not exist or occur twice.
  function Upper(z: Zone, i: nat): int
    requires i < |z.shifts|
  {
    z.shifts[i].at + Max(Before(z, i), z.shifts[i].offset)
  }

  function Lower(z: Zone, i: nat): int
    requires i < |z.shifts|
  {
    z.shifts[i].at + Min(Before(z, i), z.shifts[i].offset)
  }

  // One gap or overlap is over before the next begins.
  ghost predicate Separated(z: Zone) {
    forall i | 0 < i < |z.shifts| :: Upper(z, i - 1) <= Lower(z, i)
  }

  // The offset at an instant, of the last of the first n shifts that is not later.
  function OffsetAt(z: Zone, n: nat, u: int): int
    requires n <= |z.shifts|
  {
    if n == 0 then z.base
    else if z.shifts[n - 1].at <= u then z.shifts[n - 1].offset
    else OffsetAt(z, n - 1, u)
  }

  // The offset PEP 495 gives a wall time with fold=0: a shift counts from its Upper on.
  function OffsetOfWall(z: Zone, n: nat, w: int): int
    requires n <= |z.shifts|
  {
    if n == 0 then z.base
    else if Upper(z, n - 1) <= w then z.shifts[n - 1].offset
    else OffsetOfWall(z, n - 1, w)
  }

  function Local(z: Zone, u: int): int {
    u + OffsetAt(z, |z.shifts|, u)
  }

  function ToUtc(z: Zone, w: int): int {
    w - OffsetOfWall(z, |z.shifts|, w)
  }

  lemma {:induction false} BeforeShift(z: Zone, n: nat, u: int)
    requires Separated(z) && n < |z.shifts| && u < z.shifts[n].at
    ensures u + OffsetAt(z, n, u) < z.shifts[n].at + Before(z, n)
  {
    if n > 0 && u < z.shifts[n - 1].at {
      BeforeShift(z, n - 1, u);
      assert Upper(z, n - 1) <= Lower(z, n);
    }
  }

  lemma {:induction false} FirstOfPrefix(z: Zone, n: nat, u: int)
    requires Separated(z) && n <= |z.shifts|
    ensures var w := u + OffsetAt(z, n, u);
            var c := w - OffsetOfWall(z, n, w);
            && c <= u && c + OffsetAt(z, n, c) == w
            && (n > 0 && w < Upper(z, n - 1) ==> c < z.shifts[n - 1].at)
  {
    if n > 0 {
      var w := u + OffsetAt(z, n, u);
      if u < z.shifts[n - 1].at {
        BeforeShift(z, n - 1, u);
        FirstOfPrefix(z, n - 1, u);
      } else if w < Upper(z, n - 1) && n > 1 {
        assert Upper(z, n - 2) <= Lower(z, n - 1);
      }
    }
  }

  lemma {:induction false} FirstsAscend(z: Zone, n: nat, u: int, v: int)
    requires Separated(z) && n <= |z.shifts|
    requires u + OffsetAt(z, n, u) < v + OffsetAt(z, n, v)
    ensures var w := u + OffsetAt(z, n, u);
            var x := v + OffsetAt(z, n, v);
            w - OffsetOfWall(z, n, w) < x - OffsetOfWall(z, n, x)
  {
    if n > 0 {
      var w := u + OffsetAt(z, n, u);
      var x := v + OffsetAt(z, n, v);
      FirstOfPrefix(z, n, u);
      FirstOfPrefix(z, n, v);
      if x < Upper(z, n - 1) {
        FirstsAscend(z, n - 1, w - OffsetOfWall(z, n, w), x - OffsetOfWall(z, n, x));
      }
    }
  }

  ghost predicate Exists(z: Zone, w: int) {
    exists u :: Local(z, u) == w
  }

  /** The instant given to a wall time maps back to it exactly when the wall time exists, and is then
      its first occurrence. */
  lemma FoldZeroIsFirst(z: Zone, w: int)
    requires Separated(z)
    ensures Local(z, ToUtc(z, w)) == w <==> Exists(z, w)
    ensures forall u | Local(z, u) == w :: ToUtc(z, w) <= u
  {
    forall u | Local(z, u) == w ensures Local(z, ToUtc(z, w)) == w && ToUtc(z, w) <= u {
      FirstOfPrefix(z, |z.shifts|, u);
    }
  }

  /** First occurrences come in the order of their wall times. */
  lemma FirstOccurrencesAscend(z: Zone, w: int, x: int)
    requires Separated(z) && Exists(z, w) && Exists(z, x)
    ensures w < x <==> ToUtc(z, w) < ToUtc(z, x)
  {
    var u :| Local(z, u) == w;
    var v :| Local(z, v) == x;
    if w < x { FirstsAscend(z, |z.shifts|, u, v); }
    if x < w { FirstsAscend(z, |z.shifts|, v, u); }
  }

  /******* Schedules *******/

  // An accepted cron expression: which wall times it names, and the library's step to the next one.
  datatype Schedule = Schedule(matches: int -> bool, next: int -> Option<int>)

  // The step is to the least later match, if one comes within the horizon of fifty years.
  ghost predicate Steps(s: Schedule, horizon: nat) {
    forall w ::
      match s.next(w)
      case Some(x) => w < x && s.matches(x) && forall y | w < y < x :: !s.matches(y)
      case None => forall y | w < y <= w + horizon :: !s.matches(y)
  }

  // The schedule's meaning: the first occurrence of a wall time the expression names.
  ghost predicate Fires(z: Zone, s: Schedule, u: int) {
    s.matches(Local(z, u)) && forall v | Local(z, v) == Local(z, u) :: u <= v
  }

  ghost predicate QuietUntil(z: Zone, s: Schedule, after: int, wall: int) {
    forall u | after < u && Fires(z, s, u) :: wall < Local(z, u)
  }

  lemma FiresOnlyAtFold0(z: Zone, s: Schedule, u: int)
    requires Separated(z)
    ensures Fires(z, s, u) <==> s.matches(Local(z, u)) && ToUtc(z, Local(z, u)) == u
  {
    FoldZeroIsFirst(z, Local(z, u));
  }

  lemma QuietAtStart(z: Zone, s: Schedule, after: int)
    requires Separated(z)
    ensures QuietUntil(z, s, after, Local(z, after))
  {
    forall u | after < u && Fires(z, s, u) ensures Local(z, after) < Local(z, u) {
      FiresOnlyAtFold0(z, s, u);
      FoldZeroIsFirst(z, Local(z, after));
      FirstOccurrencesAscend(z, Local(z, after), Local(z, u));
    }
  }

  lemma QuietStep(z: Zone, s: Schedule, after: int, wall: int, next: int)
    requires Separated(z) && QuietUntil(z, s, after, wall)
    requires wall < next && forall y | wall < y < next :: !s.matches(y)
    requires ToUtc(z, next) <= after || Local(z, ToUtc(z, next)) != next
    ensures QuietUntil(z, s, after, next)
  {
    forall u | after < u && Fires(z, s, u) ensures next < Local(z, u) {
      FiresOnlyAtFold0(z, s, u);
    }
  }

  lemma FoundIsLeast(z: Zone, s: Schedule, after: int, wall: int, found: int)
    requires Separated(z) && QuietUntil(z, s, after, wall)
    requires wall < found && s.matches(found) && forall y | wall < y < found :: !s.matches(y)
    requires Local(z, ToUtc(z, found)) == found
    ensures Fires(z, s, ToUtc(z, found))
    ensures forall u | after < u < ToUtc(z, found) :: !Fires(z, s, u)
  {
    FiresOnlyAtFold0(z, s, ToUtc(z, found));
    forall u | after < u < ToUtc(z, found) ensures !Fires(z, s, u) {
      if Fires(z, s, u) {
        FiresOnlyAtFold0(z, s, u);
        FirstOccurrencesAscend(z, Local(z, u), found);
      }
    }
  }

  // The n-th match after a wall time.
  function Nth(s: Schedule, wall: int, n: nat): Option<int> {
    if n == 0 then Some(wall)
    else
      var last := Nth(s, wall, n - 1);
      if last.None? then None else s.next(last.value)
  }

  const TRIES: nat := 10000

  ghost predicate IsNext(z: Zone, s: Schedule, after: int, u: int) {
    after < u && Fires(z, s, u) && forall v | after < v < u :: !Fires(z, s, v)
  }

  // Why there is no answer: the library ran out of matches, or too many matches never fire.
  ghost predicate Exhausted(z: Zone, s: Schedule, horizon: nat, after: int) {
    exists n: nat ::
      && n <= 10000
      && var last := Nth(s, Local(z, after), n);
      && last.Some?
      && if n == 10000 then QuietUntil(z, s, after, last.value)
         else s.next(last.value).None? && QuietUntil(z, s, after, last.value + horizon)
  }

  // One of the first n matches after a wall time fires later than the instant.
  ghost predicate FiresAmong(z: Zone, s: Schedule, after: int, n: nat) {
    exists k: nat, u :: 0 < k <= n && after < u && Fires(z, s, u) && Nth(s, Local(z, after), k) == Some(Local(z, u))
  }

  // A match that does not fire adds nothing.
  lemma NoneAmongMore(z: Zone, s: Schedule, after: int, n: nat, wall: int)
    requires Separated(z) && !FiresAmong(z, s, after, n) && Nth(s, Local(z, after), n) == Some(wall)
    ensures FiresAmong(z, s, after, n + 1) <==>
              && s.next(wall).Some?
              && after < ToUtc(z, s.next(wall).value)
              && Local(z, ToUtc(z, s.next(wall).value)) == s.next(wall).value
              && s.matches(s.next(wall).value)
  {
    if k: nat, u :| 0 < k <= n + 1 && after < u && Fires(z, s, u) && Nth(s, Local(z, after), k) == Some(Local(z, u)) {
      assert k == n + 1;
      FiresOnlyAtFold0(z, s, u);
    }
    if s.next(wall).Some? {
      var u := ToUtc(z, s.next(wall).value);
      assert Nth(s, Local(z, after), n + 1) == s.next(wall);
      if after < u && Local(z, u) == s.next(wall).value && s.matches(Local(z, u)) {
        FiresOnlyAtFold0(z, s, u);
        assert 0 < n + 1 <= n + 1 && Nth(s, Local(z, after), n + 1) == Some(Local(z, u));
      }
    }
  }

  lemma {:induction false} NoneEver(z: Zone, s: Schedule, after: int, n: nat, m: nat)
    requires !FiresAmong(z, s, after, n) && n <= m && Nth(s, Local(z, after), n).Some?
    requires s.next(Nth(s, Local(z, after), n).value).None?
    ensures !FiresAmong(z, s, after, m)
    ensures m > n ==> Nth(s, Local(z, after), m).None?
  {
    if m > n {
      NoneEver(z, s, after, n, m - 1);
    }
  }

  /** The next occurrence after an instant: the least later one, or an error that tells how far every
      match was looked at. */
  method NextOccurrence(zone: Option<Zone>, schedule: Option<Schedule>, ghost horizon: nat, after: int)
    returns (out: Result<int>)
    requires zone.Some? ==> Separated(zone.value)
    requires schedule.Some? ==> Steps(schedule.value, horizon)
    ensures zone.None? || schedule.None? ==> out == Err(InvalidArgument)
    ensures out.Ok? ==> zone.Some? && schedule.Some? && IsNext(zone.value, schedule.value, after, out.value)
    ensures out.Err? ==> out.error == InvalidArgument
    ensures out.Err? && zone.Some? && schedule.Some? ==> Exhausted(zone.value, schedule.value, horizon, after)
    ensures out.Ok? <==> zone.Some? && schedule.Some? && FiresAmong(zone.value, schedule.value, after, 10000)
  {
    if schedule.None? || zone.None? {
      return Err(InvalidArgument);
    }
    var z, s := zone.value, schedule.value;
    var wall := Local(z, after);
    QuietAtStart(z, s, after);
    for i := 0 to TRIES
      invariant Nth(s, Local(z, after), i) == Some(wall)
      invariant QuietUntil(z, s, after, wall)
      invariant !FiresAmong(z, s, after, i)
    {
      var next := s.next(wall);
      NoneAmongMore(z, s, after, i, wall);
      if next.None? {
        NoneEver(z, s, after, i, TRIES);
        return Err(InvalidArgument);
      }
      var candidate := ToUtc(z, next.value);
      if after < candidate && Local(z, candidate) == next.value {
        FoundIsLeast(z, s, after, wall, next.value);
        return Ok(candidate);
      }
      QuietStep(z, s, after, wall, next.value);
      wall := next.value;
    }
    return Err(InvalidArgument);
  }

  // The first |dates| occurrences after an instant, in order.
  ghost predicate AreNext(z: Zone, s: Schedule, after: int, dates: seq<int>) {
    forall i {:trigger Since(after, dates, i)} | 0 <= i < |dates| :: IsNext(z, s, Since(after, dates, i), dates[i])
  }

  // Where the search for entry i starts.
  function Since(after: int, dates: seq<int>, i: nat): int
    requires i <= |dates|
  {
    if i == 0 then after else dates[i - 1]
  }

  lemma NextOneMore(z: Zone, s: Schedule, after: int, dates: seq<int>, u: int)
    requires AreNext(z, s, after, dates) && IsNext(z, s, Since(after, dates, |dates|), u)
    ensures AreNext(z, s, after, dates + [u])
  {
    var longer := dates + [u];
    var n := |dates|;
    forall i | 0 <= i <= n ensures Since(after, longer, i) == Since(after, dates, i) {}
    forall i | 0 <= i <= n ensures IsNext(z, s, Since(after, longer, i), longer[i]) {
      if i < n { assert IsNext(z, s, Since(after, dates, i), dates[i]); }
    }
  }

  method Preview(zone: Option<Zone>, schedule: Option<Schedule>, ghost horizon: nat, after: int, count: nat)
    returns (out: Result<seq<int>>)
    requires zone.Some? ==> Separated(zone.value)
    requires schedule.Some? ==> Steps(schedule.value, horizon)
    ensures out.Ok? ==> |out.value| == count
    ensures out.Ok? && zone.Some? && schedule.Some? ==> AreNext(zone.value, schedule.value, after, out.value)
    ensures out.Ok? && count > 0 ==> zone.Some? && schedule.Some?
    ensures out.Err? && zone.Some? && schedule.Some? ==>
              exists dates: seq<int> ::
                && |dates| < count
                && AreNext(zone.value, schedule.value, after, dates)
                && Exhausted(zone.value, schedule.value, horizon, Since(after, dates, |dates|))
  {
    var cursor := after;
    var dates := [];
    for i := 0 to count
      invariant |dates| == i
      invariant cursor == Since(after, dates, i)
      invariant i > 0 ==> zone.Some? && schedule.Some?
      invariant zone.Some? && schedule.Some? ==> AreNext(zone.value, schedule.value, after, dates)
    {
      var next := NextOccurrence(zone, schedule, horizon, cursor);
      if next.Err? {
        return Err(next.error);
      }
      NextOneMore(zone.value, schedule.value, after, dates, next.value);
      cursor, dates := next.value, dates + [next.value];
    }
    return Ok(dates);
  }

  /** A preview is strictly increasing. */
  lemma {:induction false} PreviewAscends(z: Zone, s: Schedule, after: int, dates: seq<int>, i: nat, j: nat)
    requires AreNext(z, s, after, dates) && i <= j < |dates|
    ensures Since(after, dates, i) < dates[j]
    ensures i < j ==> dates[i] < dates[j]
  {
    assert IsNext(z, s, Since(after, dates, j), dates[j]);
    if i < j {
      PreviewAscends(z, s, after, dates, i, j - 1);
    }
  }

  /** Up to its last entry a preview lists exactly the instants at which the schedule fires. */
  lemma {:induction false} PreviewIsComplete(z: Zone, s: Schedule, after: int, dates: seq<int>, n: nat, u: int)
    requires AreNext(z, s, after, dates) && n <= |dates|
    requires after < u <= Since(after, dates, n)
    ensures Fires(z, s, u) <==> exists i | 0 <= i < n :: dates[i] == u
  {
    if n > 0 {
      assert IsNext(z, s, Since(after, dates, n - 1), dates[n - 1]);
      if u <= Since(after, dates, n - 1) {
        PreviewIsComplete(z, s, after, dates, n - 1, u);
      } else {
        forall i | 0 <= i < n - 1 ensures dates[i] < u {
          PreviewAscends(z, s, after, dates, i, n - 2);
        }
      }
    }
  }

  /** An overlap fires a wall time once, a gap never, and every other match fires. */
  lemma EachExistingMatchFiresOnce(z: Zone, s: Schedule, w: int)
    requires Separated(z) && s.matches(w)
    ensures Exists(z, w) <==> exists u :: Fires(z, s, u) && Local(z, u) == w
    ensures forall u, v | Fires(z, s, u) && Fires(z, s, v) && Local(z, u) == w == Local(z, v) :: u == v
  {
    FoldZeroIsFirst(z, w);
    if Exists(z, w) {
      FiresOnlyAtFold0(z, s, ToUtc(z, w));
    }
  }

  /** Local time is UTC plus the offset of the last shift that has come, and the base before the first. */
  lemma {:induction false} LocalIsTheLastShift(z: Zone, u: int, i: int)
    requires -1 <= i < |z.shifts| && forall k | i < k < |z.shifts| :: u < z.shifts[k].at
    requires i >= 0 ==> z.shifts[i].at <= u
    ensures Local(z, u) == u + if i < 0 then z.base else z.shifts[i].offset
  {
    OffsetIsTheLastShift(z, |z.shifts|, u, i);
  }

  lemma {:induction false} OffsetIsTheLastShift(z: Zone, n: nat, u: int, i: int)
    requires -1 <= i < n <= |z.shifts| || (i == -1 && n == 0)
    requires forall k | i < k < n :: u < z.shifts[k].at
    requires i >= 0 ==> z.shifts[i].at <= u
    ensures OffsetAt(z, n, u) == if i < 0 then z.base else z.shifts[i].offset
  {
    if n > 0 && i < n - 1 {
      OffsetIsTheLastShift(z, n - 1, u, i);
    }
  }
}
