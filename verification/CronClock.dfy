/**
 From local time labels to UTC: what a crontab item matches around a change of the clock
 (bistro/cron/StandardCrontabItem.cpp, bistro/cron/utils/date_time.h).

 The timezone has one change of offset.  A label is the count of seconds its local clock shows.
 */
module CronClock {
  import opened Options

  const NOT_A_TIME: int := -1

  // UTC instants before `change` have the offset `before`, others the offset `after`.
  datatype Zone = Zone(change: int, before: int, after: int)

  // A whole number of minutes.
  predicate Whole(x: int) {
    x % 60 == 0
  }

  lemma WholeSum(x: int, y: int)
    requires Whole(x) && Whole(y)
    ensures Whole(x + y) && Whole(x - y)
  {
    assert x + y == 60 * (x / 60 + y / 60) && x - y == 60 * (x / 60 - y / 60);
  }

  // Whole minutes.  The instants of a repeated span, and the 25 hours before a skip, lie after the
  // epoch, since the timestamp -1 stands for "no time".
  predicate ZoneOK(z: Zone) {
    && Whole(z.change) && Whole(z.before) && Whole(z.after)
    && 90000 <= z.change && z.before - z.after <= z.change
  }

  function Local(z: Zone, t: int): int {
    t + if t < z.change then z.before else z.after
  }

  // ------------------------------------------------------------ UTCTimestampsForLocalTime

  datatype Stamps = Stamps(one: int, other: int)

  predicate IsNotATime(ts: Stamps) {
    ts.one == NOT_A_TIME && ts.other == NOT_A_TIME
  }

  predicate IsAmbiguous(ts: Stamps) {
    ts.one != NOT_A_TIME && ts.other != NOT_A_TIME
  }

  function Unique(ts: Stamps): int
    requires !IsAmbiguous(ts) && !IsNotATime(ts)
  {
    if ts.one != NOT_A_TIME then ts.one else ts.other
  }

  function InOrder(ts: Stamps): (int, int)
    requires IsAmbiguous(ts)
  {
    if ts.one < ts.other then (ts.one, ts.other) else (ts.other, ts.one)
  }

  function ToUTC(z: Zone, x: int): Stamps {
    Stamps(if x - z.before < z.change then x - z.before else NOT_A_TIME,
           if z.change <= x - z.after then x - z.after else NOT_A_TIME)
  }

  // The labels shown twice, and the labels never shown.
  predicate Repeated(z: Zone, x: int) {
    z.change + z.after <= x < z.change + z.before
  }

  predicate Skipped(z: Zone, x: int) {
    z.change + z.before <= x < z.change + z.after
  }

  // The conversion is exact: the timestamps of a label are the instants that show it.
  lemma ToUTCExactly(z: Zone, x: int, t: int)
    requires ZoneOK(z) && t != NOT_A_TIME
    ensures Local(z, t) == x <==> t == ToUTC(z, x).one || t == ToUTC(z, x).other
  {}

  lemma ToUTCKinds(z: Zone, x: int)
    requires ZoneOK(z) && (Whole(x) || Repeated(z, x) || z.change + z.before - 90000 <= x)
    ensures IsAmbiguous(ToUTC(z, x)) <==> Repeated(z, x)
    ensures IsNotATime(ToUTC(z, x)) <==> Skipped(z, x)
    ensures Repeated(z, x) ==> InOrder(ToUTC(z, x)) == (x - z.before, x - z.after)
  {
    if Whole(x) {
      WholeSum(x, z.before);
      WholeSum(x, z.after);
    }
  }

  // ------------------------------------------------------------ finding the change

  predicate IsBeforeRewind(t: int, ts: Stamps)
    requires IsAmbiguous(ts) && (t == ts.one || t == ts.other)
  {
    t == InOrder(ts).0
  }

  // std::partition_point on the instants from lo to hi.
  function RewindBetween(z: Zone, lo: int, hi: int): (r: int)
    requires ZoneOK(z) && z.change - (z.before - z.after) <= lo <= z.change <= hi <= z.change + (z.before - z.after)
    requires z.after < z.before
    ensures r == z.change
    decreases hi - lo
  {
    if lo == hi then lo
    else
      var mid := lo + (hi - lo) / 2;
      ToUTCKinds(z, Local(z, mid));
      if IsBeforeRewind(mid, ToUTC(z, Local(z, mid))) then RewindBetween(z, mid + 1, hi) else RewindBetween(z, lo, mid)
  }

  // The first label, from lo to hi, that is never shown (std::upper_bound).
  function FirstSkipped(z: Zone, lo: int, hi: int): (x: int)
    requires ZoneOK(z) && z.change + z.before - 90000 <= lo <= z.change + z.before <= hi < z.change + z.after
    ensures x == z.change + z.before
    decreases hi - lo
  {
    if lo == hi then lo
    else
      var mid := lo + (hi - lo) / 2;
      ToUTCKinds(z, mid);
      if IsNotATime(ToUTC(z, mid)) then FirstSkipped(z, lo, mid) else FirstSkipped(z, mid + 1, hi)
  }

  // How far back findPreSkipUTCTime looks for a label that is shown, in hours.
  const HOURS_BACK: seq<int> := [1, 2, 3, 6, 12, 24, 25]

  function LastShown(z: Zone, x: int, i: nat): Option<int>
    requires i <= |HOURS_BACK|
    decreases |HOURS_BACK| - i
  {
    if i == |HOURS_BACK| then None
    else if !IsNotATime(ToUTC(z, x - 3600 * HOURS_BACK[i])) then Some(x - 3600 * HOURS_BACK[i])
    else LastShown(z, x, i + 1)
  }

  lemma {:induction false} LastShownIsBefore(z: Zone, x: int, i: nat)
    requires ZoneOK(z) && Skipped(z, x) && Whole(x) && i <= |HOURS_BACK|
    requires i == 0 || z.change + z.before <= x - 3600 * HOURS_BACK[i - 1]
    ensures LastShown(z, x, i).Some? <==> x - 90000 < z.change + z.before
    ensures LastShown(z, x, i).Some? ==>
      z.change + z.before - 90000 <= LastShown(z, x, i).value < z.change + z.before
    decreases |HOURS_BACK| - i
  {
    if i < |HOURS_BACK| {
      var back := x - 3600 * HOURS_BACK[i];
      WholeSum(x, 3600 * HOURS_BACK[i]);
      ToUTCKinds(z, back);
      if IsNotATime(ToUTC(z, back)) {
        LastShownIsBefore(z, x, i + 1);
      }
    }
  }

  // findPreSkipUTCTime: the last second before the skip; None where the source gives up.
  function PreSkip(z: Zone, x: int): (r: Option<int>)
    requires ZoneOK(z) && Skipped(z, x) && Whole(x)
    ensures r == if x - 90000 < z.change + z.before then Some(z.change - 1) else None
  {
    LastShownIsBefore(z, x, 0);
    match LastShown(z, x, 0)
    case None => None
    case Some(lo) =>
      var first := FirstSkipped(z, lo, x);
      ToUTCKinds(z, first - 1);
      Some(Unique(ToUTC(z, first - 1)))
  }
}
