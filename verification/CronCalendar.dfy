/**
 Labels as a count of minutes, which joins the label search to the clock: the order of labels is
 the order of their counts, and every count in range is the count of a label.
 */
module CronCalendar {
  import opened CronClock
  import opened CronMatch
  import opened CronSearch
  import opened Options

  // Days before January 1 of the year, up to a constant.
  function YearStart(year: int): int {
    365 * year + (year - 1) / 4 - (year - 1) / 100 + (year - 1) / 400
  }

  // Days of the year before the month.
  function MonthStart(year: int, month: int): int {
    var plain := match month
      case 1 => 0
      case 2 => 31
      case 3 => 59
      case 4 => 90
      case 5 => 120
      case 6 => 151
      case 7 => 181
      case 8 => 212
      case 9 => 243
      case 10 => 273
      case 11 => 304
      case _ => 334;
    plain + if month > 2 && Leap(year) then 1 else 0
  }

  function Days(l: Label): int {
    YearStart(l.year) + MonthStart(l.year, l.month) + l.day
  }

  function Minutes(l: Label): int {
    1440 * Days(l) + 60 * l.hour + l.minute
  }

  lemma YearLength(year: int)
    ensures YearStart(year + 1) == YearStart(year) + MonthStart(year, 12) + 31
  {
    DivisionStep(year, 4);
    DivisionStep(year, 100);
    DivisionStep(year, 400);
    Divides(year);
  }

  lemma MonthLength(year: int, month: int)
    requires 1 <= month < 12
    ensures MonthStart(year, month + 1) == MonthStart(year, month) + EndOfMonth(year, month)
  {
    hide Leap;
  }

  lemma {:induction false} YearsGrow(a: int, b: int)
    requires a < b
    ensures YearStart(a) + MonthStart(a, 12) + 31 <= YearStart(b)
    decreases b - a
  {
    YearLength(b - 1);
    hide YearStart;
    if a < b - 1 {
      YearsGrow(a, b - 1);
    }
  }

  lemma {:induction false} MonthsGrow(year: int, a: int, b: int)
    requires 1 <= a < b <= 12
    ensures MonthStart(year, a) + EndOfMonth(year, a) <= MonthStart(year, b)
    decreases b - a
  {
    MonthLength(year, b - 1);
    hide MonthStart, EndOfMonth;
    if a < b - 1 {
      MonthsGrow(year, a, b - 1);
      LongMonths(year, b - 1);
    }
  }

  lemma LongMonths(year: int, month: int)
    ensures 28 <= EndOfMonth(year, month) <= 31
  {}

  // Every label of a year lies in that year's days.
  lemma WithinYear(l: Label)
    requires InRange(l)
    ensures 0 < MonthStart(l.year, l.month) + l.day <= MonthStart(l.year, 12) + 31
  {
    hide Leap;
  }

  lemma DaysGrow(a: Label, b: Label)
    requires InRange(a) && InRange(b) && LessUpTo(a, b, 2)
    ensures Days(a) < Days(b)
  {
    hide YearStart, MonthStart, EndOfMonth;
    if a.year < b.year {
      YearsGrow(a.year, b.year);
      WithinYear(a);
      WithinYear(b);
    } else if a.month < b.month {
      MonthsGrow(a.year, a.month, b.month);
    }
  }

  // The order of labels is the order of their counts.
  lemma MinutesGrow(a: Label, b: Label)
    requires InRange(a) && InRange(b)
    ensures Less(a, b) <==> Minutes(a) < Minutes(b)
    ensures Minutes(a) == Minutes(b) ==> a == b
  {
    hide Days, EndOfMonth;
    if LessUpTo(a, b, 2) {
      DaysGrow(a, b);
    } else if LessUpTo(b, a, 2) {
      DaysGrow(b, a);
    } else {
      assert a.year == b.year && a.month == b.month && a.day == b.day;
      assert Days(a) == Days(b) by {
        SameDays(a, b);
      }
    }
  }

  lemma SameDays(a: Label, b: Label)
    requires a.year == b.year && a.month == b.month && a.day == b.day
    ensures Days(a) == Days(b)
  {}

  // ------------------------------------------------------------ every count has a label

  const FIRST := Label(1969, 1, 1, 0, 0)
  const LAST := Label(9999, 12, 31, 23, 59)

  function FollowingMinute(l: Label): Label {
    if l.minute < 59 then l.(minute := l.minute + 1)
    else if l.hour < 23 then l.(hour := l.hour + 1, minute := 0)
    else NextDay(l).(hour := 0, minute := 0)
  }

  lemma DayFollows(l: Label)
    requires InRange(l)
    ensures Days(NextDay(l)) == Days(l) + 1
  {
    YearLength(l.year);
    if l.month < 12 {
      MonthLength(l.year, l.month);
    }
    hide YearStart, Leap;
  }

  lemma MinuteFollows(l: Label)
    requires InRange(l) && l != LAST
    ensures InRange(FollowingMinute(l)) && Minutes(FollowingMinute(l)) == Minutes(l) + 1
  {
    DayFollows(l);
    hide Days;
    SameDays(FollowingMinute(l), if l.minute == 59 && l.hour == 23 then NextDay(l) else l);
    LongMonths(l.year, l.month + 1);
  }

  function FromMinutes(n: int): (l: Label)
    requires Minutes(FIRST) <= n <= Minutes(LAST)
    ensures InRange(l) && Minutes(l) == n
    decreases n - Minutes(FIRST)
  {
    if n == Minutes(FIRST) then FIRST
    else
      var l := FromMinutes(n - 1);
      MinuteFollows(l);
      FollowingMinute(l)
  }

  // ------------------------------------------------------------ the item on the clock

  const EPOCH := Label(1970, 1, 1, 0, 0)

  function Seconds(l: Label): int {
    60 * (Minutes(l) - Minutes(EPOCH))
  }

  predicate HasLabel(x: int) {
    Whole(x) && Seconds(FIRST) <= x <= Seconds(LAST)
  }

  function LabelOf(x: int): (l: Label)
    requires HasLabel(x)
    ensures InRange(l) && Seconds(l) == x
  {
    hide Minutes;
    FromMinutes(x / 60 + Minutes(EPOCH))
  }

  lemma LabelOfSeconds(l: Label)
    requires InRange(l)
    ensures HasLabel(Seconds(l)) && LabelOf(Seconds(l)) == l
  {
    MinutesGrow(l, FIRST);
    MinutesGrow(LAST, l);
    hide Minutes;
    assert HasLabel(Seconds(l));
    MinutesGrow(LabelOf(Seconds(l)), l);
  }

  predicate ItemMatches(item: Item, x: int)
    requires ItemOK(item)
  {
    HasLabel(x) && IsMatch(item, LabelOf(x))
  }

  // The label search from the label x; a label out of range makes it throw.
  function ItemNext(item: Item, x: int): Next
    requires ItemOK(item)
  {
    if !HasLabel(x) then Throws
    else
      match Search(item, LabelOf(x), 0, 0, 0)
      case Found(r) => At(Seconds(r))
      case NoResult => Never
      case TooDeep => Throws
      case OutOfRange => Throws
  }

  lemma MatchInRange(item: Item, l: Label)
    requires ItemOK(item) && IsMatch(item, l)
    ensures InRange(l)
  {}

  lemma ItemNextIsNext(item: Item, x: int)
    requires ItemOK(item) && HasLabel(x)
    ensures
      match ItemNext(item, x)
      case At(y) => x <= y && ItemMatches(item, y) && forall w :: x <= w < y ==> !ItemMatches(item, w)
      case Never => forall w :: x <= w ==> !ItemMatches(item, w)
      case Throws => Search(item, LabelOf(x), 0, 0, 0).TooDeep?
  {
    hide Minutes, Search, IsMatch, Less, Seconds;
    FindsLeastLabel(item, LabelOf(x));
    match Search(item, LabelOf(x), 0, 0, 0)
    case Found(r) =>
      MatchInRange(item, r);
      LabelOfSeconds(r);
      OrderOfSeconds(r, LabelOf(x));
      forall w | x <= w < Seconds(r) ensures !ItemMatches(item, w) {
        if ItemMatches(item, w) {
          OrderOfSeconds(LabelOf(w), LabelOf(x));
          OrderOfSeconds(LabelOf(w), r);
        }
      }
    case NoResult =>
      forall w | x <= w ensures !ItemMatches(item, w) {
        if ItemMatches(item, w) {
          OrderOfSeconds(LabelOf(w), LabelOf(x));
        }
      }
    case _ =>
  }

  // For an item that can match in every year, the label search throws only out of range.
  lemma NeverThrows(item: Item, x: int)
    requires ItemOK(item) && EveryYear(item) && HasLabel(x)
    ensures !ItemNext(item, x).Throws?
  {
    hide Search, IsMatch, Less, EveryYear;
    FindsLeastLabel(item, LabelOf(x));
    NeverTooDeep(item, LabelOf(x));
  }

  lemma OrderOfSeconds(a: Label, b: Label)
    requires InRange(a) && InRange(b)
    ensures Less(a, b) <==> Seconds(a) < Seconds(b)
  {
    MinutesGrow(a, b);
    hide Minutes;
  }

  lemma ItemSearches(item: Item)
    requires ItemOK(item)
    ensures IsNext(x => ItemMatches(item, x), x => ItemNext(item, x))
  {
    hide Search, IsMatch, LabelOf, Seconds;
    var matches, next := (x: int) => ItemMatches(item, x), (x: int) => ItemNext(item, x);
    forall x | Whole(x)
      ensures match next(x)
        case At(y) => x <= y && matches(y) && NoneIn(matches, x, y)
        case Never => NoneFrom(matches, x)
        case Throws => true
    {
      if HasLabel(x) {
        ItemNextIsNext(item, x);
      }
    }
  }

  // From crontab item to UTC: unless an exception is thrown, the answer is the first event at
  // or after the rounded-up instant, except exactly where a late repeat is missed.
  lemma CrontabFirstMatch(item: Item, z: Zone, policy: Policy, t0: int)
    requires ItemOK(item) && ZoneOK(z)
    ensures
      var matches, next := (x: int) => ItemMatches(item, x), (x: int) => ItemNext(item, x);
      && IsNext(matches, next)
      && var answer := FindFirstMatch(z, matches, next, policy, t0);
         !answer.Threw? ==>
           (IsFirst(z, matches, policy, RoundUp(t0), answer) <==> !Misses(z, matches, policy, RoundUp(t0)))
  {
    ItemSearches(item);
    var matches, next := (x: int) => ItemMatches(item, x), (x: int) => ItemNext(item, x);
    if !FindFirstMatch(z, matches, next, policy, t0).Threw? {
      FirstMatchExactly(z, matches, next, policy, t0);
    }
  }

  // Labels from 1969 to 9999 are shown from the change of the clock until it is settled.
  predicate ChangeInRange(z: Zone) {
    Seconds(FIRST) <= z.change + z.after && z.change + CronMatch.Max(z.before, z.after) <= Seconds(LAST)
  }

  lemma AlwaysAnswers(item: Item, z: Zone)
    requires ItemOK(item) && EveryYear(item) && ZoneOK(z) && ChangeInRange(z)
    ensures AnswersAtChange(z, x => ItemNext(item, x))
  {
    hide ItemNext, EveryYear, Seconds;
    forall x | Whole(x) && z.change + z.after <= x <= z.change + CronMatch.Max(z.before, z.after)
      ensures !ItemNext(item, x).Throws?
    {
      NeverThrows(item, x);
    }
  }

  // For an item that can match in every year an exception is thrown exactly if the local time
  // is out of range, or the first label that matches is 25 hours or more into a skip.
  lemma CrontabThrowsExactly(item: Item, z: Zone, policy: Policy, t0: int)
    requires ItemOK(item) && EveryYear(item) && ZoneOK(z) && ChangeInRange(z)
    ensures
      var matches, next := (x: int) => ItemMatches(item, x), (x: int) => ItemNext(item, x);
      && IsNext(matches, next)
      && (FindFirstMatch(z, matches, next, policy, t0).Threw?
          <==> !HasLabel(Local(z, RoundUp(t0))) || FirstIsFar(z, matches, RoundUp(t0)))
  {
    hide EveryYear, FindFirstMatch, FirstIsFar, IsNext, AnswersAtChange, Search, LabelOf, RoundUp;
    var matches, next := (x: int) => ItemMatches(item, x), (x: int) => ItemNext(item, x);
    ItemSearches(item);
    AlwaysAnswers(item, z);
    ThrewExactly(z, matches, next, policy, t0);
    if HasLabel(Local(z, RoundUp(t0))) {
      NeverThrows(item, Local(z, RoundUp(t0)));
    }
  }

  // So within the calendar, and with skips of at most 25 hours, there is always an answer, and it
  // is the first event at or after the rounded-up instant except exactly where a late repeat is missed.
  lemma EveryYearFirstMatch(item: Item, z: Zone, policy: Policy, t0: int)
    requires ItemOK(item) && EveryYear(item) && ZoneOK(z) && ChangeInRange(z)
    requires HasLabel(Local(z, RoundUp(t0))) && z.after - z.before <= 90000
    ensures
      var matches, next := (x: int) => ItemMatches(item, x), (x: int) => ItemNext(item, x);
      && IsNext(matches, next)
      && var answer := FindFirstMatch(z, matches, next, policy, t0);
         && !answer.Threw?
         && (IsFirst(z, matches, policy, RoundUp(t0), answer) <==> !Misses(z, matches, policy, RoundUp(t0)))
  {
    hide EveryYear, FindFirstMatch, IsNext, ItemMatches, ItemNext, IsFirst, Misses, RoundUp, HasLabel;
    CrontabThrowsExactly(item, z, policy, t0);
    CrontabFirstMatch(item, z, policy, t0);
  }

  // ------------------------------------------------------------ where it fails

  // An item that matches one label only.
  function Only(v: int, p: nat): CronSelector.Selector {
    CronSelector.Selector([v], MinOf(p), MaxOf(p), 1, MinOf(p), MaxOf(p))
  }

  function Once(l: Label): Item {
    Item(Only(l.year, 0), Only(l.month, 1), Only(l.day, 2), Only(l.hour, 3), Only(l.minute, 4), None)
  }

  lemma OnlyFinds(v: int, p: nat, t: int)
    requires p < MAX && MinOf(p) <= v <= MaxOf(p)
    ensures SelectorOK(Only(v, p), MinOf(p), MaxOf(p)) && CronSelector.FindFirstMatch(Only(v, p), t) == (v, v < t)
    ensures forall x :: CronSelector.Matches(Only(v, p), x) <==> x == v
  {
    assert [v][1..] == [];
  }

  lemma OnceIsOK(l: Label)
    requires InRange(l)
    ensures ItemOK(Once(l)) && IsMatch(Once(l), l)
  {
    hide CronSelector.Matches, SelectorOK;
    LongMonths(l.year, l.month);
    forall p: nat | p < MAX ensures SelectorOK(SelectorAt(Once(l), p), MinOf(p), MaxOf(p)) {
      OnlyFinds(Get(l, p), p, 0);
    }
    assert forall p: nat :: p < MAX ==> CronSelector.Matches(SelectorAt(Once(l), p), Get(l, p)) by {
      forall p: nat | p < MAX ensures CronSelector.Matches(SelectorAt(Once(l), p), Get(l, p)) {
        OnlyFinds(Get(l, p), p, 0);
      }
    }
    assert FieldMatches(Once(l), l, 0) && FieldMatches(Once(l), l, 1) && FieldMatches(Once(l), l, 2);
  }

  // One step of the search, at a position where the label agrees with the item or is past it.
  lemma OnceSteps(l: Label, from: Label, p: nat, carry: int, depth: nat)
    requires InRange(l) && ItemOK(Once(l)) && p < MAX && depth < MAX_DEPTH && MinOf(p) <= Get(from, p) <= MaxOf(p)
    requires from.year == l.year && from.month == l.month && carry >= 0
    requires (Get(l, p) == Get(from, p) && carry == 0) || Get(l, p) < Get(from, p) + carry
    ensures Search(Once(l), from, p, carry, depth) ==
      if Get(l, p) < Get(from, p) + carry then (if p == 0 then NoResult else Search(Once(l), from, p - 1, 1, depth + 1))
      else if p + 1 == MAX then Found(from)
      else Search(Once(l), from, p + 1, 0, depth + 1)
  {
    OnlyFinds(Get(l, p), p, Get(from, p) + carry);
  }

  // Right after its only match, the search finds nothing.
  lemma OnceIsOver(l: Label)
    requires InRange(l) && l.minute < 59
    ensures ItemOK(Once(l)) && Search(Once(l), l.(minute := l.minute + 1), 0, 0, 0) == NoResult
  {
    hide Search;
    OnceIsOK(l);
    LongMonths(l.year, l.month);
    var from := l.(minute := l.minute + 1);
    OnceSteps(l, from, 0, 0, 0);
    OnceSteps(l, from, 1, 0, 1);
    OnceSteps(l, from, 2, 0, 2);
    OnceSteps(l, from, 3, 0, 3);
    OnceSteps(l, from, 4, 0, 4);
    OnceSteps(l, from, 3, 1, 5);
    OnceSteps(l, from, 2, 1, 6);
    OnceSteps(l, from, 1, 1, 7);
    OnceSteps(l, from, 0, 1, 8);
  }

  lemma OnceIsNever(l: Label)
    requires InRange(l) && l.minute < 59
    ensures ItemOK(Once(l)) && ItemMatches(Once(l), Seconds(l)) && ItemNext(Once(l), Seconds(l) + 60) == Never
  {
    hide Search, IsMatch, Minutes, Seconds;
    OnceIsOK(l);
    OnceIsOver(l);
    LabelOfSeconds(l);
    var from := l.(minute := l.minute + 1);
    LabelOfSeconds(from);
    assert Seconds(from) == Seconds(l) + 60 by {
      MinuteCounts(l);
    }
  }

  lemma MinuteCounts(l: Label)
    ensures Seconds(l.(minute := l.minute + 1)) == Seconds(l) + 60
  {
    SameDays(l, l.(minute := l.minute + 1));
    hide Days;
  }

  // The clock goes back from 04:00 to 03:00, and an item matches 03:20 of that day only.  After
  // the first 03:20 its repetition is missed.
  lemma MissExample()
    ensures
      var item, z, policy := Once(Label(1970, 1, 5, 3, 20)), Zone(360000, 0, -3600), Policy(false, true, true);
      && ItemOK(item) && ZoneOK(z)
      && var matches, next := (x: int) => ItemMatches(item, x), (x: int) => ItemNext(item, x);
         && IsNext(matches, next) && IsEvent(z, matches, policy, 361200)
         && FindFirstMatch(z, matches, next, policy, 357660) == NoMatch
  {
    hide ItemMatches, ItemNext, Seconds, Once, FindFirstMatch, FindLabel, IsNext, RoundUp;
    var l := Label(1970, 1, 5, 3, 20);
    var item, z, policy := Once(l), Zone(360000, 0, -3600), Policy(false, true, true);
    SomeSeconds();
    OnceIsNever(l);
    NeverMatches(item, z, policy, 357660);
    var matches := (x: int) => ItemMatches(item, x);
    assert Local(z, 361200) == 357600 && matches(357600);
  }

  lemma SomeSeconds()
    ensures Seconds(Label(1970, 1, 5, 3, 20)) == 357600
    ensures Seconds(Label(1970, 1, 5, 4, 0)) == 360000
    ensures Seconds(Label(1970, 1, 5, 5, 0)) == 363600
  {}

  lemma WholeIsRound(t: int)
    requires Whole(t) && 0 <= t
    ensures RoundUp(t) == t
  {}

  lemma NeverMatches(item: Item, z: Zone, policy: Policy, t: int)
    requires ItemOK(item) && ZoneOK(z) && Whole(t) && 0 <= t && ItemNext(item, Local(z, t)) == Never
    ensures
      var matches, next := (x: int) => ItemMatches(item, x), (x: int) => ItemNext(item, x);
      IsNext(matches, next) && FindFirstMatch(z, matches, next, policy, t) == NoMatch
  {
    hide ItemMatches, ItemNext, IsNext, RoundUp;
    ItemSearches(item);
    WholeIsRound(t);
    LabelOfFirst(z, (x: int) => ItemNext(item, x), t);
  }

  lemma LabelOfFirst(z: Zone, next: int -> Next, t: int)
    requires ZoneOK(z) && Whole(t)
    ensures next(Local(z, t)).Never? ==> FindLabel(z, next, t).Never?
    ensures !Repeated(z, Local(z, t)) ==> FindLabel(z, next, t) == next(Local(z, t))
  {
    LocalIsWhole(z, t);
    ToUTCKinds(z, Local(z, t));
  }

  // An item that matches every minute.
  function Any(p: nat): CronSelector.Selector {
    CronSelector.Selector([], MinOf(p), MaxOf(p), 1, MinOf(p), MaxOf(p))
  }

  const ALWAYS := Item(Any(0), Any(1), Any(2), Any(3), Any(4), None)

  lemma AnyFinds(p: nat, v: int)
    requires p < MAX && MinOf(p) <= v <= MaxOf(p)
    ensures SelectorOK(Any(p), MinOf(p), MaxOf(p)) && CronSelector.Matches(Any(p), v)
      && CronSelector.FindFirstMatch(Any(p), v) == (v, false)
  {}

  lemma AlwaysIsOK()
    ensures ItemOK(ALWAYS)
  {
    hide SelectorOK;
    forall p: nat | p < MAX ensures SelectorOK(SelectorAt(ALWAYS, p), MinOf(p), MaxOf(p)) {
      AnyFinds(p, MinOf(p));
    }
  }

  lemma AlwaysSteps(l: Label, p: nat, depth: nat)
    requires InRange(l) && ItemOK(ALWAYS) && p < MAX && depth < MAX_DEPTH && MinOf(p) <= Get(l, p) <= MaxOf(p)
    ensures FieldMatches(ALWAYS, l, p)
    ensures Search(ALWAYS, l, p, 0, depth) == if p + 1 == MAX then Found(l) else Search(ALWAYS, l, p + 1, 0, depth + 1)
  {
    AnyFinds(p, Get(l, p));
  }

  lemma AlwaysFinds(l: Label)
    requires InRange(l)
    ensures ItemOK(ALWAYS) && IsMatch(ALWAYS, l) && Search(ALWAYS, l, 0, 0, 0) == Found(l)
  {
    hide Search, FieldMatches, ItemOK;
    LongMonths(l.year, l.month);
    AlwaysIsOK();
    AlwaysSteps(l, 0, 0);
    AlwaysSteps(l, 1, 1);
    AlwaysSteps(l, 2, 2);
    AlwaysSteps(l, 3, 3);
    AlwaysSteps(l, 4, 4);
  }

  lemma AlwaysIsNow(l: Label)
    requires InRange(l)
    ensures ItemOK(ALWAYS) && ItemMatches(ALWAYS, Seconds(l)) && ItemNext(ALWAYS, Seconds(l)) == At(Seconds(l))
  {
    hide Search, IsMatch, Minutes, Seconds;
    AlwaysFinds(l);
    LabelOfSeconds(l);
  }

  // The clock skips from 04:00 to 05:00.  Half a minute before, an item that matches every minute
  // should fire for the skipped labels, one second before the skip; it fires at the skip.
  lemma RoundingExample()
    ensures
      var z, policy := Zone(360000, 0, 3600), Policy(true, true, true);
      && ItemOK(ALWAYS) && ZoneOK(z)
      && var matches, next := (x: int) => ItemMatches(ALWAYS, x), (x: int) => ItemNext(ALWAYS, x);
         && IsNext(matches, next) && IsEvent(z, matches, policy, 359999)
         && FindFirstMatch(z, matches, next, policy, 359970) == Match(360000)
  {
    hide ItemMatches, ItemNext, Seconds, FindFirstMatch, FindLabel, IsNext, RoundUp;
    var z, policy := Zone(360000, 0, 3600), Policy(true, true, true);
    SomeSeconds();
    AlwaysIsNow(Label(1970, 1, 5, 4, 0));
    AlwaysIsNow(Label(1970, 1, 5, 5, 0));
    assert RoundUp(359970) == 360000 by {
      RoundsUp();
    }
    MatchesAtOnce(ALWAYS, z, policy, 359970, 360000);
    var matches := (x: int) => ItemMatches(ALWAYS, x);
    assert Skipped(z, 360000) && matches(360000);
  }

  lemma RoundsUp()
    ensures RoundUp(359970) == 360000
  {}

  // After a skip, an item that matches the label shown fires.
  lemma MatchesAtOnce(item: Item, z: Zone, policy: Policy, t0: int, t: int)
    requires ItemOK(item) && ZoneOK(z) && z.before < z.after && t == RoundUp(t0) && z.change <= t
    requires ItemNext(item, Local(z, t)) == At(Local(z, t))
    ensures
      var matches, next := (x: int) => ItemMatches(item, x), (x: int) => ItemNext(item, x);
      IsNext(matches, next) && FindFirstMatch(z, matches, next, policy, t0) == Match(t)
  {
    hide ItemMatches, ItemNext, IsNext, RoundUp, FindLabel;
    ItemSearches(item);
    LabelOfFirst(z, (x: int) => ItemNext(item, x), t);
    LocalIsWhole(z, t);
    ToUTCKinds(z, Local(z, t));
  }

  // ------------------------------------------------------------ the depth limit

  // February 29 of the given years, every minute.
  function LeapDays(years: seq<int>): Item {
    Item(CronSelector.Selector(years, MinOf(0), MaxOf(0), 1, MinOf(0), MaxOf(0)), Only(2, 1), Only(29, 2), Any(3),
         Any(4), None)
  }

  predicate YearsOK(years: seq<int>) {
    && years != [] && (forall i, j :: 0 <= i < j < |years| ==> years[i] < years[j])
    && forall i :: 0 <= i < |years| ==> MinOf(0) <= years[i] <= MaxOf(0)
  }

  lemma LeapDaysIsOK(years: seq<int>)
    requires YearsOK(years)
    ensures ItemOK(LeapDays(years))
  {
    hide SelectorOK, CronSelector.Matches, CronSelector.FindFirstMatch;
    var item := LeapDays(years);
    forall p: nat | p < MAX ensures SelectorOK(SelectorAt(item, p), MinOf(p), MaxOf(p)) {
      if p == 0 {
        YearsSelect(years);
      } else if p <= 2 {
        OnlyFinds(if p == 1 then 2 else 29, p, 0);
      } else {
        AnyFinds(p, 0);
      }
    }
  }

  lemma YearsSelect(years: seq<int>)
    requires YearsOK(years)
    ensures SelectorOK(CronSelector.Selector(years, MinOf(0), MaxOf(0), 1, MinOf(0), MaxOf(0)), MinOf(0), MaxOf(0))
  {}

  lemma NextYear(years: seq<int>, i: nat)
    requires YearsOK(years) && i + 1 < |years| && ItemOK(LeapDays(years))
    ensures SelectorOK(LeapDays(years).year, MinOf(0), MaxOf(0))
    ensures CronSelector.FindFirstMatch(LeapDays(years).year, years[i] + 1) == (years[i + 1], false)
  {
    YearsSelect(years);
    var sel := LeapDays(years).year;
    CronSelector.FirstMatchIsLeast(sel, years[i] + 1);
    assert years[i + 1] in years;
  }

  // A year without a leap day costs four steps: month, day, month again, year.
  lemma YearPasses(years: seq<int>, i: nat, depth: nat)
    requires YearsOK(years) && i + 1 < |years| && !Leap(years[i]) && ItemOK(LeapDays(years)) && depth + 4 <= MAX_DEPTH
    ensures Search(LeapDays(years), Label(years[i], 1, 1, 0, 0), 1, 0, depth)
      == Search(LeapDays(years), Label(years[i + 1], 1, 1, 0, 0), 1, 0, depth + 4)
  {
    hide Leap;
    var item, y := LeapDays(years), years[i];
    OnlyFinds(2, 1, 1);
    OnlyFinds(29, 2, 1);
    OnlyFinds(2, 1, 3);
    NextYear(years, i);
    var february := Label(y, 2, 1, 0, 0);
    assert Search(item, Label(y, 1, 1, 0, 0), 1, 0, depth) == Search(item, february, 2, 0, depth + 1);
    assert Search(item, february, 2, 0, depth + 1) == Search(item, february, 1, 1, depth + 2);
    assert Search(item, february, 1, 1, depth + 2) == Search(item, february, 0, 1, depth + 3);
  }

  lemma {:induction false} YearsPass(years: seq<int>, i: nat)
    requires YearsOK(years) && ItemOK(LeapDays(years)) && i < |years| && i <= 12
    requires forall k :: 0 <= k < i ==> !Leap(years[k])
    ensures Search(LeapDays(years), Label(years[0], 1, 1, 0, 0), 1, 0, 1)
      == Search(LeapDays(years), Label(years[i], 1, 1, 0, 0), 1, 0, 1 + 4 * i)
  {
    hide Search, Leap;
    if i > 0 {
      YearsPass(years, i - 1);
      YearPasses(years, i - 1, 1 + 4 * (i - 1));
    }
  }

  // A leap year is found in four steps.
  lemma LeapYearFound(years: seq<int>, i: nat, depth: nat)
    requires YearsOK(years) && i < |years| && Leap(years[i]) && ItemOK(LeapDays(years)) && depth + 4 <= MAX_DEPTH
    ensures Search(LeapDays(years), Label(years[i], 1, 1, 0, 0), 1, 0, depth).Found?
  {
    hide Leap, ItemOK;
    var item, y := LeapDays(years), years[i];
    OnlyFinds(2, 1, 1);
    OnlyFinds(29, 2, 1);
    var february, leapDay := Label(y, 2, 1, 0, 0), Label(y, 2, 29, 0, 0);
    assert Search(item, Label(y, 1, 1, 0, 0), 1, 0, depth) == Search(item, february, 2, 0, depth + 1);
    assert Search(item, february, 2, 0, depth + 1) == Search(item, leapDay, 3, 0, depth + 2);
    LeapMinuteFound(years, leapDay, depth + 2);
  }

  lemma LeapMinuteFound(years: seq<int>, l: Label, depth: nat)
    requires ItemOK(LeapDays(years)) && l.hour == 0 && l.minute == 0 && depth + 2 <= MAX_DEPTH
    ensures Search(LeapDays(years), l, 3, 0, depth).Found?
  {
    hide ItemOK, SelectorOK, CronSelector.FindFirstMatch, CronSelector.Matches;
    AnyFinds(3, 0);
    AnyFinds(4, 0);
    assert Search(LeapDays(years), l, 3, 0, depth) == Search(LeapDays(years), l, 4, 0, depth + 1);
  }

  // After the last year without a leap day there is nothing.
  lemma LastYearPasses(years: seq<int>, depth: nat)
    requires YearsOK(years) && !Leap(years[|years| - 1]) && ItemOK(LeapDays(years)) && depth + 4 <= MAX_DEPTH
    ensures Search(LeapDays(years), Label(years[|years| - 1], 1, 1, 0, 0), 1, 0, depth).NoResult?
  {
    hide Leap;
    var item, y := LeapDays(years), years[|years| - 1];
    OnlyFinds(2, 1, 1);
    OnlyFinds(29, 2, 1);
    OnlyFinds(2, 1, 3);
    YearsSelect(years);
    CronSelector.FirstMatchIsLeast(item.year, y + 1);
    var february := Label(y, 2, 1, 0, 0);
    assert Search(item, Label(y, 1, 1, 0, 0), 1, 0, depth) == Search(item, february, 2, 0, depth + 1);
    assert Search(item, february, 2, 0, depth + 1) == Search(item, february, 1, 1, depth + 2);
    assert Search(item, february, 1, 1, depth + 2) == Search(item, february, 0, 1, depth + 3);
  }

  lemma FirstYear(years: seq<int>)
    requires YearsOK(years) && ItemOK(LeapDays(years))
    ensures
      var first := Label(years[0], 1, 1, 0, 0);
      Search(LeapDays(years), first, 0, 0, 0) == Search(LeapDays(years), first, 1, 0, 1)
  {
    YearsSelect(years);
    CronSelector.FirstMatchIsLeast(LeapDays(years).year, years[0]);
    assert years[0] in years;
  }

  lemma ThirteenthYear(years: seq<int>)
    requires YearsOK(years) && 13 <= |years| && ItemOK(LeapDays(years))
    ensures Search(LeapDays(years), Label(years[12], 1, 1, 0, 0), 1, 0, 49).TooDeep?
  {
    OnlyFinds(2, 1, 1);
    assert Search(LeapDays(years), Label(years[12], 1, 1, 0, 0), 1, 0, 49)
      == Search(LeapDays(years), Label(years[12], 2, 1, 0, 0), 2, 0, 50);
  }

  // From the first year on, the search gives up exactly if the first twelve years have no leap
  // day and there is another year, whether that has one or not.
  lemma LeapDaysExactly(years: seq<int>)
    requires YearsOK(years)
    ensures ItemOK(LeapDays(years))
    ensures Search(LeapDays(years), Label(years[0], 1, 1, 0, 0), 0, 0, 0).TooDeep?
      <==> 13 <= |years| && forall k :: 0 <= k < 12 ==> !Leap(years[k])
  {
    hide Search, Leap;
    LeapDaysIsOK(years);
    FirstYear(years);
    if 13 <= |years| && forall k :: 0 <= k < 12 ==> !Leap(years[k]) {
      YearsPass(years, 12);
      ThirteenthYear(years);
    } else {
      var i := FirstLeap(years);
      YearsPass(years, i);
      if Leap(years[i]) {
        LeapYearFound(years, i, 1 + 4 * i);
      } else {
        LastYearPasses(years, 1 + 4 * i);
      }
    }
  }

  // The first leap year, or else the last year.
  lemma FirstLeap(years: seq<int>) returns (i: nat)
    requires years != [] && !(13 <= |years| && forall k :: 0 <= k < 12 ==> !Leap(years[k]))
    ensures i < |years| && i < 12 && (forall k :: 0 <= k < i ==> !Leap(years[k]))
    ensures Leap(years[i]) || i == |years| - 1
  {
    hide Leap;
    i := 0;
    while !Leap(years[i]) && i < |years| - 1
      invariant i < |years| && i < 12 && forall k :: 0 <= k < i ==> !Leap(years[k])
    {
      i := i + 1;
    }
  }

  // The label matches and is not before another, from which the search gives up.
  ghost predicate GivesUp(item: Item, from: Label, l: Label) {
    ItemOK(item) && IsMatch(item, l) && !Less(l, from) && Search(item, from, 0, 0, 0).TooDeep?
  }

  // An item that matches February 29, 2020: from the start of 2001 the search gives up.
  lemma DepthExample()
    ensures GivesUp(LeapDays(SOME_YEARS), Label(2001, 1, 1, 0, 0), Label(2020, 2, 29, 0, 0))
  {
    hide Search, IsMatch, ItemOK, Less, LeapDays, Leap, YearsOK;
    SomeYears();
    MatchIsNotFound(SOME_YEARS, 13);
    YearsOrder();
  }

  lemma MatchIsNotFound(years: seq<int>, i: nat)
    requires YearsOK(years) && 12 <= i < |years| && Leap(years[i]) && forall k :: 0 <= k < 12 ==> !Leap(years[k])
    ensures ItemOK(LeapDays(years)) && IsMatch(LeapDays(years), Label(years[i], 2, 29, 0, 0))
    ensures Search(LeapDays(years), Label(years[0], 1, 1, 0, 0), 0, 0, 0).TooDeep?
  {
    hide Search, IsMatch, ItemOK, LeapDays, Leap;
    LeapDaysExactly(years);
    LeapDayMatches(years, i);
  }

  const SOME_YEARS := [2001, 2002, 2003, 2005, 2006, 2007, 2009, 2010, 2011, 2013, 2014, 2015, 2017, 2020]

  lemma SomeYears()
    ensures YearsOK(SOME_YEARS) && Leap(SOME_YEARS[13]) && forall k :: 0 <= k < 12 ==> !Leap(SOME_YEARS[k])
  {}

  lemma YearsOrder()
    ensures !Less(Label(2020, 2, 29, 0, 0), Label(2001, 1, 1, 0, 0))
  {}

  lemma LeapDayMatches(years: seq<int>, i: nat)
    requires YearsOK(years) && i < |years| && Leap(years[i]) && ItemOK(LeapDays(years))
    ensures IsMatch(LeapDays(years), Label(years[i], 2, 29, 0, 0))
  {
    hide FieldMatches, ItemOK;
    LeapYearMatches(years, i);
    LeapDateMatches(years, years[i]);
    LeapMinuteMatches(years, Label(years[i], 2, 29, 0, 0));
  }

  lemma LeapYearMatches(years: seq<int>, i: nat)
    requires YearsOK(years) && i < |years| && ItemOK(LeapDays(years))
    ensures FieldMatches(LeapDays(years), Label(years[i], 2, 29, 0, 0), 0)
  {
    hide ItemOK;
    YearsSelect(years);
    assert years[i] in years;
  }

  lemma LeapDateMatches(years: seq<int>, year: int)
    requires ItemOK(LeapDays(years)) && Leap(year)
    ensures FieldMatches(LeapDays(years), Label(year, 2, 29, 0, 0), 1)
    ensures FieldMatches(LeapDays(years), Label(year, 2, 29, 0, 0), 2)
  {
    hide ItemOK, CronSelector.Matches;
    OnlyFinds(2, 1, 0);
    OnlyFinds(29, 2, 0);
  }

  lemma LeapMinuteMatches(years: seq<int>, l: Label)
    requires ItemOK(LeapDays(years)) && l.hour == 0 && l.minute == 0
    ensures FieldMatches(LeapDays(years), l, 3) && FieldMatches(LeapDays(years), l, 4)
  {
    hide ItemOK, CronSelector.Matches;
    AnyFinds(3, 0);
    AnyFinds(4, 0);
  }
}
