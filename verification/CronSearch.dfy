/**
 The search for the next local time label that matches a crontab item: an odometer over
 year, month, day, hour and minute (bistro/cron/StandardCrontabItem.cpp).
 */
module CronSearch {
  import opened CronSelector
  import opened Options

  datatype Label = Label(year: int, month: int, day: int, hour: int, minute: int)

  // Positions 0 to 4 are year, month, day of month, hour and minute.
  const MAX: nat := 5
  const MAX_DEPTH: nat := 50

  function Get(l: Label, p: nat): int {
    match p
    case 0 => l.year
    case 1 => l.month
    case 2 => l.day
    case 3 => l.hour
    case _ => l.minute
  }

  function With(l: Label, p: nat, v: int): Label {
    match p
    case 0 => l.(year := v)
    case 1 => l.(month := v)
    case 2 => l.(day := v)
    case 3 => l.(hour := v)
    case _ => l.(minute := v)
  }

  function MinOf(p: nat): int {
    match p
    case 0 => 1969
    case 1 => 1
    case 2 => 1
    case _ => 0
  }

  function MaxOf(p: nat): int {
    match p
    case 0 => 9999
    case 1 => 12
    case 2 => 31
    case 3 => 23
    case _ => 59
  }

  // Sets every position from p on to its minimum.
  function Reset(l: Label, p: nat): Label {
    Label(if p <= 0 then MinOf(0) else l.year, if p <= 1 then MinOf(1) else l.month,
          if p <= 2 then MinOf(2) else l.day, if p <= 3 then MinOf(3) else l.hour,
          if p <= 4 then MinOf(4) else l.minute)
  }

  // ------------------------------------------------------------ the Gregorian calendar

  predicate Leap(year: int) {
    (year % 4 == 0 && year % 100 != 0) || year % 400 == 0
  }

  function EndOfMonth(year: int, month: int): int {
    if month == 2 then (if Leap(year) then 29 else 28)
    else if month == 4 || month == 6 || month == 9 || month == 11 then 30
    else 31
  }

  // Years start in March here, so that the leap day comes last.
  function Offset(year: int, month: int): int {
    var a := if month <= 2 then 1 else 0;
    var y, m := year - a, month + 12 * a - 2;
    YearOffset(y) + 31 * m / 12
  }

  function YearOffset(y: int): int {
    y + y / 4 - y / 100 + y / 400
  }

  // Sunday is 1.
  function DayOfWeek(l: Label): (dow: int)
    ensures 1 <= dow <= 7
  {
    (l.day + Offset(l.year, l.month)) % 7 + 1
  }

  predicate InRange(l: Label) {
    && 1969 <= l.year <= 9999 && 1 <= l.month <= 12 && 1 <= l.day <= EndOfMonth(l.year, l.month)
    && 0 <= l.hour <= 23 && 0 <= l.minute <= 59
  }

  // The calendar day after a label's day.
  function NextDay(l: Label): Label {
    if l.day < EndOfMonth(l.year, l.month) then l.(day := l.day + 1)
    else if l.month < 12 then l.(month := l.month + 1, day := 1)
    else l.(year := l.year + 1, month := 1, day := 1)
  }

  // The weekday advances by one each day, over the ends of months and years, from a known day.
  lemma WeekdaysFollow(l: Label)
    requires InRange(l)
    ensures DayOfWeek(NextDay(l)) == DayOfWeek(l) % 7 + 1
    ensures DayOfWeek(Label(1970, 1, 1, 0, 0)) == 5
  {
    hide Offset, EndOfMonth;
    assert Offset(1970, 1) % 7 == 3 by {
      EpochOffset();
    }
    if l.day == EndOfMonth(l.year, l.month) {
      OffsetFollows(l.year, l.month);
    }
  }

  lemma EpochOffset()
    ensures Offset(1970, 1) % 7 == 3
  {}

  lemma OffsetFollows(year: int, month: int)
    requires 1 <= month <= 12
    ensures
      var next := if month < 12 then Offset(year, month + 1) else Offset(year + 1, 1);
      (next - Offset(year, month) - EndOfMonth(year, month)) % 7 == 0
  {
    hide YearOffset, Leap;
    if month == 2 {
      LeapDays(year);
    }
  }

  lemma LeapDays(year: int)
    ensures Offset(year, 3) - Offset(year, 2) == EndOfMonth(year, 2) - 56
  {
    DivisionStep(year, 4);
    DivisionStep(year, 100);
    DivisionStep(year, 400);
    Divides(year);
  }

  lemma DivisionStep(x: int, n: int)
    requires n == 4 || n == 100 || n == 400
    ensures x / n - (x - 1) / n == if x % n == 0 then 1 else 0
  {}

  lemma Divides(x: int)
    ensures x % 400 == 0 ==> x % 100 == 0
    ensures x % 100 == 0 ==> x % 4 == 0
  {}

  // ------------------------------------------------------------ the item

  datatype Item = Item(year: Selector, month: Selector, dayOfMonth: Selector, hour: Selector, minute: Selector,
                       dayOfWeek: Option<Selector>)

  function SelectorAt(item: Item, p: nat): Selector {
    match p
    case 0 => item.year
    case 1 => item.month
    case 2 => item.dayOfMonth
    case 3 => item.hour
    case _ => item.minute
  }

  predicate SelectorOK(sel: Selector, minVal: int, maxVal: int) {
    Built(sel) && CanMatch(sel) && sel.minVal == minVal && sel.maxVal == maxVal
  }

  // What the constructor establishes; it refuses an item with both kinds of day selector.
  predicate ItemOK(item: Item) {
    && (forall p: nat :: p < MAX ==> SelectorOK(SelectorAt(item, p), MinOf(p), MaxOf(p)))
    && (item.dayOfWeek.Some? ==>
          && SelectorOK(item.dayOfWeek.value, 1, 7)
          && item.dayOfMonth == Selector([], 1, 31, 1, 1, 31))
  }

  // The field at p of the label matches, given the fields before it.
  predicate FieldMatches(item: Item, l: Label, p: nat)
    requires ItemOK(item) && p < MAX
  {
    && MinOf(p) <= Get(l, p) <= MaxOf(p)
    && (if p == 2 then
          && l.day <= EndOfMonth(l.year, l.month)
          && (if item.dayOfWeek.Some? then Matches(item.dayOfWeek.value, DayOfWeek(l))
              else Matches(item.dayOfMonth, l.day))
        else
          SelectorOK(SelectorAt(item, p), MinOf(p), MaxOf(p)) && Matches(SelectorAt(item, p), Get(l, p)))
  }

  predicate IsMatch(item: Item, l: Label)
    requires ItemOK(item)
  {
    FieldMatches(item, l, 0) && FieldMatches(item, l, 1) && FieldMatches(item, l, 2)
    && FieldMatches(item, l, 3) && FieldMatches(item, l, 4)
  }

  // ------------------------------------------------------------ the search

  datatype Outcome = Found(found: Label) | NoResult | TooDeep | OutOfRange

  // findMatchingDayOfWeek: how many days to advance.
  function DaysToStep(item: Item, l: Label, carry: int): int
    requires ItemOK(item) && item.dayOfWeek.Some?
  {
    var dow := DayOfWeek(l);
    var (newDow, carryNext) := FindFirstMatch(item.dayOfWeek.value, dow + carry);
    if carryNext then newDow + 7 - dow else newDow - dow
  }

  function Steps(item: Item, l: Label, p: nat, carry: int): int
    requires ItemOK(item)
  {
    if p == 2 && item.dayOfWeek.Some? then DaysToStep(item, l, carry) else carry
  }

  // The new value of the field at p, and whether there is none.
  function Advance(item: Item, l: Label, p: nat, steps: int): (int, bool)
    requires ItemOK(item) && p < MAX
  {
    var sel := SelectorAt(item, p);
    assert SelectorOK(sel, MinOf(p), MaxOf(p));
    var (v, carryNext) := FindFirstMatch(sel, Get(l, p) + steps);
    (v, carryNext || (p == 2 && v > EndOfMonth(l.year, l.month)))
  }

  function Placed(l: Label, p: nat, v: int): Label {
    if v == Get(l, p) then l else Reset(With(l, p, v), p + 1)
  }

  function Search(item: Item, l: Label, p: nat, carry: int, depth: nat): Outcome
    requires ItemOK(item) && p < MAX
    decreases MAX_DEPTH - depth
  {
    if depth + 1 > MAX_DEPTH then TooDeep
    else if !(MinOf(p) <= Get(l, p) <= MaxOf(p)) then OutOfRange
    else
      var (v, carryNext) := Advance(item, l, p, Steps(item, l, p, carry));
      if carryNext then
        if p == 0 then NoResult else Search(item, l, p - 1, 1, depth + 1)
      else
        var l' := Placed(l, p, v);
        if p + 1 == MAX then Found(l') else Search(item, l', p + 1, 0, depth + 1)
  }

  // ------------------------------------------------------------ what the search computes

  // The order of labels, up to and including position p.
  predicate LessUpTo(a: Label, b: Label, p: nat) {
    || a.year < b.year
    || (a.year == b.year && 1 <= p
        && (|| a.month < b.month
            || (a.month == b.month && 2 <= p
                && (|| a.day < b.day
                    || (a.day == b.day && 3 <= p
                        && (|| a.hour < b.hour
                            || (a.hour == b.hour && 4 <= p && a.minute < b.minute)))))))
  }

  predicate Less(a: Label, b: Label) {
    LessUpTo(a, b, 4)
  }

  // The labels among which the search looks from its current state.
  predicate Ahead(l: Label, p: nat, carry: int, candidate: Label) {
    if carry == 0 then !Less(candidate, l) else LessUpTo(l, candidate, p)
  }

  // The fields before p match, and all fields are in range.
  predicate Progress(item: Item, l: Label, p: nat)
    requires ItemOK(item)
  {
    InRange(l) && forall q: nat :: q < p && q < MAX ==> FieldMatches(item, l, q)
  }

  predicate AgreeBefore(a: Label, b: Label, p: nat) {
    && (0 < p ==> a.year == b.year) && (1 < p ==> a.month == b.month)
    && (2 < p ==> a.day == b.day) && (3 < p ==> a.hour == b.hour)
  }

  lemma WeekdayShift(l: Label, k: int)
    requires 0 <= k && DayOfWeek(l) + k <= 14
    ensures DayOfWeek(With(l, 2, l.day + k)) == if DayOfWeek(l) + k <= 7 then DayOfWeek(l) + k else DayOfWeek(l) + k - 7
  {
    hide Offset;
  }

  // The days skipped by the weekday detour have the wrong weekday; the day reached has the
  // right one.
  lemma DaysToStepIsLeast(item: Item, l: Label, carry: int)
    requires ItemOK(item) && item.dayOfWeek.Some? && 0 <= carry <= 1
    ensures
      var reached := l.day + DaysToStep(item, l, carry);
      && l.day + carry <= reached && Matches(item.dayOfWeek.value, DayOfWeek(With(l, 2, reached)))
      && forall x :: l.day + carry <= x < reached ==> !Matches(item.dayOfWeek.value, DayOfWeek(With(l, 2, x)))
  {
    hide DayOfWeek, Matches, FindFirstMatch, With;
    var dow, sel := DayOfWeek(l), item.dayOfWeek.value;
    FirstMatchIsLeast(sel, dow + carry);
    var (newDow, carryNext) := FindFirstMatch(sel, dow + carry);
    assert carryNext ==> newDow <= dow;
    var steps := DaysToStep(item, l, carry);
    WeekdayShift(l, steps);
    forall x | l.day + carry <= x < l.day + steps ensures !Matches(sel, DayOfWeek(With(l, 2, x))) {
      WeekdayShift(l, x - l.day);
    }
  }

  // The field at p advances to the least value that matches, given the fields before it.
  ghost predicate IsLeastField(item: Item, l: Label, p: nat, from: int, v: int, none: bool)
    requires ItemOK(item) && p < MAX
  {
    if none then forall x :: from <= x ==> !FieldMatches(item, With(l, p, x), p)
    else
      && from <= v && FieldMatches(item, With(l, p, v), p)
      && forall x :: from <= x < v ==> !FieldMatches(item, With(l, p, x), p)
  }

  lemma PlainFieldIsLeast(item: Item, l: Label, p: nat, carry: int)
    requires ItemOK(item) && p < MAX && !(p == 2 && item.dayOfWeek.Some?) && 0 <= carry
    requires MinOf(p) <= Get(l, p) <= MaxOf(p)
    ensures var (v, none) := Advance(item, l, p, carry); IsLeastField(item, l, p, Get(l, p) + carry, v, none)
  {
    hide Matches, FindFirstMatch, EndOfMonth;
    var sel := SelectorAt(item, p);
    assert SelectorOK(sel, MinOf(p), MaxOf(p));
    FirstMatchIsLeast(sel, Get(l, p) + carry);
    forall x ensures Get(With(l, p, x), p) == x {}
  }

  lemma WeekdayFieldIsLeast(item: Item, l: Label, carry: int)
    requires ItemOK(item) && item.dayOfWeek.Some? && 0 <= carry <= 1 && 1 <= l.day <= 31
    ensures
      var (v, none) := Advance(item, l, 2, Steps(item, l, 2, carry));
      IsLeastField(item, l, 2, l.day + carry, v, none)
  {
    hide Matches, EndOfMonth, DayOfWeek;
    DaysToStepIsLeast(item, l, carry);
    var reached := l.day + DaysToStep(item, l, carry);
    assert FindFirstMatch(item.dayOfMonth, reached) == if reached > 31 then (1, true) else (reached, false);
  }

  lemma AdvanceIsLeast(item: Item, l: Label, p: nat, carry: int)
    requires ItemOK(item) && p < MAX && 0 <= carry <= 1
    requires MinOf(p) <= Get(l, p) <= MaxOf(p)
    ensures
      var (v, none) := Advance(item, l, p, Steps(item, l, p, carry));
      IsLeastField(item, l, p, Get(l, p) + carry, v, none)
  {
    hide Advance, IsLeastField;
    if p == 2 && item.dayOfWeek.Some? {
      WeekdayFieldIsLeast(item, l, carry);
    } else {
      PlainFieldIsLeast(item, l, p, carry);
    }
  }

  // ------------------------------------------------------------ one step keeps the candidates

  lemma SameField(item: Item, l: Label, c: Label, p: nat)
    requires ItemOK(item) && p < MAX && AgreeBefore(l, c, p)
    ensures FieldMatches(item, c, p) <==> FieldMatches(item, With(l, p, Get(c, p)), p)
  {
    hide Matches, Offset, EndOfMonth;
  }

  // Nothing matches at p: every candidate is larger before p.
  lemma BackKeepsCandidates(item: Item, l: Label, p: nat, carry: int, c: Label)
    requires ItemOK(item) && p < MAX && 0 <= carry <= 1 && IsMatch(item, c)
    requires IsLeastField(item, l, p, Get(l, p) + carry, 0, true)
    ensures Ahead(l, p, carry, c) <==> p > 0 && Ahead(l, p - 1, 1, c)
  {
    hide FieldMatches;
    if AgreeBefore(l, c, p) && Get(l, p) + carry <= Get(c, p) {
      SameField(item, l, c, p);
    }
  }

  lemma ForwardKeepsCandidates(item: Item, l: Label, p: nat, carry: int, v: int, c: Label)
    requires ItemOK(item) && p < MAX && 0 <= carry <= 1 && IsMatch(item, c)
    requires IsLeastField(item, l, p, Get(l, p) + carry, v, false)
    ensures Ahead(l, p, carry, c) <==> Ahead(Placed(l, p, v), if p + 1 == MAX then p else p + 1, 0, c)
  {
    assert MinOf(0) <= c.year && MinOf(1) <= c.month && MinOf(2) <= c.day && MinOf(3) <= c.hour && MinOf(4) <= c.minute;
    hide FieldMatches;
    if AgreeBefore(l, c, p) && Get(l, p) + carry <= Get(c, p) < v {
      SameField(item, l, c, p);
    }
  }

  lemma ForwardKeepsProgress(item: Item, l: Label, p: nat, v: int)
    requires ItemOK(item) && p < MAX && Progress(item, l, p) && Get(l, p) <= v && FieldMatches(item, With(l, p, v), p)
    ensures Progress(item, Placed(l, p, v), p + 1)
  {
    hide Matches, Offset;
    var l' := Placed(l, p, v);
    assert InRange(l');
    hide InRange, EndOfMonth, FieldMatches;
    forall q: nat | q < p + 1 && q < MAX ensures FieldMatches(item, l', q) {
      SameField(item, l, l', q);
      SameField(item, l, l, q);
      assert With(l, q, Get(l, q)) == l;
    }
  }

  // The label found is the least match ahead; no result means that there is none.  The search
  // leaves its range only if it starts outside it.
  lemma {:induction false} SearchIsLeast(item: Item, l: Label, p: nat, carry: int, depth: nat, c: Label)
    requires ItemOK(item) && p < MAX && 0 <= carry <= 1 && Progress(item, l, p) && IsMatch(item, c)
    ensures
      match Search(item, l, p, carry, depth)
      case Found(r) => IsMatch(item, r) && Ahead(l, p, carry, r) && (Ahead(l, p, carry, c) ==> !Less(c, r))
      case NoResult => !Ahead(l, p, carry, c)
      case TooDeep => true
      case OutOfRange => false
    decreases MAX_DEPTH - depth
  {
    hide IsLeastField, Advance, Steps, Progress, Ahead, Placed, Less, IsMatch;
    if depth + 1 <= MAX_DEPTH {
      ProgressInRange(item, l, p);
      AdvanceIsLeast(item, l, p, carry);
      var (v, none) := Advance(item, l, p, Steps(item, l, p, carry));
      if none {
        NoneIsAny(item, l, p, Get(l, p) + carry, v);
        BackKeepsCandidates(item, l, p, carry, c);
        if p > 0 {
          ProgressBack(item, l, p);
          SearchIsLeast(item, l, p - 1, 1, depth + 1, c);
          var r := Search(item, l, p - 1, 1, depth + 1);
          if r.Found? {
            BackKeepsCandidates(item, l, p, carry, r.found);
          }
        }
      } else {
        LeastMatches(item, l, p, Get(l, p) + carry, v);
        ForwardKeepsProgress(item, l, p, v);
        ForwardKeepsCandidates(item, l, p, carry, v, c);
        var l' := Placed(l, p, v);
        if p + 1 == MAX {
          AllPlaced(item, l');
          ForwardKeepsCandidates(item, l, p, carry, v, l');
          AheadOfItself(l', c);
        } else {
          SearchIsLeast(item, l', p + 1, 0, depth + 1, c);
          var r := Search(item, l', p + 1, 0, depth + 1);
          if r.Found? {
            ForwardKeepsCandidates(item, l, p, carry, v, r.found);
          }
        }
      }
    }
  }

  lemma ProgressInRange(item: Item, l: Label, p: nat)
    requires ItemOK(item) && p < MAX && Progress(item, l, p)
    ensures MinOf(p) <= Get(l, p) <= MaxOf(p)
  {}

  lemma ProgressBack(item: Item, l: Label, p: nat)
    requires ItemOK(item) && 0 < p && Progress(item, l, p)
    ensures Progress(item, l, p - 1)
  {}

  lemma NoneIsAny(item: Item, l: Label, p: nat, from: int, v: int)
    requires ItemOK(item) && p < MAX && IsLeastField(item, l, p, from, v, true)
    ensures IsLeastField(item, l, p, from, 0, true)
  {}

  lemma LeastMatches(item: Item, l: Label, p: nat, from: int, v: int)
    requires ItemOK(item) && p < MAX && IsLeastField(item, l, p, from, v, false)
    ensures from <= v && FieldMatches(item, With(l, p, v), p)
  {}

  lemma AllPlaced(item: Item, l: Label)
    requires ItemOK(item) && Progress(item, l, MAX)
    ensures IsMatch(item, l)
  {}

  lemma AheadOfItself(l: Label, c: Label)
    ensures Ahead(l, 4, 0, l) && (Ahead(l, 4, 0, c) <==> !Less(c, l))
  {}

  // From a label in range, the search gives the least match at or after it, if there is one,
  // unless the depth limit cuts it off.
  lemma FindsLeastLabel(item: Item, l: Label)
    requires ItemOK(item) && InRange(l)
    ensures
      match Search(item, l, 0, 0, 0)
      case Found(r) =>
        && IsMatch(item, r) && !Less(r, l)
        && forall c :: IsMatch(item, c) && !Less(c, l) ==> !Less(c, r)
      case NoResult => forall c :: IsMatch(item, c) ==> Less(c, l)
      case TooDeep => true
      case OutOfRange => false
  {
    hide IsMatch, Search;
    assert Progress(item, l, 0);
    var outcome := Search(item, l, 0, 0, 0);
    forall c | IsMatch(item, c)
      ensures outcome != OutOfRange
      ensures outcome.Found? ==>
        IsMatch(item, outcome.found) && !Less(outcome.found, l) && (!Less(c, l) ==> !Less(c, outcome.found))
      ensures outcome.NoResult? ==> Less(c, l)
    {
      SearchIsLeast(item, l, 0, 0, 0, c);
    }
    SearchFinds(item, l, 0, 0, 0);
  }

  // What is found matches, whether or not there is another candidate.
  lemma {:induction false} SearchFinds(item: Item, l: Label, p: nat, carry: int, depth: nat)
    requires ItemOK(item) && p < MAX && 0 <= carry <= 1 && Progress(item, l, p)
    ensures Search(item, l, p, carry, depth) != OutOfRange
    ensures Search(item, l, p, carry, depth).Found? ==> IsMatch(item, Search(item, l, p, carry, depth).found)
    decreases MAX_DEPTH - depth
  {
    hide IsLeastField, Advance, Steps, Progress, Placed, IsMatch;
    if depth + 1 <= MAX_DEPTH {
      ProgressInRange(item, l, p);
      AdvanceIsLeast(item, l, p, carry);
      var (v, none) := Advance(item, l, p, Steps(item, l, p, carry));
      if none {
        if p > 0 {
          ProgressBack(item, l, p);
          SearchFinds(item, l, p - 1, 1, depth + 1);
        }
      } else {
        LeastMatches(item, l, p, Get(l, p) + carry, v);
        ForwardKeepsProgress(item, l, p, v);
        if p + 1 == MAX {
          AllPlaced(item, Placed(l, p, v));
        } else {
          SearchFinds(item, Placed(l, p, v), p + 1, 0, depth + 1);
        }
      }
    }
  }

  // ------------------------------------------------------------ the depth limit

  // How many days the month always has.
  function Shortest(month: int): int {
    if month == 2 then 28 else EndOfMonth(1969, month)
  }

  predicate MatchesMonth(item: Item, m: int)
    requires ItemOK(item)
  {
    SelectorOK(SelectorAt(item, 1), MinOf(1), MaxOf(1)) && Matches(item.month, m)
  }

  predicate MatchesDay(item: Item, d: int)
    requires ItemOK(item)
  {
    SelectorOK(SelectorAt(item, 2), MinOf(2), MaxOf(2)) && Matches(item.dayOfMonth, d)
  }

  // The month matches, and in every year so does one of its days.
  ghost predicate AlwaysMatches(item: Item, m: int)
    requires ItemOK(item)
  {
    && 1 <= m <= 12 && MatchesMonth(item, m)
    && (item.dayOfWeek.Some? || exists d :: 1 <= d <= Shortest(m) && MatchesDay(item, d))
  }

  lemma AlwaysInRange(item: Item, m: int)
    requires ItemOK(item) && AlwaysMatches(item, m)
    ensures 1 <= m <= 12
  {}

  // The item can match in every year; not so an item for February 29, or for the 31st of short
  // months only.
  ghost predicate EveryYear(item: Item)
    requires ItemOK(item)
  {
    exists m :: AlwaysMatches(item, m)
  }

  // The fields from p on stand at their minima.
  predicate AtMinima(l: Label, p: nat) {
    Reset(l, p) == l
  }

  // From its minimum, a field finds a match; the day of the month, in a month that always matches.
  lemma MinimumAdvances(item: Item, l: Label, p: nat)
    requires ItemOK(item) && p < MAX && Get(l, p) == MinOf(p) && (p == 2 ==> AlwaysMatches(item, l.month))
    ensures !Advance(item, l, p, Steps(item, l, p, 0)).1
  {
    hide Matches, FindFirstMatch, DayOfWeek;
    var sel := SelectorAt(item, p);
    assert SelectorOK(sel, MinOf(p), MaxOf(p));
    FirstMatchIsLeast(sel, MinOf(p));
    if p == 2 {
      if item.dayOfWeek.Some? {
        WeekdayInFirstWeek(item, l);
      } else {
        var d :| 1 <= d <= Shortest(l.month) && MatchesDay(item, d);
      }
    }
  }

  lemma WeekdayInFirstWeek(item: Item, l: Label)
    requires ItemOK(item) && item.dayOfWeek.Some? && l.day == 1
    ensures !Advance(item, l, 2, Steps(item, l, 2, 0)).1
  {
    hide Matches, DayOfWeek;
    var sel := item.dayOfWeek.value;
    FirstMatchIsLeast(sel, DayOfWeek(l));
    assert DaysToStep(item, l, 0) <= 6;
    DaysToStepIsLeast(item, l, 0);
    var reached := 1 + DaysToStep(item, l, 0);
    assert FindFirstMatch(item.dayOfMonth, reached) == (reached, false);
  }

  // Where the month goes: not past one that matches.
  lemma MonthAdvances(item: Item, l: Label, carry: int, m: int)
    requires ItemOK(item) && 0 <= carry <= 1 && 1 <= l.month && l.month + carry <= m <= 12 && MatchesMonth(item, m)
    ensures
      var (v, none) := Advance(item, l, 1, Steps(item, l, 1, carry));
      !none && l.month + carry <= v <= m
  {
    hide Matches, FindFirstMatch;
    FirstMatchIsLeast(item.month, l.month + carry);
  }

  lemma PlacedAtMinima(l: Label, p: nat, v: int)
    requires p < MAX && (v != Get(l, p) || AtMinima(l, p + 1))
    ensures AtMinima(Placed(l, p, v), p + 1) && Get(Placed(l, p, v), p) == v
  {}

  // Once the later fields are reset, the search for the time of day goes straight to its end.
  lemma {:induction false} RunsThrough(item: Item, l: Label, p: nat, depth: nat)
    requires ItemOK(item) && 3 <= p < MAX && Progress(item, l, p) && AtMinima(l, p)
    requires depth + (MAX - p) <= MAX_DEPTH
    ensures Search(item, l, p, 0, depth).Found?
    decreases MAX - p
  {
    hide Advance, Steps, Placed, Progress, IsLeastField;
    ProgressInRange(item, l, p);
    AdvanceIsLeast(item, l, p, 0);
    MinimumAdvances(item, l, p);
    if p + 1 < MAX {
      Advances(item, l, p, 0);
      RunsThrough(item, Placed(l, p, Advance(item, l, p, Steps(item, l, p, 0)).0), p + 1, depth + 1);
    }
  }

  // A field that finds a match moves the search on, with the later fields reset unless it stays.
  lemma Advances(item: Item, l: Label, p: nat, carry: int)
    requires ItemOK(item) && p < MAX && 0 <= carry <= 1 && Progress(item, l, p)
    requires !Advance(item, l, p, Steps(item, l, p, carry)).1
    ensures
      var v := Advance(item, l, p, Steps(item, l, p, carry)).0;
      && Progress(item, Placed(l, p, v), p + 1) && Get(l, p) + carry <= v
      && Get(Placed(l, p, v), p) == v
      && (carry == 1 || AtMinima(l, p + 1) ==> AtMinima(Placed(l, p, v), p + 1))
  {
    hide Advance, Steps, Placed, Progress, IsLeastField, AtMinima;
    ProgressInRange(item, l, p);
    AdvanceIsLeast(item, l, p, carry);
    var v := Advance(item, l, p, Steps(item, l, p, carry)).0;
    LeastMatches(item, l, p, Get(l, p) + carry, v);
    ForwardKeepsProgress(item, l, p, v);
    PlacedIs(l, p, v);
    if carry == 1 || AtMinima(l, p + 1) {
      PlacedAtMinima(l, p, v);
    }
  }

  lemma PlacedIs(l: Label, p: nat, v: int)
    requires p < MAX
    ensures Get(Placed(l, p, v), p) == v
  {}

  // One month: the search is over, or it is back at the months with that month behind it.
  lemma MonthPasses(item: Item, l: Label, carry: int, depth: nat)
    requires ItemOK(item) && 0 <= carry <= 1 && Progress(item, l, 1) && (carry == 1 || AtMinima(l, 2))
    requires depth + 4 <= MAX_DEPTH && !Advance(item, l, 1, Steps(item, l, 1, carry)).1
    ensures
      var v := Advance(item, l, 1, Steps(item, l, 1, carry)).0;
      var l' := Placed(l, 1, v);
      && Progress(item, l', 1) && l'.month == v && l.month + carry <= v <= 12
      && (|| Search(item, l, 1, carry, depth).Found?
          || (!AlwaysMatches(item, v) && Search(item, l, 1, carry, depth) == Search(item, l', 1, 1, depth + 2)))
  {
    hide Search, Advance, Steps, Placed, Progress, AtMinima, AlwaysMatches;
    var v := Advance(item, l, 1, Steps(item, l, 1, carry)).0;
    var l' := Placed(l, 1, v);
    Advances(item, l, 1, carry);
    ProgressInRange(item, l, 1);
    ProgressInRange(item, l', 2);
    ProgressBack(item, l', 2);
    ProgressInRange(item, l', 1);
    SearchSteps(item, l, 1, carry, depth);
    SearchSteps(item, l', 2, 0, depth + 1);
    if AlwaysMatches(item, v) {
      DayAtMinimum(l');
      MinimumAdvances(item, l', 2);
    }
    if !Advance(item, l', 2, Steps(item, l', 2, 0)).1 {
      MinimaStay(l');
      Advances(item, l', 2, 0);
      RunsThrough(item, Placed(l', 2, Advance(item, l', 2, Steps(item, l', 2, 0)).0), 3, depth + 2);
    }
  }

  lemma DayAtMinimum(l: Label)
    requires AtMinima(l, 2)
    ensures l.day == MinOf(2)
  {}

  lemma MinimaStay(l: Label)
    requires AtMinima(l, 2)
    ensures AtMinima(l, 3)
  {}

  // From the months before one that always matches, the search ends there at the latest.
  lemma {:induction false} FoundByMonth(item: Item, l: Label, carry: int, depth: nat, m: int)
    requires ItemOK(item) && 0 <= carry <= 1 && Progress(item, l, 1) && (carry == 1 || AtMinima(l, 2))
    requires AlwaysMatches(item, m) && l.month + carry <= m && depth + 2 * (m - l.month - carry) + 4 <= MAX_DEPTH
    ensures Search(item, l, 1, carry, depth).Found?
    decreases m - l.month - carry
  {
    hide Search, Advance, Steps, Placed, Progress, AtMinima;
    ProgressInRange(item, l, 1);
    MonthAdvances(item, l, carry, m);
    MonthPasses(item, l, carry, depth);
    var v := Advance(item, l, 1, Steps(item, l, 1, carry)).0;
    if !Search(item, l, 1, carry, depth).Found? {
      FoundByMonth(item, Placed(l, 1, v), 1, depth + 2, m);
    }
  }

  // From the months after it, the search ends in the next year at the latest.
  lemma {:induction false} EndsByNextYear(item: Item, l: Label, depth: nat, m: int)
    requires ItemOK(item) && Progress(item, l, 1) && AlwaysMatches(item, m) && m <= l.month
    requires depth + 2 * (12 - l.month) + 2 + 2 * (m - 1) + 4 <= MAX_DEPTH
    ensures !Search(item, l, 1, 1, depth).TooDeep?
    decreases 12 - l.month
  {
    hide Search, Advance, Steps, Placed, Progress, AtMinima, AlwaysMatches;
    AlwaysInRange(item, m);
    ProgressInRange(item, l, 1);
    SearchSteps(item, l, 1, 1, depth);
    var (v, none) := Advance(item, l, 1, Steps(item, l, 1, 1));
    if none {
      ProgressBack(item, l, 1);
      ProgressInRange(item, l, 0);
      SearchSteps(item, l, 0, 1, depth + 1);
      var (year, over) := Advance(item, l, 0, Steps(item, l, 0, 1));
      if !over {
        YearStarts(item, l, depth + 1, m);
      }
    } else {
      MonthPasses(item, l, 1, depth);
      if !Search(item, l, 1, 1, depth).Found? {
        EndsByNextYear(item, Placed(l, 1, v), depth + 2, m);
      }
    }
  }

  lemma YearStarts(item: Item, l: Label, depth: nat, m: int)
    requires ItemOK(item) && Progress(item, l, 0) && AlwaysMatches(item, m)
    requires !Advance(item, l, 0, Steps(item, l, 0, 1)).1 && depth + 1 + 2 * (m - 1) + 4 <= MAX_DEPTH
    ensures Search(item, Placed(l, 0, Advance(item, l, 0, Steps(item, l, 0, 1)).0), 1, 0, depth + 1).Found?
  {
    hide Search, Advance, Steps, Placed, Progress, AtMinima;
    Advances(item, l, 0, 1);
    var l' := Placed(l, 0, Advance(item, l, 0, Steps(item, l, 0, 1)).0);
    MonthAtMinimum(l');
    FoundByMonth(item, l', 0, depth + 1, m);
  }

  lemma MonthAtMinimum(l: Label)
    requires AtMinima(l, 1)
    ensures l.month == MinOf(1) && AtMinima(l, 2)
  {}

  // A carry goes back until a field can advance.
  lemma {:induction false} RunsBack(item: Item, l: Label, p: nat, depth: nat)
    requires ItemOK(item) && EveryYear(item) && p < MAX && Progress(item, l, p) && depth + p <= 9
    ensures !Search(item, l, p, 1, depth).TooDeep?
    decreases p
  {
    hide Search, Advance, Steps, Placed, Progress, AtMinima, AlwaysMatches;
    var m :| AlwaysMatches(item, m);
    AlwaysInRange(item, m);
    ProgressInRange(item, l, p);
    SearchSteps(item, l, p, 1, depth);
    if p == 1 {
      if l.month < m {
        FoundByMonth(item, l, 1, depth, m);
      } else {
        EndsByNextYear(item, l, depth, m);
      }
    } else if Advance(item, l, p, Steps(item, l, p, 1)).1 {
      if p > 0 {
        ProgressBack(item, l, p);
        RunsBack(item, l, p - 1, depth + 1);
      }
    } else if p == 0 {
      YearStarts(item, l, depth, m);
    } else if p + 1 < MAX {
      Advances(item, l, p, 1);
      RunsThrough(item, Placed(l, p, Advance(item, l, p, Steps(item, l, p, 1)).0), p + 1, depth + 1);
    }
  }

  lemma {:induction false} RunsForward(item: Item, l: Label, p: nat, depth: nat)
    requires ItemOK(item) && EveryYear(item) && p < MAX && Progress(item, l, p) && depth == p
    ensures !Search(item, l, p, 0, depth).TooDeep?
    decreases MAX - p
  {
    hide Search, Advance, Steps, Placed, EveryYear, Progress, AtMinima;
    ProgressInRange(item, l, p);
    SearchSteps(item, l, p, 0, depth);
    if Advance(item, l, p, Steps(item, l, p, 0)).1 {
      if p > 0 {
        ProgressBack(item, l, p);
        RunsBack(item, l, p - 1, depth + 1);
      }
    } else if p + 1 < MAX {
      Advances(item, l, p, 0);
      RunsForward(item, Placed(l, p, Advance(item, l, p, Steps(item, l, p, 0)).0), p + 1, depth + 1);
    }
  }

  // An item that can match in every year never reaches the depth limit: from any label in range
  // the search gives the least match, or says that there is none.
  lemma NeverTooDeep(item: Item, l: Label)
    requires ItemOK(item) && InRange(l) && EveryYear(item)
    ensures !Search(item, l, 0, 0, 0).TooDeep?
  {
    hide Search, EveryYear;
    assert Progress(item, l, 0);
    RunsForward(item, l, 0, 0);
  }

  // Where the depth limit cuts the search off, nothing but February 29 can match at all.
  lemma OnlyLeapDaysAreCutOff(item: Item, l: Label, c: Label)
    requires ItemOK(item) && InRange(l) && Search(item, l, 0, 0, 0).TooDeep? && IsMatch(item, c)
    ensures c.month == 2 && c.day == 29
  {
    hide Search, Matches, DayOfWeek;
    if !(c.month == 2 && c.day == 29) {
      assert AlwaysMatches(item, c.month) by {
        assert SelectorOK(SelectorAt(item, 2), MinOf(2), MaxOf(2));
        assert item.dayOfWeek.None? ==> MatchesDay(item, c.day) && c.day <= Shortest(c.month);
      }
      NeverTooDeep(item, l);
    }
  }

  // An item with a weekday is such an item, and so is one with a day that every month has.
  lemma EveryMonthSuffices(item: Item)
    requires ItemOK(item) && (item.dayOfWeek.Some? || exists d :: 1 <= d <= 28 && MatchesDay(item, d))
    ensures EveryYear(item)
  {
    hide Matches, FindFirstMatch;
    assert SelectorOK(SelectorAt(item, 1), MinOf(1), MaxOf(1));
    FirstMatchIsLeast(item.month, 1);
    assert AlwaysMatches(item, FindFirstMatch(item.month, 1).0);
  }

  // One step of the search.
  lemma SearchSteps(item: Item, l: Label, p: nat, carry: int, depth: nat)
    requires ItemOK(item) && p < MAX
    ensures Search(item, l, p, carry, depth) ==
      if depth + 1 > MAX_DEPTH then TooDeep
      else if !(MinOf(p) <= Get(l, p) <= MaxOf(p)) then OutOfRange
      else
        var (v, none) := Advance(item, l, p, Steps(item, l, p, carry));
        if none then (if p == 0 then NoResult else Search(item, l, p - 1, 1, depth + 1))
        else if p + 1 == MAX then Found(Placed(l, p, v))
        else Search(item, Placed(l, p, v), p + 1, 0, depth + 1)
  {
    hide Advance, Steps, Placed;
  }

  lemma NothingToReset(l: Label)
    ensures Reset(l, MAX) == l
  {}

  // ------------------------------------------------------------ the search in place

  datatype Ending = Finished | ThrewTooDeep | ThrewOutOfRange

  // What the object and the way its search ended say about the outcome.
  function OutcomeOf(ending: Ending, hasResult: bool, l: Label): Outcome {
    match ending
    case Finished => if hasResult then Found(l) else NoResult
    case ThrewTooDeep => TooDeep
    case ThrewOutOfRange => OutOfRange
  }

  class MatchComputeState {
    var depth: nat
    var pos: nat
    const vals: array<int>
    var hasResult: bool

    ghost predicate Valid()
      reads this
    {
      vals.Length == MAX
    }

    ghost function Value(): Label
      reads this, vals
      requires Valid()
    {
      Label(vals[0], vals[1], vals[2], vals[3], vals[4])
    }

    constructor (l: Label)
      ensures Valid() && Value() == l && pos == 0 && depth == 0 && hasResult && fresh(vals)
    {
      depth, pos, hasResult := 0, 0, true;
      vals := new int[MAX];
      new;
      vals[0], vals[1], vals[2], vals[3], vals[4] := l.year, l.month, l.day, l.hour, l.minute;
    }

    method ResetFrom(from: nat)
      requires Valid() && from <= MAX
      modifies vals
      ensures Value() == Reset(old(Value()), from)
    {
      for p := from to MAX
        invariant forall q :: 0 <= q < MAX ==> vals[q] == if from <= q < p then MinOf(q) else old(vals[q])
      {
        vals[p] := MinOf(p);
      }
    }

    method FindMatchingDayOfWeek(item: Item, carry: int) returns (ending: Ending)
      requires Valid() && ItemOK(item) && item.dayOfWeek.Some? && pos == 2 && 0 <= carry <= 1 && hasResult
      modifies this, vals
      ensures OutcomeOf(ending, hasResult, Value()) == Search(item, old(Value()), 2, carry, old(depth))
      decreases MAX_DEPTH - depth, 1
    {
      hide DayOfWeek, Search, FindFirstMatch;
      ghost var l := Value();
      var dow := DayOfWeek(Label(vals[0], vals[1], vals[2], vals[3], vals[4]));
      assert 1 <= dow <= 7 && carry <= 1;  // throws otherwise
      FirstMatchIsLeast(item.dayOfWeek.value, dow + carry);
      var (newDow, carryNext) := FindFirstMatch(item.dayOfWeek.value, dow + carry);
      var steps := 0;
      if carryNext {
        assert newDow <= dow;  // throws otherwise
        steps := steps + newDow + 7 - dow;
      } else {
        assert newDow >= dow;  // throws otherwise
        steps := steps + newDow - dow;
      }
      DaysToStepIsLeast(item, l, carry);
      ending := FindMatchingPositionsImpl(item, steps, carry);
    }

    method FindMatchingPositions(item: Item, carry: int) returns (ending: Ending)
      requires Valid() && ItemOK(item) && pos < MAX && 0 <= carry <= 1 && hasResult
      modifies this, vals
      ensures OutcomeOf(ending, hasResult, Value()) == Search(item, old(Value()), old(pos), carry, old(depth))
      decreases MAX_DEPTH - depth, 2
    {
      hide Search;
      if pos == 2 && item.dayOfWeek.Some? {
        ending := FindMatchingDayOfWeek(item, carry);
      } else {
        ending := FindMatchingPositionsImpl(item, carry, carry);
      }
    }

    method FindMatchingPositionsImpl(item: Item, steps: int, ghost carry: int) returns (ending: Ending)
      requires Valid() && ItemOK(item) && pos < MAX && 0 <= carry <= 1 && hasResult
      requires carry <= steps == Steps(item, Value(), pos, carry)
      modifies this, vals
      ensures OutcomeOf(ending, hasResult, Value()) == Search(item, old(Value()), old(pos), carry, old(depth))
      decreases MAX_DEPTH - depth, 0
    {
      hide FindFirstMatch, Steps, EndOfMonth, Matches, CanMatch, Reset, Search;
      ghost var l := Value();
      SearchSteps(item, l, pos, carry, depth);
      depth := depth + 1;
      if depth > MAX_DEPTH {
        return ThrewTooDeep;
      }
      var sel := SelectorAt(item, pos);
      var val := vals[pos];
      assert val == Get(l, pos);
      if val < MinOf(pos) || val > MaxOf(pos) {
        return ThrewOutOfRange;
      }
      assert SelectorOK(sel, MinOf(pos), MaxOf(pos));
      FirstMatchIsLeast(sel, val + steps);
      var (newVal, carryNext) := FindFirstMatch(sel, val + steps);
      if !carryNext && pos == 2 && newVal > EndOfMonth(vals[0], vals[1]) {
        carryNext := true;
      }
      if carryNext {
        if pos == 0 {
          hasResult := false;
          return Finished;
        }
        pos := pos - 1;
        ending := FindMatchingPositions(item, 1);
        return;
      }
      assert !(newVal < val || (steps != 0 && newVal == val));  // throws otherwise
      vals[pos] := newVal;
      assert Value() == With(l, pos, newVal);
      pos := pos + 1;
      if pos == MAX {
        NothingToReset(With(l, 4, newVal));
        return Finished;
      }
      if newVal != val {
        ResetFrom(pos);
      }
      ending := FindMatchingPositions(item, 0);
    }
  }
}
