/**
 The first UTC match of a crontab item at or after an instant, for every policy on repeated and
 skipped local times (bistro/cron/StandardCrontabItem.cpp).
 */
module CronMatch {
  import opened CronClock

  // What the label search says from a label on; Throws is one of its exceptions.
  datatype Next = At(x: int) | Never | Throws

  // The labels an item matches are whole minutes, and `next` finds the least of them.
  ghost predicate IsNext(matches: int -> bool, next: int -> Next) {
    && (forall w :: matches(w) ==> Whole(w))
    && forall x :: Whole(x) ==>
         match next(x)
         case At(y) => x <= y && matches(y) && NoneIn(matches, x, y)
         case Never => NoneFrom(matches, x)
         case Throws => true
  }

  ghost predicate NoneIn(matches: int -> bool, lo: int, hi: int) {
    forall w :: lo <= w < hi ==> !matches(w)
  }

  ghost predicate NoneFrom(matches: int -> bool, lo: int) {
    forall w :: lo <= w ==> !matches(w)
  }

  datatype Policy = Policy(unskip: bool, useEarly: bool, useLate: bool)

  datatype Answer = Match(t: int) | NoMatch | Threw

  // ------------------------------------------------------------ the source's recursion

  function Max(a: int, b: int): int { if a < b then b else a }

  // findUTCTimestampsForFirstMatch: the label matched.  From inside the first pass over a
  // repeated span, a match past the span restarts the search at the span's beginning.
  function FindLabel(z: Zone, next: int -> Next, t: int): Next
    requires ZoneOK(z) && Whole(t)
    decreases if t == z.change - (z.before - z.after) then 0 else 1
  {
    match next(Local(z, t))
    case Never => Never
    case Throws => Throws
    case At(m) =>
      var ts, here := ToUTC(z, m), ToUTC(z, Local(z, t));
      LocalIsWhole(z, t);
      ToUTCKinds(z, Local(z, t));
      if IsAmbiguous(here) && IsBeforeRewind(t, here) then
        var (early, late) := InOrder(here);
        var rewind := RewindBetween(z, early, late + 1);
        var firstAmbiguous, firstUnambiguous := early - (late - rewind), late + (rewind - early);
        if t != firstAmbiguous && Max(ts.one, ts.other) >= firstUnambiguous then FindLabel(z, next, firstAmbiguous)
        else At(m)
      else At(m)
  }

  lemma LocalIsWhole(z: Zone, t: int)
    requires ZoneOK(z) && Whole(t)
    ensures Whole(Local(z, t)) && Whole(z.change - (z.before - z.after)) && Whole(z.change + z.after)
  {
    WholeSum(t, z.before);
    WholeSum(t, z.after);
    WholeSum(z.before, z.after);
    WholeSum(z.change, z.before - z.after);
    WholeSum(z.change, z.after);
  }

  // Rounding up to the minute with C++'s remainder, which takes the sign of the dividend.
  function Remainder(t: int): int { if 0 <= t then t % 60 else -(-t % 60) }

  function RoundUp(t: int): (r: int)
    ensures t <= r < t + 60 && Whole(r)
  {
    t + (60 - Remainder(t)) % 60
  }

  // Instants left until the clock is settled.
  function Left(z: Zone, t: int): nat {
    var settled := z.change + Max(z.before - z.after, 0);
    if t < settled then settled - t else 0
  }

  // findFirstMatch and findFirstMatchImpl
  function FindFirstMatch(z: Zone, ghost matches: int -> bool, next: int -> Next, policy: Policy, t0: int): Answer
    requires ZoneOK(z) && IsNext(matches, next)
    decreases Left(z, RoundUp(t0))
  {
    var t := RoundUp(t0);
    match FindLabel(z, next, t)
    case Never => NoMatch
    case Throws => Threw
    case At(m) =>
      LabelIsAhead(z, matches, next, t);
      ToUTCKinds(z, m);
      var ts := ToUTC(z, m);
      if IsNotATime(ts) then
        match PreSkip(z, m)
        case None => Threw
        case Some(preSkip) =>
          if policy.unskip then Match(preSkip) else FindFirstMatch(z, matches, next, policy, preSkip + 1)
      else if IsAmbiguous(ts) then
        var (early, late) := InOrder(ts);
        if t <= early then
          if policy.useEarly then Match(early) else FindFirstMatch(z, matches, next, policy, early + 1)
        else
          if policy.useLate then Match(late) else FindFirstMatch(z, matches, next, policy, late + 1)
      else
        Match(Unique(ts))
  }

  // ------------------------------------------------------------ what the label is

  // The search restarted at the beginning of the repeated span.
  ghost predicate Restarted(z: Zone, matches: int -> bool, t: int, m: int) {
    && z.change - (z.before - z.after) < t < z.change
    && NoneIn(matches, Local(z, t), z.change + z.before) && !NoneFrom(matches, z.change + z.before)
    && z.change + z.after <= m && matches(m) && NoneIn(matches, z.change + z.after, m)
  }

  ghost predicate Direct(z: Zone, matches: int -> bool, t: int, m: int) {
    && Local(z, t) <= m && matches(m) && NoneIn(matches, Local(z, t), m)
    && (z.change - (z.before - z.after) < t < z.change ==> m < z.change + z.before)
  }

  lemma LabelIsAhead(z: Zone, matches: int -> bool, next: int -> Next, t: int)
    requires ZoneOK(z) && IsNext(matches, next) && Whole(t)
    ensures
      match FindLabel(z, next, t)
      case At(m) => Whole(m) && (Direct(z, matches, t, m) || Restarted(z, matches, t, m))
      case Never => NoneFrom(matches, Local(z, t))
      case Throws => true
  {
    LocalIsWhole(z, t);
    ToUTCKinds(z, Local(z, t));
    var start := z.change - (z.before - z.after);
    match next(Local(z, t))
    case At(m) =>
      ToUTCKinds(z, m);
      if start < t < z.change && z.change + z.before <= m {
        RestartedLabel(z, matches, next, t, m);
      }
    case _ =>
  }

  lemma RestartedLabel(z: Zone, matches: int -> bool, next: int -> Next, t: int, m0: int)
    requires ZoneOK(z) && IsNext(matches, next) && Whole(t) && z.change - (z.before - z.after) < t < z.change
    requires next(Local(z, t)) == At(m0) && z.change + z.before <= m0
    ensures FindLabel(z, next, t) == next(z.change + z.after)
    ensures next(z.change + z.after) != Never
    ensures next(z.change + z.after).At? ==> Restarted(z, matches, t, next(z.change + z.after).x)
  {
    hide FindLabel;
    LocalIsWhole(z, t);
    SearchRestarts(z, matches, next, t, m0);
    SearchStarts(z, next);
    assert matches(m0);
  }

  // From the beginning of the span there is no restart.
  lemma SearchStarts(z: Zone, next: int -> Next)
    requires ZoneOK(z) && z.after < z.before
    ensures Whole(z.change - (z.before - z.after))
    ensures FindLabel(z, next, z.change - (z.before - z.after)) == next(z.change + z.after)
  {
    hide Whole;
    var start := z.change - (z.before - z.after);
    LocalIsWhole(z, z.change);
    LocalIsWhole(z, start);
    assert Local(z, start) == z.change + z.after;
    ToUTCKinds(z, Local(z, start));
  }

  lemma SearchRestarts(z: Zone, matches: int -> bool, next: int -> Next, t: int, m0: int)
    requires ZoneOK(z) && IsNext(matches, next) && Whole(t) && z.change - (z.before - z.after) < t < z.change
    requires next(Local(z, t)) == At(m0) && z.change + z.before <= m0
    ensures Whole(z.change - (z.before - z.after))
    ensures FindLabel(z, next, t) == FindLabel(z, next, z.change - (z.before - z.after))
  {
    hide Whole, NoneIn, NoneFrom, RewindBetween;
    LocalIsWhole(z, t);
    ToUTCKinds(z, Local(z, t));
    assert matches(m0);
    ToUTCKinds(z, m0);
  }

  // ------------------------------------------------------------ events

  // The instants at which the item fires under a policy.
  ghost predicate IsEvent(z: Zone, matches: int -> bool, policy: Policy, t: int) {
    || (&& matches(Local(z, t))
        && (Repeated(z, Local(z, t)) ==> if t < z.change then policy.useEarly else policy.useLate))
    || (policy.unskip && t == z.change - 1 && SomeSkipped(z, matches))
  }

  ghost predicate SomeSkipped(z: Zone, matches: int -> bool) {
    exists x :: Skipped(z, x) && matches(x)
  }

  ghost predicate NoEventIn(z: Zone, matches: int -> bool, policy: Policy, lo: int, hi: int) {
    forall e :: lo <= e < hi ==> !IsEvent(z, matches, policy, e)
  }

  ghost predicate NoEventFrom(z: Zone, matches: int -> bool, policy: Policy, lo: int) {
    forall e :: lo <= e ==> !IsEvent(z, matches, policy, e)
  }

  // The answer is the first event at or after t.
  ghost predicate IsFirst(z: Zone, matches: int -> bool, policy: Policy, t: int, answer: Answer)
    requires !answer.Threw?
  {
    match answer
    case Match(g) => t <= g && IsEvent(z, matches, policy, g) && NoEventIn(z, matches, policy, t, g)
    case NoMatch => NoEventFrom(z, matches, policy, t)
  }

  // ------------------------------------------------------------ one label at a time

  // The instant that the label m stands for, and whether the policy lets it fire.
  function Target(z: Zone, t: int, m: int): int {
    if Skipped(z, m) then z.change - 1
    else if Repeated(z, m) then (if t <= m - z.before then m - z.before else m - z.after)
    else if m < z.change + z.before then m - z.before
    else m - z.after
  }

  predicate Fires(z: Zone, policy: Policy, t: int, m: int) {
    if Skipped(z, m) then policy.unskip
    else if Repeated(z, m) then (if t <= m - z.before then policy.useEarly else policy.useLate)
    else true
  }

  lemma TargetIsNext(z: Zone, matches: int -> bool, policy: Policy, t: int, m: int)
    requires ZoneOK(z) && Whole(t) && Whole(m) && (forall w :: matches(w) ==> Whole(w))
    requires Direct(z, matches, t, m) || Restarted(z, matches, t, m)
    ensures var g := Target(z, t, m);
      t <= g && NoEventIn(z, matches, policy, t, g) && (IsEvent(z, matches, policy, g) <==> Fires(z, policy, t, m))
  {
    var g := Target(z, t, m);
    forall e | t <= e < g ensures !IsEvent(z, matches, policy, e) {
      assert !matches(Local(z, e));
    }
  }

  lemma NothingBeforeRoundUp(z: Zone, matches: int -> bool, policy: Policy, t: int, m: int)
    requires ZoneOK(z) && Whole(t) && Whole(m) && (forall w :: matches(w) ==> Whole(w)) && !Fires(z, policy, t, m)
    ensures var g := Target(z, t, m); NoEventIn(z, matches, policy, g + 1, RoundUp(g + 1))
  {
    var g := Target(z, t, m);
    if Repeated(z, m) {
      WholeSum(m, z.before);
      WholeSum(m, z.after);
    }
    forall e | g + 1 <= e < RoundUp(g + 1) ensures !IsEvent(z, matches, policy, e) {
      WholeIsLocal(z, e);
      if Repeated(z, m) {
        assert Whole(g);
        NotWholeBetween(g, e);
      }
    }
  }

  lemma WholeIsLocal(z: Zone, e: int)
    requires ZoneOK(z)
    ensures Whole(Local(z, e)) ==> Whole(e)
  {
    if Whole(Local(z, e)) {
      WholeSum(Local(z, e), z.before);
      WholeSum(Local(z, e), z.after);
    }
  }

  lemma NotWholeBetween(g: int, e: int)
    requires Whole(g) && g < e < g + 60
    ensures !Whole(e)
  {}

  // A skipped label so far into the skip that no label shown is found before it.
  predicate FarSkipped(z: Zone, m: int) {
    Skipped(z, m) && z.change + z.before + 90000 <= m
  }

  // The recursion in terms of targets.
  lemma Unfolded(z: Zone, matches: int -> bool, next: int -> Next, policy: Policy, t0: int)
    requires ZoneOK(z) && IsNext(matches, next) && FindLabel(z, next, RoundUp(t0)).At?
    ensures
      var answer, t, m := FindFirstMatch(z, matches, next, policy, t0), RoundUp(t0), FindLabel(z, next, RoundUp(t0)).x;
      var g := Target(z, t, m);
      answer == if FarSkipped(z, m) then Threw
                else if Fires(z, policy, t, m) then Match(g)
                else FindFirstMatch(z, matches, next, policy, g + 1)
  {
    hide IsNext, FindLabel, Direct, Restarted, Left, LastShown, RoundUp, FirstSkipped, RewindBetween;
    var t := RoundUp(t0);
    LabelIsAhead(z, matches, next, t);
    ToUTCKinds(z, FindLabel(z, next, t).x);
  }

  lemma WithoutLabel(z: Zone, matches: int -> bool, next: int -> Next, policy: Policy, t0: int)
    requires ZoneOK(z) && IsNext(matches, next)
    ensures FindLabel(z, next, RoundUp(t0)).Never? ==> FindFirstMatch(z, matches, next, policy, t0) == NoMatch
    ensures FindLabel(z, next, RoundUp(t0)).Throws? ==> FindFirstMatch(z, matches, next, policy, t0) == Threw
  {
    hide FindLabel, RoundUp;
  }

  lemma LeftShrinks(z: Zone, matches: int -> bool, policy: Policy, t: int, m: int)
    requires ZoneOK(z) && (Direct(z, matches, t, m) || Restarted(z, matches, t, m)) && !Fires(z, policy, t, m)
    ensures Left(z, RoundUp(Target(z, t, m) + 1)) < Left(z, t)
  {}

  // ------------------------------------------------------------ exceptions

  // The label search throws for no label from the change of the clock until it is settled.
  ghost predicate AnswersAtChange(z: Zone, next: int -> Next) {
    forall x :: Whole(x) && z.change + z.after <= x <= z.change + Max(z.before, z.after) ==> !next(x).Throws?
  }

  // From t on, the first label that matches is too far into a skip.
  ghost predicate FirstIsFar(z: Zone, matches: int -> bool, t: int) {
    && t < z.change && NoneIn(matches, Local(z, t), z.change + z.before + 90000)
    && !NoneIn(matches, z.change + z.before + 90000, z.change + z.after)
  }

  lemma LabelThrows(z: Zone, matches: int -> bool, next: int -> Next, t: int)
    requires ZoneOK(z) && IsNext(matches, next) && Whole(t) && AnswersAtChange(z, next)
    ensures FindLabel(z, next, t).Throws? <==> next(Local(z, t)).Throws?
  {
    hide Whole, NoneIn, NoneFrom;
    LocalIsWhole(z, t);
    ToUTCKinds(z, Local(z, t));
    match next(Local(z, t))
    case At(m) =>
      assert matches(m);
      ToUTCKinds(z, m);
      if z.change - (z.before - z.after) < t < z.change && z.change + z.before <= m {
        RestartedLabel(z, matches, next, t, m);
      }
    case _ =>
  }

  lemma FarExactly(z: Zone, matches: int -> bool, t: int, m: int)
    requires ZoneOK(z) && (Direct(z, matches, t, m) || Restarted(z, matches, t, m))
    ensures FarSkipped(z, m) <==> FirstIsFar(z, matches, t)
  {}

  // A label that does not fire leads to a label at the change, where the search goes on.
  lemma GoesOnAtChange(z: Zone, matches: int -> bool, policy: Policy, t: int, m: int)
    requires ZoneOK(z) && Whole(t) && Whole(m) && (Direct(z, matches, t, m) || Restarted(z, matches, t, m))
    requires !FarSkipped(z, m) && !Fires(z, policy, t, m)
    ensures
      var t' := RoundUp(Target(z, t, m) + 1);
      && Whole(Local(z, t')) && z.change + z.after <= Local(z, t') <= z.change + Max(z.before, z.after)
      && !FirstIsFar(z, matches, t')
  {
    hide Whole, RoundUp, NoneFrom;
    var g := Target(z, t, m);
    if Skipped(z, m) {
      RoundsToChange(z);
    } else {
      WholeSum(m, z.before);
      WholeSum(m, z.after);
      WholeSum(z.change, z.before);
      MinuteApart(m, z.change + z.before);
      NextMinute(g);
    }
    LocalIsWhole(z, RoundUp(g + 1));
  }

  lemma MinuteApart(a: int, b: int)
    requires Whole(a) && Whole(b) && a < b
    ensures a + 60 <= b
  {}

  lemma RoundsToChange(z: Zone)
    requires ZoneOK(z)
    ensures RoundUp(z.change) == z.change
  {}

  // The search throws exactly if the label search throws at its first label, or the first label
  // that matches is too far into a skip.
  lemma {:induction false} ThrewExactly(z: Zone, matches: int -> bool, next: int -> Next, policy: Policy, t0: int)
    requires ZoneOK(z) && IsNext(matches, next) && AnswersAtChange(z, next)
    ensures FindFirstMatch(z, matches, next, policy, t0).Threw?
      <==> next(Local(z, RoundUp(t0))).Throws? || FirstIsFar(z, matches, RoundUp(t0))
    decreases Left(z, RoundUp(t0))
  {
    hide Direct, Restarted, RoundUp, Left, Target, Fires, FindLabel, FindFirstMatch, FarSkipped, FirstIsFar;
    var t := RoundUp(t0);
    LabelIsAhead(z, matches, next, t);
    LabelThrows(z, matches, next, t);
    WithoutLabel(z, matches, next, policy, t0);
    match FindLabel(z, next, t)
    case Never => NeverIsNotFar(z, matches, t);
    case Throws =>
    case At(m) =>
      Unfolded(z, matches, next, policy, t0);
      FarExactly(z, matches, t, m);
      if !FarSkipped(z, m) && !Fires(z, policy, t, m) {
        LeftShrinks(z, matches, policy, t, m);
        GoesOnAtChange(z, matches, policy, t, m);
        ThrewExactly(z, matches, next, policy, Target(z, t, m) + 1);
      }
  }

  lemma NeverIsNotFar(z: Zone, matches: int -> bool, t: int)
    requires NoneFrom(matches, Local(z, t))
    ensures !FirstIsFar(z, matches, t)
  {}

  // ------------------------------------------------------------ the theorem

  // A repeated label fires late, but the search has no label left to find: nothing matches from
  // the last repeated minute on, and nothing fires earlier.
  ghost predicate Misses(z: Zone, matches: int -> bool, policy: Policy, t: int) {
    && policy.useLate && t < z.change
    && NoneFrom(matches, z.change + z.before - 60) && !NoneFrom(matches, z.change + z.after)
    && (if policy.useEarly then NoneFrom(matches, Local(z, t)) else NoneIn(matches, Local(z, t), z.change + z.after))
  }

  lemma NeverExactly(z: Zone, matches: int -> bool, policy: Policy, t: int)
    requires ZoneOK(z) && Whole(t) && (forall w :: matches(w) ==> Whole(w)) && NoneFrom(matches, Local(z, t))
    ensures NoEventFrom(z, matches, policy, t) <==> !Misses(z, matches, policy, t)
  {
    if Misses(z, matches, policy, t) {
      var w :| z.change + z.after <= w && matches(w);
      assert Local(z, w - z.after) == w;
      assert IsEvent(z, matches, policy, w - z.after);
    } else {
      if t < z.change {
        LastMinute(z, t);
      }
      forall e | t <= e ensures !IsEvent(z, matches, policy, e) {
        assert IsEvent(z, matches, policy, e) ==> matches(Local(z, e)) || SomeSkipped(z, matches);
      }
    }
  }

  lemma LastMinute(z: Zone, t: int)
    requires ZoneOK(z) && Whole(t) && t < z.change
    ensures t <= z.change - 60
  {}

  lemma FiringIsNoMiss(z: Zone, matches: int -> bool, policy: Policy, t: int, m: int)
    requires ZoneOK(z) && (Direct(z, matches, t, m) || Restarted(z, matches, t, m)) && Fires(z, policy, t, m)
    ensures !Misses(z, matches, policy, t)
  {}

  lemma MissMovesOn(z: Zone, matches: int -> bool, policy: Policy, t: int, m: int)
    requires ZoneOK(z) && Whole(m) && (Direct(z, matches, t, m) || Restarted(z, matches, t, m))
      && !Fires(z, policy, t, m)
    ensures Misses(z, matches, policy, t) <==> Misses(z, matches, policy, RoundUp(Target(z, t, m) + 1))
  {
    if Repeated(z, m) && t <= m - z.before {
      WholeSum(m, z.before);
      NextMinute(m - z.before);
    }
  }

  lemma NextMinute(g: int)
    requires Whole(g)
    ensures RoundUp(g + 1) == g + 60
  {
    hide RoundUp;
    var r := RoundUp(g + 1);
    if r < g + 60 {
      NotWholeBetween(g, r);
    } else if g + 60 < r {
      NotWholeBetween(g + 60, r);
    }
  }

  lemma FirstMovesOn(z: Zone, matches: int -> bool, policy: Policy, t: int, t': int, answer: Answer)
    requires t <= t' && NoEventIn(z, matches, policy, t, t') && !answer.Threw?
    requires answer.Match? ==> t' <= answer.t || answer.t < t
    ensures IsFirst(z, matches, policy, t, answer) <==> IsFirst(z, matches, policy, t', answer)
  {
    hide IsEvent;
  }

  lemma {:induction false} AnswerIsAhead(z: Zone, matches: int -> bool, next: int -> Next, policy: Policy, t0: int)
    requires ZoneOK(z) && IsNext(matches, next) && FindFirstMatch(z, matches, next, policy, t0).Match?
    ensures RoundUp(t0) <= FindFirstMatch(z, matches, next, policy, t0).t
    decreases Left(z, RoundUp(t0))
  {
    hide Direct, Restarted, RoundUp, Left, Target, Fires, FindLabel, FindFirstMatch, IsEvent, NoEventIn, FarSkipped;
    var t := RoundUp(t0);
    LabelIsAhead(z, matches, next, t);
    WithoutLabel(z, matches, next, policy, t0);
    var m := FindLabel(z, next, t).x;
    Unfolded(z, matches, next, policy, t0);
    TargetIsNext(z, matches, policy, t, m);
    if !Fires(z, policy, t, m) {
      LeftShrinks(z, matches, policy, t, m);
      AnswerIsAhead(z, matches, next, policy, Target(z, t, m) + 1);
    }
  }

  // The answer is the first event at or after the rounded-up instant, except exactly where a
  // late repeat is missed.
  lemma {:induction false} FirstMatchExactly(z: Zone, matches: int -> bool, next: int -> Next, policy: Policy, t0: int)
    requires ZoneOK(z) && IsNext(matches, next) && !FindFirstMatch(z, matches, next, policy, t0).Threw?
    ensures IsFirst(z, matches, policy, RoundUp(t0), FindFirstMatch(z, matches, next, policy, t0))
      <==> !Misses(z, matches, policy, RoundUp(t0))
    decreases Left(z, RoundUp(t0))
  {
    hide IsEvent, Misses, Direct, Restarted, RoundUp, Left, Target, Fires, IsFirst, NoEventIn, FindLabel,
         FindFirstMatch, FarSkipped;
    var t, answer := RoundUp(t0), FindFirstMatch(z, matches, next, policy, t0);
    LabelIsAhead(z, matches, next, t);
    WithoutLabel(z, matches, next, policy, t0);
    match FindLabel(z, next, t)
    case Never =>
      NeverExactly(z, matches, policy, t);
      NoMatchIsFirst(z, matches, policy, t);
    case Throws =>
    case At(m) =>
      var g := Target(z, t, m);
      Unfolded(z, matches, next, policy, t0);
      TargetIsNext(z, matches, policy, t, m);
      if Fires(z, policy, t, m) {
        FiringIsNoMiss(z, matches, policy, t, m);
        MatchIsFirst(z, matches, policy, t, g);
      } else {
        LeftShrinks(z, matches, policy, t, m);
        FirstMatchExactly(z, matches, next, policy, g + 1);
        MissMovesOn(z, matches, policy, t, m);
        NothingBeforeRoundUp(z, matches, policy, t, m);
        NoEventUpTo(z, matches, policy, t, g, RoundUp(g + 1));
        if answer.Match? {
          AnswerIsAhead(z, matches, next, policy, g + 1);
        }
        FirstMovesOn(z, matches, policy, t, RoundUp(g + 1), answer);
      }
  }

  lemma NoMatchIsFirst(z: Zone, matches: int -> bool, policy: Policy, t: int)
    ensures IsFirst(z, matches, policy, t, NoMatch) <==> NoEventFrom(z, matches, policy, t)
  {}

  lemma MatchIsFirst(z: Zone, matches: int -> bool, policy: Policy, t: int, g: int)
    requires t <= g && NoEventIn(z, matches, policy, t, g) && IsEvent(z, matches, policy, g)
    ensures IsFirst(z, matches, policy, t, Match(g))
  {}

  lemma NoEventUpTo(z: Zone, matches: int -> bool, policy: Policy, t: int, g: int, t': int)
    requires NoEventIn(z, matches, policy, t, g) && !IsEvent(z, matches, policy, g)
      && NoEventIn(z, matches, policy, g + 1, t')
    ensures NoEventIn(z, matches, policy, t, t')
  {}

  // For the instant given: rounding up loses exactly the event of a skip in the minute before it.
  lemma RoundingExactly(z: Zone, matches: int -> bool, policy: Policy, t0: int, answer: Answer)
    requires ZoneOK(z) && (forall w :: matches(w) ==> Whole(w)) && !answer.Threw?
    requires IsFirst(z, matches, policy, RoundUp(t0), answer)
    ensures IsFirst(z, matches, policy, t0, answer)
      <==> !(policy.unskip && SomeSkipped(z, matches) && t0 <= z.change - 1 < RoundUp(t0))
  {
    hide RoundUp, SomeSkipped;
    var t := RoundUp(t0);
    WholeSum(t, 60);
    forall e | t0 <= e < t
      ensures IsEvent(z, matches, policy, e) <==> policy.unskip && SomeSkipped(z, matches) && e == z.change - 1
    {
      WholeIsLocal(z, e);
      if Whole(e) {
        NotWholeBetween(t - 60, e);
      }
    }
    assert t0 <= z.change - 1 < t && policy.unskip && SomeSkipped(z, matches) ==>
      IsEvent(z, matches, policy, z.change - 1);
  }

  // A label that matches after the repeated span rules out a miss.
  lemma LaterMatchSuffices(z: Zone, matches: int -> bool, next: int -> Next, policy: Policy, t0: int, w: int)
    requires ZoneOK(z) && IsNext(matches, next) && !FindFirstMatch(z, matches, next, policy, t0).Threw?
    requires z.change + z.before <= w && matches(w)
    ensures IsFirst(z, matches, policy, RoundUp(t0), FindFirstMatch(z, matches, next, policy, t0))
  {
    FirstMatchExactly(z, matches, next, policy, t0);
  }
}
