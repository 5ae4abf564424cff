/** Billing periods: monthly, starting on a day of the month and a second of the day at a
    fixed UTC offset, clamped to the last day of shorter months. Proved to tile time. */
module Schedule {
  import opened Calendar

  const DAY := 86_400

  datatype ResetMode = Fixed | Creation

  /** A billing period, named by the year and month it starts in. */
  datatype Period = Period(y: int, m: int)

  /** Day of month and second of day on which periods start. */
  datatype Anchor = Anchor(day: int, tod: int)

  function Next(p: Period): Period {
    if p.m == 12 then Period(p.y + 1, 1) else Period(p.y, p.m + 1)
  }

  function Previous(p: Period): Period {
    if p.m == 1 then Period(p.y - 1, 12) else Period(p.y, p.m - 1)
  }

  /** Local time at which the period of month `p` starts. */
  function StartOf(a: Anchor, p: Period): int {
    var n := Next(p);
    var length := DaysFromCivil(n.y, n.m, 1) - DaysFromCivil(p.y, p.m, 1);
    DaysFromCivil(p.y, p.m, if a.day < length then a.day else length) * DAY + a.tod
  }

  datatype Schedule = Schedule(mode: ResetMode, resetDay: nat, utcOffsetMin: int) {

    function Offset(): int {
      utcOffsetMin * 60
    }

    function AnchorOf(created: nat): Anchor {
      if mode == Creation && created > 0 then
        var local := created + Offset();
        Anchor(CivilFromDays(local / DAY).d, local % DAY)
      else
        Anchor(resetDay, 0)
    }

    function PeriodOf(created: nat, now: nat): Period {
      var local := now + Offset();
      var t := CivilFromDays(local / DAY);
      var p := Period(t.y, t.m);
      if local >= StartOf(AnchorOf(created), p) then p else Previous(p)
    }

    function ResetTime(created: nat, now: nat): int {
      StartOf(AnchorOf(created), Next(PeriodOf(created, now))) - Offset()
    }

    function NextReset(created: nat, now: nat): nat {
      var t := ResetTime(created, now);
      if t < 0 then 0 else t
    }

    /** The anchor names a real day: always for creation anniversaries, and for a fixed
        day exactly when it is not 0. */
    predicate Anchored(created: nat) {
      (mode == Creation && created > 0) || resetDay >= 1
    }
  }

  predicate Proper(a: Anchor) {
    1 <= a.day && 0 <= a.tod < DAY
  }

  predicate IsMonth(p: Period) {
    1 <= p.m <= 12
  }

  lemma AnchorProper(s: Schedule, created: nat)
    requires s.Anchored(created)
    ensures Proper(s.AnchorOf(created))
  {
    DaysRoundTrip((created + s.Offset()) / DAY);
  }

  lemma MonthDays(p: Period)
    requires IsMonth(p)
    ensures DaysFromCivil(Next(p).y, Next(p).m, 1)
         == DaysFromCivil(p.y, p.m, 1) + MonthLength(p.y, p.m)
  {
    hide DaysFromCivil;
    DaysFromCivilCounts(Date(p.y, p.m, 1));
    DaysFromCivilCounts(Date(Next(p).y, Next(p).m, 1));
    if p.m == 12 {
      YearEnds(p.y);
    } else {
      assert MonthStart(p.y, p.m + 1) == MonthStart(p.y, p.m) + MonthLength(p.y, p.m);
    }
    hide YearStart, MonthStart, MonthLength;
  }

  lemma YearEnds(y: int)
    ensures YearStart(y + 1) + MonthStart(y + 1, 1) == YearStart(y) + MonthStart(y, 12) + MonthLength(y, 12)
  {
    MonthStartTable(y, 12);
    assert YearStart(y + 1) == YearStart(y) + YearLength(y);
    hide YearStart;
  }

  /** The start of a period as an offset from the first of its month. */
  lemma StartForm(a: Anchor, p: Period)
    requires IsMonth(p)
    ensures var length := MonthLength(p.y, p.m);
            StartOf(a, p) == (DaysFromCivil(p.y, p.m, 1)
                              + (if a.day < length then a.day else length) - 1) * DAY + a.tod
  {
    hide DaysFromCivil;
    MonthDays(p);
    DayShift(p.y, p.m, if a.day < MonthLength(p.y, p.m) then a.day else MonthLength(p.y, p.m));
  }

  /** A period starts inside its own month. */
  lemma StartInMonth(a: Anchor, p: Period)
    requires Proper(a) && IsMonth(p)
    ensures var n := Next(p);
            DaysFromCivil(p.y, p.m, 1) * DAY <= StartOf(a, p) < DaysFromCivil(n.y, n.m, 1) * DAY
  {
    hide DaysFromCivil, CivilFromDays;
    MonthDays(p);
    StartForm(a, p);
  }

  /** Consecutive periods start 28 to 31 days apart. */
  lemma PeriodLength(a: Anchor, p: Period)
    requires Proper(a) && IsMonth(p)
    ensures 28 * DAY <= StartOf(a, Next(p)) - StartOf(a, p) <= 31 * DAY
  {
    hide DaysFromCivil, CivilFromDays;
    MonthDays(p);
    StartForm(a, p);
    StartForm(a, Next(p));
  }

  lemma {:induction false} StartsGrow(a: Anchor, p: Period, q: Period)
    requires Proper(a) && IsMonth(p) && IsMonth(q)
    requires 12 * p.y + p.m < 12 * q.y + q.m
    ensures StartOf(a, Next(p)) <= StartOf(a, q)
    decreases 12 * (q.y - p.y) + q.m - p.m
  {
    hide DaysFromCivil, CivilFromDays;
    PeriodLength(a, Next(p));
    if Next(p) != q {
      StartsGrow(a, Next(p), q);
    }
  }

  /** Local midnight of the first of the month holding `local`. */
  lemma MonthOf(local: int)
    ensures var t := CivilFromDays(local / DAY);
            var n := Next(Period(t.y, t.m));
            1 <= t.m <= 12
            && DaysFromCivil(t.y, t.m, 1) * DAY <= local < DaysFromCivil(n.y, n.m, 1) * DAY
  {
    var z := local / DAY;
    var t := CivilFromDays(z);
    DaysRoundTrip(z);
    MonthDays(Period(t.y, t.m));
    assert DaysFromCivil(t.y, t.m, 1) == z - t.d + 1;
  }

  /** `local` lies in the period of month `p`. */
  predicate Holds(a: Anchor, p: Period, local: int) {
    StartOf(a, p) <= local < StartOf(a, Next(p))
  }

  lemma PeriodHolds(a: Anchor, local: int)
    requires Proper(a)
    ensures var t := CivilFromDays(local / DAY);
            var p := Period(t.y, t.m);
            IsMonth(p) && Holds(a, if local >= StartOf(a, p) then p else Previous(p), local)
  {
    hide DaysFromCivil, CivilFromDays;
    MonthOf(local);
    var t := CivilFromDays(local / DAY);
    var p := Period(t.y, t.m);
    StartInMonth(a, p);
    if local >= StartOf(a, p) {
      StartInMonth(a, Next(p));
    } else {
      StartInMonth(a, Previous(p));
      assert Next(Previous(p)) == p;
    }
  }

  lemma PeriodUnique(a: Anchor, local: int, p: Period, q: Period)
    requires Proper(a) && IsMonth(p) && IsMonth(q)
    requires Holds(a, p, local) && Holds(a, q, local)
    ensures p == q
  {
    hide DaysFromCivil, CivilFromDays;
    if 12 * p.y + p.m < 12 * q.y + q.m {
      StartsGrow(a, p, q);
    } else if 12 * q.y + q.m < 12 * p.y + p.m {
      StartsGrow(a, q, p);
    }
  }

  /** The period of a moment is the one month whose start-to-start interval holds it. */
  lemma PeriodIff(s: Schedule, created: nat, now: nat, p: Period)
    requires s.Anchored(created) && IsMonth(p)
    ensures IsMonth(s.PeriodOf(created, now))
    ensures s.PeriodOf(created, now) == p <==> Holds(s.AnchorOf(created), p, now + s.Offset())
  {
    hide DaysFromCivil, CivilFromDays;
    AnchorProper(s, created);
    PeriodHolds(s.AnchorOf(created), now + s.Offset());
    if Holds(s.AnchorOf(created), p, now + s.Offset()) {
      PeriodUnique(s.AnchorOf(created), now + s.Offset(), p, s.PeriodOf(created, now));
    }
  }

  lemma ResetBounds(s: Schedule, created: nat, now: nat)
    requires s.Anchored(created)
    ensures s.NextReset(created, now) == s.ResetTime(created, now)
    ensures now < s.NextReset(created, now) <= now + 31 * DAY
    ensures Holds(s.AnchorOf(created), Next(s.PeriodOf(created, now)), s.NextReset(created, now) + s.Offset())
  {
    hide DaysFromCivil, CivilFromDays;
    AnchorProper(s, created);
    var p := s.PeriodOf(created, now);
    PeriodIff(s, created, now, Period(0, 1));
    PeriodIff(s, created, now, p);
    PeriodLength(s.AnchorOf(created), p);
    PeriodLength(s.AnchorOf(created), Next(p));
  }

  /** Periods tile time: the next reset lies ahead by at most 31 days, the period is the
      same at every moment before it (back to its own start) and the following one at it,
      and the clamp to 0 is never used. */
  lemma PeriodsTile(s: Schedule, created: nat, now: nat)
    requires s.Anchored(created)
    ensures s.NextReset(created, now) == s.ResetTime(created, now)
    ensures now < s.NextReset(created, now) <= now + 31 * DAY
    ensures s.PeriodOf(created, s.NextReset(created, now)) == Next(s.PeriodOf(created, now))
    ensures forall t: nat :: s.PeriodOf(created, t) == s.PeriodOf(created, now)
              <==> PeriodStart(s, created, now) <= t < s.NextReset(created, now)
  {
    hide DaysFromCivil, CivilFromDays;
    var p := s.PeriodOf(created, now);
    PeriodIff(s, created, now, Period(0, 1));
    ResetBounds(s, created, now);
    PeriodIff(s, created, s.NextReset(created, now), Next(p));
    forall t: nat
      ensures s.PeriodOf(created, t) == p
         <==> PeriodStart(s, created, now) <= t < s.NextReset(created, now)
    {
      PeriodIff(s, created, t, p);
    }
  }

  /** Unix time at which the period holding `now` began (negative before 1970). */
  function PeriodStart(s: Schedule, created: nat, now: nat): int {
    StartOf(s.AnchorOf(created), s.PeriodOf(created, now)) - s.Offset()
  }

  lemma LateJanuary(s: Schedule) returns (y: int, now: nat)
    ensures now + s.Offset() == DaysFromCivil(y, 1, 31) * DAY
  {
    var k := if s.utcOffsetMin < 0 then -s.utcOffsetMin else s.utcOffsetMin;
    y := 2000 + k;
    MarchForm(y, 1, 31);
    assert MarchStart(y - 1) >= 365 * k;
    now := DaysFromCivil(y, 1, 31) * DAY - s.Offset();
  }

  /** With the fixed day 0 the reset of a 31 January lies on that same day. */
  lemma DayZeroReset(s: Schedule, created: nat, y: int, now: nat)
    requires !s.Anchored(created)
    requires now + s.Offset() == DaysFromCivil(y, 1, 31) * DAY
    ensures s.NextReset(created, now) == now
  {
    hide DaysFromCivil, CivilFromDays;
    assert (now + s.Offset()) / DAY == DaysFromCivil(y, 1, 31);
    DateRoundTrip(Date(y, 1, 31));
    MonthDays(Period(y, 1));
    StartForm(Anchor(0, 0), Period(y, 1));
    StartForm(Anchor(0, 0), Period(y, 2));
    DayShift(y, 1, 31);
    assert s.PeriodOf(created, now) == Period(y, 1);
  }

  /** The next reset is always in the future if and only if the anchor names a real day:
      a fixed `reset_day` of 0 puts resets in the past on every last day of a month. */
  lemma ResetsAheadIff(s: Schedule, created: nat)
    ensures s.Anchored(created) <==> forall now: nat :: s.NextReset(created, now) > now
  {
    hide DaysFromCivil, CivilFromDays;
    if s.Anchored(created) {
      forall now: nat ensures s.NextReset(created, now) > now {
        ResetBounds(s, created, now);
      }
    } else {
      var y, now := LateJanuary(s);
      DayZeroReset(s, created, y, now);
    }
  }

  // ---------- where periods start ----------

  /** A day number and a second of that day, put together and taken apart. */
  lemma DayAndSecond(d: int, tod: int)
    requires 0 <= tod < DAY
    ensures (d * DAY + tod) / DAY == d && (d * DAY + tod) % DAY == tod
  {
  }

  /** The length of a month as the start of periods computes it. */
  lemma StartDate(a: Anchor, p: Period)
    requires Proper(a) && IsMonth(p)
    ensures var day := if a.day < MonthLength(p.y, p.m) then a.day else MonthLength(p.y, p.m);
      && CivilFromDays(StartOf(a, p) / DAY) == Date(p.y, p.m, day) && StartOf(a, p) % DAY == a.tod
  {
    MonthDays(p);
    var day := if a.day < MonthLength(p.y, p.m) then a.day else MonthLength(p.y, p.m);
    assert 1 <= day <= MonthLength(p.y, p.m);
    assert StartOf(a, p) == DaysFromCivil(p.y, p.m, day) * DAY + a.tod;
    hide StartOf, DaysFromCivil, CivilFromDays;
    DayAndSecond(DaysFromCivil(p.y, p.m, day), a.tod);
    DateRoundTrip(Date(p.y, p.m, day));
  }

  /** Every reset falls on the anchor's day of the month, or the last one of a shorter month,
      at the anchor's second of the local day: local midnight for a fixed day. */
  lemma ResetsOnAnchor(s: Schedule, created: nat, now: nat)
    requires s.Anchored(created)
    ensures var local, p, a := s.NextReset(created, now) + s.Offset(), Next(s.PeriodOf(created, now)), s.AnchorOf(created);
      && IsMonth(p) && local % DAY == a.tod
      && CivilFromDays(local / DAY) == Date(p.y, p.m, if a.day < MonthLength(p.y, p.m) then a.day else MonthLength(p.y, p.m))
    ensures s.mode == Fixed || created == 0 ==> s.AnchorOf(created) == Anchor(s.resetDay, 0)
  {
    hide StartOf, CivilFromDays, MonthLength;
    ResetIsStart(s, created, now);
    AnchorProper(s, created);
    hide Schedule.PeriodOf, Schedule.NextReset;
    StartDate(s.AnchorOf(created), Next(s.PeriodOf(created, now)));
  }

  lemma ResetIsStart(s: Schedule, created: nat, now: nat)
    requires s.Anchored(created)
    ensures IsMonth(Next(s.PeriodOf(created, now)))
    ensures s.NextReset(created, now) + s.Offset() == StartOf(s.AnchorOf(created), Next(s.PeriodOf(created, now)))
  {
    hide StartOf, CivilFromDays;
    ResetBounds(s, created, now);
    PeriodIff(s, created, now, Period(0, 1));
    hide Schedule.PeriodOf, Schedule.AnchorOf;
  }

  /** With creation anniversaries a period starts at the creation itself. */
  lemma CreationStarts(s: Schedule, created: nat)
    requires s.mode == Creation && created > 0
    ensures StartOf(s.AnchorOf(created), s.PeriodOf(created, created)) - s.Offset() == created
  {
    var local := created + s.Offset();
    var t := CivilFromDays(local / DAY);
    var p := Period(t.y, t.m);
    DaysRoundTrip(local / DAY);
    MonthDays(p);
    assert s.AnchorOf(created) == Anchor(t.d, local % DAY);
    assert StartOf(s.AnchorOf(created), p) == DaysFromCivil(p.y, p.m, t.d) * DAY + local % DAY == local;
    hide StartOf, CivilFromDays, DaysFromCivil;
  }

  /** Local clocks east of UTC are ahead: d minutes further east a fixed reset comes d minutes
      earlier. */
  lemma EastIsEarlier(s: Schedule, d: int, now: nat, shifted: nat)
    requires s.mode == Fixed && s.resetDay >= 1 && shifted + 60 * d == now
    ensures s.(utcOffsetMin := s.utcOffsetMin + d).NextReset(0, shifted) + 60 * d == s.NextReset(0, now)
  {
    hide StartOf, CivilFromDays;
    var e := s.(utcOffsetMin := s.utcOffsetMin + d);
    ResetBounds(s, 0, now);
    ResetBounds(e, 0, shifted);
    assert shifted + e.Offset() == now + s.Offset();
    SameLocalPeriod(s, e, now, shifted);
  }

  lemma SameLocalPeriod(s: Schedule, e: Schedule, now: nat, shifted: nat)
    requires s.mode == Fixed && e.mode == Fixed && e.resetDay == s.resetDay && shifted + e.Offset() == now + s.Offset()
    ensures e.ResetTime(0, shifted) + e.Offset() == s.ResetTime(0, now) + s.Offset()
  {
    hide StartOf, CivilFromDays;
    assert e.AnchorOf(0) == s.AnchorOf(0);
    assert e.PeriodOf(0, shifted) == s.PeriodOf(0, now);
  }
}
