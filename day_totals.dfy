/**
 * What a day artifact holds. The day close (testing.py:87-104) adds the
 * values of all hour artifacts to the carried previous days' total. Starting
 * from a flash whose hour artifacts, if any, carry the six names this loop
 * writes (as after a restart), this misses no hour and counts none twice:
 * every day artifact holds the price of every sample taken since boot.
 */
module DayTotals {
  import opened Artifacts
  import opened Pricing
  import opened Sums
  import opened MeterSpec

  /** The hour artifact names of the first n hour windows of a day. */
  function HourNamesUpTo(n: nat): set<string>
  {
    if n == 0 then {} else HourNamesUpTo(n - 1) + {HourName(n - 1)}
  }

  /** HourName(h) is among the first n hour names exactly when h < n. */
  lemma {:induction false} HourNameAmong(n: nat, h: nat)
    ensures HourName(h) in HourNamesUpTo(n) <==> h < n
  {
    if n > 0 {
      HourNameAmong(n - 1, h);
      if HourName(h) == HourName(n - 1) {
        HourNameInjective(h, n - 1);
      }
    }
  }

  /** Rewriting one of the first n hour names adds no name. */
  lemma HourNamesAbsorb(n: nat, h: nat)
    requires h < n
    ensures HourNamesUpTo(n) + {HourName(h)} == HourNamesUpTo(n)
  {
    HourNameAmong(n, h);
  }

  /** Every one of the first n hour names is an hour artifact. */
  lemma {:induction false} HourNamesAreHourArtifacts(n: nat)
    ensures forall k :: k in HourNamesUpTo(n) ==> IsHourArtifact(k)
  {
    if n > 0 {
      HourNamesAreHourArtifacts(n - 1);
      HourNameKind(n - 1);
    }
  }

  /** The values of the first n hour artifacts, hour by hour. */
  function HourSumBelow(store: map<string, real>, n: nat): real
    requires HourNamesUpTo(n) <= store.Keys
  {
    if n == 0 then 0.0 else HourSumBelow(store, n - 1) + store[HourName(n - 1)]
  }

  /** The order-free sum over the first n hour names is their hour-by-hour sum. */
  lemma {:induction false} SumOfHourNames(store: map<string, real>, n: nat)
    requires HourNamesUpTo(n) <= store.Keys
    ensures SumOf(store, HourNamesUpTo(n)) == HourSumBelow(store, n)
  {
    if n > 0 {
      HourNameAmong(n - 1, n - 1);
      SumOfRemove(store, HourNamesUpTo(n), HourName(n - 1));
      assert HourNamesUpTo(n) - {HourName(n - 1)} == HourNamesUpTo(n - 1);
      SumOfHourNames(store, n - 1);
    }
  }

  /** Two stores that agree on the first n hour names have the same hour-by-hour sum. */
  lemma {:induction false} HourSumBelowAgree(a: map<string, real>, b: map<string, real>, n: nat)
    requires HourNamesUpTo(n) <= a.Keys && HourNamesUpTo(n) <= b.Keys
    requires forall k :: k in HourNamesUpTo(n) ==> a[k] == b[k]
    ensures HourSumBelow(a, n) == HourSumBelow(b, n)
  {
    if n > 0 {
      HourSumBelowAgree(a, b, n - 1);
    }
  }

  /** Writing a name adds it to the hour artifacts exactly when it ends in "_hour.txt". */
  lemma HourArtifactsWrite(m: map<string, real>, k: string, v: real)
    ensures HourArtifacts(m[k := v]) == if IsHourArtifact(k) then HourArtifacts(m) + {k} else HourArtifacts(m)
  {
  }

  /** Removing the minute artifacts keeps every hour artifact and its value. */
  lemma HourArtifactsCleanup(m: map<string, real>)
    ensures HourArtifacts(RemoveMinuteArtifacts(m)) == HourArtifacts(m)
    ensures forall k :: k in HourArtifacts(m) ==> k in RemoveMinuteArtifacts(m) && RemoveMinuteArtifacts(m)[k] == m[k]
  {
    forall k | IsHourArtifact(k)
      ensures !IsMinuteArtifact(k)
    {
      KindsExclusive(k);
    }
  }

  /**
   * The day-total invariant: every hour artifact carries one of the six hour
   * names, the hours closed today are present, and the carried total, the
   * hours closed today, the open hour sum and the open minute sum add up to
   * `paid`. Hour artifacts of hours not yet closed today are stale: they are
   * overwritten before the day close reads them.
   */
  ghost predicate DayInv(s: MeterState, paid: real)
  {
    && HourArtifacts(s.store) <= HourNamesUpTo(HoursPerDay)
    && HourNamesUpTo(s.hours) <= s.store.Keys
    && s.previousDaysSum + HourSumBelow(s.store, s.hours) + s.hourSum + s.minuteSum == paid
  }

  /** A flash whose hour artifacts are among the six hour names starts the invariant with nothing paid. */
  lemma BootDayInv(flash: map<string, real>)
    requires HourArtifacts(flash) <= HourNamesUpTo(HoursPerDay)
    ensures DayInv(Boot(flash), 0.0)
  {
  }

  /** Sampling a second adds its price to what is paid and to the open minute. */
  lemma AddSecondDayInv(s: MeterState, power: int, paid: real)
    requires DayInv(s, paid)
    ensures DayInv(AddSecond(s, power), paid + Price(power))
  {
  }

  /** Writing a name that is not an hour artifact changes neither the hour artifacts nor their sum. */
  lemma OtherWriteKeepsHours(m: map<string, real>, name: string, v: real, n: nat)
    requires !IsHourArtifact(name) && HourNamesUpTo(n) <= m.Keys
    ensures HourArtifacts(m[name := v]) == HourArtifacts(m)
    ensures HourNamesUpTo(n) <= m[name := v].Keys
    ensures HourSumBelow(m[name := v], n) == HourSumBelow(m, n)
  {
    HourArtifactsWrite(m, name, v);
    HourNamesAreHourArtifacts(n);
    HourSumBelowAgree(m, m[name := v], n);
  }

  /** A minute close writes no hour artifact and moves the minute sum into the hour sum. */
  lemma CloseMinuteDayInv(a: MeterState, paid: real)
    requires DayInv(a, paid)
    ensures DayInv(CloseMinute(a), paid)
  {
    if a.seconds % SecondsPerMinute == 0 {
      MinuteNameKind(a.hours, a.minutes);
      OtherWriteKeepsHours(a.store, MinuteName(a.hours, a.minutes), a.minuteSum, a.hours);
    }
  }

  /** Writing hour h and removing the minute artifacts adds hour h to the hour artifacts. */
  lemma HourWriteArtifacts(m: map<string, real>, h: nat, v: real)
    ensures HourArtifacts(RemoveMinuteArtifacts(m[HourName(h) := v])) == HourArtifacts(m) + {HourName(h)}
  {
    HourNameKind(h);
    HourArtifactsWrite(m, HourName(h), v);
    HourArtifactsCleanup(m[HourName(h) := v]);
  }

  /** Writing hour h and removing the minute artifacts extends the hour-by-hour sum by hour h. */
  lemma HourWriteSum(m: map<string, real>, h: nat, v: real)
    requires HourNamesUpTo(h) <= m.Keys
    ensures HourNamesUpTo(h + 1) <= RemoveMinuteArtifacts(m[HourName(h) := v]).Keys
    ensures HourSumBelow(RemoveMinuteArtifacts(m[HourName(h) := v]), h + 1) == HourSumBelow(m, h) + v
  {
    var written := m[HourName(h) := v];
    var c := RemoveMinuteArtifacts(written);
    HourNameKind(h);
    HourNameAmong(h, h);
    HourNamesAreHourArtifacts(h);
    HourArtifactsCleanup(written);
    assert HourNamesUpTo(h) <= c.Keys;
    HourSumBelowAgree(m, c, h);
  }

  /** An hour close moves the hour sum into the hour artifact of the hour it closes. */
  lemma EndHourDayInv(b: MeterState, paid: real)
    requires DayInv(b, paid) && b.hours < HoursPerDay
    ensures DayInv(EndHour(b), paid)
  {
    HourWriteArtifacts(b.store, b.hours, b.hourSum);
    HourWriteSum(b.store, b.hours, b.hourSum);
    HourNamesAbsorb(HoursPerDay, b.hours);
  }

  /**
   * A day close after the sixth hour: the reconciled total is everything
   * paid, and writing the day artifact restarts the invariant with it as the
   * carried total.
   */
  lemma WriteDayDayInv(c: MeterState, paid: real)
    requires DayInv(c, paid) && c.hours == HoursPerDay && c.days >= 1
    requires c.hourSum == 0.0 && c.minuteSum == 0.0
    ensures ReconciledTotal(c) == paid
    ensures DayInv(WriteDay(c, ReconciledTotal(c)), paid)
  {
    HourNamesAreHourArtifacts(HoursPerDay);
    assert HourArtifacts(c.store) == HourNamesUpTo(HoursPerDay);
    SumOfHourNames(c.store, HoursPerDay);
    DayNameKind(c.days);
    HourArtifactsWrite(c.store, DayName(c.days), ReconciledTotal(c));
  }

  /**
   * One tick keeps the invariant with its price added to what is paid, and
   * a tick that closes a day writes everything paid into the day artifact.
   */
  lemma DayStep(s: MeterState, power: int, paid: real)
    requires CountersInv(s) && DayInv(s, paid)
    ensures DayInv(Step(s, power), paid + Price(power))
    ensures DayCloses(s) ==>
      DayName(s.days) in Step(s, power).store && Step(s, power).store[DayName(s.days)] == paid + Price(power)
  {
    var q := paid + Price(power);
    var a := AddSecond(s, power);
    var b := CloseMinute(a);
    AddSecondDayInv(s, power, paid);
    CloseMinuteDayInv(a, q);
    if b.minutes == MinutesPerHour {
      var c := EndHour(b);
      EndHourDayInv(b, q);
      if c.hours == HoursPerDay {
        WriteDayDayInv(c, q);
      }
    }
  }

  lemma {:induction false} RunDayInv(s: MeterState, powers: seq<int>, paid: real)
    requires CountersInv(s) && DayInv(s, paid)
    ensures DayInv(Run(s, powers), paid + PriceTotal(powers))
    decreases |powers|
  {
    if |powers| > 0 {
      DayStep(s, powers[0], paid);
      StepCounters(s, powers[0]);
      RunDayInv(Step(s, powers[0]), powers[1..], paid + Price(powers[0]));
    }
  }

  /**
   * From a flash whose hour artifacts, if any, are among the six hour names
   * (none on a fresh flash; those of an earlier run after a restart), the day
   * artifact written at any day close holds the price of every sample since
   * boot, that tick's included.
   */
  lemma BootDayTotal(flash: map<string, real>, powers: seq<int>, power: int)
    requires HourArtifacts(flash) <= HourNamesUpTo(HoursPerDay)
    requires DayCloses(Run(Boot(flash), powers))
    ensures var s := Run(Boot(flash), powers); var t := Step(s, power);
      DayName(s.days) in t.store && t.store[DayName(s.days)] == PriceTotal(powers) + Price(power)
  {
    BootCounters(flash);
    BootDayInv(flash);
    RunDayInv(Boot(flash), powers, 0.0);
    RunKeepsCounters(Boot(flash), powers);
    DayStep(Run(Boot(flash), powers), power, PriceTotal(powers));
  }
}
