/**
 * The metering loop of testing.py as a pure state transition: `Step` is one
 * pass through the body of `while True` (testing.py:31-110), `Run` is a
 * sequence of passes. The class in meter.dfy is proved to perform `Step`.
 */
module MeterSpec {
  import opened Artifacts
  import opened Pricing
  import opened Sums

  /** Ticks per minute window (testing.py:51). */
  const SecondsPerMinute: nat := 15
  /** Minute windows per hour window (testing.py:64). */
  const MinutesPerHour: nat := 15
  /** Hour windows per day window (testing.py:87). */
  const HoursPerDay: nat := 6

  /** One line of the append-only `/data.txt` log (testing.py:41). */
  datatype LogLine = LogLine(hour: nat, minute: nat, second: nat, power: int, price: real)

  /** The module-level variables of testing.py:14-21 and the flash file system. */
  datatype MeterState = MeterState(
    seconds: nat,
    minuteSum: real,
    hourSum: real,
    previousDaysSum: real,
    days: nat,
    minutes: nat,
    hours: nat,
    store: map<string, real>,
    log: seq<LogLine>)

  /** The state when the script starts, with whatever the flash already holds. */
  function Boot(flash: map<string, real>): MeterState
  {
    MeterState(0, 0.0, 0.0, 0.0, 1, 0, 0, flash, [])
  }

  /** Price the sample, log it, count the second and add the price to the minute (testing.py:36-48). */
  function AddSecond(s: MeterState, power: int): MeterState
  {
    var price := Price(power);
    s.(log := s.log + [LogLine(s.hours, s.minutes, s.seconds, power, price)],
       seconds := s.seconds + 1,
       minuteSum := s.minuteSum + price)
  }

  /** Minute close when the counted seconds are a multiple of 15 (testing.py:51-61). */
  function CloseMinute(s: MeterState): MeterState
  {
    if s.seconds % SecondsPerMinute == 0 then
      s.(store := s.store[MinuteName(s.hours, s.minutes) := s.minuteSum],
         hourSum := s.hourSum + s.minuteSum,
         minuteSum := 0.0,
         minutes := s.minutes + 1)
    else s
  }

  /** The store once the cleanup loop has removed every minute artifact (testing.py:75-81). */
  function RemoveMinuteArtifacts(store: map<string, real>): map<string, real>
  {
    map k | k in store && !IsMinuteArtifact(k) :: store[k]
  }

  /** The hour artifacts among the given names. */
  function HourArtifactsAmong(store: map<string, real>, names: set<string>): (hs: set<string>)
    ensures hs <= store.Keys
  {
    set k | k in names && k in store && IsHourArtifact(k)
  }

  /** Every hour artifact in the store. */
  function HourArtifacts(store: map<string, real>): set<string>
  {
    HourArtifactsAmong(store, store.Keys)
  }

  /** `total_day_price` after the reconciliation loop (testing.py:89-95). */
  ghost function ReconciledTotal(s: MeterState): real
  {
    s.previousDaysSum + SumOf(s.store, HourArtifacts(s.store))
  }

  /** Write the hour artifact, restart the hour, remove the minute artifacts and count the hour (testing.py:66-84). */
  function EndHour(s: MeterState): MeterState
  {
    s.(store := RemoveMinuteArtifacts(s.store[HourName(s.hours) := s.hourSum]),
       hourSum := 0.0,
       minutes := 0,
       hours := s.hours + 1)
  }

  /** Write the day artifact with the reconciled total, carry it forward and start the next day (testing.py:100-108). */
  function WriteDay(s: MeterState, total: real): MeterState
  {
    s.(store := s.store[DayName(s.days) := total],
       previousDaysSum := total,
       hours := 0,
       days := s.days + 1)
  }

  /** Day close when six hours have been counted (testing.py:87-108). */
  ghost function CloseDay(s: MeterState): MeterState
  {
    if s.hours == HoursPerDay then WriteDay(s, ReconciledTotal(s)) else s
  }

  /** Hour close when fifteen minutes have been counted, with the day close nested in it (testing.py:64-108). */
  ghost function CloseHour(s: MeterState): MeterState
  {
    if s.minutes == MinutesPerHour then CloseDay(EndHour(s)) else s
  }

  /** One pass through the body of the main loop with the sampled `power`. */
  ghost function Step(s: MeterState, power: int): MeterState
  {
    CloseHour(CloseMinute(AddSecond(s, power)))
  }

  /** This tick closes a minute window. */
  predicate MinuteCloses(s: MeterState)
  {
    (s.seconds + 1) % SecondsPerMinute == 0
  }

  /** This tick closes the fifteenth minute and with it an hour window. */
  predicate HourCloses(s: MeterState)
  {
    MinuteCloses(s) && s.minutes == MinutesPerHour - 1
  }

  /** This tick closes the sixth hour and with it a day window. */
  predicate DayCloses(s: MeterState)
  {
    HourCloses(s) && s.hours == HoursPerDay - 1
  }

  /**
   * What holds between ticks: the counters stay in their windows, together
   * they count the closed minutes, and the log has one line per tick stamped
   * with the never-reset seconds counter.
   */
  ghost predicate CountersInv(s: MeterState)
  {
    && s.minutes < MinutesPerHour
    && s.hours < HoursPerDay
    && s.days >= 1
    && s.minutes + MinutesPerHour * s.hours + MinutesPerHour * HoursPerDay * (s.days - 1)
       == s.seconds / SecondsPerMinute
    && |s.log| == s.seconds
    && (forall i :: 0 <= i < |s.log| ==> s.log[i].second == i)
  }

  lemma BootCounters(flash: map<string, real>)
    ensures CountersInv(Boot(flash))
  {
  }

  lemma ClosedMinutesStep(n: nat)
    ensures (n + 1) / SecondsPerMinute
         == n / SecondsPerMinute + (if (n + 1) % SecondsPerMinute == 0 then 1 else 0)
  {
  }

  /** How one tick moves the counters, and that it keeps them in range. */
  lemma StepCounters(s: MeterState, power: int)
    requires CountersInv(s)
    ensures var t := Step(s, power);
      && CountersInv(t)
      && t.seconds == s.seconds + 1
      && t.log == s.log + [LogLine(s.hours, s.minutes, s.seconds, power, Price(power))]
      && t.minutes == (if !MinuteCloses(s) then s.minutes else if HourCloses(s) then 0 else s.minutes + 1)
      && t.hours == (if !HourCloses(s) then s.hours else if DayCloses(s) then 0 else s.hours + 1)
      && t.days == (if DayCloses(s) then s.days + 1 else s.days)
  {
    ClosedMinutesStep(s.seconds);
    var a := CloseMinute(AddSecond(s, power));
    assert a.log[|s.log|].second == s.seconds;
    if !MinuteCloses(s) {
      assert Step(s, power) == a;
    } else if !HourCloses(s) {
      assert Step(s, power) == a;
    } else {
      HourCloseEnd(s, power);
      HourCloseStep(s, power);
    }
  }

  /**
   * A minute closes exactly on the ticks whose incremented seconds counter is
   * a multiple of 15; then the minute sum, this tick's price included, is
   * written to the minute artifact and moved into the hour sum, and the minute
   * sum starts again at 0. On other ticks only the minute sum grows.
   */
  lemma StepMinuteClose(s: MeterState, power: int)
    requires s.minutes < MinutesPerHour
    ensures var t := Step(s, power); var closed := s.minuteSum + Price(power);
      && (MinuteCloses(s) ==> t.minuteSum == 0.0)
      && (MinuteCloses(s) && !HourCloses(s) ==>
            && t.hourSum == s.hourSum + closed
            && t.store == s.store[MinuteName(s.hours, s.minutes) := closed]
            && t.previousDaysSum == s.previousDaysSum)
      && (!MinuteCloses(s) ==>
            && t.minuteSum == closed
            && t.hourSum == s.hourSum
            && t.store == s.store
            && t.previousDaysSum == s.previousDaysSum)
  {
  }

  /** The hour total a tick writes if it closes an hour: the hour sum with the last minute folded in. */
  function HourTotal(s: MeterState, power: int): real
  {
    CloseMinute(AddSecond(s, power)).hourSum
  }

  /** The hour total is the hour sum plus the open minute sum plus this tick's price. */
  lemma HourCloseTotal(s: MeterState, power: int)
    requires HourCloses(s)
    ensures HourTotal(s, power) == s.hourSum + s.minuteSum + Price(power)
  {
  }

  /** The state after the hour phase of a tick that closes an hour, before any day close. */
  lemma HourCloseEnd(s: MeterState, power: int)
    requires HourCloses(s)
    ensures var e := EndHour(CloseMinute(AddSecond(s, power)));
      && e.store == RemoveMinuteArtifacts(
           s.store[MinuteName(s.hours, s.minutes) := s.minuteSum + Price(power)][HourName(s.hours) := HourTotal(s, power)])
      && e.minuteSum == 0.0 && e.hourSum == 0.0 && e.previousDaysSum == s.previousDaysSum
      && e.hours == s.hours + 1 && e.days == s.days
  {
  }

  /** A tick that closes an hour runs the hour phase, and the day phase exactly when the sixth hour closes. */
  lemma HourCloseStep(s: MeterState, power: int)
    requires HourCloses(s)
    ensures var e := EndHour(CloseMinute(AddSecond(s, power)));
      Step(s, power) == if DayCloses(s) then WriteDay(e, ReconciledTotal(e)) else e
  {
  }

  /**
   * At an hour close the hour total, the hour sum plus the minute sum plus
   * this tick's price, is written under the hour's name, and the minute and
   * hour sums restart at 0.
   */
  lemma StepHourClose(s: MeterState, power: int)
    requires HourCloses(s)
    ensures var t := Step(s, power); var name := HourName(s.hours);
      && HourTotal(s, power) == s.hourSum + s.minuteSum + Price(power)
      && t.minuteSum == 0.0 && t.hourSum == 0.0
      && name in t.store && t.store[name] == HourTotal(s, power)
      && (!DayCloses(s) ==> t.previousDaysSum == s.previousDaysSum)
  {
    HourCloseTotal(s, power);
    HourCloseEnd(s, power);
    HourCloseStep(s, power);
    StepHourCleanup(s, power);
  }

  /**
   * What the cleanup at an hour close leaves: no minute artifact, the hour
   * artifact just written, every other artifact as it was (the day artifact
   * aside when a day closes), and no new name but those two.
   */
  ghost predicate CleanedUp(before: map<string, real>, after: map<string, real>,
                            hourName: string, hourTotal: real, dayWritten: bool, dayName: string)
  {
    && hourName in after && after[hourName] == hourTotal
    && (forall k :: k in after ==> !IsMinuteArtifact(k))
    && (forall k :: k in before && !IsMinuteArtifact(k) && k != hourName && (dayWritten ==> k != dayName) ==>
          k in after && after[k] == before[k])
    && (forall k :: k in after ==> k in before || k == hourName || (dayWritten && k == dayName))
  }

  /**
   * The store after an hour close, as a map: write the last minute and the
   * hour artifact, remove every minute artifact, and write the day artifact
   * when the day closes too.
   */
  function HourCloseWrites(store: map<string, real>, minuteName: string, minuteTotal: real,
                           hourName: string, hourTotal: real, dayCloses: bool, dayName: string, dayTotal: real)
    : map<string, real>
  {
    var e := RemoveMinuteArtifacts(store[minuteName := minuteTotal][hourName := hourTotal]);
    if dayCloses then e[dayName := dayTotal] else e
  }

  /** The store after a tick that closes an hour, in terms of the names and totals it writes. */
  lemma HourCloseStore(s: MeterState, power: int)
    requires HourCloses(s)
    ensures var t := Step(s, power);
      t.store == HourCloseWrites(s.store, MinuteName(s.hours, s.minutes), s.minuteSum + Price(power),
                                 HourName(s.hours), HourTotal(s, power), DayCloses(s), DayName(s.days),
                                 t.previousDaysSum)
  {
    HourCloseEnd(s, power);
    HourCloseStep(s, power);
  }

  /** A tick that closes an hour removes exactly the minute artifacts and nothing else. */
  lemma StepHourCleanup(s: MeterState, power: int)
    requires HourCloses(s)
    ensures CleanedUp(s.store, Step(s, power).store, HourName(s.hours), HourTotal(s, power), DayCloses(s), DayName(s.days))
  {
    HourCloseStore(s, power);
    HourCleanupOf(s, power, Step(s, power));
  }

  /** The cleanup property for any state whose store holds the writes of the hour close of `s`. */
  lemma HourCleanupOf(s: MeterState, power: int, t: MeterState)
    requires t.store == HourCloseWrites(s.store, MinuteName(s.hours, s.minutes), s.minuteSum + Price(power),
                                        HourName(s.hours), HourTotal(s, power), DayCloses(s), DayName(s.days),
                                        t.previousDaysSum)
    ensures CleanedUp(s.store, t.store, HourName(s.hours), HourTotal(s, power), DayCloses(s), DayName(s.days))
  {
    HourCloseNames(s.hours, s.minutes, s.days);
    HourCloseFrame(s.store, MinuteName(s.hours, s.minutes), s.minuteSum + Price(power), HourName(s.hours),
                   HourTotal(s, power), DayCloses(s), DayName(s.days), t.previousDaysSum);
  }

  /** Whatever the names, the writes of an hour close leave the store cleaned up. */
  lemma HourCloseFrame(store: map<string, real>, minuteName: string, minuteTotal: real,
                       hourName: string, hourTotal: real, dayCloses: bool, dayName: string, dayTotal: real)
    requires IsMinuteArtifact(minuteName) && !IsMinuteArtifact(hourName) && !IsMinuteArtifact(dayName)
    requires hourName != dayName
    ensures CleanedUp(store, HourCloseWrites(store, minuteName, minuteTotal, hourName, hourTotal, dayCloses, dayName, dayTotal),
                      hourName, hourTotal, dayCloses, dayName)
  {
    var written := store[minuteName := minuteTotal][hourName := hourTotal];
    RemoveMinuteArtifactsSpec(written);
  }

  /** The cleanup loop keeps exactly the names that do not end in "_minute.txt", with their values. */
  lemma RemoveMinuteArtifactsSpec(store: map<string, real>)
    ensures forall k :: k in RemoveMinuteArtifacts(store) <==> k in store && !IsMinuteArtifact(k)
    ensures forall k :: k in RemoveMinuteArtifacts(store) ==> RemoveMinuteArtifacts(store)[k] == store[k]
  {
  }

  /** The three names an hour close writes: a minute artifact, an hour artifact and a day artifact. */
  lemma HourCloseNames(hour: nat, minute: nat, day: nat)
    ensures IsMinuteArtifact(MinuteName(hour, minute))
    ensures !IsMinuteArtifact(HourName(hour)) && !IsMinuteArtifact(DayName(day))
    ensures HourName(hour) != DayName(day)
  {
    MinuteNameKind(hour, minute);
    HourNameKind(hour);
    DayNameKind(day);
  }

  /**
   * At a day close the day total is the previous days' total plus the value of
   * every hour artifact in the store; it is written to `/day_N.txt` for the
   * current day N, carried forward as the previous days' total, and the day
   * counter moves on.
   */
  lemma StepDayClose(s: MeterState, power: int)
    requires DayCloses(s)
    ensures var t := Step(s, power);
      && t.previousDaysSum == s.previousDaysSum + SumOf(t.store, HourArtifacts(t.store))
      && DayName(s.days) in t.store && t.store[DayName(s.days)] == t.previousDaysSum
      && t.hours == 0 && t.days == s.days + 1
  {
    HourCloseEnd(s, power);
    HourCloseStep(s, power);
    var e := EndHour(CloseMinute(AddSecond(s, power)));
    var t := WriteDay(e, ReconciledTotal(e));
    DayNameKind(s.days);
    assert HourArtifacts(t.store) == HourArtifacts(e.store);
    SumOfAgree(t.store, e.store, HourArtifacts(e.store));
  }

  /** Sums and hour artifacts are never negative. */
  ghost predicate NonNegative(s: MeterState)
  {
    && s.minuteSum >= 0.0
    && s.hourSum >= 0.0
    && s.previousDaysSum >= 0.0
    && (forall k :: k in s.store && IsHourArtifact(k) ==> s.store[k] >= 0.0)
  }

  /**
   * With non-negative power a tick keeps every sum non-negative, so the day
   * total carried forward, and with it every day artifact written, never
   * decreases.
   */
  lemma StepNonNegative(s: MeterState, power: int)
    requires NonNegative(s) && power >= 0
    ensures NonNegative(Step(s, power))
    ensures Step(s, power).previousDaysSum >= s.previousDaysSum
  {
    var a := CloseMinute(AddSecond(s, power));
    assert NonNegative(a) by {
      MinuteNameKind(s.hours, s.minutes);
    }
    if a.minutes == MinutesPerHour {
      var b := EndHour(a);
      assert NonNegative(b);
      if b.hours == HoursPerDay {
        SumOfNonNegative(b.store, HourArtifacts(b.store));
        DayNameKind(b.days);
      }
    }
  }

  /** The ticks of the main loop, one sampled power per tick. */
  ghost function Run(s: MeterState, powers: seq<int>): MeterState
    decreases |powers|
  {
    if |powers| == 0 then s else Run(Step(s, powers[0]), powers[1..])
  }

  /**
   * Over any run with non-negative samples the sums stay non-negative and
   * the carried day total never decreases.
   */
  lemma {:induction false} RunNonNegative(s: MeterState, powers: seq<int>)
    requires NonNegative(s)
    requires forall i :: 0 <= i < |powers| ==> powers[i] >= 0
    ensures NonNegative(Run(s, powers))
    ensures Run(s, powers).previousDaysSum >= s.previousDaysSum
    decreases |powers|
  {
    if |powers| > 0 {
      StepNonNegative(s, powers[0]);
      RunNonNegative(Step(s, powers[0]), powers[1..]);
    }
  }

  /** The hour total a tick writes: none, or the one of the hour it closes. */
  function HourWritten(s: MeterState, power: int): seq<real>
  {
    var a := CloseMinute(AddSecond(s, power));
    if a.minutes == MinutesPerHour then [a.hourSum] else []
  }

  /** Every hour total written by a run of ticks, in order. */
  ghost function HoursWritten(s: MeterState, powers: seq<int>): seq<real>
    decreases |powers|
  {
    if |powers| == 0 then [] else HourWritten(s, powers[0]) + HoursWritten(Step(s, powers[0]), powers[1..])
  }

  /** The sum of the prices of the sampled powers. */
  function PriceTotal(powers: seq<int>): real
  {
    if |powers| == 0 then 0.0 else Price(powers[0]) + PriceTotal(powers[1..])
  }

  /** One tick loses no price and folds none twice. */
  lemma StepConserves(s: MeterState, power: int)
    ensures var t := Step(s, power);
      Price(power) + s.minuteSum + s.hourSum == t.minuteSum + t.hourSum + Total(HourWritten(s, power))
  {
  }

  /**
   * Conservation over any run: what was open before plus every price sampled
   * equals what is open after plus every hour total written.
   */
  lemma {:induction false} RunConserves(s: MeterState, powers: seq<int>)
    ensures var t := Run(s, powers);
      s.minuteSum + s.hourSum + PriceTotal(powers) == t.minuteSum + t.hourSum + Total(HoursWritten(s, powers))
    decreases |powers|
  {
    if |powers| > 0 {
      var t1 := Step(s, powers[0]);
      StepConserves(s, powers[0]);
      RunConserves(t1, powers[1..]);
      TotalAppend(HourWritten(s, powers[0]), HoursWritten(t1, powers[1..]));
    }
  }

  /**
   * From boot, the sum of every price sampled so far is the open minute sum
   * plus the open hour sum plus every hour total written so far.
   */
  lemma BootConservation(flash: map<string, real>, powers: seq<int>)
    ensures var t := Run(Boot(flash), powers);
      PriceTotal(powers) == t.minuteSum + t.hourSum + Total(HoursWritten(Boot(flash), powers))
  {
    RunConserves(Boot(flash), powers);
  }

  lemma {:induction false} RunKeepsCounters(s: MeterState, powers: seq<int>)
    requires CountersInv(s)
    ensures CountersInv(Run(s, powers))
    ensures Run(s, powers).seconds == s.seconds + |powers|
    decreases |powers|
  {
    if |powers| > 0 {
      StepCounters(s, powers[0]);
      RunKeepsCounters(Step(s, powers[0]), powers[1..]);
    }
  }

  /** The mixed-radix reading of a closed-minute count is unique. */
  lemma CountersDecompose(q: nat, m: nat, h: nat, d: nat)
    requires m < MinutesPerHour && h < HoursPerDay
    requires q == m + MinutesPerHour * h + MinutesPerHour * HoursPerDay * d
    ensures m == q % MinutesPerHour
    ensures h == (q / MinutesPerHour) % HoursPerDay
    ensures d == q / (MinutesPerHour * HoursPerDay)
  {
    assert q / MinutesPerHour == h + HoursPerDay * d;
  }

  /**
   * After n ticks from boot the counters are determined by n alone: with
   * q = n / 15 minutes closed, the minute counter is q mod 15, the hour counter
   * is (q / 15) mod 6 and the day counter is 1 + q / 90, so the day counter
   * rises by exactly one per 90 closed minutes.
   */
  lemma BootCountersAfter(flash: map<string, real>, powers: seq<int>)
    ensures var t := Run(Boot(flash), powers); var q := |powers| / SecondsPerMinute;
      && t.seconds == |powers|
      && t.minutes == q % MinutesPerHour
      && t.hours == (q / MinutesPerHour) % HoursPerDay
      && t.days == 1 + q / (MinutesPerHour * HoursPerDay)
      && |t.log| == |powers|
  {
    BootCounters(flash);
    RunKeepsCounters(Boot(flash), powers);
    var t := Run(Boot(flash), powers);
    CountersDecompose(|powers| / SecondsPerMinute, t.minutes, t.hours, t.days - 1);
  }
}
