/**
 * The metering loop of testing.py as the program runs it: the module-level
 * variables are the fields of one `Meter`, the flash file system is the map
 * `store`, and `Tick` is one pass through the body of `while True`.
 */
module Meter {
  import opened Artifacts
  import opened Pricing
  import opened Sums
  import opened MeterSpec

  class Meter {
    var secondsCounter: nat
    var minutePriceSum: real
    var hourPriceSum: real
    var previousDaysSum: real
    var daysCounter: nat
    var minuteCounter: nat
    var hourCounter: nat
    /** The flash file system: artifact path to the price written in it. */
    var store: map<string, real>
    /** The lines appended to `/data.txt`. */
    var log: seq<LogLine>

    ghost function State(): MeterState
      reads this
    {
      MeterState(secondsCounter, minutePriceSum, hourPriceSum, previousDaysSum,
                 daysCounter, minuteCounter, hourCounter, store, log)
    }

    ghost predicate Valid()
      reads this
    {
      CountersInv(State())
    }

    /** The script's start (testing.py:14-21) on a flash holding `flash`. */
    constructor (flash: map<string, real>)
      ensures Valid()
      ensures State() == Boot(flash)
    {
      secondsCounter, minutePriceSum, hourPriceSum, previousDaysSum := 0, 0.0, 0.0, 0.0;
      daysCounter, minuteCounter, hourCounter := 1, 0, 0;
      store, log := flash, [];
    }

    /** One pass through the body of the main loop with the sampled `power` (testing.py:31-110). */
    method Tick(power: int)
      requires Valid()
      requires 1500 <= power <= 3000
      modifies this
      ensures Valid()
      ensures State() == Step(old(State()), power)
    {
      StepCounters(State(), power);
      SampleSecond(power);
      if secondsCounter % SecondsPerMinute == 0 {
        CloseMinuteWindow();
      }
      if minuteCounter == MinutesPerHour {
        CloseHourWindow();
      }
    }

    /** Price, log and count the sample and add its price to the minute (testing.py:36-48). */
    method SampleSecond(power: int)
      modifies this
      ensures State() == AddSecond(old(State()), power)
    {
      var price := Price(power);
      log := log + [LogLine(hourCounter, minuteCounter, secondsCounter, power, price)];
      secondsCounter := secondsCounter + 1;
      minutePriceSum := minutePriceSum + price;
    }

    /** Write the minute artifact and fold the minute into the hour (testing.py:52-61). */
    method CloseMinuteWindow()
      requires secondsCounter % SecondsPerMinute == 0
      modifies this
      ensures State() == CloseMinute(old(State()))
    {
      store := store[MinuteName(hourCounter, minuteCounter) := minutePriceSum];
      hourPriceSum := hourPriceSum + minutePriceSum;
      minutePriceSum := 0.0;
      minuteCounter := minuteCounter + 1;
    }

    /** Write the hour artifact, reset the hour, remove the minute artifacts, and close the day if due (testing.py:66-108). */
    method CloseHourWindow()
      requires minuteCounter == MinutesPerHour
      modifies this
      ensures State() == CloseHour(old(State()))
    {
      ghost var before := State();
      store := store[HourName(hourCounter) := hourPriceSum];
      hourPriceSum := 0.0;
      minuteCounter := 0;
      RemoveMinuteFiles();
      hourCounter := hourCounter + 1;
      assert State() == EndHour(before);
      if hourCounter == HoursPerDay {
        CloseDayWindow();
      }
    }

    /** Reconcile the day total, write the day artifact and start the next day (testing.py:89-108). */
    method CloseDayWindow()
      requires hourCounter == HoursPerDay
      modifies this
      ensures State() == CloseDay(old(State()))
    {
      var total := ReconcileDay();
      store := store[DayName(daysCounter) := total];
      previousDaysSum := total;
      hourCounter := 0;
      daysCounter := daysCounter + 1;
    }

    /**
     * The cleanup loop (testing.py:75-81): walk a listing of the store taken
     * before the loop, in whatever order the file system gives, and remove
     * each name ending in "_minute.txt".
     */
    method RemoveMinuteFiles()
      modifies this`store
      ensures store == RemoveMinuteArtifacts(old(store))
    {
      var pending := store.Keys;
      while pending != {}
        invariant pending <= old(store).Keys
        invariant store.Keys == set k | k in old(store) && (k in pending || !IsMinuteArtifact(k))
        invariant forall k :: k in store ==> store[k] == old(store)[k]
        decreases pending
      {
        var name :| name in pending;
        if IsMinuteArtifact(name) {
          store := store - {name};
        }
        pending := pending - {name};
      }
      assert store.Keys == RemoveMinuteArtifacts(old(store)).Keys;
    }

    /**
     * The reconciliation loop (testing.py:89-95): start from the previous
     * days' total and add the value read from each name ending in
     * "_hour.txt", in whatever order the file system lists them.
     */
    method ReconcileDay() returns (total: real)
      ensures total == ReconciledTotal(State())
    {
      total := previousDaysSum;
      var pending := store.Keys;
      while pending != {}
        invariant pending <= store.Keys
        invariant total + SumOf(store, HourArtifactsAmong(store, pending)) == ReconciledTotal(State())
        decreases pending
      {
        var name :| name in pending;
        var rest := pending - {name};
        if IsHourArtifact(name) {
          assert HourArtifactsAmong(store, rest) == HourArtifactsAmong(store, pending) - {name};
          SumOfRemove(store, HourArtifactsAmong(store, pending), name);
          total := total + store[name];
        } else {
          assert HourArtifactsAmong(store, rest) == HourArtifactsAmong(store, pending);
        }
        pending := rest;
      }
      assert HourArtifactsAmong(store, {}) == {};
    }
  }
}
