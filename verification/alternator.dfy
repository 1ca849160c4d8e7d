/** The timed switch that turns the tracking of new items on and off. */
module Alternators {
  import opened Arithmetic
  import opened Options

  /**
   The flag and the two tickers of spawPeriodicSamplingAlternator. Time starts at 0 with the tickers, and a
   tick is handled at the moment it is due. `at` is the time up to which all ticks have been handled.
   */
  class Alternator {
    const trackDuration: nat
    const trackInterval: nat
    var trackSamplingItems: bool
    /** The next tick of the duration ticker, if it is not stopped. */
    var durationDue: Option<nat>
    var intervalDue: nat

    ghost var at: nat
    ghost var cycles: nat

    ghost predicate Valid()
      reads this
    {
      && trackDuration > 0 && trackInterval > 0
      && intervalDue == trackInterval * (cycles + 1)
      && trackInterval * cycles <= at <= intervalDue
      && (durationDue.Some? ==> at <= durationDue.value)
      && (trackDuration < trackInterval ==>
            && at < intervalDue
            && trackSamplingItems == durationDue.Some?
            && (durationDue.Some? ==> durationDue.value == trackInterval * cycles + trackDuration > at)
            && (durationDue.None? ==> at >= trackInterval * cycles + trackDuration))
      && (trackDuration > trackInterval ==>
            && at < intervalDue
            && durationDue == Some(trackInterval * cycles + trackDuration)
            && trackSamplingItems == (cycles % 2 == 0))
    }

    constructor (trackDuration: nat, trackInterval: nat)
      requires trackDuration > 0 && trackInterval > 0
      ensures Valid() && at == 0 && trackSamplingItems
      ensures this.trackDuration == trackDuration && this.trackInterval == trackInterval
    {
      this.trackDuration := trackDuration;
      this.trackInterval := trackInterval;
      this.trackSamplingItems := true;
      this.durationDue := Some(trackDuration);
      this.intervalDue := trackInterval;
      this.at := 0;
      this.cycles := 0;
    }

    method AlternateSamplingItemTrack()
      modifies `trackSamplingItems
      ensures trackSamplingItems == !old(trackSamplingItems)
    {
      trackSamplingItems := !trackSamplingItems;
    }

    method DurationTick()
      requires Valid() && durationDue.Some? && durationDue.value <= intervalDue
      modifies this
      ensures Valid() && durationDue.None? && intervalDue == old(intervalDue)
      ensures at == old(durationDue).value
    {
      at := durationDue.value;
      AlternateSamplingItemTrack();
      durationDue := None;
    }

    method IntervalTick()
      requires Valid() && (durationDue.Some? ==> intervalDue <= durationDue.value)
      modifies this
      ensures Valid() && intervalDue == old(intervalDue) + trackInterval
      ensures at == old(intervalDue)
    {
      at := intervalDue;
      AlternateSamplingItemTrack();
      durationDue := Some(intervalDue + trackDuration);
      intervalDue := intervalDue + trackInterval;
      cycles := cycles + 1;
    }

    /**
     Handles all ticks up to `t`; of two due at the same moment either may come first. If the duration is
     shorter than the interval the flag then holds exactly in the first part, of that duration, of each
     interval. If it is longer the duration ticker never gets to tick, and the flag is just turned over at
     the end of every interval.
     */
    method RunUntil(t: nat)
      requires Valid() && at <= t
      modifies this
      ensures Valid() && at <= t
      ensures trackDuration < trackInterval ==> (trackSamplingItems <==> t % trackInterval < trackDuration)
      ensures trackDuration > trackInterval ==> (trackSamplingItems <==> (t / trackInterval) % 2 == 0)
    {
      while intervalDue <= t || (durationDue.Some? && durationDue.value <= t)
        invariant Valid() && at <= t
        decreases if intervalDue <= t then t + 1 - intervalDue else 0, durationDue.Some?
      {
        var durationFirst := durationDue.Some? && durationDue.value <= intervalDue;
        if durationDue == Some(intervalDue) {
          durationFirst := *;
        }
        if durationFirst {
          DurationTick();
        } else {
          IntervalTick();
        }
      }
      InCycle(t, trackInterval, cycles);
    }
  }

  lemma InCycle(t: nat, interval: nat, cycle: nat)
    requires interval * cycle <= t < interval * (cycle + 1)
    ensures t / interval == cycle && t % interval == t - interval * cycle
  {
    DivModUnique(t, interval, cycle, t - interval * cycle);
  }
}
