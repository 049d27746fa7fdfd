/**
  Conversion of cumulative per-device byte counters into per-second rates
  (src/rates.rs), for network interfaces and for disks.

  The clock is a parameter: every update receives the current time `now`
  in seconds, and the tracker remembers the time of its last refresh.
 */
module Rates {

  /** The two cumulative counters of one device: (received, sent) for an
      interface, (read, written) for a disk. */
  type Counters = (nat, nat)

  /** Counters by device name, as read in one tick. */
  type Snapshot = map<string, Counters>

  /** The previous snapshot of each kind and the time of the last refresh. */
  datatype RateTracker = RateTracker(prevNetwork: Snapshot, prevDisk: Snapshot, lastUpdate: real)

  /** One output entry: the device and its two rates in bytes per second. */
  datatype Rate = Rate(name: string, incoming: nat, outgoing: nat)

  /** A tracker with no previous snapshots, stamped at `now`. */
  function New(now: real): (t: RateTracker)
    ensures t.prevNetwork == map[] && t.prevDisk == map[]
    ensures t.lastUpdate == now
  {
    RateTracker(map[], map[], now)
  }

  /** Seconds since `last`; a clock reading at or before `last` gives zero,
      as the monotonic clock's elapsed time never goes negative. */
  function Elapsed(last: real, now: real): (e: real)
    ensures e >= 0.0
    ensures e == 0.0 <==> now <= last
    ensures e > 0.0 ==> last + e == now
  {
    if now > last then now - last else 0.0
  }

  /** `a - b`, or zero when the counter went down. */
  function SaturatingSub(a: nat, b: nat): (d: nat)
    ensures a >= b ==> b + d == a
    ensures a <= b ==> d == 0
  {
    if a >= b then a - b else 0
  }

  /** The whole number of bytes per second by which a counter grew from
      `prev` to `curr` over `elapsed` seconds, rounded down. */
  function PerSecond(prev: nat, curr: nat, elapsed: real): (r: nat)
    requires elapsed > 0.0
    ensures r as real <= SaturatingSub(curr, prev) as real / elapsed < r as real + 1.0
    ensures curr <= prev ==> r == 0
  {
    var q := SaturatingSub(curr, prev) as real / elapsed;
    assert q >= 0.0;
    q.Floor
  }

  /** The entry owed for a device seen in both snapshots. */
  function Expected(prev: Snapshot, current: Snapshot, elapsed: real, name: string): Rate
    requires name in prev && name in current && elapsed > 0.0
  {
    Rate(name, PerSecond(prev[name].0, current[name].0, elapsed),
         PerSecond(prev[name].1, current[name].1, elapsed))
  }

  /** `rates` is a correct report for the step from `prev` to `current`,
      in some order: one entry for each device in both snapshots, each
      with its rates, and nothing else. */
  ghost predicate Reports(prev: Snapshot, current: Snapshot, elapsed: real, rates: seq<Rate>)
    requires elapsed > 0.0
  {
    && (forall i :: 0 <= i < |rates| ==>
          && rates[i].name in prev && rates[i].name in current
          && rates[i] == Expected(prev, current, elapsed, rates[i].name))
    && (forall i, j :: 0 <= i < j < |rates| ==> rates[i].name != rates[j].name)
    && (forall name :: name in prev && name in current ==>
          exists i :: 0 <= i < |rates| && rates[i].name == name)
  }

  /** The loop shared by both updates: walks the current snapshot and emits
      an entry for every device the previous snapshot also has. */
  method CollectRates(prev: Snapshot, current: Snapshot, elapsed: real) returns (rates: seq<Rate>)
    requires elapsed > 0.0
    ensures Reports(prev, current, elapsed, rates)
  {
    rates := [];
    var pending := current.Keys;
    while pending != {}
      invariant pending <= current.Keys
      invariant forall i :: 0 <= i < |rates| ==>
                  && rates[i].name in prev && rates[i].name in current
                  && rates[i].name !in pending
                  && rates[i] == Expected(prev, current, elapsed, rates[i].name)
      invariant forall i, j :: 0 <= i < j < |rates| ==> rates[i].name != rates[j].name
      invariant forall name :: name in prev && name in current && name !in pending ==>
                  exists i :: 0 <= i < |rates| && rates[i].name == name
      decreases pending
    {
      var name :| name in pending;
      ghost var before := rates;
      if name in prev {
        var (currIn, currOut) := current[name];
        var (prevIn, prevOut) := prev[name];
        var inRate := PerSecond(prevIn, currIn, elapsed);
        var outRate := PerSecond(prevOut, currOut, elapsed);
        rates := rates + [Rate(name, inRate, outRate)];
        assert rates[|rates| - 1].name == name;
      }
      assert forall i :: 0 <= i < |before| ==> rates[i] == before[i];
      pending := pending - {name};
    }
  }

  /** The tracker after a network update: unchanged when no time has
      passed, otherwise holding `current` and stamped at `now`. */
  function NetworkState(t: RateTracker, current: Snapshot, now: real): (t': RateTracker)
    ensures Elapsed(t.lastUpdate, now) == 0.0 ==> t' == t
    ensures Elapsed(t.lastUpdate, now) > 0.0 ==> t'.prevNetwork == current && t'.lastUpdate == now
    ensures t'.prevDisk == t.prevDisk
  {
    if Elapsed(t.lastUpdate, now) == 0.0 then t
    else t.(prevNetwork := current, lastUpdate := now)
  }

  /** The tracker after a disk update: unchanged when no time has passed,
      otherwise holding `current`; the refresh time is never touched. */
  function DiskState(t: RateTracker, current: Snapshot, now: real): (t': RateTracker)
    ensures Elapsed(t.lastUpdate, now) == 0.0 ==> t' == t
    ensures Elapsed(t.lastUpdate, now) > 0.0 ==> t'.prevDisk == current
    ensures t'.prevNetwork == t.prevNetwork && t'.lastUpdate == t.lastUpdate
  {
    if Elapsed(t.lastUpdate, now) == 0.0 then t
    else t.(prevDisk := current)
  }

  method UpdateNetworkRates(t: RateTracker, current: Snapshot, now: real)
    returns (t': RateTracker, rates: seq<Rate>)
    ensures t' == NetworkState(t, current, now)
    ensures Elapsed(t.lastUpdate, now) == 0.0 ==> rates == []
    ensures Elapsed(t.lastUpdate, now) > 0.0 ==>
            Reports(t.prevNetwork, current, Elapsed(t.lastUpdate, now), rates)
  {
    var elapsed := Elapsed(t.lastUpdate, now);
    if elapsed == 0.0 {
      return t, [];
    }
    rates := CollectRates(t.prevNetwork, current, elapsed);
    t' := t.(prevNetwork := current, lastUpdate := now);
  }

  method UpdateDiskRates(t: RateTracker, current: Snapshot, now: real)
    returns (t': RateTracker, rates: seq<Rate>)
    ensures t' == DiskState(t, current, now)
    ensures Elapsed(t.lastUpdate, now) == 0.0 ==> rates == []
    ensures Elapsed(t.lastUpdate, now) > 0.0 ==>
            Reports(t.prevDisk, current, Elapsed(t.lastUpdate, now), rates)
  {
    var elapsed := Elapsed(t.lastUpdate, now);
    if elapsed == 0.0 {
      return t, [];
    }
    rates := CollectRates(t.prevDisk, current, elapsed);
    t' := t.(prevDisk := current);
  }

  // ---------------------------------------------------------------------
  // Properties of the reports
  // ---------------------------------------------------------------------

  /** A report is determined by its inputs up to order. */
  lemma ReportsDetermined(prev: Snapshot, current: Snapshot, elapsed: real,
                          r1: seq<Rate>, r2: seq<Rate>)
    requires elapsed > 0.0
    requires Reports(prev, current, elapsed, r1) && Reports(prev, current, elapsed, r2)
    ensures forall x :: x in r1 <==> x in r2
  {
    forall x | x in r1
      ensures x in r2
    {
      var i :| 0 <= i < |r1| && r1[i] == x;
      var j :| 0 <= j < |r2| && r2[j].name == x.name;
    }
    forall x | x in r2
      ensures x in r1
    {
      var j :| 0 <= j < |r2| && r2[j] == x;
      var i :| 0 <= i < |r1| && r1[i].name == x.name;
    }
  }

  /** Entries with distinct names drawn from `names` are at most as many
      as `names`. */
  lemma {:induction false} NamesBound(rates: seq<Rate>, names: set<string>)
    requires forall i :: 0 <= i < |rates| ==> rates[i].name in names
    requires forall i, j :: 0 <= i < j < |rates| ==> rates[i].name != rates[j].name
    ensures |rates| <= |names|
    decreases |rates|
  {
    if rates != [] {
      var rest := rates[1..];
      assert forall i :: 0 <= i < |rest| ==> rest[i] == rates[i + 1];
      NamesBound(rest, names - {rates[0].name});
    }
  }

  /** A report on two snapshots that share exactly one device holds exactly
      that device's entry. */
  lemma SingleDeviceReport(prev: Snapshot, current: Snapshot, elapsed: real,
                           name: string, rates: seq<Rate>)
    requires elapsed > 0.0
    requires prev.Keys == {name} && current.Keys == {name}
    requires Reports(prev, current, elapsed, rates)
    ensures rates == [Expected(prev, current, elapsed, name)]
  {
    var i :| 0 <= i < |rates| && rates[i].name == name;
    NamesBound(rates, {name});
    assert rates == [rates[i]];
  }

  /** The first update of either kind after `New` reports nothing, since
      no device has a previous snapshot yet. */
  lemma FirstUpdateReportsNothing(start: real, current: Snapshot, now: real,
                                                     rates: seq<Rate>)
    requires Elapsed(start, now) > 0.0
    requires Reports(New(start).prevNetwork, current, Elapsed(start, now), rates)
             || Reports(New(start).prevDisk, current, Elapsed(start, now), rates)
    ensures rates == []
  {
    NamesBound(rates, {});
  }

  /** A device that appears in `c1` only gets no entry in that update, but
      is remembered and gets an entry, measured from `c1`, in the next. */
  lemma NewDeviceReportedNextTime(t: RateTracker, c1: Snapshot, now1: real,
                                  c2: Snapshot, now2: real, name: string,
                                  r1: seq<Rate>, r2: seq<Rate>)
    requires Elapsed(t.lastUpdate, now1) > 0.0
    requires name in c1 && name !in t.prevNetwork && name in c2
    requires Reports(t.prevNetwork, c1, Elapsed(t.lastUpdate, now1), r1)
    requires Elapsed(NetworkState(t, c1, now1).lastUpdate, now2) > 0.0
    requires Reports(NetworkState(t, c1, now1).prevNetwork, c2,
                     Elapsed(NetworkState(t, c1, now1).lastUpdate, now2), r2)
    ensures forall i :: 0 <= i < |r1| ==> r1[i].name != name
    ensures Rate(name, PerSecond(c1[name].0, c2[name].0, Elapsed(now1, now2)),
                 PerSecond(c1[name].1, c2[name].1, Elapsed(now1, now2))) in r2
  {
    var t1 := NetworkState(t, c1, now1);
    var i :| 0 <= i < |r2| && r2[i].name == name;
    assert r2[i] == Expected(t1.prevNetwork, c2, Elapsed(now1, now2), name);
  }

  /** Updates with no time advance leave the tracker as it was, so a later
      update still measures from the snapshot stored before them. */
  lemma StalledUpdatesKeepSnapshot(t: RateTracker, c1: Snapshot, c2: Snapshot,
                                                      now: real, later: real)
    requires Elapsed(t.lastUpdate, now) == 0.0
    requires Elapsed(t.lastUpdate, later) > 0.0
    ensures NetworkState(NetworkState(t, c1, now), c2, now) == t
    ensures DiskState(DiskState(t, c1, now), c2, now) == t
    ensures Elapsed(NetworkState(NetworkState(t, c1, now), c2, now).lastUpdate, later)
            == later - t.lastUpdate
  {
    var t1 := NetworkState(t, c1, now);
    assert t1 == t;
    assert NetworkState(t1, c2, now) == t;
    assert DiskState(t, c1, now) == t;
  }

  /** The refresh time is shared: right after a network update at `now`, a
      disk update at the same `now` sees no elapsed time and keeps the old
      disk snapshot; by the contract of `UpdateDiskRates` it then reports
      nothing. */
  lemma DiskStalledAfterNetwork(t: RateTracker, net: Snapshot, disk: Snapshot, now: real)
    requires Elapsed(t.lastUpdate, now) > 0.0
    ensures Elapsed(NetworkState(t, net, now).lastUpdate, now) == 0.0
    ensures DiskState(NetworkState(t, net, now), disk, now).prevDisk == t.prevDisk
  {
  }

  /** Disk updates never move the refresh time, so consecutive disk updates
      measure their elapsed time from the last network update (or from
      creation), not from the previous disk update. */
  lemma DiskRatesMeasuredFromLastRefresh(t: RateTracker, d1: Snapshot, now1: real,
                                                            now2: real)
    ensures Elapsed(DiskState(t, d1, now1).lastUpdate, now2) == Elapsed(t.lastUpdate, now2)
  {
    assert DiskState(t, d1, now1).lastUpdate == t.lastUpdate;
  }

  // ---------------------------------------------------------------------
  // The worked examples
  // ---------------------------------------------------------------------

  lemma RateExamples(r1: seq<Rate>, r2: seq<Rate>, r3: seq<Rate>)
    requires Reports(map["eth0" := (1000, 2000)], map["eth0" := (5000, 2000)], 1.0, r1)
    requires Reports(map["eth0" := (1000, 2000)], map["eth0" := (1000, 2000)], 1.0, r2)
    requires Reports(map["eth0" := (1000, 2000)], map["eth0" := (1000, 500)], 1.0, r3)
    ensures r1 == [Rate("eth0", 4000, 0)]
    ensures r2 == [Rate("eth0", 0, 0)]
    ensures r3 == [Rate("eth0", 0, 0)]
  {
    SingleDeviceReport(map["eth0" := (1000, 2000)], map["eth0" := (5000, 2000)], 1.0, "eth0", r1);
    SingleDeviceReport(map["eth0" := (1000, 2000)], map["eth0" := (1000, 2000)], 1.0, "eth0", r2);
    SingleDeviceReport(map["eth0" := (1000, 2000)], map["eth0" := (1000, 500)], 1.0, "eth0", r3);
    var p := PerSecond(1000, 5000, 1.0);
    assert p == 4000;
  }
}
