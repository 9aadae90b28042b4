/**
 * `NetworkMonitor`: one region check (`checkCityStatus`), the monitoring pass
 * over all regions (`monitorAll`) and the status store it updates
 * (`this.status`, read by `getCurrentStatus`).
 *
 * The probe of one address is the parameter `probe`: the value `checkIP`
 * settles to for that address (see module TcpCheck). Concurrent batches run
 * sequentially here, in order.
 */
module Monitor {
  import opened Wrappers
  import opened Seqs
  import opened Sampler
  import opened Geo

  datatype Region = Region(name: string, coordinates: Coordinates, ranges: seq<Range>)

  datatype Liveness = Online | Offline

  /**
   * The record `checkCityStatus` returns. The floating-point `connectivity`
   * field is left out; it is `respondingIPs / totalIPsChecked * 100`.
   */
  datatype RegionStatus = RegionStatus(
    name: string,
    coordinates: Coordinates,
    status: Liveness,
    lastChecked: string,
    ranges: seq<Range>,
    totalIPsChecked: nat,
    respondingIPs: nat)

  /** `BATCH_SIZE`: addresses probed together. */
  const AddressBatchSize: nat := 5
  /** `REGION_BATCH_SIZE`: regions checked together. */
  const RegionBatchSize: nat := 2

  /** The record a check of `region` produces when the probe answers `probe` and the clock reads `stamp`. */
  function CityStatus(region: Region, probe: string -> bool, stamp: string): RegionStatus {
    var sample := RegionSample(region.ranges);
    var responding := Count(probe, sample);
    RegionStatus(region.name, region.coordinates, if responding > 0 then Online else Offline,
                 stamp, region.ranges, |sample|, responding)
  }

  /**
   * What checking a region yields: nothing when the check throws (`fails`),
   * its record otherwise.
   */
  function Outcome(region: Region, probe: string -> bool, fails: Region -> bool, stamp: string)
    : Option<RegionStatus>
  {
    if fails(region) then None else Some(CityStatus(region, probe, stamp))
  }

  /** The outcomes of one pass; region `i` reads the clock value `clock(i)`. */
  function Outcomes(regions: seq<Region>, probe: string -> bool, fails: Region -> bool, clock: nat -> string)
    : (outs: seq<Option<RegionStatus>>)
    ensures |outs| == |regions|
    ensures forall i | 0 <= i < |regions| :: outs[i] == Outcome(regions[i], probe, fails, clock(i))
  {
    seq(|regions|, i requires 0 <= i < |regions| => Outcome(regions[i], probe, fails, clock(i)))
  }

  /** `outs[i..end]` are the outcomes of `regions[i..end]`. */
  ghost predicate Checked(outs: seq<Option<RegionStatus>>, regions: seq<Region>, probe: string -> bool,
                          fails: Region -> bool, clock: nat -> string, i: nat, end: nat)
    requires i <= end <= |regions| == |outs|
  {
    forall k {:trigger Outcome(regions[k], probe, fails, clock(k))} | i <= k < end ::
      outs[k] == Outcome(regions[k], probe, fails, clock(k))
  }

  /** `status.set(name, record)` for a successful outcome; a failed one changes nothing. */
  function StoreStep(m: map<string, RegionStatus>, out: Option<RegionStatus>): map<string, RegionStatus> {
    match out
    case None => m
    case Some(s) => m[s.name := s]
  }

  /** The key order of map `m` after the same update: a new key goes last, an old one stays put. */
  function OrderStep(m: map<string, RegionStatus>, order: seq<string>, out: Option<RegionStatus>): seq<string> {
    match out
    case None => order
    case Some(s) => if s.name in m then order else order + [s.name]
  }

  /** The status map after the updates of `outs`, one after the other. */
  function Store(m: map<string, RegionStatus>, outs: seq<Option<RegionStatus>>): map<string, RegionStatus>
    decreases |outs|
  {
    if |outs| == 0 then m else StoreStep(Store(m, outs[..|outs| - 1]), outs[|outs| - 1])
  }

  /** The insertion order of the map's keys after the same updates, starting from `m` and `order`. */
  function StoreOrder(m: map<string, RegionStatus>, order: seq<string>, outs: seq<Option<RegionStatus>>): seq<string>
    decreases |outs|
  {
    if |outs| == 0 then order
    else
      var init := outs[..|outs| - 1];
      OrderStep(Store(m, init), StoreOrder(m, order, init), outs[|outs| - 1])
  }

  lemma StoreExtend(m: map<string, RegionStatus>, order: seq<string>, outs: seq<Option<RegionStatus>>, j: nat)
    requires j < |outs|
    ensures Store(m, outs[..j + 1]) == StoreStep(Store(m, outs[..j]), outs[j])
    ensures StoreOrder(m, order, outs[..j + 1]) == OrderStep(Store(m, outs[..j]), StoreOrder(m, order, outs[..j]), outs[j])
  {
    assert outs[..j + 1][..j] == outs[..j];
  }

  /** The status store is consistent: keys listed once each in insertion order, each entry filed under its own name. */
  ghost predicate StoreInvariant(status: map<string, RegionStatus>, order: seq<string>) {
    && Distinct(order)
    && (forall k :: k in status <==> k in order)
    && (forall k | k in status :: status[k].name == k)
  }

  /** One update keeps the store consistent. */
  lemma StoreStepInvariant(m: map<string, RegionStatus>, order: seq<string>, out: Option<RegionStatus>)
    requires StoreInvariant(m, order)
    ensures StoreInvariant(StoreStep(m, out), OrderStep(m, order, out))
  {
    if out.Some? && out.value.name !in m {
      var o := order + [out.value.name];
      forall i, j | 0 <= i < j < |o| ensures o[i] != o[j] {
        if j == |order| {
          assert o[i] == order[i] && order[i] in order;
        }
      }
    }
  }

  /** Any sequence of updates keeps the store consistent. */
  lemma {:induction false} StoreKeepsInvariant(m: map<string, RegionStatus>, order: seq<string>,
                                               outs: seq<Option<RegionStatus>>)
    requires StoreInvariant(m, order)
    ensures StoreInvariant(Store(m, outs), StoreOrder(m, order, outs))
    decreases |outs|
  {
    if |outs| > 0 {
      var init := outs[..|outs| - 1];
      StoreKeepsInvariant(m, order, init);
      StoreStepInvariant(Store(m, init), StoreOrder(m, order, init), outs[|outs| - 1]);
    }
  }

  /** What `filter(Boolean)` keeps of one outcome. */
  function Kept(out: Option<RegionStatus>): seq<RegionStatus> {
    match out
    case None => []
    case Some(s) => [s]
  }

  /** `batchResults.filter(Boolean)`, gathered over the pass: the successful records in order. */
  function Successes(outs: seq<Option<RegionStatus>>): seq<RegionStatus>
    decreases |outs|
  {
    if |outs| == 0 then [] else Successes(outs[..|outs| - 1]) + Kept(outs[|outs| - 1])
  }

  lemma {:induction false} SuccessesAppend(a: seq<Option<RegionStatus>>, b: seq<Option<RegionStatus>>)
    ensures Successes(a + b) == Successes(a) + Successes(b)
    decreases |b|
  {
    if |b| == 0 {
      assert a + b == a;
    } else {
      var ab, init, last := a + b, b[..|b| - 1], b[|b| - 1];
      SuccessesAppend(a, init);
      assert ab[..|ab| - 1] == a + init;
      assert ab[|ab| - 1] == last;
      calc {
        Successes(ab);
        Successes(a + init) + Kept(last);
        (Successes(a) + Successes(init)) + Kept(last);
        Successes(a) + (Successes(init) + Kept(last));
      }
    }
  }

  lemma SuccessesExtend(outs: seq<Option<RegionStatus>>, i: nat, j: nat)
    requires i <= j <= |outs|
    ensures Successes(outs[..j]) == Successes(outs[..i]) + Successes(outs[i..j])
  {
    SuccessesAppend(outs[..i], outs[i..j]);
    assert outs[..i] + outs[i..j] == outs[..j];
  }

  // ---------------------------------------------------------------- one region check

  /**
   * The record of a check carries the region's name, coordinates and full,
   * unfiltered range list and the clock reading; it counts the addresses
   * sampled (at most fifteen); the responding count is at most that total;
   * the region is online exactly when some address answered.
   */
  lemma CityStatusFacts(region: Region, probe: string -> bool, stamp: string)
    ensures var s := CityStatus(region, probe, stamp);
            s.name == region.name && s.coordinates == region.coordinates && s.ranges == region.ranges
            && s.lastChecked == stamp
    ensures var s := CityStatus(region, probe, stamp);
            s.totalIPsChecked == |RegionSample(region.ranges)| <= 15 && s.respondingIPs <= s.totalIPsChecked
    ensures var s := CityStatus(region, probe, stamp);
            s.status == Online <==> s.respondingIPs > 0
  {
    RegionSampleBounds(region.ranges);
  }

  /**
   * The responding count is the number of sampled addresses the probe answers:
   * all of them exactly when it equals the total, none exactly when the region
   * is offline.
   */
  lemma RespondingCount(region: Region, probe: string -> bool, stamp: string)
    ensures var s, sample := CityStatus(region, probe, stamp), RegionSample(region.ranges);
            s.respondingIPs == s.totalIPsChecked <==> forall i | 0 <= i < |sample| :: probe(sample[i])
    ensures var s, sample := CityStatus(region, probe, stamp), RegionSample(region.ranges);
            s.status == Offline <==> forall i | 0 <= i < |sample| :: !probe(sample[i])
  {
    CountAll(probe, RegionSample(region.ranges));
  }

  /** Probing the sampled addresses in any other order gives the same responding count. */
  lemma RespondingOrderFree(region: Region, probe: string -> bool, stamp: string, probed: seq<string>)
    requires multiset(probed) == multiset(RegionSample(region.ranges))
    ensures Count(probe, probed) == CityStatus(region, probe, stamp).respondingIPs
  {
    CountPermutation(probe, probed, RegionSample(region.ranges));
  }

  // ---------------------------------------------------------------- the status store

  /** An entry that no successful outcome names keeps its record, or stays absent. */
  lemma {:induction false} StoreUntouched(m: map<string, RegionStatus>, outs: seq<Option<RegionStatus>>, name: string)
    requires forall k | 0 <= k < |outs| :: outs[k].Some? ==> outs[k].value.name != name
    ensures name in Store(m, outs) <==> name in m
    ensures name in m ==> Store(m, outs)[name] == m[name]
    decreases |outs|
  {
    if |outs| > 0 {
      StoreUntouched(m, outs[..|outs| - 1], name);
    }
  }

  /** The entry for a name is the record of the last successful outcome with that name. */
  lemma {:induction false} StoreLatest(m: map<string, RegionStatus>, outs: seq<Option<RegionStatus>>, k: nat)
    requires k < |outs| && outs[k].Some?
    requires forall l | k < l < |outs| :: outs[l].Some? ==> outs[l].value.name != outs[k].value.name
    ensures outs[k].value.name in Store(m, outs)
    ensures Store(m, outs)[outs[k].value.name] == outs[k].value
    decreases |outs|
  {
    if k < |outs| - 1 {
      StoreLatest(m, outs[..|outs| - 1], k);
    }
  }

  /** Keys already in the map keep their place in the insertion order; new ones only go after them. */
  lemma {:induction false} StoreOrderPrefix(m: map<string, RegionStatus>, order: seq<string>,
                                            outs: seq<Option<RegionStatus>>)
    ensures |order| <= |StoreOrder(m, order, outs)|
    ensures StoreOrder(m, order, outs)[..|order|] == order
    decreases |outs|
  {
    if |outs| > 0 {
      var init := outs[..|outs| - 1];
      StoreOrderPrefix(m, order, init);
      var o := StoreOrder(m, order, init);
      var last := outs[|outs| - 1];
      if last.Some? {
        assert (o + [last.value.name])[..|order|] == o[..|order|];
      }
    }
  }

  /** No two regions share a name. */
  predicate UniqueNames(regions: seq<Region>) {
    forall i, j | 0 <= i < j < |regions| :: regions[i].name != regions[j].name
  }

  /**
   * After a pass over regions with distinct names, the entry of a region
   * whose check succeeded is its new record, and the entry of a region whose
   * check threw is what it was before the pass (or still absent).
   */
  lemma PassEntry(m: map<string, RegionStatus>, regions: seq<Region>, probe: string -> bool,
                  fails: Region -> bool, clock: nat -> string, i: nat)
    requires UniqueNames(regions) && i < |regions|
    ensures var after, name := Store(m, Outcomes(regions, probe, fails, clock)), regions[i].name;
            !fails(regions[i]) ==> name in after && after[name] == CityStatus(regions[i], probe, clock(i))
    ensures var after, name := Store(m, Outcomes(regions, probe, fails, clock)), regions[i].name;
            fails(regions[i]) ==> (name in after <==> name in m) && (name in m ==> after[name] == m[name])
  {
    var outs := Outcomes(regions, probe, fails, clock);
    var name := regions[i].name;
    if fails(regions[i]) {
      forall k | 0 <= k < |outs| && outs[k].Some? ensures outs[k].value.name != name {
        assert k != i;
        assert outs[k].value.name == regions[k].name;
        if k < i {
          assert regions[k].name != regions[i].name;
        }
      }
      StoreUntouched(m, outs, name);
    } else {
      forall l | i < l < |outs| && outs[l].Some? ensures outs[l].value.name != outs[i].value.name {
        assert outs[l].value.name == regions[l].name;
      }
      StoreLatest(m, outs, i);
    }
  }

  // ---------------------------------------------------------------- the returned list

  /** A record is returned exactly when some outcome is that record. */
  lemma {:induction false} SuccessesMembers(outs: seq<Option<RegionStatus>>, s: RegionStatus)
    ensures s in Successes(outs) <==> exists k | 0 <= k < |outs| :: outs[k] == Some(s)
    decreases |outs|
  {
    if |outs| > 0 {
      var init := outs[..|outs| - 1];
      SuccessesMembers(init, s);
      if s in Successes(init) {
        var k :| 0 <= k < |init| && init[k] == Some(s);
        assert outs[k] == Some(s);
      }
      if exists k | 0 <= k < |outs| :: outs[k] == Some(s) {
        var k :| 0 <= k < |outs| && outs[k] == Some(s);
        if k < |init| {
          assert init[k] == Some(s);
        }
      }
    }
  }

  /** When no check fails, every outcome is returned, in order. */
  lemma {:induction false} SuccessesAllSome(outs: seq<Option<RegionStatus>>)
    requires forall k | 0 <= k < |outs| :: outs[k].Some?
    ensures |Successes(outs)| == |outs|
    ensures forall k | 0 <= k < |outs| :: Successes(outs)[k] == outs[k].value
    decreases |outs|
  {
    if |outs| > 0 {
      SuccessesAllSome(outs[..|outs| - 1]);
    }
  }

  /** A pass in which no check throws returns every region's record, in region order. */
  lemma PassWithoutFailures(regions: seq<Region>, probe: string -> bool, fails: Region -> bool, clock: nat -> string)
    requires forall i | 0 <= i < |regions| :: !fails(regions[i])
    ensures |Successes(Outcomes(regions, probe, fails, clock))| == |regions|
    ensures forall i | 0 <= i < |regions| ::
              Successes(Outcomes(regions, probe, fails, clock))[i] == CityStatus(regions[i], probe, clock(i))
  {
    SuccessesAllSome(Outcomes(regions, probe, fails, clock));
  }

  class NetworkMonitor {
    const regions: seq<Region>
    /** `this.status`: region name to latest record. */
    var status: map<string, RegionStatus>
    /** The order in which the keys of `this.status` were first set. */
    var order: seq<string>

    ghost predicate Valid()
      reads this
    {
      StoreInvariant(status, order)
    }

    constructor (regions: seq<Region>)
      ensures Valid()
      ensures this.regions == regions && status == map[] && order == []
    {
      this.regions := regions;
      status := map[];
      order := [];
    }

    /**
     * `checkCityStatus(region)`: collect the candidates of the first three
     * checkable ranges, probe them in consecutive batches of five and count
     * the answers. `batches` records the batches probed.
     */
    method CheckCityStatus(region: Region, probe: string -> bool, lastChecked: string)
      returns (s: RegionStatus, ghost batches: seq<seq<string>>)
      ensures s == CityStatus(region, probe, lastChecked)
      ensures batches == Chunks(RegionSample(region.ranges), AddressBatchSize)
    {
      var validRanges := ValidRanges(region.ranges);
      var rangesToCheck := validRanges[..Min(RangesPerRegion, |validRanges|)];
      TakePrefix(validRanges, RangesPerRegion);
      var allChecks := CollectChecks(rangesToCheck);
      var responding;
      responding, batches := ProbeInBatches(allChecks, probe);
      s := RegionStatus(region.name, region.coordinates, if responding > 0 then Online else Offline,
                        lastChecked, region.ranges, |allChecks|, responding);
    }

    /** The loop that pushes each range's candidate set onto `allChecks`. */
    method CollectChecks(rangesToCheck: seq<Range>) returns (allChecks: seq<string>)
      ensures allChecks == SampleOf(rangesToCheck)
    {
      allChecks := [];
      var r := 0;
      while r < |rangesToCheck|
        invariant 0 <= r <= |rangesToCheck|
        invariant allChecks == SampleOf(rangesToCheck[..r])
      {
        var ipsToCheck := Candidates(rangesToCheck[r]);
        SampleOfStep(rangesToCheck, r);
        allChecks := allChecks + ipsToCheck;
        r := r + 1;
      }
      assert rangesToCheck[..r] == rangesToCheck;
    }

    /** The batch loop: probe `allChecks` five at a time and add up the `true` answers. */
    method ProbeInBatches(allChecks: seq<string>, probe: string -> bool)
      returns (responding: nat, ghost batches: seq<seq<string>>)
      ensures responding == Count(probe, allChecks)
      ensures batches == Chunks(allChecks, AddressBatchSize)
    {
      var n := |allChecks|;
      responding := 0;
      batches := [];
      var i := 0;
      while i < n
        invariant 0 <= i <= n
        invariant responding == Count(probe, allChecks[..i])
        invariant batches + Chunks(allChecks[i..], AddressBatchSize) == Chunks(allChecks, AddressBatchSize)
      {
        // i + BATCH_SIZE, except that the last batch may be shorter
        var end := Min(i + AddressBatchSize, n);
        var batch := allChecks[i..end];
        var hits := ProbeBatch(batch, probe);
        CountExtend(probe, allChecks, i, end);
        ChunksAdvance(allChecks, i, AddressBatchSize, batches);
        responding := responding + hits;
        batches := batches + [batch];
        i := end;
      }
      assert allChecks[..n] == allChecks;
      ChunksDone(allChecks, AddressBatchSize, batches);
    }

    /** `Promise.all(batch.map(checkIP))`, then the number of `true` results. */
    method ProbeBatch(batch: seq<string>, probe: string -> bool) returns (hits: nat)
      ensures hits == Count(probe, batch)
    {
      hits := 0;
      var j := 0;
      while j < |batch|
        invariant 0 <= j <= |batch|
        invariant hits == Count(probe, batch[..j])
      {
        assert batch[..j + 1][..j] == batch[..j];
        if probe(batch[j]) {
          hits := hits + 1;
        }
        j := j + 1;
      }
      assert batch[..j] == batch;
    }

    /**
     * `monitorAll()`: check the regions in consecutive batches of two; a
     * successful check replaces its region's entry and joins the returned
     * list, a failing one leaves the store as it was. `regionBatches`
     * records the batches.
     */
    method MonitorAll(probe: string -> bool, fails: Region -> bool, clock: nat -> string)
      returns (updates: seq<RegionStatus>, ghost regionBatches: seq<seq<Region>>)
      requires Valid()
      modifies this
      ensures Valid()
      ensures status == Store(old(status), Outcomes(regions, probe, fails, clock))
      ensures order == StoreOrder(old(status), old(order), Outcomes(regions, probe, fails, clock))
      ensures updates == Successes(Outcomes(regions, probe, fails, clock))
      ensures regionBatches == Chunks(regions, RegionBatchSize)
    {
      ghost var outs := Outcomes(regions, probe, fails, clock);
      ghost var m0, o0 := status, order;
      var n := |regions|;
      updates := [];
      regionBatches := [];
      var i := 0;
      while i < n
        invariant 0 <= i <= n
        invariant status == Store(m0, outs[..i])
        invariant order == StoreOrder(m0, o0, outs[..i])
        invariant updates == Successes(outs[..i])
        invariant regionBatches + Chunks(regions[i..], RegionBatchSize) == Chunks(regions, RegionBatchSize)
      {
        // i + REGION_BATCH_SIZE, except that the last batch may be shorter
        var end := Min(i + RegionBatchSize, n);
        var regionBatch := regions[i..end];
        var batchResults := MonitorBatch(i, end, outs, probe, fails, clock, m0, o0);
        SuccessesExtend(outs, i, end);
        updates := updates + Successes(batchResults);
        ChunksAdvance(regions, i, RegionBatchSize, regionBatches);
        regionBatches := regionBatches + [regionBatch];
        i := end;
      }
      assert outs[..n] == outs;
      ChunksDone(regions, RegionBatchSize, regionBatches);
      StoreKeepsInvariant(m0, o0, outs);
    }

    /**
     * `Promise.all(batch.map(callback))` over `regions[i..end]`, the callbacks
     * run one after the other: the outcome of each region, `null` for one
     * whose check threw.
     */
    method MonitorBatch(i: nat, end: nat, ghost outs: seq<Option<RegionStatus>>, probe: string -> bool,
                        fails: Region -> bool, clock: nat -> string,
                        ghost m0: map<string, RegionStatus>, ghost o0: seq<string>)
      returns (batchResults: seq<Option<RegionStatus>>)
      requires i <= end <= |regions| == |outs|
      requires Checked(outs, regions, probe, fails, clock, i, end)
      requires status == Store(m0, outs[..i]) && order == StoreOrder(m0, o0, outs[..i])
      modifies this
      ensures status == Store(m0, outs[..end]) && order == StoreOrder(m0, o0, outs[..end])
      ensures batchResults == outs[i..end]
    {
      batchResults := [];
      var j := i;
      while j < end
        invariant i <= j <= end
        invariant status == Store(m0, outs[..j]) && order == StoreOrder(m0, o0, outs[..j])
        invariant batchResults == outs[i..j]
      {
        var update := MonitorRegion(i, j, end, outs, probe, fails, clock);
        StoreExtend(m0, o0, outs, j);
        batchResults := batchResults + [update];
        assert outs[i..j + 1] == outs[i..j] + [outs[j]];
        j := j + 1;
      }
    }

    /** The body of the per-region callback: check one region and file its record if the check succeeded. */
    method MonitorRegion(i: nat, j: nat, end: nat, ghost outs: seq<Option<RegionStatus>>, probe: string -> bool,
                         fails: Region -> bool, clock: nat -> string)
      returns (update: Option<RegionStatus>)
      requires i <= j < end <= |regions| == |outs|
      requires Checked(outs, regions, probe, fails, clock, i, end)
      modifies this
      ensures update == outs[j]
      ensures status == StoreStep(old(status), update) && order == OrderStep(old(status), old(order), update)
    {
      assert outs[j] == Outcome(regions[j], probe, fails, clock(j));
      var region := regions[j];
      if fails(region) {
        update := None;
      } else {
        var s, _ := CheckCityStatus(region, probe, clock(j));
        if region.name !in status {
          order := order + [region.name];
        }
        status := status[region.name := s];
        update := Some(s);
      }
    }

    /** `getCurrentStatus()`: the map's values, in the order their keys were first set. */
    function CurrentStatus(): (r: seq<RegionStatus>)
      reads this
      requires Valid()
      ensures |r| == |order| == |status|
      ensures forall i | 0 <= i < |r| :: order[i] in status && r[i] == status[order[i]]
      ensures forall v :: v in r <==> v in status.Values
    {
      DistinctCardinality(order);
      assert (set k | k in order) == status.Keys;
      assert forall i | 0 <= i < |order| :: order[i] in order && order[i] in status;
      var r := seq(|order|, i reads this requires 0 <= i < |order| && order[i] in status => status[order[i]]);
      assert forall v | v in status.Values :: v in r by {
        forall v | v in status.Values ensures v in r {
          var k :| k in status && status[k] == v;
          var i :| 0 <= i < |order| && order[i] == k;
          assert r[i] == v;
        }
      }
      r
    }
  }
}
