/**
 * The traffic measurement in main (main.c:241-268): enumerate the devices,
 * add up every device's counters into unsigned long totals, sample again
 * after the pause, add up again, and subtract the first totals from the
 * second with unsigned (mod 2^64) arithmetic. Each pass reads one snapshot
 * of /proc/net/dev, given as its lines; the pause itself is not modelled.
 */
module Traffic {
  import opened Options
  import opened NetDev
  import opened LineLocator

  /** The value an unsigned long holds after an arithmetic result x. */
  function Wrap(x: int): (r: U64)
    ensures 0 <= x < U64_MODULUS ==> r == x
  {
    x % U64_MODULUS
  }

  lemma WrapAdd(a: int, b: int)
    ensures Wrap(Wrap(a) + b) == Wrap(a + b)
  {
    var q := a / U64_MODULUS;
    assert a == q * U64_MODULUS + Wrap(a);
    assert a + b == q * U64_MODULUS + (Wrap(a) + b);
    ModOfShift(Wrap(a) + b, q);
  }

  lemma ModOfShift(x: int, q: int)
    ensures (q * U64_MODULUS + x) % U64_MODULUS == x % U64_MODULUS
  {
  }

  /** The lookup of every listed device in one snapshot, in list order. */
  function Lookups(table: seq<string>, names: seq<string>): (found: seq<Option<Counters>>)
    ensures |found| == |names|
  {
    if names == [] then []
    else Lookups(table, names[..|names| - 1]) + [NetDeviceTraffic(table, names[|names| - 1])]
  }

  lemma {:induction false} LookupsAt(table: seq<string>, names: seq<string>)
    ensures forall k :: 0 <= k < |names| ==> Lookups(table, names)[k] == NetDeviceTraffic(table, names[k])
  {
    if names != [] {
      var init := names[..|names| - 1];
      LookupsAt(table, init);
      assert forall k :: 0 <= k < |init| ==> init[k] == names[k];
    }
  }

  /** The counters of a pass, or None as soon as one lookup fails. */
  function Collect(found: seq<Option<Counters>>): (r: Option<seq<Counters>>)
    ensures r.Some? ==> |r.value| == |found|
  {
    if found == [] then Some([])
    else
      match Collect(found[..|found| - 1])
      case None => None
      case Some(cs) =>
        match found[|found| - 1]
        case None => None
        case Some(c) => Some(cs + [c])
  }

  /**
   * The counters of every device in names, read from one snapshot. None when
   * some device has no line, where get_net_device_traffic's assert aborts.
   */
  function Samples(table: seq<string>, names: seq<string>): (r: Option<seq<Counters>>)
    ensures r.Some? ==> |r.value| == |names|
  {
    Collect(Lookups(table, names))
  }

  lemma {:induction false} CollectAll(found: seq<Option<Counters>>)
    requires Collect(found).Some?
    ensures forall k :: 0 <= k < |found| ==> found[k] == Some(Collect(found).value[k])
  {
    if found != [] {
      var n := |found| - 1;
      var init := found[..n];
      CollectAll(init);
      var cs := Collect(init).value;
      assert Collect(found).value == cs + [found[n].value];
      forall k | 0 <= k < n
        ensures found[k] == Some(cs[k])
      {
        assert init[k] == found[k];
      }
    }
  }

  lemma {:induction false} CollectMissing(found: seq<Option<Counters>>) returns (k: nat)
    requires Collect(found).None?
    ensures k < |found| && found[k].None?
  {
    var n := |found| - 1;
    var init := found[..n];
    if Collect(init).None? {
      k := CollectMissing(init);
      assert init[k] == found[k];
    } else {
      k := n;
    }
  }

  lemma CollectStep(found: seq<Option<Counters>>, i: nat)
    requires i < |found|
    ensures Collect(found[..i + 1]) == match Collect(found[..i])
      case None => None
      case Some(cs) => match found[i]
        case None => None
        case Some(c) => Some(cs + [c])
  {
    assert found[..i + 1][..i] == found[..i];
  }

  lemma {:induction false} CollectMissingPrefix(found: seq<Option<Counters>>, i: nat)
    requires i <= |found| && Collect(found[..i]).None?
    ensures Collect(found).None?
    decreases |found| - i
  {
    if i < |found| {
      CollectStep(found, i);
      CollectMissingPrefix(found, i + 1);
    } else {
      assert found[..i] == found;
    }
  }

  /** When the pass succeeds it holds each device's counters, in list order. */
  lemma SamplesAreLookups(table: seq<string>, names: seq<string>)
    requires Samples(table, names).Some?
    ensures forall k :: 0 <= k < |names| ==> NetDeviceTraffic(table, names[k]) == Some(Samples(table, names).value[k])
  {
    CollectAll(Lookups(table, names));
    LookupsAt(table, names);
  }

  /** The pass fails only when some device has no usable line in the snapshot. */
  lemma SamplesMissingDevice(table: seq<string>, names: seq<string>) returns (k: nat)
    requires Samples(table, names).None?
    ensures k < |names| && NetDeviceTraffic(table, names[k]).None?
  {
    k := CollectMissing(Lookups(table, names));
    LookupsAt(table, names);
  }

  /** Sum of the rx counters, without wrap-around. */
  function TotalRx(cs: seq<Counters>): nat
  {
    if cs == [] then 0 else TotalRx(cs[..|cs| - 1]) + cs[|cs| - 1].rx
  }

  /** Sum of the tx counters, without wrap-around. */
  function TotalTx(cs: seq<Counters>): nat
  {
    if cs == [] then 0 else TotalTx(cs[..|cs| - 1]) + cs[|cs| - 1].tx
  }

  /** total_in and total_out: end totals minus start totals, as unsigned long. */
  function Delta(start: seq<Counters>, end: seq<Counters>): (r: Counters)
    ensures start == end ==> r == Counters(0, 0)
  {
    Counters(Wrap(TotalRx(end) - TotalRx(start)), Wrap(TotalTx(end) - TotalTx(start)))
  }

  /** The traffic main reports, over one device list sampled in two snapshots. */
  function TrafficRate(names: seq<string>, start: seq<string>, end: seq<string>): (r: Option<Counters>)
    ensures r.Some? && start == end ==> r.value == Counters(0, 0)
  {
    RateOf(Samples(start, names), Samples(end, names))
  }

  function RateOf(first: Option<seq<Counters>>, second: Option<seq<Counters>>): Option<Counters>
  {
    if first.Some? && second.Some? then Some(Delta(first.value, second.value)) else None
  }

  /** total_in and total_out after one sampling loop: the wrapped sums, or None on a missing device. */
  function SnapshotTotals(table: seq<string>, names: seq<string>): Option<Counters>
  {
    Totals(Samples(table, names))
  }

  function Totals(sampled: Option<seq<Counters>>): Option<Counters>
  {
    if sampled.Some? then Some(Counters(Wrap(TotalRx(sampled.value)), Wrap(TotalTx(sampled.value)))) else None
  }

  /** end - start on unsigned longs, for both counters. */
  function Difference(first: Option<Counters>, second: Option<Counters>): Option<Counters>
  {
    if first.Some? && second.Some? then
      Some(Counters(Wrap(second.value.rx - first.value.rx), Wrap(second.value.tx - first.value.tx)))
    else None
  }

  // ---------------------------------------------------------------------------
  // The pass as written: every device located by its bare name (main.c:169)
  // ---------------------------------------------------------------------------

  /** The lookups of one pass with the bare-name prefix get_net_device_traffic uses. */
  function LookupsAsWritten(table: seq<string>, names: seq<string>): (found: seq<Option<Counters>>)
    ensures |found| == |names|
  {
    if names == [] then []
    else LookupsAsWritten(table, names[..|names| - 1]) + [NetDeviceTrafficAsWritten(table, names[|names| - 1])]
  }

  /** For every listed name, the bare name and the name with its ':' first match the same row. */
  predicate PrefixesAgree(table: seq<string>, names: seq<string>) {
    forall k :: 0 <= k < |names| ==> FirstIndexWithPrefix(table, names[k]) == FirstIndexWithPrefix(table, names[k] + ":")
  }

  /** total_in and total_out after one pass of main as written. */
  function SnapshotTotalsAsWritten(table: seq<string>, names: seq<string>): Option<Counters>
  {
    Totals(Collect(LookupsAsWritten(table, names)))
  }

  lemma {:induction false} LookupsAsWrittenAgree(table: seq<string>, names: seq<string>)
    requires PrefixesAgree(table, names)
    ensures LookupsAsWritten(table, names) == Lookups(table, names)
  {
    if names != [] {
      var init := names[..|names| - 1];
      assert forall k :: 0 <= k < |init| ==> init[k] == names[k];
      LookupsAsWrittenAgree(table, init);
    }
  }

  /**
   * When no listed name is a prefix of an earlier row of another device, the
   * pass as written sums exactly what the corrected pass (SampleTotals) sums.
   */
  lemma SnapshotTotalsAsWrittenAgree(table: seq<string>, names: seq<string>)
    requires PrefixesAgree(table, names)
    ensures SnapshotTotalsAsWritten(table, names) == SnapshotTotals(table, names)
  {
    LookupsAsWrittenAgree(table, names);
  }

  /**
   * The totals of both passes over two devices, from what each lookup
   * returns: c1 and c2 by bare name, d1 and d2 by name and ':'. With
   * NetDev.PrefixLookupReadsOtherCounters (enp0s31f6's row before enp0s3's,
   * c1 = c2 = d1 = enp0s31f6's counters, d2 = enp0s3's) the pass as written
   * adds enp0s31f6's counters twice and the corrected pass adds each device's
   * counters once.
   */
  lemma PassOverTwo(table: seq<string>, first: string, second: string, c1: Counters, c2: Counters, d1: Counters, d2: Counters)
    requires NetDeviceTrafficAsWritten(table, first) == Some(c1) && NetDeviceTrafficAsWritten(table, second) == Some(c2)
    requires NetDeviceTraffic(table, first) == Some(d1) && NetDeviceTraffic(table, second) == Some(d2)
    ensures SnapshotTotalsAsWritten(table, [first, second]) == Some(Counters(Wrap(c1.rx + c2.rx), Wrap(c1.tx + c2.tx)))
    ensures SnapshotTotals(table, [first, second]) == Some(Counters(Wrap(d1.rx + d2.rx), Wrap(d1.tx + d2.tx)))
  {
    LookupsOfTwo(table, first, second);
    TotalsOfTwo(c1, c2);
    TotalsOfTwo(d1, d2);
  }

  lemma LookupsOfTwo(table: seq<string>, first: string, second: string)
    ensures Lookups(table, [first, second]) == [NetDeviceTraffic(table, first), NetDeviceTraffic(table, second)]
    ensures LookupsAsWritten(table, [first, second])
         == [NetDeviceTrafficAsWritten(table, first), NetDeviceTrafficAsWritten(table, second)]
  {
    assert [first, second][..1] == [first] && [first][..0] == [];
  }

  /** A pass that finds two devices totals their counters. */
  lemma TotalsOfTwo(x: Counters, y: Counters)
    ensures Totals(Collect([Some(x), Some(y)])) == Some(Counters(Wrap(x.rx + y.rx), Wrap(x.tx + y.tx)))
  {
    assert [Some(x), Some(y)][..1] == [Some(x)] && [Some(x)][..0] == [];
    assert [] + [x] == [x] && [x] + [y] == [x, y];
    assert Collect([Some(x)]) == Some([x]);
    assert Collect([Some(x), Some(y)]) == Some([x, y]);
    assert [x, y][..1] == [x] && [x][..0] == [];
    assert TotalRx([x]) == x.rx && TotalTx([x]) == x.tx;
    assert TotalRx([x, y]) == x.rx + y.rx && TotalTx([x, y]) == x.tx + y.tx;
  }

  /** One sampling loop of main: += every device's counters into unsigned long totals. */
  method SampleTotals(names: array<string>, table: seq<string>) returns (r: Option<Counters>)
    ensures r == SnapshotTotals(table, names[..])
  {
    ghost var found := Lookups(table, names[..]);
    LookupsAt(table, names[..]);
    ghost var sampled: seq<Counters> := [];
    var totalIn: U64 := 0;
    var totalOut: U64 := 0;
    for i := 0 to names.Length
      invariant Collect(found[..i]) == Some(sampled)
      invariant totalIn == Wrap(TotalRx(sampled)) && totalOut == Wrap(TotalTx(sampled))
    {
      var sample := NetDeviceTraffic(table, names[i]);
      assert sample == found[i];
      CollectStep(found, i);
      if sample.None? {
        CollectMissingPrefix(found, i + 1);
        return None;
      }
      var c := sample.value;
      Accumulate(totalIn, totalOut, sampled, c);
      totalIn := Wrap(totalIn + c.rx);
      totalOut := Wrap(totalOut + c.tx);
      sampled := sampled + [c];
    }
    assert found[..names.Length] == found;
    r := Some(Counters(totalIn, totalOut));
  }

  /** One += of the loop: the wrapped running totals follow the exact sums. */
  lemma Accumulate(totalIn: int, totalOut: int, cs: seq<Counters>, c: Counters)
    requires totalIn == Wrap(TotalRx(cs)) && totalOut == Wrap(TotalTx(cs))
    ensures Wrap(totalIn + c.rx) == Wrap(TotalRx(cs + [c]))
    ensures Wrap(totalOut + c.tx) == Wrap(TotalTx(cs + [c]))
  {
    TotalsStep(cs, c);
    WrapAdd(TotalRx(cs), c.rx);
    WrapAdd(TotalTx(cs), c.tx);
  }

  lemma TotalsStep(cs: seq<Counters>, c: Counters)
    ensures TotalRx(cs + [c]) == TotalRx(cs) + c.rx
    ensures TotalTx(cs + [c]) == TotalTx(cs) + c.tx
  {
    assert (cs + [c])[..|cs|] == cs;
  }

  /**
   * Subtracting the start totals from the end totals as unsigned longs is
   * the traffic: the wrap-around in the sums does not change the difference.
   */
  lemma RateOfTotals(first: Option<seq<Counters>>, second: Option<seq<Counters>>)
    ensures RateOf(first, second) == Difference(Totals(first), Totals(second))
  {
    if first.Some? && second.Some? {
      DeltaOfWrappedTotals(Totals(first).value, Totals(second).value, first.value, second.value);
    }
  }

  /**
   * The measurement in main: the start totals, the pause, the end totals over
   * the same device list, and the unsigned differences.
   */
  method MeasureTraffic(names: array<string>, start: seq<string>, end: seq<string>) returns (r: Option<Counters>)
    ensures r == TrafficRate(names[..], start, end)
  {
    var first := SampleTotals(names, start);
    // sleep(1): the second snapshot is the end parameter.
    var second := SampleTotals(names, end);
    if first.Some? && second.Some? {
      r := Some(Counters(Wrap(second.value.rx - first.value.rx), Wrap(second.value.tx - first.value.tx)));
    } else {
      r := None;
    }
    MeasuredRate(names[..], start, end, first, second, r);
  }

  /** The end-minus-start subtraction of main's two totals is the traffic. */
  lemma MeasuredRate(names: seq<string>, start: seq<string>, end: seq<string>,
                     first: Option<Counters>, second: Option<Counters>, r: Option<Counters>)
    requires first == SnapshotTotals(start, names) && second == SnapshotTotals(end, names)
    requires r == Difference(first, second)
    ensures r == TrafficRate(names, start, end)
  {
    TrafficRateOfSnapshots(names, start, end);
  }

  /** The traffic is the difference of the two snapshots' wrapped totals. */
  lemma TrafficRateOfSnapshots(names: seq<string>, start: seq<string>, end: seq<string>)
    ensures TrafficRate(names, start, end) == Difference(SnapshotTotals(start, names), SnapshotTotals(end, names))
  {
    RateOfTotals(Samples(start, names), Samples(end, names));
  }

  /**
   * main as a whole: the devices enumerated from the start snapshot, sampled
   * in the start snapshot and again in the end snapshot.
   */
  method NetTraffic(start: seq<string>, end: seq<string>) returns (r: Option<Counters>)
    ensures r == TrafficRate(DeviceNames(start), start, end)
  {
    var names, count := GetNetDevicesNames(start);
    r := MeasureTraffic(names, start, end);
  }

  /**
   * A traffic figure exists exactly when every listed device has a
   * well-formed line in both snapshots; otherwise an assert aborts main.
   */
  lemma TrafficRateDefined(names: seq<string>, start: seq<string>, end: seq<string>)
    ensures TrafficRate(names, start, end).Some? <==>
      forall k :: 0 <= k < |names| ==> NetDeviceTraffic(start, names[k]).Some? && NetDeviceTraffic(end, names[k]).Some?
  {
    if Samples(start, names).None? {
      var k := SamplesMissingDevice(start, names);
    } else if Samples(end, names).None? {
      var k := SamplesMissingDevice(end, names);
    } else {
      SamplesAreLookups(start, names);
      SamplesAreLookups(end, names);
    }
  }

  /** Subtracting the wrapped totals gives the wrapped difference of the exact ones. */
  lemma DeltaOfWrappedTotals(first: Counters, second: Counters, s0: seq<Counters>, s1: seq<Counters>)
    requires first.rx == Wrap(TotalRx(s0)) && first.tx == Wrap(TotalTx(s0))
    requires second.rx == Wrap(TotalRx(s1)) && second.tx == Wrap(TotalTx(s1))
    ensures Counters(Wrap(second.rx - first.rx), Wrap(second.tx - first.tx)) == Delta(s0, s1)
  {
    WrapSub(TotalRx(s1), TotalRx(s0));
    WrapSub(TotalTx(s1), TotalTx(s0));
  }

  lemma WrapSub(a: int, b: int)
    ensures Wrap(Wrap(a) - Wrap(b)) == Wrap(a - b)
  {
    var qa, qb := a / U64_MODULUS, b / U64_MODULUS;
    assert a - b == (qa - qb) * U64_MODULUS + (Wrap(a) - Wrap(b));
    ModOfShift(Wrap(a) - Wrap(b), qa - qb);
  }

  /** Sum of the per-device rx deltas end - start, which may be negative. */
  function RxDeltas(start: seq<Counters>, end: seq<Counters>): int
    requires |start| == |end|
  {
    if start == [] then 0
    else RxDeltas(start[..|start| - 1], end[..|end| - 1]) + (end[|end| - 1].rx - start[|start| - 1].rx)
  }

  /** Sum of the per-device tx deltas end - start, which may be negative. */
  function TxDeltas(start: seq<Counters>, end: seq<Counters>): int
    requires |start| == |end|
  {
    if start == [] then 0
    else TxDeltas(start[..|start| - 1], end[..|end| - 1]) + (end[|end| - 1].tx - start[|start| - 1].tx)
  }

  lemma {:induction false} TotalsMinusTotals(start: seq<Counters>, end: seq<Counters>)
    requires |start| == |end|
    ensures TotalRx(end) - TotalRx(start) == RxDeltas(start, end)
    ensures TotalTx(end) - TotalTx(start) == TxDeltas(start, end)
  {
    if start != [] {
      TotalsMinusTotals(start[..|start| - 1], end[..|end| - 1]);
    }
  }

  /**
   * Subtracting the sums is summing the per-device deltas, modulo 2^64: the
   * device list is the same in both passes.
   */
  lemma DeltaIsSumOfDeltas(start: seq<Counters>, end: seq<Counters>)
    requires |start| == |end|
    ensures Delta(start, end) == Counters(Wrap(RxDeltas(start, end)), Wrap(TxDeltas(start, end)))
  {
    TotalsMinusTotals(start, end);
  }

  lemma {:induction false} DeltasBounded(start: seq<Counters>, end: seq<Counters>)
    requires |start| == |end|
    requires forall k :: 0 <= k < |start| ==> start[k].rx <= end[k].rx && start[k].tx <= end[k].tx
    ensures 0 <= RxDeltas(start, end) <= TotalRx(end)
    ensures 0 <= TxDeltas(start, end) <= TotalTx(end)
  {
    if start != [] {
      var s, e := start[..|start| - 1], end[..|end| - 1];
      assert forall k :: 0 <= k < |s| ==> s[k] == start[k] && e[k] == end[k];
      DeltasBounded(s, e);
    }
  }

  /**
   * When no device's counter went backwards and the summed deltas fit in 64
   * bits, the reported traffic is exactly the sum of the per-device deltas,
   * and so not negative.
   */
  lemma DeltaOfGrowingCounters(start: seq<Counters>, end: seq<Counters>)
    requires |start| == |end|
    requires forall k :: 0 <= k < |start| ==> start[k].rx <= end[k].rx && start[k].tx <= end[k].tx
    requires RxDeltas(start, end) < U64_MODULUS && TxDeltas(start, end) < U64_MODULUS
    ensures Delta(start, end).rx == RxDeltas(start, end) >= 0
    ensures Delta(start, end).tx == TxDeltas(start, end) >= 0
  {
    DeltaIsSumOfDeltas(start, end);
    DeltasBounded(start, end);
  }

  /**
   * A counter that goes backwards (a reset, a device that was re-created) is
   * not clamped: the unsigned subtraction wraps to nearly 2^64.
   */
  lemma DeltaOfShrinkingCounterWraps()
    ensures Delta([Counters(1, 0)], [Counters(0, 0)]).rx == U64_MODULUS - 1
  {
    assert TotalRx([Counters(1, 0)]) == 1;
    assert TotalRx([Counters(0, 0)]) == 0;
  }

  /** 1000 -> 3000 bytes received and 500 -> 1500 sent over one interval give 2000 and 1000. */
  lemma DeltaExample()
    ensures Delta([Counters(1000, 500)], [Counters(3000, 1500)]) == Counters(2000, 1000)
  {
    assert TotalRx([Counters(1000, 500)]) == 1000;
    assert TotalRx([Counters(3000, 1500)]) == 3000;
    assert TotalTx([Counters(1000, 500)]) == 500;
    assert TotalTx([Counters(3000, 1500)]) == 1500;
  }
}
