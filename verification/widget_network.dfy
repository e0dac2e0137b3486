/** The dashboard's network widget: per-interface rolling buffers of traffic
    samples feeding a chart, the grid span of each interface tile, the
    address and link-state captions, and the traffic-arrow threshold.

    The event stream, `Date.now()` and the unit conversion of byte rates are
    inputs; the calls to the table service that light a traffic arrow are
    returned as data. */
module WidgetNetwork {
  import opened Optional
  import opened JsText
  import opened Sequences

  /** Samples kept per interface and direction. */
  const MaxBuffer := 30
  /** Byte growth that lights a traffic arrow. */
  const MinSizeToActiveTrafficArrowIcon := 1024
  const TrafficPrefix := "NetTraffic_"
  const LinkStateUp := "LINK_STATE_UP"
  const AliasInet := "INET"
  const AliasInet6 := "INET6"
  /** The caption of an interface without an address (an en dash). */
  const NoAddress := "\U{2013}"

  datatype DataPoint = DataPoint(t: int, y: int)

  datatype NicAlias = NicAlias(aliasType: string, address: string, netmask: int)

  /** `nic.state`: its name, link state and (possibly missing) aliases. */
  datatype NicState = NicState(name: string, linkState: string, aliases: Option<seq<NicAlias>>)

  datatype Nic = Nic(name: string, state: NicState)

  /** The payload of a `NetTraffic_<nic>` event that the widget reads. */
  datatype TrafficStats = TrafficStats(sentBytes: int, receivedBytes: int)

  /** What the unit converter makes of a byte rate: a number and its unit. */
  datatype Converted = Converted(value: string, units: string)

  datatype EmptyType = Loading | Errors

  datatype EmptyConfig = EmptyConfig(kind: EmptyType, large: bool, title: string)

  /** The chart of one interface, in the "columns" form: one
      `[-received.y, sent.y]` pair per buffered sample. */
  datatype ChartData = ChartData(start: int, end: int, legend: seq<string>, name: string,
                                 step: int, columns: seq<(int, int)>)

  datatype NicInfo = NicInfo(ip: string, state: string, inRate: string, outRate: string,
                             lastSent: int, lastReceived: int,
                             sentBuffer: seq<DataPoint>, receivedBuffer: seq<DataPoint>,
                             chartData: Option<ChartData>, emptyConfig: EmptyConfig)

  /** One `tableService.updateStateInfoIcon(nicName, direction)` call. */
  datatype ArrowIcon = ArrowIcon(nicName: string, direction: string)

  // ---------------------------------------------------------------------
  // The rolling buffers
  // ---------------------------------------------------------------------

  /** A buffer after `push(p)` and, when it then holds more than
      `MaxBuffer` samples, `shift()`. */
  function Slide(buffer: seq<DataPoint>, p: DataPoint): seq<DataPoint> {
    var pushed := buffer + [p];
    if |pushed| > MaxBuffer then pushed[1..] else pushed
  }

  /** The newest `MaxBuffer` samples of a history. */
  function Window(history: seq<DataPoint>): (w: seq<DataPoint>)
    ensures |w| <= MaxBuffer
  {
    if |history| <= MaxBuffer then history else history[|history| - MaxBuffer..]
  }

  /** One slide: the new sample is last, the buffer never exceeds the cap,
      a buffer below the cap only grows, and a full one loses exactly its
      oldest sample. */
  lemma SlideIsBounded(buffer: seq<DataPoint>, p: DataPoint)
    requires |buffer| <= MaxBuffer
    ensures var r := Slide(buffer, p);
            && 1 <= |r| <= MaxBuffer && r[|r| - 1] == p
            && (|buffer| < MaxBuffer ==> r[..|r| - 1] == buffer)
            && (|buffer| == MaxBuffer ==> r[..|r| - 1] == buffer[1..])
  {
    var r := Slide(buffer, p);
    if |buffer| == MaxBuffer {
      assert r == buffer[1..] + [p];
    }
  }

  /** Sliding a window of a history over a new sample gives the window of
      the longer history: the buffer always holds exactly the newest
      `MaxBuffer` samples pushed. */
  lemma SlideIsWindow(history: seq<DataPoint>, p: DataPoint)
    ensures Slide(Window(history), p) == Window(history + [p])
  {
    var h := history + [p];
    if |history| >= MaxBuffer {
      assert Window(history) + [p] == h[|h| - MaxBuffer - 1..];
      assert h[|h| - MaxBuffer - 1..][1..] == h[|h| - MaxBuffer..];
    }
  }

  /** Starting from an empty buffer, the buffer after any run of updates is
      the window of everything pushed. */
  function SlideAll(buffer: seq<DataPoint>, points: seq<DataPoint>): seq<DataPoint>
    decreases |points|
  {
    if |points| == 0 then buffer else SlideAll(Slide(buffer, points[0]), points[1..])
  }

  lemma {:induction false} SlideAllIsWindow(history: seq<DataPoint>, points: seq<DataPoint>)
    ensures SlideAll(Window(history), points) == Window(history + points)
    decreases |points|
  {
    if |points| > 0 {
      SlideIsWindow(history, points[0]);
      SlideAllIsWindow(history + [points[0]], points[1..]);
      assert history + [points[0]] + points[1..] == history + points;
    } else {
      assert history + points == history;
    }
  }

  /** The two buffers of an interface: equally long, within the cap, and
      sampled at the same instants. */
  ghost predicate BuffersPaired(info: NicInfo) {
    && |info.sentBuffer| == |info.receivedBuffer| <= MaxBuffer
    && forall i :: 0 <= i < |info.sentBuffer| ==> info.sentBuffer[i].t == info.receivedBuffer[i].t
  }

  /** The chart `updateData` returns for the given buffers. */
  function ChartOf(nicName: string, sent: seq<DataPoint>, received: seq<DataPoint>): (c: ChartData)
    requires |sent| > 0 && |sent| == |received|
    ensures c.start == sent[0].t && c.end == sent[|sent| - 1].t
    ensures c.legend == [nicName + " (in)", nicName + " (out)"] && c.name == nicName
    ensures |c.columns| == |sent|
    ensures forall i :: 0 <= i < |sent| ==> c.columns[i] == (-received[i].y, sent[i].y)
  {
    ChartData(sent[0].t, sent[|sent| - 1].t, [nicName + " (in)", nicName + " (out)"], nicName, 10,
              seq(|sent|, i requires 0 <= i < |sent| => (-received[i].y, sent[i].y)))
  }

  // ---------------------------------------------------------------------
  // Layout and captions
  // ---------------------------------------------------------------------

  /** `getColspan`: the width, out of 12 grid columns, of the tile at
      `index` when `nicCount` interfaces are up. */
  function ColSpan(nicCount: nat, index: int): (span: int)
    ensures span > 0 && 12 % span == 0
  {
    if nicCount <= 3 then 6
    else if nicCount == 4 then 3
    else if nicCount == 5 then (if index < 2 then 3 else 2)
    else 2
  }

  /** The total width of the first `count` tiles. */
  function SpanSum(nicCount: nat, count: nat): int {
    if count == 0 then 0 else SpanSum(nicCount, count - 1) + ColSpan(nicCount, count - 1)
  }

  /** With four or five interfaces the tiles fill one 12-column row
      exactly; with up to two they fit in one row; from six on every tile is
      2 wide, so each run of six tiles fills a row. */
  lemma ColSpansFillRow(nicCount: nat)
    ensures nicCount == 4 || nicCount == 5 ==> SpanSum(nicCount, nicCount) == 12
    ensures nicCount <= 2 ==> SpanSum(nicCount, nicCount) <= 12
    ensures nicCount >= 6 ==> forall i :: ColSpan(nicCount, i) == 2
  {
    if nicCount == 4 {
      assert SpanSum(4, 4) == SpanSum(4, 3) + 3;
      assert SpanSum(4, 3) == SpanSum(4, 2) + 3;
      assert SpanSum(4, 2) == SpanSum(4, 1) + 3;
    } else if nicCount == 5 {
      assert SpanSum(5, 5) == SpanSum(5, 4) + 2;
      assert SpanSum(5, 4) == SpanSum(5, 3) + 2;
      assert SpanSum(5, 3) == SpanSum(5, 2) + 2;
      assert SpanSum(5, 2) == SpanSum(5, 1) + 3;
    } else if nicCount == 2 {
      assert SpanSum(2, 2) == SpanSum(2, 1) + 6;
    }
  }

  predicate IsInet(a: NicAlias) {
    a.aliasType == AliasInet || a.aliasType == AliasInet6
  }

  /** The INET and INET6 aliases, in order. */
  function InetAliases(aliases: seq<NicAlias>): seq<NicAlias> {
    FilterMap(aliases, IsInet, Id)
  }


  /** `getIpAddress`: the first INET/INET6 alias as `address/netmask`,
      followed by ` (+k)` when k more follow; a dash when there is none. */
  function IpAddress(aliases: Option<seq<NicAlias>>): (ip: string)
  {
    if aliases.None? then NoAddress
    else
      var addresses := InetAliases(aliases.value);
      if |addresses| == 0 then NoAddress
      else
        var first := addresses[0].address + "/" + IntToString(addresses[0].netmask);
        var more := if |addresses| >= 2 then " (+" + IntToString(|addresses| - 1) + ")" else "";
        first + more
  }

  /** The caption is the dash exactly when there is no INET/INET6 alias. */
  lemma {:induction false} IpAddressIsDashWithoutInet(aliases: Option<seq<NicAlias>>)
    ensures IpAddress(aliases) == NoAddress <==>
              aliases.None? || forall i :: 0 <= i < |aliases.value| ==> !IsInet(aliases.value[i])
  {
    if aliases.Some? {
      var s := aliases.value;
      var inet := KeptIndices(s, IsInet);
      FilterMapIsKeptImage(s, IsInet, Id);
      if |inet| == 0 {
        assert forall i :: 0 <= i < |s| ==> !IsInet(s[i]);
      } else {
        assert IsInet(s[inet[0]]);
        assert |IpAddress(aliases)| > 1;
      }
    }
  }

  /** Otherwise the caption starts with the first such alias as
      `address/netmask` and ends with the count of the others when there
      are any. */
  lemma IpAddressShowsFirstInet(aliases: seq<NicAlias>)
    requires exists i :: 0 <= i < |aliases| && IsInet(aliases[i])
    ensures
      var inet := KeptIndices(aliases, IsInet);
      var first := aliases[inet[0]];
      var head := first.address + "/" + IntToString(first.netmask);
      && |inet| >= 1
      && (forall i :: 0 <= i < inet[0] ==> !IsInet(aliases[i]))
      && (|inet| == 1 ==> IpAddress(Some(aliases)) == head)
      && (|inet| >= 2 ==> IpAddress(Some(aliases)) == head + (" (+" + IntToString(|inet| - 1) + ")"))
  {
    InetAliasesStartAtFirstInet(aliases);
    var addresses := InetAliases(aliases);
    assert addresses[0] == aliases[KeptIndices(aliases, IsInet)[0]];
  }

  /** The INET/INET6 aliases are as many as their positions, and the first
      is the first such alias of the list. */
  lemma InetAliasesStartAtFirstInet(aliases: seq<NicAlias>)
    requires exists i :: 0 <= i < |aliases| && IsInet(aliases[i])
    ensures var inet := KeptIndices(aliases, IsInet);
            && |InetAliases(aliases)| == |inet| >= 1
            && InetAliases(aliases)[0] == aliases[inet[0]]
            && forall i :: 0 <= i < inet[0] ==> !IsInet(aliases[i])
  {
    FilterMapIsKeptImage(aliases, IsInet, Id);
    KeptIndicesStartAtFirstKept(aliases, IsInet);
  }

  /** `getLinkState`: empty without aliases, otherwise the link state with
      every '_' turned into a space. */
  function LinkStateCaption(state: NicState): (caption: string)
    ensures state.aliases.None? ==> caption == ""
    ensures state.aliases.Some? ==>
              && |caption| == |state.linkState| && '_' !in caption
              && forall i :: 0 <= i < |caption| ==>
                   caption[i] == if state.linkState[i] == '_' then ' ' else state.linkState[i]
  {
    if state.aliases.None? then "" else ReplaceAll(state.linkState, '_', ' ')
  }

  // ---------------------------------------------------------------------
  // The traffic arrows
  // ---------------------------------------------------------------------

  /** The stored byte count after a sample, and whether the arrow lights:
      only growth of more than `MinSizeToActiveTrafficArrowIcon` bytes
      replaces the stored count, and then by the new count. */
  function ArrowThreshold(last: int, current: int): (r: (int, bool))
    ensures r.1 <==> current > last + MinSizeToActiveTrafficArrowIcon
    ensures r.0 == (if r.1 then current else last)
    ensures r.0 >= last
  {
    if current - last > MinSizeToActiveTrafficArrowIcon then (current, true) else (last, false)
  }

  /** The stored count after a run of samples, one event each. */
  function LastAfter(last: int, samples: seq<int>): int
    decreases |samples|
  {
    if |samples| == 0 then last else LastAfter(ArrowThreshold(last, samples[0]).0, samples[1..])
  }

  /** The stored count never decreases over a run of samples, and it ends
      equal to one of the samples or to where it started. */
  lemma {:induction false} LastAfterIsMonotone(last: int, samples: seq<int>)
    ensures LastAfter(last, samples) >= last
    ensures LastAfter(last, samples) == last || LastAfter(last, samples) in samples
    decreases |samples|
  {
    if |samples| > 0 {
      var next := ArrowThreshold(last, samples[0]).0;
      LastAfterIsMonotone(next, samples[1..]);
      if LastAfter(last, samples) != last && LastAfter(last, samples) != next {
        assert LastAfter(last, samples) in samples[1..];
      }
    }
  }

  /** The interface named by a `NetTraffic_<nic>` event, if the event is
      one. */
  function TrafficNicName(eventName: string): (nic: Option<string>)
    ensures nic.Some? <==> |eventName| >= |TrafficPrefix| && eventName[..|TrafficPrefix|] == TrafficPrefix
    ensures nic.Some? ==> eventName == TrafficPrefix + nic.value
  {
    if |eventName| >= |TrafficPrefix| && eventName[..|TrafficPrefix|] == TrafficPrefix
    then Some(eventName[|TrafficPrefix|..]) else None
  }

  /** A traffic event for a given interface is recognised as one for it. */
  lemma TrafficNicNameOfEvent(nic: string)
    ensures TrafficNicName(TrafficPrefix + nic) == Some(nic)
  {
    assert (TrafficPrefix + nic)[..|TrafficPrefix|] == TrafficPrefix;
  }

  /** The entry `updateMapInfo` writes for an interface. */
  function InitialInfo(nic: Nic): (info: NicInfo)
    ensures info.sentBuffer == [] && info.receivedBuffer == [] && info.chartData.None?
    ensures info.lastSent == 0 && info.lastReceived == 0
  {
    NicInfo(IpAddress(nic.state.aliases), LinkStateCaption(nic.state), "", "", 0, 0, [], [], None,
            EmptyConfig(Loading, false, "Loading"))
  }

  /** `nicInfoMap` after `updateMapInfo` has written an entry for each
      interface in turn (a later interface of the same name wins). */
  function MapInfo(m: map<string, NicInfo>, nics: seq<Nic>): (r: map<string, NicInfo>)
    ensures m.Keys <= r.Keys
    ensures forall i :: 0 <= i < |nics| ==> nics[i].state.name in r
  {
    if |nics| == 0 then m
    else
      var n := |nics| - 1;
      assert forall i :: 0 <= i < n ==> nics[..n][i] == nics[i];
      MapInfo(m, nics[..n])[nics[n].state.name := InitialInfo(nics[n])]
  }

  /** `updateMapInfo` adds a key for each interface shown and no other. */
  lemma {:induction false} MapInfoAddsOnlyShownNames(m: map<string, NicInfo>, nics: seq<Nic>)
    ensures forall k :: k in MapInfo(m, nics) <==>
              k in m || exists i :: 0 <= i < |nics| && nics[i].state.name == k
  {
    if |nics| > 0 {
      var n := |nics| - 1;
      var init := nics[..n];
      MapInfoAddsOnlyShownNames(m, init);
      assert MapInfo(m, nics).Keys == MapInfo(m, init).Keys + {nics[n].state.name};
      forall k | k in MapInfo(m, nics) && k !in m
        ensures exists i :: 0 <= i < |nics| && nics[i].state.name == k
      {
        if k != nics[n].state.name {
          var i :| 0 <= i < n && init[i].state.name == k;
          assert nics[i] == init[i];
        }
      }
      forall k | exists i :: 0 <= i < |nics| && nics[i].state.name == k
        ensures k in MapInfo(m, nics)
      {
        var i :| 0 <= i < |nics| && nics[i].state.name == k;
        if i < n {
          assert init[i] == nics[i];
        }
      }
    }
  }

  /** After `updateMapInfo`, an interface's entry is a fresh one built from
      the last interface of that name. */
  lemma {:induction false} MapInfoFreshEntry(m: map<string, NicInfo>, nics: seq<Nic>, j: int)
    requires 0 <= j < |nics| && LastOfName(nics, j)
    ensures MapInfo(m, nics)[nics[j].state.name] == InitialInfo(nics[j])
  {
    var n := |nics| - 1;
    var init := nics[..n];
    var entry := InitialInfo(nics[n]);
    assert MapInfo(m, nics) == MapInfo(m, init)[nics[n].state.name := entry];
    if j < n {
      assert nics[n].state.name != nics[j].state.name;
      assert init[j] == nics[j];
      assert LastOfName(init, j) by {
        forall l | j < l < n ensures init[l].state.name != init[j].state.name {
          assert init[l] == nics[l];
        }
      }
      MapInfoFreshEntry(m, init, j);
    }
  }

  /** `updateMapInfo` leaves the entry of every name it does not write as
      it was. */
  lemma {:induction false} MapInfoKeepsOthers(m: map<string, NicInfo>, nics: seq<Nic>, k: string)
    requires k in m && forall i :: 0 <= i < |nics| ==> nics[i].state.name != k
    ensures MapInfo(m, nics)[k] == m[k]
  {
    if |nics| > 0 {
      var n := |nics| - 1;
      var init := nics[..n];
      assert nics[n].state.name != k;
      assert forall i :: 0 <= i < n ==> init[i].state.name != k by {
        forall i | 0 <= i < n ensures init[i].state.name != k {
          assert init[i] == nics[i];
        }
      }
      MapInfoKeepsOthers(m, init, k);
    }
  }

  /** No later interface in `nics` has the name of the one at `j`. */
  ghost predicate LastOfName(nics: seq<Nic>, j: int)
    requires 0 <= j < |nics|
  {
    forall l :: j < l < |nics| ==> nics[l].state.name != nics[j].state.name
  }

  predicate IsUp(nic: Nic) {
    nic.state.linkState == LinkStateUp
  }


  /** The interfaces the widget shows: those whose link is up. */
  function UpNics(nics: seq<Nic>): seq<Nic> {
    FilterMap(nics, IsUp, Id)
  }

  /** The interfaces shown are, in their original order, exactly those
      whose link state is up. */
  lemma UpNicsAreTheUpOnes(nics: seq<Nic>)
    ensures var idx := KeptIndices(nics, IsUp);
            && |UpNics(nics)| == |idx|
            && (forall i :: 0 <= i < |nics| ==> (i in idx <==> nics[i].state.linkState == LinkStateUp))
            && (forall k, l :: 0 <= k < l < |idx| ==> idx[k] < idx[l])
            && (forall k :: 0 <= k < |idx| ==> UpNics(nics)[k] == nics[idx[k]])
  {
    FilterMapIsKeptImage(nics, IsUp, Id);
  }

  /** The widget's state: the interfaces shown and one entry per interface. */
  class NetworkWidget {
    var availableNics: seq<Nic>
    var nicInfoMap: map<string, NicInfo>

    ghost predicate Valid()
      reads this
    {
      forall name :: name in nicInfoMap ==> BuffersPaired(nicInfoMap[name])
    }

    constructor ()
      ensures Valid() && availableNics == [] && nicInfoMap == map[]
    {
      availableNics := [];
      nicInfoMap := map[];
    }

    /** `updateData`: pushes one sent sample (y = -sent bytes) and one
        received sample (y = received bytes) stamped `timestamp`, prunes each
        buffer back to the cap, and returns the chart of the buffers. */
    method UpdateData(nicName: string, stats: TrafficStats, timestamp: int) returns (chart: ChartData)
      requires Valid() && nicName in nicInfoMap
      modifies this`nicInfoMap
      ensures Valid()
      ensures var old_ := old(nicInfoMap[nicName]);
              var sent := Slide(old_.sentBuffer, DataPoint(timestamp, -stats.sentBytes));
              var received := Slide(old_.receivedBuffer, DataPoint(timestamp, stats.receivedBytes));
              && nicInfoMap == old(nicInfoMap)[nicName := old_.(sentBuffer := sent, receivedBuffer := received)]
              && |sent| == |received|
              && chart == ChartOf(nicName, sent, received)
      ensures chart.end == timestamp
      ensures chart.columns[|chart.columns| - 1] == (-stats.receivedBytes, -stats.sentBytes)
    {
      var info := nicInfoMap[nicName];
      var sent := info.sentBuffer + [DataPoint(timestamp, -stats.sentBytes)];
      var received := info.receivedBuffer + [DataPoint(timestamp, stats.receivedBytes)];
      if |sent| > MaxBuffer {
        sent := sent[1..];
      }
      if |received| > MaxBuffer {
        received := received[1..];
      }
      nicInfoMap := nicInfoMap[nicName := info.(sentBuffer := sent, receivedBuffer := received)];
      assert sent[|sent| - 1] == DataPoint(timestamp, -stats.sentBytes);
      assert received[|received| - 1] == DataPoint(timestamp, stats.receivedBytes);
      chart :=ChartData(sent[0].t, sent[|sent| - 1].t, [nicName + " (in)", nicName + " (out)"], nicName, 10,
                         seq(|sent|, i requires 0 <= i < |sent| => (-received[i].y, sent[i].y)));
    }

    /** The handler of the statistics stream: for a `NetTraffic_<nic>` event
        of a known interface, update its buffers and chart, its rate
        captions, and each stored byte count that grew past the threshold,
        returning the arrows to light. Anything else changes nothing. */
    method OnStatsEvent(eventName: string, stats: TrafficStats, timestamp: int,
                        sentRate: Converted, receivedRate: Converted)
      returns (icons: seq<ArrowIcon>)
      requires Valid()
      modifies this`nicInfoMap
      ensures Valid()
      ensures nicInfoMap.Keys == old(nicInfoMap.Keys)
      ensures TrafficNicName(eventName).None? || TrafficNicName(eventName).value !in old(nicInfoMap) ==>
                nicInfoMap == old(nicInfoMap) && icons == []
      ensures TrafficNicName(eventName).Some? && TrafficNicName(eventName).value in old(nicInfoMap) ==>
                var nic := TrafficNicName(eventName).value;
                var before := old(nicInfoMap[nic]);
                var after := nicInfoMap[nic];
                var sent := ArrowThreshold(before.lastSent, stats.sentBytes);
                var received := ArrowThreshold(before.lastReceived, stats.receivedBytes);
                && (forall k :: k in nicInfoMap && k != nic ==> nicInfoMap[k] == old(nicInfoMap[k]))
                && after.sentBuffer == Slide(before.sentBuffer, DataPoint(timestamp, -stats.sentBytes))
                && after.receivedBuffer == Slide(before.receivedBuffer, DataPoint(timestamp, stats.receivedBytes))
                && after.chartData == Some(ChartOf(nic, after.sentBuffer, after.receivedBuffer))
                && after.inRate == receivedRate.value + " " + receivedRate.units + "/s"
                && after.outRate == sentRate.value + " " + sentRate.units + "/s"
                && after.lastSent == sent.0 && after.lastReceived == received.0
                && after.(sentBuffer := before.sentBuffer, receivedBuffer := before.receivedBuffer,
                          chartData := before.chartData, inRate := before.inRate, outRate := before.outRate,
                          lastSent := before.lastSent, lastReceived := before.lastReceived) == before
                && icons == (if sent.1 then [ArrowIcon(nic, "sent")] else [])
                            + (if received.1 then [ArrowIcon(nic, "received")] else [])
    {
      icons := [];
      if |eventName| >= |TrafficPrefix| && eventName[..|TrafficPrefix|] == TrafficPrefix {
        var nicName := eventName[|TrafficPrefix|..];
        if nicName in nicInfoMap {
          ghost var before := nicInfoMap[nicName];
          var chart := UpdateData(nicName, stats, timestamp);
          assert nicInfoMap[nicName]
                 == before.(sentBuffer := Slide(before.sentBuffer, DataPoint(timestamp, -stats.sentBytes)),
                            receivedBuffer := Slide(before.receivedBuffer, DataPoint(timestamp, stats.receivedBytes)));
          var nicInfo := nicInfoMap[nicName].(chartData := Some(chart));
          nicInfo := nicInfo.(inRate := receivedRate.value + " " + receivedRate.units + "/s",
                              outRate := sentRate.value + " " + sentRate.units + "/s");
          if stats.sentBytes - nicInfo.lastSent > MinSizeToActiveTrafficArrowIcon {
            nicInfo := nicInfo.(lastSent := stats.sentBytes);
            icons := icons + [ArrowIcon(nicName, "sent")];
          }
          if stats.receivedBytes - nicInfo.lastReceived > MinSizeToActiveTrafficArrowIcon {
            nicInfo := nicInfo.(lastReceived := stats.receivedBytes);
            icons := icons + [ArrowIcon(nicName, "received")];
          }
          nicInfoMap := nicInfoMap[nicName := nicInfo];
        }
      }
    }

    /** `updateMapInfo`: a fresh entry for every interface shown. */
    method UpdateMapInfo()
      requires Valid()
      modifies this`nicInfoMap
      ensures Valid()
      ensures nicInfoMap == MapInfo(old(nicInfoMap), availableNics)
    {
      for i := 0 to |availableNics|
        invariant Valid()
        invariant nicInfoMap == MapInfo(old(nicInfoMap), availableNics[..i])
      {
        assert availableNics[..i + 1][..i] == availableNics[..i];
        var nic := availableNics[i];
        nicInfoMap := nicInfoMap[nic.state.name := InitialInfo(nic)];
      }
      assert availableNics[..|availableNics|] == availableNics;
    }

    /** The start of `ngAfterViewInit`: keep the interfaces whose link is
        up, then build their entries. */
    method AfterViewInit(nics: seq<Nic>)
      requires Valid()
      modifies this
      ensures Valid()
      ensures availableNics == UpNics(nics)
      ensures nicInfoMap == MapInfo(old(nicInfoMap), UpNics(nics))
    {
      availableNics := UpNics(nics);
      UpdateMapInfo();
    }
  }
}
