/** `StatsManager`: the counters, indexes, rings and detectors one goroutine owns, and the snapshots it publishes. */
module Stats {
  import opened Packets
  import opened Ring
  import opened Sorting
  import opened StatsModel
  import A = Anomaly
  import B = Baseline

  class TalkerStat {
    const ip: string
    var bytesSent: nat
    var bytesRecv: nat
    var packetsSent: nat
    var packetsRecv: nat
    var lastSeen: Time

    function Value(): Talker
      reads this
    {
      Talker(bytesSent, bytesRecv, packetsSent, packetsRecv, lastSeen)
    }

    constructor (ip: string)
      ensures this.ip == ip && Value() == NO_TALKER
    {
      this.ip := ip;
      bytesSent, bytesRecv, packetsSent, packetsRecv, lastSeen := 0, 0, 0, 0, 0;
    }

    method Send(length: nat, now: Time)
      modifies this
      ensures var t := old(Value());
              Value() == t.(packetsSent := t.packetsSent + 1, bytesSent := t.bytesSent + length, lastSeen := now)
    {
      packetsSent := packetsSent + 1;
      bytesSent := bytesSent + length;
      lastSeen := now;
    }

    method Receive(length: nat, now: Time)
      modifies this
      ensures var t := old(Value());
              Value() == t.(packetsRecv := t.packetsRecv + 1, bytesRecv := t.bytesRecv + length, lastSeen := now)
    {
      packetsRecv := packetsRecv + 1;
      bytesRecv := bytesRecv + length;
      lastSeen := now;
    }
  }

  class FlowStat {
    const key: FlowKey
    var bytesSent: nat
    var packetsSent: nat
    var lastSeen: Time

    function Value(): Flow
      reads this
    {
      Flow(bytesSent, packetsSent, lastSeen)
    }

    constructor (key: FlowKey)
      ensures this.key == key && Value() == NO_FLOW
    {
      this.key := key;
      bytesSent, packetsSent, lastSeen := 0, 0, 0;
    }

    method Send(length: nat, now: Time)
      modifies this
      ensures Value() == Flow(old(bytesSent) + length, old(packetsSent) + 1, now)
    {
      packetsSent := packetsSent + 1;
      bytesSent := bytesSent + length;
      lastSeen := now;
    }
  }

  datatype TalkerRow = TalkerRow(ip: string, stat: Talker)
  datatype FlowRow = FlowRow(key: FlowKey, stat: Flow)

  function TotalBytes(r: TalkerRow): nat {
    r.stat.bytesSent + r.stat.bytesRecv
  }

  /** `sort.Slice` by descending total. */
  function Rank(r: TalkerRow): int {
    -(TotalBytes(r) as int)
  }

  /** What a snapshot holds. */
  datatype Summary = Summary(
    timestamp: Time,
    totalPackets: nat,
    totalBytes: nat,
    droppedPackets: nat,
    protocolCounts: map<string, nat>,
    topTalkers: seq<TalkerRow>,
    flows: seq<FlowRow>,
    throughputHistory: seq<nat>,
    recentPackets: seq<PacketInfo>,
    anomalies: seq<Event>)

  const NO_SUMMARY := Summary(0, 0, 0, 0, map[], [], [], [], [], [])

  /** The rows list every talker once, largest total first. */
  ghost predicate RanksTalkers(rows: seq<TalkerRow>, m: map<string, Talker>) {
    && |rows| == |m|
    && (forall r | r in rows :: r.ip in m && r.stat == m[r.ip])
    && (forall ip | ip in m :: TalkerRow(ip, m[ip]) in rows)
    && (forall i, j | 0 <= i < j < |rows| ::
          rows[i].stat.bytesSent + rows[i].stat.bytesRecv >= rows[j].stat.bytesSent + rows[j].stat.bytesRecv)
  }

  ghost predicate ListsFlows(rows: seq<FlowRow>, m: map<FlowKey, Flow>) {
    && |rows| == |m|
    && (forall r | r in rows :: r.key in m && r.stat == m[r.key])
    && (forall k | k in m :: FlowRow(k, m[k]) in rows)
  }

  /** The snapshot shows exactly this state, as of `now`. */
  ghost predicate Shows(snap: Summary, s: StatsModel.Stats, dropped: nat, now: Time) {
    && snap.timestamp == now && snap.droppedPackets == dropped
    && snap.totalPackets == s.totalPackets && snap.totalBytes == s.totalBytes
    && snap.protocolCounts == s.protocolCounts
    && RanksTalkers(snap.topTalkers, s.talkers) && ListsFlows(snap.flows, s.flows)
    && snap.throughputHistory == s.throughput && snap.recentPackets == s.recent && snap.anomalies == s.anomalies
  }

  /** The `ProtocolCounts` map. */
  class CountTable {
    var counts: map<string, nat>

    constructor ()
      ensures counts == map[]
    {
      counts := map[];
    }

    method Increment(p: PacketInfo)
      modifies this
      ensures counts == Counted(old(counts), p)
    {
      counts := counts[p.protocol := (if p.protocol in counts then counts[p.protocol] else 0) + 1];
    }

    /** Entry by entry, into a table of its own. */
    method Copy() returns (copy: CountTable)
      ensures fresh(copy) && copy.counts == counts
    {
      copy := new CountTable();
      var todo := counts.Keys;
      while todo != {}
        invariant todo <= counts.Keys && fresh(copy)
        invariant copy.counts.Keys == counts.Keys - todo
        invariant forall k | k in copy.counts :: copy.counts[k] == counts[k]
        decreases |todo|
      {
        var k :| k in todo;
        copy.counts := copy.counts[k := counts[k]];
        todo := todo - {k};
      }
      assert copy.counts == counts;
    }
  }

  /** A published snapshot: a table and five arrays of its own. */
  class Snapshot {
    const timestamp: Time
    const totalPackets: nat
    const totalBytes: nat
    const droppedPackets: nat
    const protocolCounts: CountTable
    const topTalkers: array<TalkerRow>
    const flows: array<FlowRow>
    const throughputHistory: array<nat>
    const recentPackets: array<PacketInfo>
    const anomalies: array<Event>

    /** None of its memory is in `others`. */
    ghost predicate Apart(others: set<object>) {
      && this !in others && protocolCounts !in others && topTalkers !in others && flows !in others
      && throughputHistory !in others && recentPackets !in others && anomalies !in others
    }

    ghost function Value(): Summary
      reads protocolCounts, topTalkers, flows, throughputHistory, recentPackets, anomalies
    {
      Summary(timestamp, totalPackets, totalBytes, droppedPackets, protocolCounts.counts, topTalkers[..], flows[..],
              throughputHistory[..], recentPackets[..], anomalies[..])
    }

    constructor (timestamp: Time, totalPackets: nat, totalBytes: nat, droppedPackets: nat, protocolCounts: CountTable,
                 topTalkers: array<TalkerRow>, flows: array<FlowRow>, throughputHistory: array<nat>,
                 recentPackets: array<PacketInfo>, anomalies: array<Event>)
      ensures this.protocolCounts == protocolCounts && this.topTalkers == topTalkers && this.flows == flows
      ensures this.throughputHistory == throughputHistory && this.recentPackets == recentPackets
              && this.anomalies == anomalies
      ensures Value() == Summary(timestamp, totalPackets, totalBytes, droppedPackets, protocolCounts.counts,
                                 topTalkers[..], flows[..], throughputHistory[..], recentPackets[..], anomalies[..])
    {
      this.timestamp, this.totalPackets, this.totalBytes := timestamp, totalPackets, totalBytes;
      this.droppedPackets, this.protocolCounts, this.topTalkers := droppedPackets, protocolCounts, topTalkers;
      this.flows, this.throughputHistory, this.recentPackets := flows, throughputHistory, recentPackets;
      this.anomalies := anomalies;
    }
  }

  /** All memory of the snapshot is new. */
  twostate predicate InNewMemory(new snap: Snapshot) {
    && fresh(snap) && fresh(snap.protocolCounts) && fresh(snap.topTalkers) && fresh(snap.flows)
    && fresh(snap.throughputHistory) && fresh(snap.recentPackets) && fresh(snap.anomalies)
  }

  /** The `TopTalkers` map of pointers to records. */
  class TalkerTable {
    var stats: map<string, TalkerStat>
    ghost var view: map<string, Talker>
    ghost var repr: set<object>

    /** `view` is what the records hold; each sits under its own address, so no two addresses share one. */
    ghost predicate Valid()
      reads this, repr
    {
      && this in repr && stats.Keys == view.Keys
      && forall ip | ip in stats :: stats[ip] in repr && stats[ip].ip == ip && stats[ip].Value() == view[ip]
    }

    constructor ()
      ensures Valid() && fresh(repr) && view == map[]
    {
      stats, view := map[], map[];
      repr := {this};
    }

    /** The talker's record, created at zero when it is new. */
    method Find(ip: string) returns (stat: TalkerStat)
      requires Valid()
      modifies this
      ensures Valid() && fresh(repr - old(repr))
      ensures ip in stats && stats[ip] == stat && stat in repr
      ensures view == old(view)[ip := TalkerAt(old(view), ip)]
    {
      if ip in stats {
        stat := stats[ip];
        assert view == view[ip := TalkerAt(view, ip)];
      } else {
        stat := new TalkerStat(ip);
        stats := stats[ip := stat];
        view := view[ip := NO_TALKER];
        repr := repr + {stat};
      }
    }

    /** Both directions of a packet; a packet from a host to itself updates one record twice. */
    method Credit(p: PacketInfo)
      requires Valid()
      modifies repr
      ensures Valid() && fresh(repr - old(repr))
      ensures view == Received(Sent(old(view), p), p)
    {
      if p.srcIP.Some? {
        CreditSender(p);
      }
      if p.dstIP.Some? {
        CreditReceiver(p);
      }
    }

    method CreditSender(p: PacketInfo)
      requires Valid() && p.srcIP.Some?
      modifies repr
      ensures Valid() && fresh(repr - old(repr))
      ensures view == Sent(old(view), p)
    {
      var srcIP := p.srcIP.value;
      var srcStat := Find(srcIP);
      srcStat.Send(p.length, p.timestamp);
      view := view[srcIP := srcStat.Value()];
    }

    method CreditReceiver(p: PacketInfo)
      requires Valid() && p.dstIP.Some?
      modifies repr
      ensures Valid() && fresh(repr - old(repr))
      ensures view == Received(old(view), p)
    {
      var dstIP := p.dstIP.value;
      var dstStat := Find(dstIP);
      dstStat.Receive(p.length, p.timestamp);
      view := view[dstIP := dstStat.Value()];
    }

    /** Copies of the records, in the order the iteration visits them. */
    method Rows() returns (rows: seq<TalkerRow>)
      requires Valid()
      ensures ListsRows(rows, view, view.Keys)
    {
      rows := [];
      var todo := stats.Keys;
      while todo != {}
        invariant todo <= stats.Keys
        invariant ListsRows(rows, view, stats.Keys - todo)
        decreases |todo|
      {
        var ip :| ip in todo;
        rows := rows + [TalkerRow(ip, stats[ip].Value())];
        ghost var done := stats.Keys - todo;
        todo := todo - {ip};
        assert stats.Keys - todo == done + {ip};
      }
    }
  }

  method ToArray<T>(items: seq<T>) returns (a: array<T>)
    ensures fresh(a) && a[..] == items
  {
    a := new T[|items|](i requires 0 <= i < |items| => items[i]);
    assert a[..] == items;
  }

  /** An array of the rows, largest total first. */
  method SortTalkers(rows: seq<TalkerRow>, ghost m: map<string, Talker>) returns (ranked: array<TalkerRow>)
    requires ListsRows(rows, m, m.Keys)
    ensures fresh(ranked) && RanksTalkers(ranked[..], m)
  {
    ranked := ToArray(rows);
    SortSlice(ranked, Rank);
    SameRows(rows, ranked[..], m);
  }

  /** The rows are those of the addresses in `done`, each once. */
  ghost predicate ListsRows(rows: seq<TalkerRow>, m: map<string, Talker>, done: set<string>) {
    && done <= m.Keys
    && |rows| == |done|
    && (forall r | r in rows :: r.ip in done && r.stat == m[r.ip])
    && (forall ip | ip in done :: TalkerRow(ip, m[ip]) in rows)
  }

  lemma SameRows(rows: seq<TalkerRow>, sorted: seq<TalkerRow>, m: map<string, Talker>)
    requires ListsRows(rows, m, m.Keys) && multiset(sorted) == multiset(rows)
    requires forall i, j | 0 <= i < j < |sorted| :: Rank(sorted[i]) <= Rank(sorted[j])
    ensures RanksTalkers(sorted, m)
  {
    assert |sorted| == |multiset(sorted)| == |multiset(rows)| == |rows|;
    assert forall r :: r in sorted <==> r in multiset(sorted);
    assert forall r :: r in rows <==> r in multiset(rows);
  }

  /** The `Flows` map of pointers to records. */
  class FlowTable {
    var stats: map<FlowKey, FlowStat>
    ghost var view: map<FlowKey, Flow>
    ghost var repr: set<object>

    ghost predicate Valid()
      reads this, repr
    {
      && this in repr && stats.Keys == view.Keys
      && forall k | k in stats :: stats[k] in repr && stats[k].key == k && stats[k].Value() == view[k]
    }

    constructor ()
      ensures Valid() && fresh(repr) && view == map[]
    {
      stats, view := map[], map[];
      repr := {this};
    }

    method Carry(p: PacketInfo) returns (current: Option<(FlowKey, nat)>)
      requires Valid()
      modifies repr
      ensures Valid() && fresh(repr - old(repr))
      ensures view == Carried(old(view), p) && current == Shown(view, p)
    {
      current := None;
      if p.srcIP.Some? && p.dstIP.Some? {
        var fk := FlowKey(p.srcIP.value, p.dstIP.value, p.srcPort, p.dstPort, p.protocol);
        var flow;
        if fk in stats {
          flow := stats[fk];
        } else {
          flow := new FlowStat(fk);
          stats := stats[fk := flow];
          repr := repr + {flow};
        }
        flow.Send(p.length, p.timestamp);
        view := view[fk := flow.Value()];
        current := Some((fk, flow.bytesSent));
      }
    }

    /** Copies of the records. */
    method Rows() returns (rows: seq<FlowRow>)
      requires Valid()
      ensures ListsFlows(rows, view)
    {
      rows := [];
      var todo := stats.Keys;
      while todo != {}
        invariant todo <= stats.Keys
        invariant ListsFlowRows(rows, view, stats.Keys - todo)
        decreases |todo|
      {
        var k :| k in todo;
        rows := rows + [FlowRow(k, stats[k].Value())];
        ghost var done := stats.Keys - todo;
        todo := todo - {k};
        assert stats.Keys - todo == done + {k};
      }
    }
  }

  ghost predicate ListsFlowRows(rows: seq<FlowRow>, m: map<FlowKey, Flow>, done: set<FlowKey>) {
    && done <= m.Keys
    && |rows| == |done|
    && (forall r | r in rows :: r.key in done && r.stat == m[r.key])
    && (forall k | k in done :: FlowRow(k, m[k]) in rows)
  }

  /** The counters and the talker, flow and protocol indexes. */
  class Indexes {
    var totalPackets: nat
    var totalBytes: nat
    var currentSecBytes: nat
    const protocolCounts: CountTable
    const topTalkers: TalkerTable
    const flows: FlowTable
    ghost var repr: set<object>

    ghost predicate Valid()
      reads this, repr
    {
      && this in repr && protocolCounts in repr && topTalkers in repr && flows in repr
      && topTalkers.repr <= repr && flows.repr <= repr
      && {this} !! {protocolCounts} !! topTalkers.repr !! flows.repr
      && topTalkers.Valid() && flows.Valid()
    }

    constructor ()
      ensures Valid() && fresh(repr)
      ensures totalPackets == totalBytes == currentSecBytes == 0 && protocolCounts.counts == map[]
      ensures topTalkers.view == map[] && flows.view == map[]
    {
      totalPackets, totalBytes, currentSecBytes := 0, 0, 0;
      protocolCounts := new CountTable();
      topTalkers := new TalkerTable();
      flows := new FlowTable();
      new;
      repr := {this, protocolCounts} + topTalkers.repr + flows.repr;
    }

    method Update(p: PacketInfo) returns (currentFlow: Option<(FlowKey, nat)>)
      requires Valid()
      modifies repr
      ensures Valid() && fresh(repr - old(repr))
      ensures totalPackets == old(totalPackets) + 1 && totalBytes == old(totalBytes) + p.length
      ensures currentSecBytes == old(currentSecBytes) + p.length
      ensures protocolCounts.counts == Counted(old(protocolCounts.counts), p)
      ensures topTalkers.view == Received(Sent(old(topTalkers.view), p), p)
      ensures flows.view == Carried(old(flows.view), p) && currentFlow == Shown(flows.view, p)
    {
      CountPacket(p);
      CreditTalkers(p);
      currentFlow := CarryFlow(p);
    }

    method CreditTalkers(p: PacketInfo)
      requires Valid()
      modifies this`repr, topTalkers.repr
      ensures Valid() && fresh(repr - old(repr)) && flows.repr == old(flows.repr)
      ensures topTalkers.view == Received(Sent(old(topTalkers.view), p), p) && flows.view == old(flows.view)
    {
      topTalkers.Credit(p);
      repr := repr + topTalkers.repr;
    }

    method CarryFlow(p: PacketInfo) returns (currentFlow: Option<(FlowKey, nat)>)
      requires Valid()
      modifies this`repr, flows.repr
      ensures Valid() && fresh(repr - old(repr)) && topTalkers.view == old(topTalkers.view)
      ensures flows.view == Carried(old(flows.view), p) && currentFlow == Shown(flows.view, p)
    {
      currentFlow := flows.Carry(p);
      repr := repr + flows.repr;
    }

    method CountPacket(p: PacketInfo)
      requires Valid()
      modifies this, protocolCounts
      ensures Valid() && repr == old(repr)
      ensures totalPackets == old(totalPackets) + 1 && totalBytes == old(totalBytes) + p.length
      ensures currentSecBytes == old(currentSecBytes) + p.length
      ensures protocolCounts.counts == Counted(old(protocolCounts.counts), p)
      ensures topTalkers.view == old(topTalkers.view) && flows.view == old(flows.view)
    {
      totalPackets := totalPackets + 1;
      totalBytes := totalBytes + p.length;
      currentSecBytes := currentSecBytes + p.length;
      protocolCounts.Increment(p);
    }

    /** Copies of the tables, in memory of their own. */
    method Copies() returns (counts: CountTable, talkers: array<TalkerRow>, flowRows: array<FlowRow>)
      requires Valid()
      ensures fresh(counts) && fresh(talkers) && fresh(flowRows)
      ensures counts.counts == protocolCounts.counts
      ensures RanksTalkers(talkers[..], topTalkers.view) && ListsFlows(flowRows[..], flows.view)
    {
      counts := protocolCounts.Copy();
      var rows := topTalkers.Rows();
      talkers := SortTalkers(rows, topTalkers.view);
      var carried := flows.Rows();
      flowRows := ToArray(carried);
    }

    /** The bytes of the second just finished; the next one starts at zero. */
    method Roll() returns (bytes: nat)
      requires Valid()
      modifies this`currentSecBytes
      ensures Valid() && bytes == old(currentSecBytes) && currentSecBytes == 0
    {
      bytes := currentSecBytes;
      currentSecBytes := 0;
    }
  }

  /** The three rings; the ghost fields are what they contain. */
  class Rings {
    const throughputRing: RingBuffer<nat>
    const recentRing: RingBuffer<PacketInfo>
    const anomaliesRing: RingBuffer<Event>
    ghost var throughput: seq<nat>
    ghost var recent: seq<PacketInfo>
    ghost var anomalies: seq<Event>
    ghost const repr: set<object>

    ghost predicate Valid()
      reads this, repr
    {
      && repr == {this, throughputRing, throughputRing.data, recentRing, recentRing.data, anomaliesRing,
                  anomaliesRing.data}
      && {throughputRing, throughputRing.data as object}
         !! {recentRing, recentRing.data as object} !! {anomaliesRing, anomaliesRing.data as object}
      && throughputRing.Valid() && throughput == throughputRing.Contents()
      && recentRing.Valid() && recent == recentRing.Contents()
      && anomaliesRing.Valid() && anomalies == anomaliesRing.Contents()
    }

    constructor (throughputCap: nat, recentCap: nat, anomaliesCap: nat)
      ensures Valid() && fresh(repr) && throughput == [] && recent == [] && anomalies == []
      ensures throughputRing.capacity == throughputCap && recentRing.capacity == recentCap
              && anomaliesRing.capacity == anomaliesCap
    {
      var t := new RingBuffer<nat>(throughputCap);
      var r := new RingBuffer<PacketInfo>(recentCap);
      var a := new RingBuffer<Event>(anomaliesCap);
      throughputRing, recentRing, anomaliesRing := t, r, a;
      throughput, recent, anomalies := [], [], [];
      repr := {this, t, t.data, r, r.data, a, a.data};
    }

    method PushSecond(bytes: nat)
      requires Valid()
      modifies repr
      ensures Valid() && throughput == Last(old(throughput) + [bytes], throughputRing.capacity)
      ensures recent == old(recent) && anomalies == old(anomalies)
    {
      throughputRing.Push(bytes);
      throughput := throughputRing.Contents();
    }

    method PushPacket(p: PacketInfo)
      requires Valid()
      modifies repr
      ensures Valid() && recent == Last(old(recent) + [p], recentRing.capacity)
      ensures throughput == old(throughput) && anomalies == old(anomalies)
    {
      recentRing.Push(p);
      recent := recentRing.Contents();
    }

    method PushAnomaly(e: Event)
      requires Valid()
      modifies repr
      ensures Valid() && anomalies == Last(old(anomalies) + [e], anomaliesRing.capacity)
      ensures throughput == old(throughput) && recent == old(recent)
    {
      anomaliesRing.Push(e);
      anomalies := anomaliesRing.Contents();
    }

    method AddAnomalies(events: seq<Event>)
      requires Valid()
      modifies repr
      ensures Valid() && anomalies == Last(old(anomalies) + events, anomaliesRing.capacity)
      ensures throughput == old(throughput) && recent == old(recent)
    {
      ghost var was := anomalies;
      assert was + [] == was;
      for i := 0 to |events|
        invariant Valid() && anomalies == Last(was + events[..i], anomaliesRing.capacity)
        invariant throughput == old(throughput) && recent == old(recent)
      {
        LastOfNext(was, events, i, anomaliesRing.capacity);
        PushAnomaly(events[i]);
      }
      assert events[..|events|] == events;
    }

    method Slices() returns (t: array<nat>, r: array<PacketInfo>, a: array<Event>)
      requires Valid()
      ensures fresh(t) && fresh(r) && fresh(a)
      ensures t[..] == throughput && r[..] == recent && a[..] == anomalies
    {
      t := throughputRing.Slice();
      r := recentRing.Slice();
      a := anomaliesRing.Slice();
    }
  }

  class StatsManager {
    const cfg: Config
    const indexes: Indexes
    const rings: Rings
    const detector: A.Detector
    const baselineMgr: B.Manager
    var published: Snapshot?

    ghost predicate Sound()
      reads indexes, indexes.repr, rings, rings.repr, detector, detector.repr, baselineMgr, baselineMgr.repr
    {
      && {this} !! detector.repr !! indexes.repr !! rings.repr !! baselineMgr.repr
      && indexes.Valid() && rings.Valid() && detector.Valid() && baselineMgr.Valid()
      && rings.throughputRing.capacity == cfg.throughputCap && rings.recentRing.capacity == cfg.recentCap
      && rings.anomaliesRing.capacity == cfg.anomaliesCap
      && detector.config == cfg.anomaly && baselineMgr.config == cfg.baseline && baselineMgr.startTime == cfg.startTime
    }

    /** The published snapshot shares no memory with the state. */
    ghost predicate Valid()
      reads this, indexes, indexes.repr, rings, rings.repr, detector, detector.repr, baselineMgr, baselineMgr.repr
    {
      Sound() && (published != null ==> published.Apart(Repr()))
    }

    /** The abstract state. */
    ghost function Model(): StatsModel.Stats
      reads indexes, indexes.protocolCounts, indexes.topTalkers, indexes.flows, rings, detector, baselineMgr
    {
      StatsModel.Stats(indexes.totalPackets, indexes.totalBytes, indexes.currentSecBytes, indexes.protocolCounts.counts,
        indexes.topTalkers.view, indexes.flows.view,
        rings.throughput, rings.recent, rings.anomalies, detector.Model(), baselineMgr.view)
    }

    ghost function Repr(): set<object>
      reads indexes, detector, baselineMgr
    {
      {this} + indexes.repr + rings.repr + detector.repr + baselineMgr.repr
    }

    constructor (cfg: Config, indexes: Indexes, rings: Rings, detector: A.Detector, baselineMgr: B.Manager)
      requires detector.repr !! indexes.repr !! rings.repr !! baselineMgr.repr
      requires indexes.Valid() && rings.Valid() && detector.Valid() && baselineMgr.Valid()
      requires rings.throughputRing.capacity == cfg.throughputCap && rings.recentRing.capacity == cfg.recentCap
      requires rings.anomaliesRing.capacity == cfg.anomaliesCap
      requires detector.config == cfg.anomaly && baselineMgr.config == cfg.baseline
               && baselineMgr.startTime == cfg.startTime
      ensures Valid() && Repr() == {this} + indexes.repr + rings.repr + detector.repr + baselineMgr.repr
      ensures this.cfg == cfg && this.indexes == indexes && this.rings == rings && this.detector == detector
      ensures this.baselineMgr == baselineMgr && published == null
    {
      this.cfg, this.indexes, this.rings, this.detector, this.baselineMgr := cfg, indexes, rings, detector, baselineMgr;
      published := null;
    }

    /** No snapshot's memory is touched, in particular not that of the published one. */
    method AddPacket(p: PacketInfo)
      requires Valid()
      modifies Repr()
      ensures Valid() && fresh(Repr() - old(Repr()))
      ensures Model() == StatsModel.AddPacket(cfg, old(Model()), p).0
      ensures published == old(published) && (published != null ==> published.Value() == old(published.Value()))
    {
      Absorb(p);
    }

    method Absorb(p: PacketInfo)
      requires Sound()
      modifies indexes.repr, rings.repr, detector.repr
      ensures Sound() && fresh(indexes.repr - old(indexes.repr)) && fresh(detector.repr - old(detector.repr))
      ensures Model() == StatsModel.AddPacket(cfg, old(Model()), p).0
    {
      ghost var was := Model();
      var currentFlow := indexes.Update(p);
      assert (rings.throughput, rings.recent, rings.anomalies) == (was.throughput, was.recent, was.anomalies);
      assert detector.Model() == was.detector && baselineMgr.view == was.hosts;
      Inspect(p, currentFlow);
      PacketParts(cfg, was, p, Model());
    }

    /** The recent ring, the detector and the anomaly ring. */
    method Inspect(p: PacketInfo, currentFlow: Option<(FlowKey, nat)>)
      requires Sound()
      modifies rings.repr, detector.repr
      ensures Sound() && fresh(detector.repr - old(detector.repr)) && rings.throughput == old(rings.throughput)
      ensures rings.recent == Last(old(rings.recent) + [p], cfg.recentCap)
      ensures var (d, es) := A.CheckPacket(cfg.anomaly, old(detector.Model()), p, currentFlow);
              detector.Model() == d && rings.anomalies == Last(old(rings.anomalies) + es, cfg.anomaliesCap)
    {
      rings.PushPacket(p);
      var events := detector.Check(p, currentFlow);
      rings.AddAnomalies(events);
    }

    /** One tick; `order` is the order in which the map iteration visited the talkers. */
    method TickSecond(now: Time) returns (ghost order: seq<string>)
      requires Valid()
      modifies Repr()
      ensures Valid() && fresh(Repr() - old(Repr()))
      ensures Enumerates(order, old(Model()).talkers.Keys)
      ensures Model() == StatsModel.Tick(cfg, old(Model()), order, now).0
      ensures published == old(published) && (published != null ==> published.Value() == old(published.Value()))
    {
      order := RollSecond(now);
    }

    method RollSecond(now: Time) returns (ghost order: seq<string>)
      requires Sound()
      modifies indexes, rings.repr, baselineMgr.repr
      ensures Sound() && indexes.repr == old(indexes.repr) && fresh(baselineMgr.repr - old(baselineMgr.repr))
      ensures Enumerates(order, old(Model()).talkers.Keys)
      ensures Model() == StatsModel.Tick(cfg, old(Model()), order, now).0
    {
      var bytes := indexes.Roll();
      rings.PushSecond(bytes);
      order := EvaluateBaselines(now);
    }

    method EvaluateBaselines(now: Time) returns (ghost order: seq<string>)
      requires Sound()
      modifies baselineMgr.repr, rings.repr
      ensures Sound() && fresh(baselineMgr.repr - old(baselineMgr.repr))
      ensures Enumerates(order, indexes.topTalkers.view.Keys)
      ensures var (hosts, events) := ObserveAll(cfg, indexes.topTalkers.view, old(baselineMgr.view), order, now);
              baselineMgr.view == hosts && rings.anomalies == Last(old(rings.anomalies) + events, cfg.anomaliesCap)
      ensures rings.throughput == old(rings.throughput) && rings.recent == old(rings.recent)
    {
      order := [];
      var todo := indexes.topTalkers.stats.Keys;
      ghost var keys := todo;
      ghost var hosts, was, raised: seq<Event> := baselineMgr.view, rings.anomalies, [];
      assert was + [] == was;
      while todo != {}
        invariant Sound() && fresh(baselineMgr.repr - old(baselineMgr.repr))
        invariant todo <= keys == indexes.topTalkers.stats.Keys
        invariant Enumerates(order, keys - todo)
        invariant Observed(hosts, was, order, now, raised)
        invariant rings.throughput == old(rings.throughput) && rings.recent == old(rings.recent)
        decreases |todo|
      {
        var ip :| ip in todo;
        raised := EvaluateNext(ip, now, hosts, was, order, raised);
        var rest := todo - {ip};
        EnumeratesMore(order, keys, todo, ip, rest);
        order := order + [ip];
        todo := rest;
      }
    }

    /** The talkers in `order` have been observed, raising `raised`. */
    ghost predicate Observed(hosts: map<string, B.Metrics>, was: seq<Event>, order: seq<string>, now: Time,
                             raised: seq<Event>)
      reads indexes, indexes.topTalkers, baselineMgr, rings
    {
      && (baselineMgr.view, raised) == ObserveAll(cfg, indexes.topTalkers.view, hosts, order, now)
      && rings.anomalies == Last(was + raised, cfg.anomaliesCap)
    }

    method EvaluateNext(ip: string, now: Time, ghost hosts: map<string, B.Metrics>, ghost was: seq<Event>,
                        ghost order: seq<string>, ghost before: seq<Event>) returns (ghost raised: seq<Event>)
      requires Sound() && ip in indexes.topTalkers.stats && Observed(hosts, was, order, now, before)
      modifies baselineMgr.repr, rings.repr
      ensures Sound() && fresh(baselineMgr.repr - old(baselineMgr.repr))
      ensures Observed(hosts, was, order + [ip], now, raised)
      ensures rings.throughput == old(rings.throughput) && rings.recent == old(rings.recent)
    {
      ghost var h := baselineMgr.view;
      var events := EvaluateTalker(ip, now);
      raised := before + events;
      ObserveAllSnoc(cfg, indexes.topTalkers.view, hosts, order, ip, now, h, before, baselineMgr.view, events);
      AppendTwice(was, before, events, cfg.anomaliesCap);
    }

    method EvaluateTalker(ip: string, now: Time) returns (events: seq<Event>)
      requires Sound() && ip in indexes.topTalkers.stats
      modifies baselineMgr.repr, rings.repr
      ensures Sound() && fresh(baselineMgr.repr - old(baselineMgr.repr))
      ensures (baselineMgr.view, events) == ObserveTalker(cfg, old(baselineMgr.view), ip,
                                                          TalkerAt(indexes.topTalkers.view, ip), now)
      ensures rings.anomalies == Last(old(rings.anomalies) + events, cfg.anomaliesCap)
      ensures rings.throughput == old(rings.throughput) && rings.recent == old(rings.recent)
    {
      var talker := indexes.topTalkers.stats[ip];
      var pktsSec := (talker.packetsSent + talker.packetsRecv) as real;
      var bytesSec := (talker.bytesSent + talker.bytesRecv) as real;
      events := baselineMgr.ObserveHost(ip, pktsSec, bytesSec, 1.0, now, cfg.sqrt);
      rings.AddAnomalies(events);
    }

    /** A copy of the current state in fresh memory; `dropped` is the capture counter read atomically. */
    method TakeSnapshot(dropped: nat, now: Time, ghost others: set<object>) returns (snap: Snapshot)
      requires Sound()
      ensures InNewMemory(snap) && snap.Apart(others) && Shows(snap.Value(), Model(), dropped, now)
      ensures Sound() && Repr() == old(Repr()) && Model() == old(Model())
    {
      var counts, talkers, flows := indexes.Copies();
      var history, recent, anomalies := rings.Slices();
      snap := new Snapshot(now, indexes.totalPackets, indexes.totalBytes, dropped, counts, talkers, flows, history,
                           recent, anomalies);
    }

    /** The new snapshot is in fresh memory, so the one published before stays as it was. */
    method PublishSnapshot(dropped: nat, now: Time)
      requires Valid()
      modifies this`published
      ensures Valid() && Repr() == old(Repr()) && Model() == old(Model())
      ensures published != null && InNewMemory(published) && Shows(published.Value(), Model(), dropped, now)
    {
      var snap := TakeSnapshot(dropped, now, Repr());
      Store(snap);
    }

    /** The atomic store of the pointer. */
    method Store(snap: Snapshot)
      requires Sound() && snap.Apart(Repr())
      modifies this`published
      ensures published == snap && Valid() && Repr() == old(Repr())
      ensures Model() == old(Model()) && snap.Value() == old(snap.Value())
    {
      published := snap;
    }

    method GetSnapshot() returns (snap: Snapshot)
      ensures published != null ==> snap == published
      ensures published == null ==> InNewMemory(snap) && snap.Value() == NO_SUMMARY
    {
      if published == null {
        var counts := new CountTable();
        var talkers, flows, history := new TalkerRow[0], new FlowRow[0], new nat[0];
        var recent, anomalies := new PacketInfo[0], new Event[0];
        snap := new Snapshot(0, 0, 0, 0, counts, talkers, flows, history, recent, anomalies);
        return;
      }
      snap := published;
    }
  }

  method NewComponents(cfg: Config, now: Time)
    returns (indexes: Indexes, rings: Rings, detector: A.Detector, baselineMgr: B.Manager)
    ensures indexes.Valid() && rings.Valid() && detector.Valid() && baselineMgr.Valid()
    ensures fresh(indexes.repr) && fresh(rings.repr) && fresh(detector.repr) && fresh(baselineMgr.repr)
    ensures detector.repr !! indexes.repr !! rings.repr !! baselineMgr.repr
    ensures indexes.totalPackets == indexes.totalBytes == indexes.currentSecBytes == 0
    ensures indexes.protocolCounts.counts == map[] && indexes.topTalkers.view == map[] && indexes.flows.view == map[]
    ensures rings.throughput == [] && rings.recent == [] && rings.anomalies == []
    ensures rings.throughputRing.capacity == cfg.throughputCap && rings.recentRing.capacity == cfg.recentCap
    ensures rings.anomaliesRing.capacity == cfg.anomaliesCap
    ensures detector.config == cfg.anomaly && detector.Model() == A.State(map[], {})
    ensures baselineMgr.config == cfg.baseline && baselineMgr.startTime == now && baselineMgr.view == map[]
  {
    indexes := new Indexes();
    rings := new Rings(cfg.throughputCap, cfg.recentCap, cfg.anomaliesCap);
    detector := new A.Detector(cfg.anomaly);
    baselineMgr := new B.Manager(cfg.baseline, now);
  }

  method NewManager(cfg: Config, now: Time) returns (sm: StatsManager)
    requires cfg.startTime == now
    ensures sm.Valid() && fresh(sm.Repr()) && sm.cfg == cfg
    ensures sm.Model() == Initial(map[]) && sm.published == null
  {
    var indexes, rings, detector, baselineMgr := NewComponents(cfg, now);
    sm := new StatsManager(cfg, indexes, rings, detector, baselineMgr);
  }

  /** The initial empty snapshot is published at once. */
  method NewStatsManager(cfg: Config, now: Time, dropped: nat) returns (sm: StatsManager)
    requires cfg.startTime == now
    ensures sm.Valid() && fresh(sm.Repr()) && sm.cfg == cfg
    ensures sm.Model() == Initial(map[])
    ensures sm.published != null && InNewMemory(sm.published)
    ensures Shows(sm.published.Value(), sm.Model(), dropped, now)
  {
    sm := NewManager(cfg, now);
    sm.PublishSnapshot(dropped, now);
  }

  // ---- any sequence of calls ----

  datatype Call = Add(p: PacketInfo) | Tick(now: Time) | Publish(dropped: nat, now: Time)

  function AddedBy(call: Call): seq<PacketInfo> {
    if call.Add? then [call.p] else []
  }

  function Added(calls: seq<Call>): seq<PacketInfo> {
    if calls == [] then [] else Added(calls[..|calls| - 1]) + AddedBy(calls[|calls| - 1])
  }

  /** `ops` is the operation the call performs, if any. */
  ghost predicate Performs(cfg: Config, s: StatsModel.Stats, call: Call, ops: seq<Op>, t: StatsModel.Stats) {
    match call
    case Add(p) => ops == [Packet(p)] && t == StatsModel.AddPacket(cfg, s, p).0
    case Tick(now) =>
      && |ops| == 1 && ops[0].SecondTick? && ops[0].now == now
      && Enumerates(ops[0].order, s.talkers.Keys) && t == StatsModel.Tick(cfg, s, ops[0].order, now).0
    case Publish(_, _) => ops == [] && t == s
  }

  lemma StaysApart(snap: Snapshot, was: set<object>, now: set<object>)
    requires snap.Apart(was) && snap.Apart(now - was)
    ensures snap.Apart(now)
  {
  }

  /** One call. A snapshot that shares no memory with the manager keeps its contents and stays apart. */
  method Perform(sm: StatsManager, call: Call, snap: Snapshot) returns (ghost ops: seq<Op>)
    requires sm.Valid() && snap.Apart(sm.Repr())
    modifies sm.Repr()
    ensures sm.Valid() && fresh(sm.Repr() - old(sm.Repr()))
    ensures snap.Value() == old(snap.Value()) && snap.Apart(sm.Repr())
    ensures Performs(sm.cfg, old(sm.Model()), call, ops, sm.Model())
  {
    ghost var was := sm.Repr();
    match call {
    case Add(p) =>
      sm.AddPacket(p);
      ops := [Packet(p)];
    case Tick(now) =>
      ghost var order := sm.TickSecond(now);
      ops := [SecondTick(order, now)];
    case Publish(dropped, now) =>
      sm.PublishSnapshot(dropped, now);
      ops := [];
    }
    assert snap.Apart(sm.Repr() - was);
    StaysApart(snap, was, sm.Repr());
  }

  lemma RunSnoc(cfg: Config, s: StatsModel.Stats, ops: seq<Op>, op: Op)
    ensures Run(cfg, s, ops + [op]) == Step(cfg, Run(cfg, s, ops), op).0
    ensures PacketsOf(ops + [op]) == PacketsOf(ops) + (if op.Packet? then [op.p] else [])
  {
    assert (ops + [op])[..|ops|] == ops;
  }

  /** A run continued by the operation of one call. */
  lemma RunPerforms(cfg: Config, s: StatsModel.Stats, ops: seq<Op>, call: Call, more: seq<Op>, t: StatsModel.Stats,
                    u: StatsModel.Stats)
    requires t == Run(cfg, s, ops) && Performs(cfg, t, call, more, u)
    ensures u == Run(cfg, s, ops + more) && PacketsOf(ops + more) == PacketsOf(ops) + AddedBy(call)
  {
    if more == [] {
      assert ops + more == ops;
    } else {
      assert more == [more[0]];
      RunSnoc(cfg, s, ops, more[0]);
    }
  }

  /** One call after others: `ops` is the run so far from state `s`, with the packets `added`. */
  method PerformNext(sm: StatsManager, call: Call, snap: Snapshot, ghost s: StatsModel.Stats, ghost ops: seq<Op>,
                     ghost added: seq<PacketInfo>) returns (ghost ops': seq<Op>)
    requires sm.Valid() && snap.Apart(sm.Repr())
    requires sm.Model() == Run(sm.cfg, s, ops) && PacketsOf(ops) == added
    modifies sm.Repr()
    ensures sm.Valid() && fresh(sm.Repr() - old(sm.Repr()))
    ensures snap.Value() == old(snap.Value()) && snap.Apart(sm.Repr())
    ensures sm.Model() == Run(sm.cfg, s, ops') && PacketsOf(ops') == added + AddedBy(call)
  {
    ghost var t := sm.Model();
    ghost var more := Perform(sm, call, snap);
    RunPerforms(sm.cfg, s, ops, call, more, t, sm.Model());
    ops' := ops + more;
  }

  /** Over any sequence of calls the manager runs the specification on the packets added, and a snapshot taken before
      still holds what it held. */
  method PerformAll(sm: StatsManager, calls: seq<Call>, snap: Snapshot) returns (ghost ops: seq<Op>)
    requires sm.Valid() && snap.Apart(sm.Repr())
    modifies sm.Repr()
    ensures sm.Valid() && fresh(sm.Repr() - old(sm.Repr()))
    ensures snap.Value() == old(snap.Value()) && snap.Apart(sm.Repr())
    ensures sm.Model() == Run(sm.cfg, old(sm.Model()), ops) && PacketsOf(ops) == Added(calls)
    decreases |calls|
  {
    if calls == [] {
      ops := [];
    } else {
      ghost var s := sm.Model();
      var before := calls[..|calls| - 1];
      ops := PerformAll(sm, before, snap);
      ops := PerformNext(sm, calls[|calls| - 1], snap, s, ops, Added(before));
    }
  }

  lemma ObserveAllSnoc(cfg: Config, talkers: map<string, Talker>, hosts: map<string, B.Metrics>, order: seq<string>,
                       ip: string, now: Time,
                       h: map<string, B.Metrics>, es: seq<Event>, h': map<string, B.Metrics>, es': seq<Event>)
    requires (h, es) == ObserveAll(cfg, talkers, hosts, order, now)
    requires (h', es') == ObserveTalker(cfg, h, ip, TalkerAt(talkers, ip), now)
    ensures (h', es + es') == ObserveAll(cfg, talkers, hosts, order + [ip], now)
  {
    assert (order + [ip])[..|order|] == order;
  }

  lemma LastOfNext(was: seq<Event>, events: seq<Event>, i: nat, n: nat)
    requires i < |events|
    ensures Last(Last(was + events[..i], n) + [events[i]], n) == Last(was + events[..i + 1], n)
  {
    assert was + events[..i + 1] == (was + events[..i]) + [events[i]];
    LastOfPush(was + events[..i], events[i], n);
  }

  lemma AppendTwice(was: seq<Event>, a: seq<Event>, b: seq<Event>, n: nat)
    ensures Last(Last(was + a, n) + b, n) == Last(was + (a + b), n)
  {
    LastOfAppend(was + a, b, n);
    assert was + a + b == was + (a + b);
  }

  lemma EnumeratesMore(order: seq<string>, keys: set<string>, todo: set<string>, ip: string, rest: set<string>)
    requires Enumerates(order, keys - todo) && todo <= keys && ip in todo && rest == todo - {ip}
    ensures Enumerates(order + [ip], keys - rest) && rest <= keys && |rest| < |todo|
  {
    forall k ensures k in order + [ip] <==> k in keys - rest {
      assert k in order <==> k in keys - todo;
    }
  }

  /** The state after a packet, part by part. */
  lemma PacketParts(cfg: Config, s: StatsModel.Stats, p: PacketInfo, t: StatsModel.Stats)
    requires t.totalPackets == s.totalPackets + 1 && t.totalBytes == s.totalBytes + p.length
    requires t.currentSecBytes == s.currentSecBytes + p.length && t.protocolCounts == Counted(s.protocolCounts, p)
    requires t.talkers == Received(Sent(s.talkers, p), p) && t.flows == Carried(s.flows, p)
    requires t.throughput == s.throughput && t.hosts == s.hosts
    requires t.recent == Last(s.recent + [p], cfg.recentCap)
    requires var (d, es) := A.CheckPacket(cfg.anomaly, s.detector, p, Shown(t.flows, p));
             t.detector == d && t.anomalies == Last(s.anomalies + es, cfg.anomaliesCap)
    ensures t == StatsModel.AddPacket(cfg, s, p).0
  {
  }
}
