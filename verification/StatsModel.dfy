/** The aggregator's state as a value, and what every run of `AddPacket` and `TickSecond` keeps true of it. */
module StatsModel {
  import opened Packets
  import opened Totals
  import opened Ring
  import A = Anomaly
  import B = Baseline

  datatype Talker = Talker(bytesSent: nat, bytesRecv: nat, packetsSent: nat, packetsRecv: nat, lastSeen: Time)
  datatype Flow = Flow(bytes: nat, packets: nat, lastSeen: Time)

  const NO_TALKER := Talker(0, 0, 0, 0, 0)
  const NO_FLOW := Flow(0, 0, 0)

  datatype Config = Config(
    anomaly: A.Config,
    baseline: B.Config,
    sqrt: real -> real,
    startTime: Time,
    throughputCap: nat,
    recentCap: nat,
    anomaliesCap: nat)

  datatype Stats = Stats(
    totalPackets: nat,
    totalBytes: nat,
    currentSecBytes: nat,
    protocolCounts: map<string, nat>,
    talkers: map<string, Talker>,
    flows: map<FlowKey, Flow>,
    throughput: seq<nat>,
    recent: seq<PacketInfo>,
    anomalies: seq<Event>,
    detector: A.State,
    hosts: map<string, B.Metrics>)

  /** The state before any packet; the baseline may have been loaded. */
  function Initial(hosts: map<string, B.Metrics>): Stats {
    Stats(0, 0, 0, map[], map[], map[], [], [], [], A.State(map[], {}), hosts)
  }

  // ---- one packet ----

  function Counted(m: map<string, nat>, p: PacketInfo): map<string, nat> {
    m[p.protocol := (if p.protocol in m then m[p.protocol] else 0) + 1]
  }

  function TalkerAt(m: map<string, Talker>, ip: string): Talker {
    if ip in m then m[ip] else NO_TALKER
  }

  function Sent(m: map<string, Talker>, p: PacketInfo): map<string, Talker> {
    if p.srcIP.None? then m
    else
      var t := TalkerAt(m, p.srcIP.value);
      m[p.srcIP.value :=
          t.(packetsSent := t.packetsSent + 1, bytesSent := t.bytesSent + p.length, lastSeen := p.timestamp)]
  }

  function Received(m: map<string, Talker>, p: PacketInfo): map<string, Talker> {
    if p.dstIP.None? then m
    else
      var t := TalkerAt(m, p.dstIP.value);
      m[p.dstIP.value :=
          t.(packetsRecv := t.packetsRecv + 1, bytesRecv := t.bytesRecv + p.length, lastSeen := p.timestamp)]
  }

  function FlowAt(m: map<FlowKey, Flow>, k: FlowKey): Flow {
    if k in m then m[k] else NO_FLOW
  }

  function Carried(m: map<FlowKey, Flow>, p: PacketInfo): map<FlowKey, Flow> {
    if !HasFlow(p) then m
    else
      var f := FlowAt(m, KeyOf(p));
      m[KeyOf(p) := Flow(f.bytes + p.length, f.packets + 1, p.timestamp)]
  }

  /** The flow the detector is shown: the packet's own, already updated. */
  function Shown(flows: map<FlowKey, Flow>, p: PacketInfo): Option<(FlowKey, nat)> {
    if HasFlow(p) then Some((KeyOf(p), FlowAt(flows, KeyOf(p)).bytes)) else None
  }

  function AddPacket(cfg: Config, s: Stats, p: PacketInfo): (Stats, seq<Event>) {
    var flows := Carried(s.flows, p);
    var (detector, events) := A.CheckPacket(cfg.anomaly, s.detector, p, Shown(flows, p));
    (s.(totalPackets := s.totalPackets + 1,
        totalBytes := s.totalBytes + p.length,
        currentSecBytes := s.currentSecBytes + p.length,
        protocolCounts := Counted(s.protocolCounts, p),
        talkers := Received(Sent(s.talkers, p), p),
        flows := flows,
        recent := Last(s.recent + [p], cfg.recentCap),
        anomalies := Last(s.anomalies + events, cfg.anomaliesCap),
        detector := detector),
     events)
  }

  // ---- one tick ----

  function PacketReading(t: Talker): real {
    (t.packetsSent + t.packetsRecv) as real
  }

  function ByteReading(t: Talker): real {
    (t.bytesSent + t.bytesRecv) as real
  }

  function ObserveTalker(cfg: Config, hosts: map<string, B.Metrics>, ip: string, t: Talker, now: Time)
    : (map<string, B.Metrics>, seq<Event>)
  {
    B.Observe(cfg.baseline, cfg.sqrt, cfg.startTime, hosts, ip, PacketReading(t), ByteReading(t), 1.0, now)
  }

  /** Observing the talkers in some order, with their cumulative totals as readings. */
  function ObserveAll(cfg: Config, talkers: map<string, Talker>, hosts: map<string, B.Metrics>,
                      order: seq<string>, now: Time): (map<string, B.Metrics>, seq<Event>)
  {
    if order == [] then (hosts, [])
    else
      var ip := order[|order| - 1];
      var (h, es) := ObserveAll(cfg, talkers, hosts, order[..|order| - 1], now);
      var (h', es') := ObserveTalker(cfg, h, ip, TalkerAt(talkers, ip), now);
      (h', es + es')
  }

  function Tick(cfg: Config, s: Stats, order: seq<string>, now: Time): (Stats, seq<Event>) {
    var (hosts, events) := ObserveAll(cfg, s.talkers, s.hosts, order, now);
    (s.(throughput := Last(s.throughput + [s.currentSecBytes], cfg.throughputCap),
        currentSecBytes := 0,
        hosts := hosts,
        anomalies := Last(s.anomalies + events, cfg.anomaliesCap)),
     events)
  }

  /** The iteration order of a map: every key once. */
  ghost predicate Enumerates<K(!new)>(order: seq<K>, keys: set<K>) {
    && (forall i, j | 0 <= i < j < |order| :: order[i] != order[j])
    && (forall k :: k in order <==> k in keys)
  }

  // ---- runs ----

  datatype Op = Packet(p: PacketInfo) | SecondTick(order: seq<string>, now: Time)

  function Step(cfg: Config, s: Stats, op: Op): (Stats, seq<Event>) {
    match op
    case Packet(p) => AddPacket(cfg, s, p)
    case SecondTick(order, now) => Tick(cfg, s, order, now)
  }

  function Run(cfg: Config, s: Stats, ops: seq<Op>): Stats {
    if ops == [] then s else Step(cfg, Run(cfg, s, ops[..|ops| - 1]), ops[|ops| - 1]).0
  }

  /** All events of a run, in order. */
  function Log(cfg: Config, s: Stats, ops: seq<Op>): seq<Event> {
    if ops == [] then []
    else Log(cfg, s, ops[..|ops| - 1]) + Step(cfg, Run(cfg, s, ops[..|ops| - 1]), ops[|ops| - 1]).1
  }

  function PacketsOf(ops: seq<Op>): seq<PacketInfo> {
    if ops == [] then []
    else PacketsOf(ops[..|ops| - 1]) + (if ops[|ops| - 1].Packet? then [ops[|ops| - 1].p] else [])
  }

  // ---- each index is a fold of the packets alone ----

  function CountsOf(ps: seq<PacketInfo>): map<string, nat> {
    if ps == [] then map[] else Counted(CountsOf(ps[..|ps| - 1]), ps[|ps| - 1])
  }

  function TalkersOf(ps: seq<PacketInfo>): map<string, Talker> {
    if ps == [] then map[] else Received(Sent(TalkersOf(ps[..|ps| - 1]), ps[|ps| - 1]), ps[|ps| - 1])
  }

  function FlowsOf(ps: seq<PacketInfo>): map<FlowKey, Flow> {
    if ps == [] then map[] else Carried(FlowsOf(ps[..|ps| - 1]), ps[|ps| - 1])
  }

  /** The detector's answer to the last packet. */
  function Checked(cfg: A.Config, ps: seq<PacketInfo>): (A.State, seq<Event>)
    requires ps != []
    decreases |ps|, 0
  {
    A.CheckPacket(cfg, DetectorOf(cfg, ps[..|ps| - 1]), ps[|ps| - 1], Shown(FlowsOf(ps), ps[|ps| - 1]))
  }

  function DetectorOf(cfg: A.Config, ps: seq<PacketInfo>): A.State
    decreases |ps|, 1
  {
    if ps == [] then A.State(map[], {}) else Checked(cfg, ps).0
  }

  lemma PacketsOfSnoc(ops: seq<Op>)
    requires ops != [] && ops[|ops| - 1].Packet?
    ensures var ps := PacketsOf(ops);
            ps != [] && ps[..|ps| - 1] == PacketsOf(ops[..|ops| - 1]) && ps[|ps| - 1] == ops[|ops| - 1].p
  {
  }

  /** In every reachable state the indexes are those folds, the recent ring holds the last packets and the
      anomaly ring the last events. */
  lemma {:induction false} IndexesAreFolds(cfg: Config, hosts: map<string, B.Metrics>, ops: seq<Op>)
    ensures var s, ps := Run(cfg, Initial(hosts), ops), PacketsOf(ops);
            && s.totalPackets == |ps| && s.totalBytes == Bytes(ps, All)
            && s.protocolCounts == CountsOf(ps) && s.talkers == TalkersOf(ps) && s.flows == FlowsOf(ps)
            && s.detector == DetectorOf(cfg.anomaly, ps)
            && s.recent == Last(ps, cfg.recentCap)
            && s.anomalies == Last(Log(cfg, Initial(hosts), ops), cfg.anomaliesCap)
  {
    if ops != [] {
      var before, op := ops[..|ops| - 1], ops[|ops| - 1];
      IndexesAreFolds(cfg, hosts, before);
      var s := Run(cfg, Initial(hosts), before);
      LastOfAppend(Log(cfg, Initial(hosts), before), Step(cfg, s, op).1, cfg.anomaliesCap);
      if op.Packet? {
        PacketsOfSnoc(ops);
        LastOfPush(PacketsOf(before), op.p, cfg.recentCap);
      } else {
        assert PacketsOf(ops) == PacketsOf(before);
      }
    }
  }

  lemma LastOfAppend<T>(items: seq<T>, more: seq<T>, n: nat)
    ensures Last(Last(items, n) + more, n) == Last(items + more, n)
  {
  }

  // ---- the talker, flow and protocol indexes against the packets ----

  /** Protocol counts are the packet counts per protocol, and sum to the number of packets. */
  lemma {:induction false} CountsAgree(ps: seq<PacketInfo>)
    ensures Total(CountsOf(ps)) == |ps|
    ensures forall x: string :: Count(ps, Speaking(x)) == if x in CountsOf(ps) then CountsOf(ps)[x] else 0
  {
    if ps != [] {
      var init, p := ps[..|ps| - 1], ps[|ps| - 1];
      CountsAgree(init);
      TotalAdds(CountsOf(init), p.protocol, 1);
    }
  }

  /** Every talker's counters are the sums over its packets, a packet from a host to itself counting on both sides. */
  lemma {:induction false} TalkersAgree(ps: seq<PacketInfo>, ip: string)
    ensures var t := TalkerAt(TalkersOf(ps), ip);
            && t.packetsSent == Count(ps, From(ip)) && t.bytesSent == Bytes(ps, From(ip))
            && t.packetsRecv == Count(ps, To(ip)) && t.bytesRecv == Bytes(ps, To(ip))
    ensures ip in TalkersOf(ps) <==> Count(ps, From(ip)) + Count(ps, To(ip)) > 0
  {
    if ps != [] {
      TalkersAgree(ps[..|ps| - 1], ip);
    }
  }

  predicate Touches(p: PacketInfo, ip: string) {
    p.srcIP == Some(ip) || p.dstIP == Some(ip)
  }

  /** The timestamp of the last packet to or from `ip`, in the order of arrival. */
  function LastTouched(ps: seq<PacketInfo>, ip: string): Time {
    if ps == [] then 0
    else if Touches(ps[|ps| - 1], ip) then ps[|ps| - 1].timestamp
    else LastTouched(ps[..|ps| - 1], ip)
  }

  /** The timestamp of the last packet of a flow, in the order of arrival. */
  function LastCarried(ps: seq<PacketInfo>, k: FlowKey): Time {
    if ps == [] then 0
    else if Selects(Within(k), ps[|ps| - 1]) then ps[|ps| - 1].timestamp
    else LastCarried(ps[..|ps| - 1], k)
  }

  /** Talkers and flows were last seen with their last packet to arrive, whose timestamp need not be the largest. */
  lemma {:induction false} LastSeenAgrees(ps: seq<PacketInfo>, ip: string, k: FlowKey)
    ensures TalkerAt(TalkersOf(ps), ip).lastSeen == LastTouched(ps, ip)
    ensures FlowAt(FlowsOf(ps), k).lastSeen == LastCarried(ps, k)
  {
    if ps != [] {
      LastSeenAgrees(ps[..|ps| - 1], ip, k);
    }
  }

  ghost function SentBytes(m: map<string, Talker>): map<string, nat> {
    map ip | ip in m :: m[ip].bytesSent
  }

  ghost function RecvBytes(m: map<string, Talker>): map<string, nat> {
    map ip | ip in m :: m[ip].bytesRecv
  }

  lemma SentTotals(m: map<string, Talker>, p: PacketInfo)
    ensures Total(SentBytes(Sent(m, p))) == Total(SentBytes(m)) + (if p.srcIP.Some? then p.length else 0)
    ensures Total(RecvBytes(Sent(m, p))) == Total(RecvBytes(m))
  {
    if p.srcIP.Some? {
      var ip := p.srcIP.value;
      TotalAdds(SentBytes(m), ip, p.length);
      assert SentBytes(Sent(m, p))
          == SentBytes(m)[ip := (if ip in SentBytes(m) then SentBytes(m)[ip] else 0) + p.length];
      TotalAdds(RecvBytes(m), ip, 0);
      assert RecvBytes(Sent(m, p)) == RecvBytes(m)[ip := (if ip in RecvBytes(m) then RecvBytes(m)[ip] else 0) + 0];
    }
  }

  lemma ReceivedTotals(m: map<string, Talker>, p: PacketInfo)
    ensures Total(RecvBytes(Received(m, p))) == Total(RecvBytes(m)) + (if p.dstIP.Some? then p.length else 0)
    ensures Total(SentBytes(Received(m, p))) == Total(SentBytes(m))
  {
    if p.dstIP.Some? {
      var ip := p.dstIP.value;
      TotalAdds(RecvBytes(m), ip, p.length);
      assert RecvBytes(Received(m, p))
          == RecvBytes(m)[ip := (if ip in RecvBytes(m) then RecvBytes(m)[ip] else 0) + p.length];
      TotalAdds(SentBytes(m), ip, 0);
      assert SentBytes(Received(m, p)) == SentBytes(m)[ip := (if ip in SentBytes(m) then SentBytes(m)[ip] else 0) + 0];
    }
  }

  /** All sent bytes together are the bytes of the packets with a source, all received bytes those with a
      destination. */
  lemma {:induction false} TalkerTotalsAgree(ps: seq<PacketInfo>)
    ensures Total(SentBytes(TalkersOf(ps))) == Bytes(ps, WithSource)
    ensures Total(RecvBytes(TalkersOf(ps))) == Bytes(ps, WithDestination)
  {
    if ps != [] {
      var init, p := ps[..|ps| - 1], ps[|ps| - 1];
      TalkerTotalsAgree(init);
      SentTotals(TalkersOf(init), p);
      ReceivedTotals(Sent(TalkersOf(init), p), p);
    }
  }

  /** Every flow's counters are the sums over the packets with its key. */
  lemma {:induction false} FlowsAgree(ps: seq<PacketInfo>, k: FlowKey)
    ensures FlowAt(FlowsOf(ps), k).bytes == Bytes(ps, Within(k))
            && FlowAt(FlowsOf(ps), k).packets == Count(ps, Within(k))
    ensures k in FlowsOf(ps) <==> Count(ps, Within(k)) > 0
  {
    if ps != [] {
      FlowsAgree(ps[..|ps| - 1], k);
    }
  }

  ghost function Outgoing(m: map<FlowKey, Flow>, ip: string): map<FlowKey, nat> {
    map k | k in m && k.src == ip :: m[k].bytes
  }

  lemma CarriedTotals(m: map<FlowKey, Flow>, p: PacketInfo, ip: string)
    ensures Total(Outgoing(Carried(m, p), ip))
            == Total(Outgoing(m, ip)) + (if HasFlow(p) && p.srcIP.value == ip then p.length else 0)
  {
    if HasFlow(p) {
      var k, o := KeyOf(p), Outgoing(m, ip);
      if k.src == ip {
        TotalAdds(o, k, p.length);
        assert Outgoing(Carried(m, p), ip) == o[k := (if k in o then o[k] else 0) + p.length];
      } else {
        assert Outgoing(Carried(m, p), ip) == o;
      }
    }
  }

  /** A talker's sent bytes are those of its outgoing flows plus those it sent to no address. */
  lemma {:induction false} SentBytesAreFlowBytes(ps: seq<PacketInfo>, ip: string)
    ensures TalkerAt(TalkersOf(ps), ip).bytesSent
            == Total(Outgoing(FlowsOf(ps), ip)) + Bytes(ps, FromWithoutDestination(ip))
  {
    if ps != [] {
      var init, p := ps[..|ps| - 1], ps[|ps| - 1];
      SentBytesAreFlowBytes(init, ip);
      CarriedTotals(FlowsOf(init), p, ip);
    }
  }

  // ---- throughput ----

  /** The bytes of each finished second, and of the current one. */
  function Seconds(ops: seq<Op>): (seq<nat>, nat) {
    if ops == [] then ([], 0)
    else
      var (rolled, current) := Seconds(ops[..|ops| - 1]);
      match ops[|ops| - 1]
      case Packet(p) => (rolled, current + p.length)
      case SecondTick(_, _) => (rolled + [current], 0)
  }

  function Sum(xs: seq<nat>): nat {
    if xs == [] then 0 else Sum(xs[..|xs| - 1]) + xs[|xs| - 1]
  }

  /** The ring shows the last of the rolled seconds, and they and the current one make up the total. */
  ghost predicate Rolls(cfg: Config, s: Stats, rolled: seq<nat>, current: nat) {
    && s.throughput == Last(rolled, cfg.throughputCap) && s.currentSecBytes == current
    && Sum(rolled) + current == s.totalBytes
  }

  lemma StepRolls(cfg: Config, s: Stats, op: Op, t: Stats, rolled: seq<nat>, current: nat)
    requires Rolls(cfg, s, rolled, current) && t == Step(cfg, s, op).0
    ensures match op
            case Packet(p) => Rolls(cfg, t, rolled, current + p.length)
            case SecondTick(_, _) => Rolls(cfg, t, rolled + [current], 0)
  {
    LastOfPush(rolled, current, cfg.throughputCap);
    assert (rolled + [current])[..|rolled|] == rolled;
  }

  lemma {:induction false} RunRolls(cfg: Config, hosts: map<string, B.Metrics>, ops: seq<Op>)
    ensures Rolls(cfg, Run(cfg, Initial(hosts), ops), Seconds(ops).0, Seconds(ops).1)
  {
    if ops != [] {
      var before, op := ops[..|ops| - 1], ops[|ops| - 1];
      RunRolls(cfg, hosts, before);
      StepRolls(cfg, Run(cfg, Initial(hosts), before), op, Run(cfg, Initial(hosts), ops), Seconds(before).0,
                Seconds(before).1);
    }
  }

  lemma RollsSum(cfg: Config, s: Stats, rolled: seq<nat>, current: nat)
    requires Rolls(cfg, s, rolled, current)
    ensures Sum(s.throughput) == s.totalBytes - current - Sum(rolled[..|rolled| - |s.throughput|])
  {
    SumSplit(rolled, |rolled| - |s.throughput|);
  }

  /** The throughput ring shows the last seconds, and no byte is lost between the ring, the evicted seconds and
      the current one. */
  lemma ThroughputAgrees(cfg: Config, hosts: map<string, B.Metrics>, ops: seq<Op>)
    ensures var s := Run(cfg, Initial(hosts), ops);
            var (rolled, current) := Seconds(ops);
            && s.throughput == Last(rolled, cfg.throughputCap) && s.currentSecBytes == current
            && Sum(rolled) + current == s.totalBytes
            && Sum(s.throughput) == s.totalBytes - current - Sum(rolled[..|rolled| - |s.throughput|])
  {
    RunRolls(cfg, hosts, ops);
    RollsSum(cfg, Run(cfg, Initial(hosts), ops), Seconds(ops).0, Seconds(ops).1);
  }

  lemma {:induction false} SumSplit(xs: seq<nat>, i: nat)
    requires i <= |xs|
    ensures Sum(xs) == Sum(xs[..i]) + Sum(xs[i..])
    decreases |xs|
  {
    if i == |xs| {
      assert xs[..i] == xs;
    } else {
      var init := xs[..|xs| - 1];
      SumSplit(init, i);
      assert init[..i] == xs[..i];
      assert xs[i..][..|xs[i..]| - 1] == init[i..];
    }
  }
}
