/** What the detectors report over whole runs of the aggregator. */
module Detections {
  import opened Packets
  import opened StatsModel
  import A = Anomaly
  import B = Baseline
  import G = Growth

  // ---- port scans, host by host ----

  /** A TCP or UDP packet from host `ip` is checked for port scans. */
  predicate IsCheck(p: PacketInfo, ip: string) {
    p.srcIP == Some(ip) && (p.protocol == "TCP" || p.protocol == "UDP")
  }

  /** The checks the packets make against host `ip`. */
  function ChecksOf(ps: seq<PacketInfo>, ip: string): seq<A.Stamp> {
    if ps == [] then []
    else
      var p := ps[|ps| - 1];
      ChecksOf(ps[..|ps| - 1], ip)
      + (if IsCheck(p, ip) then [A.Stamp(p.dstPort, p.timestamp)] else [])
  }

  /** The port counts of the scan alerts raised for `ip`, in order. */
  function ScanReports(cfg: A.Config, ps: seq<PacketInfo>, ip: string): seq<nat> {
    if ps == [] then [] else ScanReports(cfg, ps[..|ps| - 1], ip) + ReportsFor(Checked(cfg, ps).1, ip)
  }

  function ReportsFor(es: seq<Event>, ip: string): seq<nat> {
    if es == [] then []
    else (if es[0].PortScan? && es[0].source == ip then [es[0].ports] else []) + ReportsFor(es[1..], ip)
  }

  lemma {:induction false} ReportsForConcat(a: seq<Event>, b: seq<Event>, ip: string)
    ensures ReportsFor(a + b, ip) == ReportsFor(a, ip) + ReportsFor(b, ip)
  {
    if a == [] {
      assert a + b == b;
    } else {
      assert (a + b)[1..] == a[1..] + b;
      ReportsForConcat(a[1..], b, ip);
    }
  }

  lemma ScanReportsOwn(cfg: A.Config, d: A.State, p: PacketInfo, ip: string)
    ensures var (d', es) := A.CheckScan(cfg, d, p);
            if IsCheck(p, ip)
            then var (entries, alert) := A.ScanStep(cfg, A.Window(d, ip), A.Stamp(p.dstPort, p.timestamp));
                 A.Window(d', ip) == entries && ReportsFor(es, ip) == if alert.None? then [] else [alert.value]
            else A.Window(d', ip) == A.Window(d, ip) && ReportsFor(es, ip) == []
  {
  }

  lemma OtherChecksReportNoScan(cfg: A.Config, d: A.State, p: PacketInfo, flow: Option<(FlowKey, nat)>, ip: string)
    ensures var (d', es) := A.CheckTransfer(cfg, d, p, flow);
            A.Window(d', ip) == A.Window(d, ip) && ReportsFor(es, ip) == []
    ensures ReportsFor(A.CheckDns(cfg, p), ip) == []
  {
  }

  lemma CheckReports(cfg: A.Config, d: A.State, p: PacketInfo, flow: Option<(FlowKey, nat)>, ip: string)
    ensures var (d', es) := A.CheckPacket(cfg, d, p, flow);
            if IsCheck(p, ip)
            then var (entries, alert) := A.ScanStep(cfg, A.Window(d, ip), A.Stamp(p.dstPort, p.timestamp));
                 A.Window(d', ip) == entries && ReportsFor(es, ip) == if alert.None? then [] else [alert.value]
            else A.Window(d', ip) == A.Window(d, ip) && ReportsFor(es, ip) == []
  {
    var (d1, scan) := A.CheckScan(cfg, d, p);
    var (d2, transfer) := A.CheckTransfer(cfg, d1, p, flow);
    var dns := A.CheckDns(cfg, p);
    ScanReportsOwn(cfg, d, p, ip);
    OtherChecksReportNoScan(cfg, d1, p, flow, ip);
    ReportsForConcat(scan + transfer, dns, ip);
    ReportsForConcat(scan, transfer, ip);
  }

  lemma ScanRunSnoc(cfg: A.Config, cs: seq<A.Stamp>, c: A.Stamp)
    ensures var before, after := A.ScanRun(cfg, cs), A.ScanRun(cfg, cs + [c]);
            var (entries, alert) := A.ScanStep(cfg, before.entries, c);
            after.entries == entries && after.reports == before.reports + (if alert.None? then [] else [alert.value])
  {
    assert (cs + [c])[..|cs + [c]| - 1] == cs;
  }

  /** Each host's window and alerts depend on its own checks only. */
  lemma {:induction false} HostsScanApart(cfg: A.Config, ps: seq<PacketInfo>, ip: string)
    ensures A.Window(DetectorOf(cfg, ps), ip) == A.ScanRun(cfg, ChecksOf(ps, ip)).entries
    ensures ScanReports(cfg, ps, ip) == A.ScanRun(cfg, ChecksOf(ps, ip)).reports
  {
    if ps != [] {
      var init, p := ps[..|ps| - 1], ps[|ps| - 1];
      var d, flow := DetectorOf(cfg, init), Shown(FlowsOf(ps), p);
      HostsScanApart(cfg, init, ip);
      CheckReports(cfg, d, p, flow, ip);
      assert Checked(cfg, ps) == A.CheckPacket(cfg, d, p, flow);
      if IsCheck(p, ip) {
        ScanRunSnoc(cfg, ChecksOf(init, ip), A.Stamp(p.dstPort, p.timestamp));
      } else {
        assert ChecksOf(ps, ip) == ChecksOf(init, ip);
      }
    }
  }

  /** Over any packets, every alert for a host reports exactly the threshold, its window holds fewer distinct
      ports, and alerts times threshold never exceed the host's checked packets. */
  lemma ScanAlertRate(cfg: A.Config, ps: seq<PacketInfo>, ip: string)
    ensures |A.Ports(A.Window(DetectorOf(cfg, ps), ip))| < A.AlertPorts(cfg)
    ensures forall r | r in ScanReports(cfg, ps, ip) :: r == A.AlertPorts(cfg)
    ensures |ScanReports(cfg, ps, ip)| * A.AlertPorts(cfg) <= |ChecksOf(ps, ip)|
  {
    HostsScanApart(cfg, ps, ip);
    A.ScanLaws(cfg, ChecksOf(ps, ip));
  }

  /** The stored window of a host is, in order, what every later check's window keeps of its checks since its last
      alert. */
  lemma WindowRefines(cfg: A.Config, ps: seq<PacketInfo>, ip: string)
    ensures var cs := ChecksOf(ps, ip);
            var since := A.ScanRun(cfg, cs).since;
            since <= |cs| && A.Window(DetectorOf(cfg, ps), ip) == A.Surviving(cfg, cs, since)
  {
    HostsScanApart(cfg, ps, ip);
    A.WindowIsSurviving(cfg, ChecksOf(ps, ip));
  }

  // ---- large transfers ----

  /** The flow has carried a packet and its bytes have reached the threshold, a 64-bit number. */
  predicate Reached(cfg: A.Config, ps: seq<PacketInfo>, k: FlowKey) {
    Count(ps, Within(k)) > 0 && Bytes(ps, Within(k)) >= cfg.transferThresholdMB * 1024 * 1024 % 0x1_0000_0000_0000_0000
  }

  predicate IsTransferOf(e: Event, k: FlowKey) {
    e.LargeTransfer? && e.key == k
  }

  function Transfers(es: seq<Event>, k: FlowKey): nat {
    if es == [] then 0 else (if IsTransferOf(es[0], k) then 1 else 0) + Transfers(es[1..], k)
  }

  lemma {:induction false} TransfersConcat(a: seq<Event>, b: seq<Event>, k: FlowKey)
    ensures Transfers(a + b, k) == Transfers(a, k) + Transfers(b, k)
  {
    if a == [] {
      assert a + b == b;
    } else {
      assert (a + b)[1..] == a[1..] + b;
      TransfersConcat(a[1..], b, k);
    }
  }

  lemma OwnTransfer(cfg: A.Config, d: A.State, p: PacketInfo, flow: Option<(FlowKey, nat)>, k: FlowKey)
    ensures var (d', es) := A.CheckTransfer(cfg, d, p, flow);
            var raised := p.srcIP.Some? && flow.Some? && flow.value.0 == k
                          && flow.value.1 >= A.ThresholdBytes(cfg) && k !in d.flagged;
            (k in d'.flagged <==> k in d.flagged || raised) && Transfers(es, k) == if raised then 1 else 0
  {
  }

  lemma OtherChecksTransferNothing(cfg: A.Config, d: A.State, p: PacketInfo, k: FlowKey)
    ensures A.CheckScan(cfg, d, p).0.flagged == d.flagged && Transfers(A.CheckScan(cfg, d, p).1, k) == 0
    ensures Transfers(A.CheckDns(cfg, p), k) == 0
  {
  }

  lemma CheckTransfers(cfg: A.Config, d: A.State, p: PacketInfo, flow: Option<(FlowKey, nat)>, k: FlowKey)
    ensures var (d', es) := A.CheckPacket(cfg, d, p, flow);
            var raised := p.srcIP.Some? && flow.Some? && flow.value.0 == k
                          && flow.value.1 >= A.ThresholdBytes(cfg) && k !in d.flagged;
            (k in d'.flagged <==> k in d.flagged || raised) && Transfers(es, k) == if raised then 1 else 0
  {
    var (d1, scan) := A.CheckScan(cfg, d, p);
    var (d2, transfer) := A.CheckTransfer(cfg, d1, p, flow);
    var dns := A.CheckDns(cfg, p);
    OtherChecksTransferNothing(cfg, d, p, k);
    OwnTransfer(cfg, d1, p, flow, k);
    TransfersConcat(scan + transfer, dns, k);
    TransfersConcat(scan, transfer, k);
  }

  /** A flow is flagged exactly when it has reached the threshold, and its event comes with the packet that makes it
      so. */
  lemma {:induction false} TransferAtCrossing(cfg: A.Config, ps: seq<PacketInfo>, k: FlowKey)
    ensures k in DetectorOf(cfg, ps).flagged <==> Reached(cfg, ps, k)
    ensures ps != [] ==>
              Transfers(Checked(cfg, ps).1, k)
              == if Reached(cfg, ps, k) && !Reached(cfg, ps[..|ps| - 1], k) then 1 else 0
  {
    if ps != [] {
      var init, p := ps[..|ps| - 1], ps[|ps| - 1];
      TransferAtCrossing(cfg, init, k);
      CheckTransfers(cfg, DetectorOf(cfg, init), p, Shown(FlowsOf(ps), p), k);
      FlowsAgree(ps, k);
    }
  }

  function TransfersSoFar(cfg: A.Config, ps: seq<PacketInfo>, k: FlowKey): nat {
    if ps == [] then 0 else TransfersSoFar(cfg, ps[..|ps| - 1], k) + Transfers(Checked(cfg, ps).1, k)
  }

  /** Over any packets a flow raises one event if it ever reaches the threshold, and none otherwise. */
  lemma {:induction false} TransferExactlyOnce(cfg: A.Config, ps: seq<PacketInfo>, k: FlowKey)
    ensures TransfersSoFar(cfg, ps, k) == if Reached(cfg, ps, k) then 1 else 0
  {
    if ps != [] {
      TransferExactlyOnce(cfg, ps[..|ps| - 1], k);
      TransferAtCrossing(cfg, ps, k);
    }
  }

  // ---- behavioral deviations ----

  predicate NonNegative(m: B.Metrics) {
    m.packets.variance >= 0.0 && m.bytes.variance >= 0.0
  }

  predicate AllNonNegative(hosts: map<string, B.Metrics>) {
    forall ip | ip in hosts :: NonNegative(hosts[ip])
  }

  /** Smoothing factor in [0, 1] and the multiplier large enough for it; the defaults qualify. */
  predicate Calm(cfg: B.Config) {
    0.0 <= cfg.alpha <= 1.0 && 0.0 <= cfg.sigmaK && cfg.sigmaK * cfg.sigmaK * cfg.alpha >= 1.0 - cfg.alpha
  }

  lemma DefaultIsCalm()
    ensures Calm(B.DEFAULT)
  {
  }

  lemma ObserveKeepsNonNegative(cfg: Config, hosts: map<string, B.Metrics>, ip: string, t: Talker, now: Time)
    requires 0.0 <= cfg.baseline.alpha <= 1.0 && AllNonNegative(hosts)
    ensures AllNonNegative(ObserveTalker(cfg, hosts, ip, t, now).0)
  {
    var m := B.Current(hosts, ip, PacketReading(t), ByteReading(t), 1.0, now);
    B.VarianceStaysNonNegative(cfg.baseline.alpha, m.packets, PacketReading(t));
    B.VarianceStaysNonNegative(cfg.baseline.alpha, m.bytes, ByteReading(t));
  }

  lemma {:induction false} ObserveAllKeepsNonNegative(cfg: Config, talkers: map<string, Talker>,
                                                      hosts: map<string, B.Metrics>, order: seq<string>, now: Time)
    requires 0.0 <= cfg.baseline.alpha <= 1.0 && AllNonNegative(hosts)
    ensures AllNonNegative(ObserveAll(cfg, talkers, hosts, order, now).0)
  {
    if order != [] {
      var init, ip := order[..|order| - 1], order[|order| - 1];
      ObserveAllKeepsNonNegative(cfg, talkers, hosts, init, now);
      ObserveKeepsNonNegative(cfg, ObserveAll(cfg, talkers, hosts, init, now).0, ip, TalkerAt(talkers, ip), now);
    }
  }

  lemma {:induction false} RunKeepsNonNegative(cfg: Config, s: Stats, ops: seq<Op>)
    requires 0.0 <= cfg.baseline.alpha <= 1.0 && AllNonNegative(s.hosts)
    ensures AllNonNegative(Run(cfg, s, ops).hosts)
  {
    if ops != [] {
      var before, op := ops[..|ops| - 1], ops[|ops| - 1];
      RunKeepsNonNegative(cfg, s, before);
      var t := Run(cfg, s, before);
      if op.SecondTick? {
        ObserveAllKeepsNonNegative(cfg, t.talkers, t.hosts, op.order, op.now);
      }
    }
  }

  /** A tick observes each host once, on its own record: the others' observations do not touch it. */
  lemma {:induction false} ObserveAllAt(cfg: Config, talkers: map<string, Talker>, hosts: map<string, B.Metrics>,
                                        order: seq<string>, now: Time, ip: string)
    requires forall i, j | 0 <= i < j < |order| :: order[i] != order[j]
    ensures var (h, es) := ObserveAll(cfg, talkers, hosts, order, now);
            var (h1, es1) := ObserveTalker(cfg, hosts, ip, TalkerAt(talkers, ip), now);
            && (ip in order ==> ip in h && h[ip] == h1[ip])
            && (ip !in order ==> (ip in h <==> ip in hosts) && (ip in hosts ==> h[ip] == hosts[ip]))
            && forall e | e in es && e.source == ip :: ip in order && e in es1
  {
    if order != [] {
      LastOnce(order, ip);
      ObserveAllAt(cfg, talkers, hosts, order[..|order| - 1], now, ip);
    }
  }

  lemma LastOnce(order: seq<string>, ip: string)
    requires order != [] && forall i, j | 0 <= i < j < |order| :: order[i] != order[j]
    ensures var init, last := order[..|order| - 1], order[|order| - 1];
            && (forall i, j | 0 <= i < j < |init| :: init[i] != init[j])
            && (ip in order <==> ip in init || ip == last)
            && last !in init
  {
  }

  lemma PacketLeavesHost(cfg: Config, s: Stats, p: PacketInfo, ip: string)
    ensures var t := AddPacket(cfg, s, p).0;
            && t.hosts == s.hosts
            && (ip in s.talkers ==> ip in t.talkers)
            && (p.srcIP != Some(ip) && p.dstIP != Some(ip) ==> TalkerAt(t.talkers, ip) == TalkerAt(s.talkers, ip))
  {
  }

  /** A host at two consecutive ticks, `ps` in between. */
  lemma {:induction false} PacketsLeaveHost(cfg: Config, s: Stats, ps: seq<PacketInfo>, ip: string)
    ensures var t := Run(cfg, s, Ops(ps));
            && t.hosts == s.hosts
            && (ip in s.talkers ==> ip in t.talkers)
            && (Count(ps, From(ip)) == Count(ps, To(ip)) == 0 ==> TalkerAt(t.talkers, ip) == TalkerAt(s.talkers, ip))
  {
    var ops := Ops(ps);
    if ps != [] {
      var init, p := ps[..|ps| - 1], ps[|ps| - 1];
      assert ops[..|ops| - 1] == Ops(init);
      PacketsLeaveHost(cfg, s, init, ip);
      var before := Run(cfg, s, Ops(init));
      assert Run(cfg, s, ops) == AddPacket(cfg, before, p).0;
      PacketLeavesHost(cfg, before, p, ip);
    }
  }

  function Ops(ps: seq<PacketInfo>): seq<Op> {
    seq(|ps|, i requires 0 <= i < |ps| => Packet(ps[i]))
  }

  /** The event of kind BEHAVIORAL_DEVIATION on packets or on bytes needs the host's total of the previous tick,
      the reading the test was last fed, to be strictly exceeded. */
  lemma AlertsNeedRise(cfg: Config, s: Stats, ps: seq<PacketInfo>, o1: seq<string>, t1: Time, o2: seq<string>,
                       t2: Time, ip: string, e: Event)
    requires B.IsSqrt(cfg.sqrt) && Calm(cfg.baseline) && AllNonNegative(s.hosts)
    requires ip in s.talkers && Enumerates(o1, s.talkers.Keys)
    requires var a := Run(cfg, Tick(cfg, s, o1, t1).0, Ops(ps));
             Enumerates(o2, a.talkers.Keys) && e in Tick(cfg, a, o2, t2).1 && e.source == ip
    ensures var t, t' := TalkerAt(s.talkers, ip), TalkerAt(Run(cfg, Tick(cfg, s, o1, t1).0, Ops(ps)).talkers, ip);
            && (e.PacketRate? ==> PacketReading(t') > PacketReading(t))
            && (e.ByteRate? ==> ByteReading(t') > ByteReading(t))
            && Behavioral(e)
  {
    var b := Tick(cfg, s, o1, t1).0;
    var a := Run(cfg, b, Ops(ps));
    var t, t' := TalkerAt(s.talkers, ip), TalkerAt(a.talkers, ip);
    ObserveAllAt(cfg, s.talkers, s.hosts, o1, t1, ip);
    PacketsLeaveHost(cfg, b, ps, ip);
    ObserveAllAt(cfg, a.talkers, a.hosts, o2, t2, ip);
    var m := B.Current(s.hosts, ip, PacketReading(t), ByteReading(t), 1.0, t1);
    AlertOnRise(cfg, m, PacketReading(t), ByteReading(t), t1, PacketReading(t'), ByteReading(t'), t2, ip, e);
  }

  lemma EventExceeds(cfg: Config, m: B.Metrics, ip: string, p: real, b: real, now: Time, e: Event)
    requires e in B.Alerts(cfg.baseline, cfg.sqrt, cfg.startTime, m, ip, p, b, now)
    ensures Behavioral(e)
    ensures e.PacketRate? ==> B.Exceeds(cfg.sqrt, cfg.baseline.sigmaK, B.PACKETS_FLOOR, m.packets, p)
    ensures e.ByteRate? ==> B.Exceeds(cfg.sqrt, cfg.baseline.sigmaK, B.BYTES_FLOOR, m.bytes, b)
  {
  }

  lemma AlertOnRise(cfg: Config, m: B.Metrics, p1: real, b1: real, t1: Time, p2: real, b2: real, t2: Time, ip: string,
                    e: Event)
    requires B.IsSqrt(cfg.sqrt) && Calm(cfg.baseline) && NonNegative(m)
    requires e in B.Alerts(cfg.baseline, cfg.sqrt, cfg.startTime, B.Absorbed(cfg.baseline, m, p1, b1, 1.0, t1),
                           ip, p2, b2, t2)
    ensures Behavioral(e) && (e.PacketRate? ==> p2 > p1) && (e.ByteRate? ==> b2 > b1)
  {
    EventExceeds(cfg, B.Absorbed(cfg.baseline, m, p1, b1, 1.0, t1), ip, p2, b2, t2, e);
    if p2 <= p1 {
      B.NoRepeatedAlert(cfg.sqrt, cfg.baseline.alpha, cfg.baseline.sigmaK, B.PACKETS_FLOOR, m.packets, p1, p2);
    }
    if b2 <= b1 {
      B.NoRepeatedAlert(cfg.sqrt, cfg.baseline.alpha, cfg.baseline.sigmaK, B.BYTES_FLOOR, m.bytes, b1, b2);
    }
  }

  /** Over every run, a host observed at one tick and touched by no packet before the next raises no event at it. */
  lemma IdleHostsStaySilent(cfg: Config, hosts: map<string, B.Metrics>, ops: seq<Op>, ps: seq<PacketInfo>,
                            o1: seq<string>, t1: Time, o2: seq<string>, t2: Time, ip: string)
    requires B.IsSqrt(cfg.sqrt) && Calm(cfg.baseline) && AllNonNegative(hosts)
    requires var s := Run(cfg, Initial(hosts), ops);
             var a := Run(cfg, Tick(cfg, s, o1, t1).0, Ops(ps));
             ip in s.talkers && Enumerates(o1, s.talkers.Keys) && Enumerates(o2, a.talkers.Keys)
    requires Count(ps, From(ip)) == Count(ps, To(ip)) == 0
    ensures var s := Run(cfg, Initial(hosts), ops);
            var a := Run(cfg, Tick(cfg, s, o1, t1).0, Ops(ps));
            forall e | e in Tick(cfg, a, o2, t2).1 :: e.source != ip
  {
    var s := Run(cfg, Initial(hosts), ops);
    RunKeepsNonNegative(cfg, Initial(hosts), ops);
    var b := Tick(cfg, s, o1, t1).0;
    var a := Run(cfg, b, Ops(ps));
    PacketsLeaveHost(cfg, b, ps, ip);
    forall e | e in Tick(cfg, a, o2, t2).1 ensures e.source != ip {
      if e.source == ip {
        AlertsNeedRise(cfg, s, ps, o1, t1, o2, t2, ip, e);
      }
    }
  }

  /** In particular at the default constants. */
  lemma DefaultsKeepIdleHostsSilent(cfg: Config, hosts: map<string, B.Metrics>, ops: seq<Op>,
                                    ps: seq<PacketInfo>, o1: seq<string>, t1: Time, o2: seq<string>, t2: Time,
                                    ip: string)
    requires B.IsSqrt(cfg.sqrt) && cfg.baseline == B.DEFAULT && AllNonNegative(hosts)
    requires var s := Run(cfg, Initial(hosts), ops);
             var a := Run(cfg, Tick(cfg, s, o1, t1).0, Ops(ps));
             ip in s.talkers && Enumerates(o1, s.talkers.Keys) && Enumerates(o2, a.talkers.Keys)
    requires Count(ps, From(ip)) == Count(ps, To(ip)) == 0
    ensures var s := Run(cfg, Initial(hosts), ops);
            var a := Run(cfg, Tick(cfg, s, o1, t1).0, Ops(ps));
            forall e | e in Tick(cfg, a, o2, t2).1 :: e.source != ip
  {
    DefaultIsCalm();
    IdleHostsStaySilent(cfg, hosts, ops, ps, o1, t1, o2, t2, ip);
  }

  // ---- a host's record over a run ----

  /** What a tick found of a host, and when. */
  datatype Sight = Sight(t: Talker, now: Time)

  /** What the ticks of a run found of the host. */
  function Seen(cfg: Config, hosts: map<string, B.Metrics>, ops: seq<Op>, ip: string): seq<Sight> {
    if ops == [] then []
    else
      var before, op := ops[..|ops| - 1], ops[|ops| - 1];
      Seen(cfg, hosts, before, ip)
      + (if op.SecondTick? && ip in op.order
         then [Sight(TalkerAt(Run(cfg, Initial(hosts), before).talkers, ip), op.now)] else [])
  }

  /** The records when nothing but this host is ever observed. */
  function ObserveEach(cfg: Config, hosts: map<string, B.Metrics>, ip: string,
                       seen: seq<Sight>): map<string, B.Metrics> {
    if seen == [] then hosts
    else
      var sight := seen[|seen| - 1];
      ObserveTalker(cfg, ObserveEach(cfg, hosts, ip, seen[..|seen| - 1]), ip, sight.t, sight.now).0
  }

  /** Every tick visits no talker twice. */
  ghost predicate VisitOnce(ops: seq<Op>) {
    forall op | op in ops && op.SecondTick? :: forall i, j | 0 <= i < j < |op.order| :: op.order[i] != op.order[j]
  }

  ghost predicate SameRecord(a: map<string, B.Metrics>, b: map<string, B.Metrics>, ip: string) {
    (ip in a <==> ip in b) && (ip in a ==> a[ip] == b[ip])
  }

  /** Over every run a host's record is what its own observations make of it, whatever other hosts do. */
  lemma {:induction false} HostsObservedApart(cfg: Config, loaded: map<string, B.Metrics>, ops: seq<Op>, ip: string)
    requires VisitOnce(ops)
    ensures SameRecord(Run(cfg, Initial(loaded), ops).hosts,
                       ObserveEach(cfg, loaded, ip, Seen(cfg, loaded, ops, ip)), ip)
  {
    if ops != [] {
      var before, op := ops[..|ops| - 1], ops[|ops| - 1];
      assert op in ops && forall o | o in before :: o in ops;
      HostsObservedApart(cfg, loaded, before, ip);
      var s := Run(cfg, Initial(loaded), before);
      StepObserves(cfg, loaded, s, op, Seen(cfg, loaded, before, ip), ip, Step(cfg, s, op).0,
                   Seen(cfg, loaded, ops, ip));
    }
  }

  lemma StepObserves(cfg: Config, loaded: map<string, B.Metrics>, s: Stats, op: Op, seen: seq<Sight>, ip: string,
                     t: Stats, seen': seq<Sight>)
    requires SameRecord(s.hosts, ObserveEach(cfg, loaded, ip, seen), ip) && t == Step(cfg, s, op).0
    requires op.SecondTick? ==> forall i, j | 0 <= i < j < |op.order| :: op.order[i] != op.order[j]
    requires seen' == seen + if op.SecondTick? && ip in op.order then [Sight(TalkerAt(s.talkers, ip), op.now)] else []
    ensures SameRecord(t.hosts, ObserveEach(cfg, loaded, ip, seen'), ip)
  {
    if op.SecondTick? {
      var sight := Sight(TalkerAt(s.talkers, ip), op.now);
      TickKeepsSame(cfg, s.talkers, s.hosts, ObserveEach(cfg, loaded, ip, seen), op.order, op.now, ip);
      SeenOnce(cfg, loaded, ip, seen, sight);
    }
    assert seen + [] == seen;
  }

  lemma TickKeepsSame(cfg: Config, talkers: map<string, Talker>, hosts: map<string, B.Metrics>,
                      own: map<string, B.Metrics>, order: seq<string>, now: Time, ip: string)
    requires (forall i, j | 0 <= i < j < |order| :: order[i] != order[j]) && SameRecord(hosts, own, ip)
    ensures SameRecord(ObserveAll(cfg, talkers, hosts, order, now).0,
                       if ip in order then ObserveTalker(cfg, own, ip, TalkerAt(talkers, ip), now).0 else own, ip)
  {
    ObserveAllAt(cfg, talkers, hosts, order, now, ip);
  }

  lemma SeenOnce(cfg: Config, hosts: map<string, B.Metrics>, ip: string, seen: seq<Sight>, sight: Sight)
    ensures ObserveEach(cfg, hosts, ip, seen + [sight])
         == ObserveTalker(cfg, ObserveEach(cfg, hosts, ip, seen), ip, sight.t, sight.now).0
  {
    assert (seen + [sight])[..|seen|] == seen;
  }

  /** What `n` steps toward 1 leave of a distance to it. */
  function Faded(a: real, distance: real, n: nat): real {
    if n == 0 then distance else (1.0 - a) * Faded(a, distance, n - 1)
  }

  lemma MixTowardOne(a: real, u: real)
    ensures B.Mix(a, 1.0, u) - 1.0 == (1.0 - a) * (u - 1.0)
  {
  }

  lemma {:induction false} FadedZero(a: real, n: nat)
    ensures Faded(a, 0.0, n) == 0.0
  {
    if n > 0 {
      FadedZero(a, n - 1);
    }
  }

  /** Sample count and ports mean a host starts from. */
  function StartSamples(loaded: map<string, B.Metrics>, ip: string): nat {
    if ip in loaded then loaded[ip].samples else 0
  }

  function StartPorts(loaded: map<string, B.Metrics>, ip: string): real {
    if ip in loaded then loaded[ip].portsMean else 1.0
  }

  /** The record of a host some `n` ticks after the start. */
  predicate CountsTicks(cfg: Config, loaded: map<string, B.Metrics>, ip: string, m: B.Metrics, n: nat) {
    && m.samples == StartSamples(loaded, ip) + n
    && m.portsMean == 1.0 + Faded(cfg.baseline.alpha, StartPorts(loaded, ip) - 1.0, n)
  }

  lemma CountedMore(cfg: Config, loaded: map<string, B.Metrics>, ip: string, m: B.Metrics, n: nat, sight: Sight)
    requires CountsTicks(cfg, loaded, ip, m, n)
    ensures CountsTicks(cfg, loaded, ip,
                        B.Absorbed(cfg.baseline, m, PacketReading(sight.t), ByteReading(sight.t), 1.0, sight.now),
                        n + 1)
  {
    MixTowardOne(cfg.baseline.alpha, m.portsMean);
  }

  lemma {:induction false} EachIsCounted(cfg: Config, loaded: map<string, B.Metrics>, ip: string, seen: seq<Sight>)
    ensures var own := ObserveEach(cfg, loaded, ip, seen);
            && (ip in own <==> ip in loaded || seen != [])
            && (ip in own ==> CountsTicks(cfg, loaded, ip, own[ip], |seen|))
  {
    if seen == [] {
      assert ip in loaded ==> CountsTicks(cfg, loaded, ip, loaded[ip], 0);
    } else {
      var init, sight := seen[..|seen| - 1], seen[|seen| - 1];
      EachIsCounted(cfg, loaded, ip, init);
      var own := ObserveEach(cfg, loaded, ip, init);
      var m := B.Current(own, ip, PacketReading(sight.t), ByteReading(sight.t), 1.0, sight.now);
      FadedZero(cfg.baseline.alpha, 0);
      CountedMore(cfg, loaded, ip, m, |init|, sight);
    }
  }

  lemma LastObserved(cfg: Config, loaded: map<string, B.Metrics>, ip: string, seen: seq<Sight>)
    ensures seen != [] ==> ip in ObserveEach(cfg, loaded, ip, seen)
                           && ObserveEach(cfg, loaded, ip, seen)[ip].lastUpdated == seen[|seen| - 1].now
  {
  }

  /** Over every run a record exists for exactly the hosts loaded or observed by some tick, its sample count has grown
      by the number of those ticks, the last of which it remembers, and its ports mean only fades toward 1: every tick
      feeds it the constant 1. */
  lemma RecordsCountTicks(cfg: Config, loaded: map<string, B.Metrics>, ops: seq<Op>, ip: string)
    requires VisitOnce(ops)
    ensures var hosts, ticks := Run(cfg, Initial(loaded), ops).hosts, |Seen(cfg, loaded, ops, ip)|;
            && (ip in hosts <==> ip in loaded || ticks > 0)
            && (ip in hosts ==> CountsTicks(cfg, loaded, ip, hosts[ip], ticks))
            && (ticks > 0 ==> hosts[ip].lastUpdated == Seen(cfg, loaded, ops, ip)[ticks - 1].now)
  {
    HostsObservedApart(cfg, loaded, ops, ip);
    EachIsCounted(cfg, loaded, ip, Seen(cfg, loaded, ops, ip));
    LastObserved(cfg, loaded, ip, Seen(cfg, loaded, ops, ip));
  }

  /** A host alerts at a tick only after more than ten samples, loaded ones and earlier ticks together. */
  lemma NoAlertBeforeSamples(cfg: Config, loaded: map<string, B.Metrics>, ops: seq<Op>, order: seq<string>, now: Time,
                             e: Event)
    requires VisitOnce(ops + [SecondTick(order, now)])
    requires e in Tick(cfg, Run(cfg, Initial(loaded), ops), order, now).1
    ensures StartSamples(loaded, e.source) + |Seen(cfg, loaded, ops, e.source)| > 10
  {
    var s := Run(cfg, Initial(loaded), ops);
    assert SecondTick(order, now) in ops + [SecondTick(order, now)];
    assert forall o | o in ops :: o in ops + [SecondTick(order, now)];
    RecordsCountTicks(cfg, loaded, ops, e.source);
    ObserveAllAt(cfg, s.talkers, s.hosts, order, now, e.source);
  }

  function PacketReadings(seen: seq<Sight>): seq<real> {
    seq(|seen|, i requires 0 <= i < |seen| => PacketReading(seen[i].t))
  }

  function ByteReadings(seen: seq<Sight>): seq<real> {
    seq(|seen|, i requires 0 <= i < |seen| => ByteReading(seen[i].t))
  }

  /** A host that was not loaded keeps mean and variance of exactly the totals the ticks have seen. */
  lemma {:induction false} RecordIsSeries(cfg: Config, loaded: map<string, B.Metrics>, ip: string, seen: seq<Sight>)
    requires ip !in loaded && seen != []
    ensures var own := ObserveEach(cfg, loaded, ip, seen);
            && ip in own
            && own[ip].packets == B.SeriesOf(cfg.baseline.alpha, PacketReadings(seen))
            && own[ip].bytes == B.SeriesOf(cfg.baseline.alpha, ByteReadings(seen))
  {
    var init := seen[..|seen| - 1];
    assert PacketReadings(seen)[..|init|] == PacketReadings(init);
    assert ByteReadings(seen)[..|init|] == ByteReadings(init);
    if init != [] {
      RecordIsSeries(cfg, loaded, ip, init);
    }
  }

  lemma SteadyNext(xs: seq<real>, y: real, r: real)
    requires xs != [] && G.Steady(xs + [y], r)
    ensures G.Steady(xs, r) && y == xs[|xs| - 1] + r
  {
    assert (xs + [y])[..|xs|] == xs;
  }

  lemma SteadyIsQuiet(sqrt: real -> real, floor: real, xs: seq<real>, y: real, r: real)
    requires B.IsSqrt(sqrt) && |xs| > 4
    ensures G.Steady(xs + [y], r) ==> !B.Exceeds(sqrt, G.SIGMA_K, floor, B.SeriesOf(G.ALPHA, xs), y)
  {
    if G.Steady(xs + [y], r) {
      SteadyNext(xs, y, r);
      G.SteadyGrowthExactly(sqrt, floor, xs, r);
    }
  }

  /** An event at a tick comes from the host's own record, after more than ten samples. */
  lemma TickEvent(cfg: Config, loaded: map<string, B.Metrics>, ops: seq<Op>, order: seq<string>, now: Time, e: Event)
    requires VisitOnce(ops + [SecondTick(order, now)])
    requires e in Tick(cfg, Run(cfg, Initial(loaded), ops), order, now).1
    ensures var s, ip := Run(cfg, Initial(loaded), ops), e.source;
            && StartSamples(loaded, ip) + |Seen(cfg, loaded, ops, ip)| > 10
            && SameRecord(s.hosts, ObserveEach(cfg, loaded, ip, Seen(cfg, loaded, ops, ip)), ip)
            && e in ObserveTalker(cfg, s.hosts, ip, TalkerAt(s.talkers, ip), now).1
  {
    var s := Run(cfg, Initial(loaded), ops);
    assert SecondTick(order, now) in ops + [SecondTick(order, now)];
    assert forall o | o in ops :: o in ops + [SecondTick(order, now)];
    NoAlertBeforeSamples(cfg, loaded, ops, order, now, e);
    HostsObservedApart(cfg, loaded, ops, e.source);
    ObserveAllAt(cfg, s.talkers, s.hosts, order, now, e.source);
  }

  /** Over every run, a host whose total has changed by the same amount from tick to tick since it was first seen raises
      no event on that total: the sample gate hides the few ticks in which it would. */
  lemma SteadyHostsStaySilent(cfg: Config, loaded: map<string, B.Metrics>, ops: seq<Op>, order: seq<string>, now: Time,
                              r: real, e: Event)
    requires B.IsSqrt(cfg.sqrt) && cfg.baseline.alpha == G.ALPHA && cfg.baseline.sigmaK == G.SIGMA_K
    requires VisitOnce(ops + [SecondTick(order, now)]) && e.source !in loaded
    requires e in Tick(cfg, Run(cfg, Initial(loaded), ops), order, now).1
    ensures var seen, t := Seen(cfg, loaded, ops, e.source), TalkerAt(Run(cfg, Initial(loaded), ops).talkers, e.source);
            && (G.Steady(PacketReadings(seen) + [PacketReading(t)], r) ==> !e.PacketRate?)
            && (G.Steady(ByteReadings(seen) + [ByteReading(t)], r) ==> !e.ByteRate?)
  {
    var s, seen := Run(cfg, Initial(loaded), ops), Seen(cfg, loaded, ops, e.source);
    var t := TalkerAt(s.talkers, e.source);
    TickEvent(cfg, loaded, ops, order, now, e);
    assert |PacketReadings(seen)| == |ByteReadings(seen)| == |seen| > 10;
    RecordIsSeries(cfg, loaded, e.source, seen);
    EventExceeds(cfg, s.hosts[e.source], e.source, PacketReading(t), ByteReading(t), now, e);
    SteadyIsQuiet(cfg.sqrt, B.PACKETS_FLOOR, PacketReadings(seen), PacketReading(t), r);
    SteadyIsQuiet(cfg.sqrt, B.BYTES_FLOOR, ByteReadings(seen), ByteReading(t), r);
  }

  // ---- the same over the event log of a run ----

  lemma {:induction false} TicksRaiseDeviations(cfg: Config, talkers: map<string, Talker>,
                                                hosts: map<string, B.Metrics>, order: seq<string>, now: Time)
    ensures forall e | e in ObserveAll(cfg, talkers, hosts, order, now).1 :: Behavioral(e)
  {
    if order != [] {
      TicksRaiseDeviations(cfg, talkers, hosts, order[..|order| - 1], now);
    }
  }

  lemma {:induction false} DeviationsReportNothingElse(es: seq<Event>, ip: string, k: FlowKey)
    requires forall e | e in es :: Behavioral(e)
    ensures ReportsFor(es, ip) == [] && Transfers(es, k) == 0
  {
    if es != [] {
      assert Behavioral(es[0]);
      DeviationsReportNothingElse(es[1..], ip, k);
    }
  }

  lemma {:induction false} LogReports(cfg: Config, hosts: map<string, B.Metrics>, ops: seq<Op>, ip: string, k: FlowKey)
    ensures ReportsFor(Log(cfg, Initial(hosts), ops), ip) == ScanReports(cfg.anomaly, PacketsOf(ops), ip)
    ensures Transfers(Log(cfg, Initial(hosts), ops), k) == TransfersSoFar(cfg.anomaly, PacketsOf(ops), k)
  {
    if ops != [] {
      var before, op := ops[..|ops| - 1], ops[|ops| - 1];
      var s := Run(cfg, Initial(hosts), before);
      var log, es := Log(cfg, Initial(hosts), before), Step(cfg, s, op).1;
      LogReports(cfg, hosts, before, ip, k);
      ReportsForConcat(log, es, ip);
      TransfersConcat(log, es, k);
      IndexesAreFolds(cfg, hosts, before);
      if op.Packet? {
        PacketsOfSnoc(ops);
        assert es == Checked(cfg.anomaly, PacketsOf(ops)).1;
      } else {
        TicksRaiseDeviations(cfg, s.talkers, s.hosts, op.order, op.now);
        DeviationsReportNothingElse(es, ip, k);
        assert PacketsOf(ops) == PacketsOf(before);
      }
    }
  }

  /** Over every run of packets and ticks: one LARGE_TRANSFER for a flow that reached the threshold and none for
      any other; every PORT_SCAN of a host reports exactly the threshold, and their number is bounded by its checks. */
  lemma RunAlerts(cfg: Config, hosts: map<string, B.Metrics>, ops: seq<Op>, ip: string, k: FlowKey)
    ensures var log, ps := Log(cfg, Initial(hosts), ops), PacketsOf(ops);
            && Transfers(log, k) == (if Reached(cfg.anomaly, ps, k) then 1 else 0)
            && (forall r | r in ReportsFor(log, ip) :: r == A.AlertPorts(cfg.anomaly))
            && |ReportsFor(log, ip)| * A.AlertPorts(cfg.anomaly) <= |ChecksOf(ps, ip)|
  {
    LogReports(cfg, hosts, ops, ip, k);
    TransferExactlyOnce(cfg.anomaly, PacketsOf(ops), k);
    ScanAlertRate(cfg.anomaly, PacketsOf(ops), ip);
  }
}
