/** The event log of every run, stated outright: which events each packet and each tick raise, and what they carry. */
module Alerts {
  import opened Packets
  import opened StatsModel
  import opened Detections
  import A = Anomaly
  import B = Baseline

  // ---- the answer to a packet ----

  /** The last packet is a check that brings the surviving checks of its host to the threshold. */
  ghost predicate Scans(cfg: A.Config, ps: seq<PacketInfo>)
    requires ps != []
  {
    var p := ps[|ps| - 1];
    p.srcIP.Some? && IsCheck(p, p.srcIP.value) && A.Raised(cfg, ChecksOf(ps, p.srcIP.value))
  }

  /** The last packet brings its flow to the threshold. */
  predicate Crosses(cfg: A.Config, ps: seq<PacketInfo>)
    requires ps != []
  {
    var p := ps[|ps| - 1];
    HasFlow(p) && Reached(cfg, ps, KeyOf(p)) && !Reached(cfg, ps[..|ps| - 1], KeyOf(p))
  }

  /** `domain` is the name asked for, without the dot that may end it. */
  predicate Names(query: string, domain: string) {
    query == domain + "." || (query == domain && (query == "" || query[|query| - 1] != '.'))
  }

  /** High entropy, more than 50 characters, or at least five dots. */
  predicate Suspicious(cfg: A.Config, domain: string) {
    cfg.entropy(domain) > cfg.dnsEntropyThreshold || |domain| > 50 || multiset(domain)['.'] >= 5
  }

  function ReasonsFor(cfg: A.Config, domain: string): seq<DnsReason> {
    (if cfg.entropy(domain) > cfg.dnsEntropyThreshold then [HighEntropy(cfg.entropy(domain))] else [])
    + (if |domain| > 50 then [TooLong(|domain|)] else [])
    + (if multiset(domain)['.'] >= 5 then [ManySubdomains(multiset(domain)['.'])] else [])
  }

  function DnsAnswer(cfg: A.Config, p: PacketInfo): seq<Event> {
    var domain := A.Domain(p.dnsQuery);
    if p.srcIP.Some? && p.protocol == "DNS" && p.dnsQuery != "" && Suspicious(cfg, domain)
    then [SuspiciousDns(p.timestamp, p.srcIP.value, domain, ReasonsFor(cfg, domain))] else []
  }

  /** A name query raises SUSPICIOUS_DNS, with every reason there is, exactly when the name is suspicious. */
  lemma DnsExactly(cfg: A.Config, p: PacketInfo)
    ensures Names(p.dnsQuery, A.Domain(p.dnsQuery)) && A.CheckDns(cfg, p) == DnsAnswer(cfg, p)
  {
  }

  /** What the detector raises for the last packet: a scan, a transfer and a suspicious name, in this order. */
  ghost function Answer(cfg: A.Config, ps: seq<PacketInfo>): seq<Event>
    requires ps != []
  {
    var p := ps[|ps| - 1];
    (if Scans(cfg, ps)
     then [PortScan(p.timestamp, p.srcIP.value, if cfg.scanThreshold <= 1 then 1 else cfg.scanThreshold)] else [])
    + (if Crosses(cfg, ps)
       then [LargeTransfer(p.timestamp, KeyOf(p).src, KeyOf(p), Bytes(ps, Within(KeyOf(p))))] else [])
    + DnsAnswer(cfg, p)
  }

  lemma ScanAnswer(cfg: A.Config, ps: seq<PacketInfo>)
    requires ps != []
    ensures var p, d := ps[|ps| - 1], DetectorOf(cfg, ps[..|ps| - 1]);
            A.CheckScan(cfg, d, p).1
              == if Scans(cfg, ps)
                 then [PortScan(p.timestamp, p.srcIP.value, if cfg.scanThreshold <= 1 then 1 else cfg.scanThreshold)]
                 else []
  {
    var init, p := ps[..|ps| - 1], ps[|ps| - 1];
    if p.srcIP.Some? && IsCheck(p, p.srcIP.value) {
      var ip := p.srcIP.value;
      var cs := ChecksOf(init, ip);
      var c := A.Stamp(p.dstPort, p.timestamp);
      HostsScanApart(cfg, init, ip);
      assert ChecksOf(ps, ip) == cs + [c] && (cs + [c])[..|cs|] == cs;
      A.AlertsExactly(cfg, cs + [c]);
      A.ScanLaws(cfg, cs);
      A.StepLaws(cfg, A.ScanRun(cfg, cs).entries, c);
    }
  }

  lemma TransferAnswer(cfg: A.Config, ps: seq<PacketInfo>, d: A.State)
    requires ps != [] && d.flagged == DetectorOf(cfg, ps[..|ps| - 1]).flagged
    ensures var p := ps[|ps| - 1];
            A.CheckTransfer(cfg, d, p, Shown(FlowsOf(ps), p)).1
              == if Crosses(cfg, ps)
                 then [LargeTransfer(p.timestamp, KeyOf(p).src, KeyOf(p), Bytes(ps, Within(KeyOf(p))))] else []
  {
    var p := ps[|ps| - 1];
    if HasFlow(p) {
      TransferAtCrossing(cfg, ps[..|ps| - 1], KeyOf(p));
      FlowsAgree(ps, KeyOf(p));
    }
  }

  /** Over any packets the detector answers the last one exactly so. */
  lemma AnswerExactly(cfg: A.Config, ps: seq<PacketInfo>)
    requires ps != []
    ensures Checked(cfg, ps).1 == Answer(cfg, ps)
  {
    var p, d := ps[|ps| - 1], DetectorOf(cfg, ps[..|ps| - 1]);
    ScanAnswer(cfg, ps);
    TransferAnswer(cfg, ps, A.CheckScan(cfg, d, p).0);
    DnsExactly(cfg, p);
  }

  // ---- the answer to a tick ----

  /** The packets to and from the host, and their bytes. */
  function PacketTotal(ps: seq<PacketInfo>, ip: string): real {
    (Count(ps, From(ip)) + Count(ps, To(ip))) as real
  }

  function ByteTotal(ps: seq<PacketInfo>, ip: string): real {
    (Bytes(ps, From(ip)) + Bytes(ps, To(ip))) as real
  }

  /** The readings of a host are its totals so far, sent and received, not rates. */
  lemma ReadingsAgree(ps: seq<PacketInfo>, ip: string)
    ensures PacketReading(TalkerAt(TalkersOf(ps), ip)) == PacketTotal(ps, ip)
    ensures ByteReading(TalkerAt(TalkersOf(ps), ip)) == ByteTotal(ps, ip)
  {
    TalkersAgree(ps, ip);
    SameReading(TalkerAt(TalkersOf(ps), ip), Count(ps, From(ip)), Count(ps, To(ip)), Bytes(ps, From(ip)),
                Bytes(ps, To(ip)));
  }

  lemma SameReading(t: Talker, sent: nat, received: nat, bytesSent: nat, bytesReceived: nat)
    requires t.packetsSent == sent && t.packetsRecv == received
    requires t.bytesSent == bytesSent && t.bytesRecv == bytesReceived
    ensures PacketReading(t) == (sent + received) as real && ByteReading(t) == (bytesSent + bytesReceived) as real
  {
  }

  /** The totals at the ticks that observed the host. */
  function PacketTotals(ops: seq<Op>, ip: string): seq<real> {
    if ops == [] then []
    else
      var before, op := ops[..|ops| - 1], ops[|ops| - 1];
      PacketTotals(before, ip)
      + (if op.SecondTick? && ip in op.order then [PacketTotal(PacketsOf(before), ip)] else [])
  }

  function ByteTotals(ops: seq<Op>, ip: string): seq<real> {
    if ops == [] then []
    else
      var before, op := ops[..|ops| - 1], ops[|ops| - 1];
      ByteTotals(before, ip)
      + (if op.SecondTick? && ip in op.order then [ByteTotal(PacketsOf(before), ip)] else [])
  }

  lemma ReadingNow(cfg: Config, loaded: map<string, B.Metrics>, ops: seq<Op>, ip: string)
    ensures var t := TalkerAt(Run(cfg, Initial(loaded), ops).talkers, ip);
            PacketReading(t) == PacketTotal(PacketsOf(ops), ip) && ByteReading(t) == ByteTotal(PacketsOf(ops), ip)
  {
    IndexesAreFolds(cfg, loaded, ops);
    ReadingsAgree(PacketsOf(ops), ip);
  }

  lemma ReadingsSnoc(seen: seq<Sight>, sight: Sight)
    ensures PacketReadings(seen + [sight]) == PacketReadings(seen) + [PacketReading(sight.t)]
    ensures ByteReadings(seen + [sight]) == ByteReadings(seen) + [ByteReading(sight.t)]
  {
  }

  /** The ticks that observed the host have seen these totals. */
  ghost predicate SawTotals(seen: seq<Sight>, ops: seq<Op>, ip: string) {
    PacketReadings(seen) == PacketTotals(ops, ip) && ByteReadings(seen) == ByteTotals(ops, ip)
  }

  lemma TickSaw(seen: seq<Sight>, before: seq<Op>, op: Op, ip: string, sight: Sight, ops: seq<Op>)
    requires SawTotals(seen, before, ip) && ops == before + [op] && op.SecondTick? && ip in op.order
    requires PacketReading(sight.t) == PacketTotal(PacketsOf(before), ip)
    requires ByteReading(sight.t) == ByteTotal(PacketsOf(before), ip)
    ensures SawTotals(seen + [sight], ops, ip)
  {
    ReadingsSnoc(seen, sight);
    assert ops[..|ops| - 1] == before;
  }

  lemma OtherSaw(seen: seq<Sight>, before: seq<Op>, op: Op, ip: string, ops: seq<Op>)
    requires SawTotals(seen, before, ip) && ops == before + [op] && !(op.SecondTick? && ip in op.order)
    ensures SawTotals(seen, ops, ip)
  {
    assert ops[..|ops| - 1] == before;
  }

  lemma SeenNext(cfg: Config, loaded: map<string, B.Metrics>, ops: seq<Op>, ip: string)
    requires ops != []
    ensures var before, op := ops[..|ops| - 1], ops[|ops| - 1];
            Seen(cfg, loaded, ops, ip)
              == if op.SecondTick? && ip in op.order
                 then Seen(cfg, loaded, before, ip)
                      + [Sight(TalkerAt(Run(cfg, Initial(loaded), before).talkers, ip), op.now)]
                 else Seen(cfg, loaded, before, ip)
  {
  }

  /** What the ticks have seen of a host are the totals of the packets before them. */
  lemma {:induction false} TotalsAreSeen(cfg: Config, loaded: map<string, B.Metrics>, ops: seq<Op>, ip: string)
    ensures SawTotals(Seen(cfg, loaded, ops, ip), ops, ip)
  {
    if ops != [] {
      var before, op := ops[..|ops| - 1], ops[|ops| - 1];
      var seen := Seen(cfg, loaded, before, ip);
      assert ops == before + [op];
      TotalsAreSeen(cfg, loaded, before, ip);
      SeenNext(cfg, loaded, ops, ip);
      if op.SecondTick? && ip in op.order {
        ReadingNow(cfg, loaded, before, ip);
        TickSaw(seen, before, op, ip, Sight(TalkerAt(Run(cfg, Initial(loaded), before).talkers, ip), op.now), ops);
      } else {
        OtherSaw(seen, before, op, ip, ops);
      }
    }
  }

  /** What the totals `xs` make of a loaded series, or of none: there the first reading is the mean to start from. */
  function StartOf(loaded: Option<B.Series>, xs: seq<real>, y: real): B.Series {
    if loaded.Some? then loaded.value else B.Series(if xs == [] then y else xs[0], 0.0)
  }

  /** Mean and variance after the totals: the moving average of the totals, and that of their squares minus its
      square. */
  function MeanOf(a: real, start: B.Series, xs: seq<real>): real {
    B.Averaged(a, start.mean, xs)
  }

  function VarianceOf(a: real, start: B.Series, xs: seq<real>): real {
    B.Averaged(a, start.variance + B.Sq(start.mean), B.Squares(xs)) - B.Sq(MeanOf(a, start, xs))
  }

  /** The reading `y` deviates from the totals before it: more than SigmaK deviations above their moving average, the
      deviation being above the floor. */
  predicate Deviates(cfg: B.Config, floor: real, start: B.Series, xs: seq<real>, y: real) {
    B.Above(cfg.sigmaK, floor, MeanOf(cfg.alpha, start, xs), VarianceOf(cfg.alpha, start, xs), y)
  }

  /** More than ten samples, and warmed up: by the time since the start, or by thirty samples. */
  predicate Ready(cfg: Config, loaded: map<string, B.Metrics>, ops: seq<Op>, ip: string, now: Time) {
    var samples := StartSamples(loaded, ip) + |PacketTotals(ops, ip)|;
    samples > 10 && (now - cfg.startTime >= cfg.baseline.warmupSec * SECOND || samples >= 30)
  }

  predicate PacketsDeviate(cfg: Config, loaded: map<string, B.Metrics>, ops: seq<Op>, ip: string) {
    var xs, x := PacketTotals(ops, ip), PacketTotal(PacketsOf(ops), ip);
    Deviates(cfg.baseline, 1.0, StartOf(if ip in loaded then Some(loaded[ip].packets) else None, xs, x), xs, x)
  }

  predicate BytesDeviate(cfg: Config, loaded: map<string, B.Metrics>, ops: seq<Op>, ip: string) {
    var xs, x := ByteTotals(ops, ip), ByteTotal(PacketsOf(ops), ip);
    Deviates(cfg.baseline, 1024.0, StartOf(if ip in loaded then Some(loaded[ip].bytes) else None, xs, x), xs, x)
  }

  /** The deviations of one host at a tick, after the operations before it. */
  function Deviations(cfg: Config, loaded: map<string, B.Metrics>, ops: seq<Op>, ip: string, now: Time): seq<Event> {
    if Ready(cfg, loaded, ops, ip, now)
    then
      (if PacketsDeviate(cfg, loaded, ops, ip) then [PacketRate(now, ip)] else [])
      + (if BytesDeviate(cfg, loaded, ops, ip) then [ByteRate(now, ip)] else [])
    else []
  }

  lemma DeviatesExactly(cfg: B.Config, sqrt: real -> real, floor: real, start: B.Series, xs: seq<real>, y: real)
    requires B.IsSqrt(sqrt) && floor >= 0.0
    ensures B.Exceeds(sqrt, cfg.sigmaK, floor, B.SeriesFrom(cfg.alpha, start, xs), y)
       <==> Deviates(cfg, floor, start, xs, y)
  {
    SeriesAfter(cfg.alpha, start, xs);
    B.ExceedsExactly(sqrt, cfg.sigmaK, floor, B.SeriesFrom(cfg.alpha, start, xs), y);
  }

  lemma SeriesAfter(a: real, start: B.Series, xs: seq<real>)
    ensures B.SeriesFrom(a, start, xs) == B.Series(MeanOf(a, start, xs), VarianceOf(a, start, xs))
  {
    B.SeriesMoments(a, start, start.variance + B.Sq(start.mean), xs);
  }

  /** The record of a host is what its totals make of the loaded series, or of its first reading. */
  lemma {:induction false} RecordFrom(cfg: Config, loaded: map<string, B.Metrics>, ip: string, seen: seq<Sight>,
                                      packets: B.Series, bytes: B.Series)
    requires ip in loaded || seen != []
    requires packets == if ip in loaded then loaded[ip].packets else B.Series(PacketReading(seen[0].t), 0.0)
    requires bytes == if ip in loaded then loaded[ip].bytes else B.Series(ByteReading(seen[0].t), 0.0)
    ensures var own := ObserveEach(cfg, loaded, ip, seen);
            && ip in own
            && own[ip].packets == B.SeriesFrom(cfg.baseline.alpha, packets, PacketReadings(seen))
            && own[ip].bytes == B.SeriesFrom(cfg.baseline.alpha, bytes, ByteReadings(seen))
  {
    if seen != [] {
      var init, sight := seen[..|seen| - 1], seen[|seen| - 1];
      assert seen == init + [sight];
      ReadingsSnoc(init, sight);
      SeriesSnoc(cfg.baseline.alpha, packets, PacketReadings(init), PacketReading(sight.t));
      SeriesSnoc(cfg.baseline.alpha, bytes, ByteReadings(init), ByteReading(sight.t));
      if ip in loaded || init != [] {
        RecordFrom(cfg, loaded, ip, init, packets, bytes);
      }
    }
  }

  lemma SeriesSnoc(a: real, m: B.Series, xs: seq<real>, x: real)
    ensures B.SeriesFrom(a, m, xs + [x]) == B.Update(a, B.SeriesFrom(a, m, xs), x)
    ensures B.SeriesFrom(a, m, []) == m
  {
    assert (xs + [x])[..|xs|] == xs;
  }

  /** What `ObserveHost` answers from a record of that many samples and these two series. */
  lemma AlertsOf(cfg: Config, m: B.Metrics, ip: string, p: real, b: real, now: Time)
    ensures B.Alerts(cfg.baseline, cfg.sqrt, cfg.startTime, m, ip, p, b, now)
         == if m.samples > 10 && (now - cfg.startTime >= cfg.baseline.warmupSec * SECOND || m.samples >= 30)
            then
              (if B.Exceeds(cfg.sqrt, cfg.baseline.sigmaK, 1.0, m.packets, p) then [PacketRate(now, ip)] else [])
              + (if B.Exceeds(cfg.sqrt, cfg.baseline.sigmaK, 1024.0, m.bytes, b) then [ByteRate(now, ip)] else [])
            else []
  {
  }

  /** One host at one tick of any run. */
  lemma HostDeviations(cfg: Config, loaded: map<string, B.Metrics>, ops: seq<Op>, ip: string, now: Time)
    requires B.IsSqrt(cfg.sqrt) && VisitOnce(ops)
    ensures var s := Run(cfg, Initial(loaded), ops);
            ObserveTalker(cfg, s.hosts, ip, TalkerAt(s.talkers, ip), now).1 == Deviations(cfg, loaded, ops, ip, now)
  {
    var s, seen := Run(cfg, Initial(loaded), ops), Seen(cfg, loaded, ops, ip);
    var t := TalkerAt(s.talkers, ip);
    RecordsCountTicks(cfg, loaded, ops, ip);
    HostsObservedApart(cfg, loaded, ops, ip);
    TotalsAreSeen(cfg, loaded, ops, ip);
    ReadingNow(cfg, loaded, ops, ip);
    assert |seen| == |PacketReadings(seen)| == |ByteReadings(seen)|;
    var m := B.Current(s.hosts, ip, PacketReading(t), ByteReading(t), 1.0, now);
    AlertsOf(cfg, m, ip, PacketReading(t), ByteReading(t), now);
    if ip in s.hosts {
      var xs, ys := PacketReadings(seen), ByteReadings(seen);
      var packets := StartOf(if ip in loaded then Some(loaded[ip].packets) else None, xs, PacketReading(t));
      var bytes := StartOf(if ip in loaded then Some(loaded[ip].bytes) else None, ys, ByteReading(t));
      RecordFrom(cfg, loaded, ip, seen, packets, bytes);
      DeviatesExactly(cfg.baseline, cfg.sqrt, 1.0, packets, xs, PacketReading(t));
      DeviatesExactly(cfg.baseline, cfg.sqrt, 1024.0, bytes, ys, ByteReading(t));
    }
  }

  /** The deviations of all hosts a tick visits, in its order. */
  function TickAnswer(cfg: Config, loaded: map<string, B.Metrics>, ops: seq<Op>, order: seq<string>, now: Time)
    : seq<Event>
  {
    if order == [] then []
    else
      TickAnswer(cfg, loaded, ops, order[..|order| - 1], now) + Deviations(cfg, loaded, ops, order[|order| - 1], now)
  }

  lemma SameAnswer(cfg: Config, a: map<string, B.Metrics>, b: map<string, B.Metrics>, ip: string, t: Talker, now: Time)
    requires SameRecord(a, b, ip)
    ensures ObserveTalker(cfg, a, ip, t, now).1 == ObserveTalker(cfg, b, ip, t, now).1
  {
  }

  /** A tick raises exactly the deviations of the hosts it visits. */
  lemma {:induction false} TickExactly(cfg: Config, loaded: map<string, B.Metrics>, ops: seq<Op>, order: seq<string>,
                                       now: Time)
    requires B.IsSqrt(cfg.sqrt) && VisitOnce(ops)
    requires forall i, j | 0 <= i < j < |order| :: order[i] != order[j]
    ensures var s := Run(cfg, Initial(loaded), ops);
            ObserveAll(cfg, s.talkers, s.hosts, order, now).1 == TickAnswer(cfg, loaded, ops, order, now)
  {
    if order != [] {
      var s := Run(cfg, Initial(loaded), ops);
      var init, ip := order[..|order| - 1], order[|order| - 1];
      LastOnce(order, ip);
      TickExactly(cfg, loaded, ops, init, now);
      ObserveAllAt(cfg, s.talkers, s.hosts, init, now, ip);
      SameAnswer(cfg, ObserveAll(cfg, s.talkers, s.hosts, init, now).0, s.hosts, ip, TalkerAt(s.talkers, ip), now);
      HostDeviations(cfg, loaded, ops, ip, now);
    }
  }

  lemma {:induction false} TickAnswerHas(cfg: Config, loaded: map<string, B.Metrics>, ops: seq<Op>, order: seq<string>,
                                         now: Time, e: Event)
    ensures e in TickAnswer(cfg, loaded, ops, order, now)
       <==> e.source in order && e in Deviations(cfg, loaded, ops, e.source, now)
  {
    if order != [] {
      var init, ip := order[..|order| - 1], order[|order| - 1];
      assert order == init + [ip];
      TickAnswerHas(cfg, loaded, ops, init, now, e);
      OwnDeviations(cfg, loaded, ops, ip, now, e);
    }
  }

  lemma OwnDeviations(cfg: Config, loaded: map<string, B.Metrics>, ops: seq<Op>, ip: string, now: Time, e: Event)
    ensures e in Deviations(cfg, loaded, ops, ip, now) ==>
              e.source == ip && (e == PacketRate(now, ip) || e == ByteRate(now, ip))
  {
  }

  /** At a tick of any run, BEHAVIORAL_DEVIATION on packets or on bytes is raised for a host exactly when the tick
      visits it, it has the samples, and that total deviates. */
  lemma DeviationsExactly(cfg: Config, loaded: map<string, B.Metrics>, ops: seq<Op>, order: seq<string>, now: Time,
                          ip: string)
    requires B.IsSqrt(cfg.sqrt) && VisitOnce(ops)
    requires forall i, j | 0 <= i < j < |order| :: order[i] != order[j]
    ensures var es := Tick(cfg, Run(cfg, Initial(loaded), ops), order, now).1;
            && (PacketRate(now, ip) in es
                <==> ip in order && Ready(cfg, loaded, ops, ip, now) && PacketsDeviate(cfg, loaded, ops, ip))
            && (ByteRate(now, ip) in es
                <==> ip in order && Ready(cfg, loaded, ops, ip, now) && BytesDeviate(cfg, loaded, ops, ip))
            && forall e | e in es :: e == PacketRate(now, e.source) || e == ByteRate(now, e.source)
  {
    TickExactly(cfg, loaded, ops, order, now);
    AnswerHas(cfg, loaded, ops, order, now, ip);
    forall e | e in TickAnswer(cfg, loaded, ops, order, now)
      ensures e == PacketRate(now, e.source) || e == ByteRate(now, e.source)
    {
      TickAnswerHas(cfg, loaded, ops, order, now, e);
      OwnDeviations(cfg, loaded, ops, e.source, now, e);
    }
  }

  lemma AnswerHas(cfg: Config, loaded: map<string, B.Metrics>, ops: seq<Op>, order: seq<string>, now: Time, ip: string)
    ensures PacketRate(now, ip) in TickAnswer(cfg, loaded, ops, order, now)
       <==> ip in order && Ready(cfg, loaded, ops, ip, now) && PacketsDeviate(cfg, loaded, ops, ip)
    ensures ByteRate(now, ip) in TickAnswer(cfg, loaded, ops, order, now)
       <==> ip in order && Ready(cfg, loaded, ops, ip, now) && BytesDeviate(cfg, loaded, ops, ip)
  {
    TickAnswerHas(cfg, loaded, ops, order, now, PacketRate(now, ip));
    TickAnswerHas(cfg, loaded, ops, order, now, ByteRate(now, ip));
  }

  // ---- the event log ----

  /** The events of a run: the answers to its packets and its ticks, one after the other. */
  ghost function Expected(cfg: Config, loaded: map<string, B.Metrics>, ops: seq<Op>): seq<Event> {
    if ops == [] then []
    else
      var before, op := ops[..|ops| - 1], ops[|ops| - 1];
      Expected(cfg, loaded, before)
      + match op
        case Packet(p) => Answer(cfg.anomaly, PacketsOf(before) + [p])
        case SecondTick(order, now) => TickAnswer(cfg, loaded, before, order, now)
  }

  lemma PacketAnswer(cfg: Config, loaded: map<string, B.Metrics>, before: seq<Op>, p: PacketInfo)
    ensures AddPacket(cfg, Run(cfg, Initial(loaded), before), p).1 == Answer(cfg.anomaly, PacketsOf(before) + [p])
  {
    var ps := PacketsOf(before);
    assert (ps + [p])[..|ps|] == ps;
    IndexesAreFolds(cfg, loaded, before);
    AnswerExactly(cfg.anomaly, ps + [p]);
  }

  /** The event log of every run is exactly this. */
  lemma {:induction false} LogExactly(cfg: Config, loaded: map<string, B.Metrics>, ops: seq<Op>)
    requires B.IsSqrt(cfg.sqrt) && VisitOnce(ops)
    ensures Log(cfg, Initial(loaded), ops) == Expected(cfg, loaded, ops)
  {
    if ops != [] {
      var before, op := ops[..|ops| - 1], ops[|ops| - 1];
      assert op in ops && forall o | o in before :: o in ops;
      LogExactly(cfg, loaded, before);
      match op
      case Packet(p) => PacketAnswer(cfg, loaded, before, p);
      case SecondTick(order, now) => TickExactly(cfg, loaded, before, order, now);
    }
  }

  /** A LARGE_TRANSFER that packet `i` raises: of its flow, blaming its source, with the bytes so far. */
  predicate TransferOf(ps: seq<PacketInfo>, i: nat, e: Event) {
    && i < |ps| && HasFlow(ps[i])
    && e == LargeTransfer(ps[i].timestamp, KeyOf(ps[i]).src, KeyOf(ps[i]), Bytes(ps[..i + 1], Within(KeyOf(ps[i]))))
  }

  lemma AnswerTransfers(cfg: A.Config, ps: seq<PacketInfo>, p: PacketInfo, e: Event)
    requires e.LargeTransfer? && e in Answer(cfg, ps + [p])
    ensures TransferOf(ps + [p], |ps|, e)
  {
    assert (ps + [p])[..|ps| + 1] == ps + [p];
  }

  lemma TransferStays(ps: seq<PacketInfo>, p: PacketInfo, i: nat, e: Event)
    requires TransferOf(ps, i, e)
    ensures TransferOf(ps + [p], i, e)
  {
    assert (ps + [p])[..i + 1] == ps[..i + 1];
  }

  /** Every LARGE_TRANSFER in the log of a run is that of one of its packets. */
  lemma {:induction false} LogTransfers(cfg: Config, loaded: map<string, B.Metrics>, ops: seq<Op>, e: Event)
    returns (i: nat)
    requires e.LargeTransfer? && e in Log(cfg, Initial(loaded), ops)
    ensures TransferOf(PacketsOf(ops), i, e)
  {
    var before, op := ops[..|ops| - 1], ops[|ops| - 1];
    var s, ps := Run(cfg, Initial(loaded), before), PacketsOf(before);
    match op
    case Packet(p) =>
      assert PacketsOf(ops) == ps + [p];
      if e in Log(cfg, Initial(loaded), before) {
        i := LogTransfers(cfg, loaded, before, e);
        TransferStays(ps, p, i, e);
      } else {
        PacketAnswer(cfg, loaded, before, p);
        AnswerTransfers(cfg.anomaly, ps, p, e);
        i := |ps|;
      }
    case SecondTick(order, now) =>
      TicksRaiseDeviations(cfg, s.talkers, s.hosts, order, now);
      assert PacketsOf(ops) == ps;
      i := LogTransfers(cfg, loaded, before, e);
  }
}
