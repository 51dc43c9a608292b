/** `Detector`: port scans over a sliding window, large transfers once per flow, and suspicious DNS names. */
module Anomaly {
  import opened Wire
  import opened Packets
  import opened Printing
  import opened Totals

  /** `scanWindowSec` is in seconds, `transferThresholdMB` in mebibytes; `entropy` is the Shannon entropy of a name. */
  datatype Config = Config(
    scanThreshold: int,
    scanWindowSec: int,
    transferThresholdMB: nat,
    dnsEntropyThreshold: real,
    entropy: string -> real)

  datatype Stamp = Stamp(port: uint16, time: Time)

  // ---- the port-scan window ----

  function WindowStart(cfg: Config, now: Time): Time {
    now - cfg.scanWindowSec * SECOND
  }

  /** The entries strictly after `start`, in order. */
  function After(entries: seq<Stamp>, start: Time): seq<Stamp> {
    if entries == [] then []
    else After(entries[..|entries| - 1], start)
         + (if entries[|entries| - 1].time > start then [entries[|entries| - 1]] else [])
  }

  function Ports(entries: seq<Stamp>): set<uint16> {
    set e | e in entries :: e.port
  }

  /** The window of one host after a check at `now`, and the port count of the alert if there is one. */
  function ScanStep(cfg: Config, entries: seq<Stamp>, c: Stamp): (seq<Stamp>, Option<nat>) {
    var kept := After(entries, WindowStart(cfg, c.time)) + [c];
    if |Ports(kept)| >= cfg.scanThreshold then ([], Some(|Ports(kept)|)) else (kept, None)
  }

  /** The number of distinct ports an alert reports: the threshold, or 1 for thresholds below it. */
  function AlertPorts(cfg: Config): nat {
    if cfg.scanThreshold <= 1 then 1 else cfg.scanThreshold
  }

  /** A host's window, the number of its alerts, the counts they reported, and the checks made before the last reset. */
  datatype HostScan = HostScan(entries: seq<Stamp>, reports: seq<nat>, since: nat)

  function ScanRun(cfg: Config, cs: seq<Stamp>): HostScan {
    if cs == [] then HostScan([], [], 0)
    else
      var before := ScanRun(cfg, cs[..|cs| - 1]);
      var (entries, alert) := ScanStep(cfg, before.entries, cs[|cs| - 1]);
      match alert
      case None => before.(entries := entries)
      case Some(n) => HostScan(entries, before.reports + [n], |cs|)
  }

  /** Check `i` lies after the window start of every later check. */
  ghost predicate Survives(cfg: Config, cs: seq<Stamp>, i: nat)
    requires i < |cs|
  {
    forall k | i < k < |cs| :: cs[i].time > cs[k].time - cfg.scanWindowSec * SECOND
  }

  /** The checks from `i` on that survive all later ones. */
  ghost function Surviving(cfg: Config, cs: seq<Stamp>, i: nat): seq<Stamp>
    requires i <= |cs|
    decreases |cs| - i
  {
    if i == |cs| then []
    else (if Survives(cfg, cs, i) then [cs[i]] else []) + Surviving(cfg, cs, i + 1)
  }

  lemma SurvivesSnoc(cfg: Config, cs: seq<Stamp>, c: Stamp, i: nat)
    requires i < |cs|
    ensures Survives(cfg, cs + [c], i) <==> Survives(cfg, cs, i) && cs[i].time > WindowStart(cfg, c.time)
  {
    var ds := cs + [c];
    assert ds[|cs|] == c;
    assert forall k | 0 <= k < |cs| :: ds[k] == cs[k];
    if Survives(cfg, ds, i) {
      forall k | i < k < |cs| ensures cs[i].time > cs[k].time - cfg.scanWindowSec * SECOND {
        assert ds[i].time > ds[k].time - cfg.scanWindowSec * SECOND;
      }
    }
  }

  lemma {:induction false} AfterHead(x: Stamp, rest: seq<Stamp>, start: Time)
    ensures After([x] + rest, start) == (if x.time > start then [x] else []) + After(rest, start)
  {
    if rest == [] {
      assert [x] + rest == [x];
      assert [x][..0] == [];
    } else {
      var s := [x] + rest;
      assert s[..|s| - 1] == [x] + rest[..|rest| - 1];
      AfterHead(x, rest[..|rest| - 1], start);
    }
  }

  lemma {:induction false} SurvivingSnoc(cfg: Config, cs: seq<Stamp>, c: Stamp, i: nat)
    requires i <= |cs|
    ensures Surviving(cfg, cs + [c], i) == After(Surviving(cfg, cs, i), WindowStart(cfg, c.time)) + [c]
    decreases |cs| - i
  {
    var ds := cs + [c];
    if i == |cs| {
      assert Surviving(cfg, ds, i + 1) == [];
      assert Survives(cfg, ds, i);
    } else {
      SurvivingSnoc(cfg, cs, c, i + 1);
      SurvivesSnoc(cfg, cs, c, i);
      AfterHead(cs[i], Surviving(cfg, cs, i + 1), WindowStart(cfg, c.time));
      if !Survives(cfg, cs, i) {
        assert Surviving(cfg, cs, i) == Surviving(cfg, cs, i + 1);
      }
    }
  }

  /** The stored window is exactly the checks since the last alert that every later check's window contains,
      whatever the order of their timestamps. */
  lemma {:induction false} WindowIsSurviving(cfg: Config, cs: seq<Stamp>)
    ensures ScanRun(cfg, cs).since <= |cs|
    ensures ScanRun(cfg, cs).entries == Surviving(cfg, cs, ScanRun(cfg, cs).since)
  {
    if cs != [] {
      var past, c := cs[..|cs| - 1], cs[|cs| - 1];
      WindowIsSurviving(cfg, past);
      var before := ScanRun(cfg, past);
      assert past + [c] == cs;
      SurvivingSnoc(cfg, past, c, before.since);
      assert Surviving(cfg, cs, |cs|) == [];
      var step := ScanStep(cfg, before.entries, c);
      assert step.1.None? ==> step.0 == Surviving(cfg, cs, before.since);
    }
  }

  lemma SurvivesInOrder(cfg: Config, cs: seq<Stamp>, i: nat)
    requires i < |cs| - 1 && forall j, k | 0 <= j < k < |cs| :: cs[j].time <= cs[k].time
    ensures Survives(cfg, cs, i) <==> cs[i].time > WindowStart(cfg, cs[|cs| - 1].time)
  {
  }

  lemma PutFirst<T>(x: seq<T>, a: seq<T>, b: seq<T>)
    ensures x + (a + b) == (x + a) + b
  {
  }

  /** With timestamps that never decrease, it is the plain filter on the latest window. */
  lemma {:induction false} SurvivingInOrder(cfg: Config, cs: seq<Stamp>, i: nat)
    requires i < |cs| && forall j, k | 0 <= j < k < |cs| :: cs[j].time <= cs[k].time
    ensures Surviving(cfg, cs, i) == After(cs[i..|cs| - 1], WindowStart(cfg, cs[|cs| - 1].time)) + [cs[|cs| - 1]]
    decreases |cs| - i
  {
    var last := cs[|cs| - 1];
    if i == |cs| - 1 {
      assert Surviving(cfg, cs, i + 1) == [];
    } else {
      var start, rest := WindowStart(cfg, last.time), cs[i + 1..|cs| - 1];
      SurvivingInOrder(cfg, cs, i + 1);
      SurvivesInOrder(cfg, cs, i);
      assert cs[i..|cs| - 1] == [cs[i]] + rest;
      AfterHead(cs[i], rest, start);
      PutFirst(if cs[i].time > start then [cs[i]] else [], After(rest, start), [last]);
    }
  }

  // ---- exactness and rate of alerts ----

  /** The last check raises an alert: those that survive from after the alert before it name enough distinct ports. */
  ghost predicate Raised(cfg: Config, cs: seq<Stamp>)
    requires cs != []
    decreases |cs|, 0
  {
    var live := Surviving(cfg, cs, LastAlert(cfg, cs[..|cs| - 1]));
    |set e | e in live :: e.port| >= cfg.scanThreshold
  }

  /** How many checks there were when the last alert was raised, or 0. */
  ghost function LastAlert(cfg: Config, cs: seq<Stamp>): (n: nat)
    ensures n <= |cs|
    decreases |cs|, 1
  {
    if cs == [] then 0 else if Raised(cfg, cs) then |cs| else LastAlert(cfg, cs[..|cs| - 1])
  }

  lemma StepRaises(cfg: Config, entries: seq<Stamp>, c: Stamp, live: seq<Stamp>)
    requires live == After(entries, WindowStart(cfg, c.time)) + [c]
    ensures ScanStep(cfg, entries, c).1.Some? <==> |set e | e in live :: e.port| >= cfg.scanThreshold
  {
    assert Ports(live) == set e | e in live :: e.port;
  }

  lemma ResetAt(cfg: Config, past: seq<Stamp>, c: Stamp, cs: seq<Stamp>)
    requires cs == past + [c]
    ensures ScanRun(cfg, cs).since
         == if ScanStep(cfg, ScanRun(cfg, past).entries, c).1.Some? then |cs| else ScanRun(cfg, past).since
  {
    assert cs[..|cs| - 1] == past;
  }

  /** The window resets exactly at the alerts so defined, and a check is answered by an alert exactly when it raises
      one. */
  lemma {:induction false} AlertsExactly(cfg: Config, cs: seq<Stamp>)
    ensures ScanRun(cfg, cs).since == LastAlert(cfg, cs)
    ensures cs != [] ==>
              (ScanStep(cfg, ScanRun(cfg, cs[..|cs| - 1]).entries, cs[|cs| - 1]).1.Some? <==> Raised(cfg, cs))
  {
    if cs != [] {
      var past, c := cs[..|cs| - 1], cs[|cs| - 1];
      AlertsExactly(cfg, past);
      var since := LastAlert(cfg, past);
      assert ScanRun(cfg, past).entries == Surviving(cfg, past, since) by {
        WindowIsSurviving(cfg, past);
      }
      AlertOfLast(cfg, past, c, since, cs);
      ResetAt(cfg, past, c, cs);
    }
  }

  lemma AlertOfLast(cfg: Config, past: seq<Stamp>, c: Stamp, since: nat, cs: seq<Stamp>)
    requires cs == past + [c] && since <= |past| && ScanRun(cfg, past).entries == Surviving(cfg, past, since)
    ensures ScanStep(cfg, ScanRun(cfg, past).entries, c).1.Some?
       <==> |set e | e in Surviving(cfg, cs, since) :: e.port| >= cfg.scanThreshold
  {
    SurvivingSnoc(cfg, past, c, since);
    StepRaises(cfg, ScanRun(cfg, past).entries, c, Surviving(cfg, cs, since));
  }

  lemma {:induction false} AfterShrinks(entries: seq<Stamp>, start: Time)
    ensures |After(entries, start)| <= |entries|
    ensures forall e | e in After(entries, start) :: e in entries && e.time > start
  {
    if entries != [] {
      AfterShrinks(entries[..|entries| - 1], start);
    }
  }

  lemma {:induction false} PortsAtMostEntries(entries: seq<Stamp>)
    ensures |Ports(entries)| <= |entries|
  {
    if entries != [] {
      var init, e := entries[..|entries| - 1], entries[|entries| - 1];
      PortsAtMostEntries(init);
      assert entries == init + [e];
      assert Ports(entries) == Ports(init) + {e.port};
    }
  }

  lemma PortsGrowByOne(entries: seq<Stamp>, start: Time, c: Stamp)
    ensures |Ports(After(entries, start) + [c])| <= |Ports(entries)| + 1
  {
    AfterShrinks(entries, start);
    var kept := After(entries, start);
    assert Ports(kept) <= Ports(entries);
    Subset(Ports(kept), Ports(entries));
    assert Ports(kept + [c]) == Ports(kept) + {c.port};
  }

  lemma {:induction false} Subset(a: set<uint16>, b: set<uint16>)
    requires a <= b
    ensures |a| <= |b|
  {
    if a != {} {
      var x :| x in a;
      Subset(a - {x}, b - {x});
    }
  }

  /** Fewer distinct ports than an alert needs are ever stored, every alert reports exactly that many,
      and each alert uses up that many of the host's checks. */
  lemma {:induction false} ScanLaws(cfg: Config, cs: seq<Stamp>)
    ensures var h := ScanRun(cfg, cs);
            && |Ports(h.entries)| < AlertPorts(cfg)
            && (forall r | r in h.reports :: r == AlertPorts(cfg))
            && |h.reports| * AlertPorts(cfg) + |h.entries| <= |cs|
  {
    if cs != [] {
      var past, c := cs[..|cs| - 1], cs[|cs| - 1];
      ScanLaws(cfg, past);
      RunLaws(cfg, ScanRun(cfg, past), c, |past|, ScanRun(cfg, cs));
    }
  }

  lemma RunLaws(cfg: Config, before: HostScan, c: Stamp, n: nat, after: HostScan)
    requires |Ports(before.entries)| < AlertPorts(cfg) && (forall r | r in before.reports :: r == AlertPorts(cfg))
    requires |before.reports| * AlertPorts(cfg) + |before.entries| <= n
    requires var (entries, alert) := ScanStep(cfg, before.entries, c);
             after == if alert.None? then before.(entries := entries)
             else HostScan(entries, before.reports + [alert.value], n + 1)
    ensures |Ports(after.entries)| < AlertPorts(cfg) && (forall r | r in after.reports :: r == AlertPorts(cfg))
    ensures |after.reports| * AlertPorts(cfg) + |after.entries| <= n + 1
  {
    StepLaws(cfg, before.entries, c);
    OneMore(|before.reports|, AlertPorts(cfg));
  }

  /** One check: below the threshold the window grows by one entry at most; at the threshold it reports it exactly. */
  lemma StepLaws(cfg: Config, entries: seq<Stamp>, c: Stamp)
    requires |Ports(entries)| < AlertPorts(cfg)
    ensures var (after, alert) := ScanStep(cfg, entries, c);
            && |Ports(after)| < AlertPorts(cfg)
            && (alert.None? ==> |after| <= |entries| + 1)
            && (alert.Some? ==> alert.value == AlertPorts(cfg) <= |entries| + 1 && after == [])
  {
    var kept := After(entries, WindowStart(cfg, c.time)) + [c];
    PortsGrowByOne(entries, WindowStart(cfg, c.time), c);
    PortsAtMostEntries(kept);
    AfterShrinks(entries, WindowStart(cfg, c.time));
    assert c.port in Ports(kept);
  }

  lemma OneMore(k: nat, m: nat)
    ensures (k + 1) * m == k * m + m
  {
  }

  // ---- the detector ----

  datatype State = State(track: map<string, seq<Stamp>>, flagged: set<FlowKey>)

  function Window(d: State, ip: string): seq<Stamp> {
    if ip in d.track then d.track[ip] else []
  }

  /** `TransferThresholdMB * 1024 * 1024` in 64-bit arithmetic. */
  function ThresholdBytes(cfg: Config): nat {
    cfg.transferThresholdMB * 1024 * 1024 % 0x1_0000_0000_0000_0000
  }

  /** The packet is checked for port scans. */
  predicate Scanned(p: PacketInfo) {
    p.srcIP.Some? && (p.protocol == "TCP" || p.protocol == "UDP")
  }

  function CheckScan(cfg: Config, d: State, p: PacketInfo): (State, seq<Event>) {
    if !Scanned(p) then (d, [])
    else
      var (entries, alert) := ScanStep(cfg, Window(d, p.srcIP.value), Stamp(p.dstPort, p.timestamp));
      (d.(track := d.track[p.srcIP.value := entries]),
       if alert.None? then [] else [PortScan(p.timestamp, p.srcIP.value, alert.value)])
  }

  /** The flow is its key and the bytes it has carried so far. */
  function CheckTransfer(cfg: Config, d: State, p: PacketInfo, flow: Option<(FlowKey, nat)>): (State, seq<Event>) {
    if p.srcIP.Some? && flow.Some? && flow.value.1 >= ThresholdBytes(cfg) && flow.value.0 !in d.flagged
    then (d.(flagged := d.flagged + {flow.value.0}),
          [LargeTransfer(p.timestamp, p.srcIP.value, flow.value.0, flow.value.1)])
    else (d, [])
  }

  /** `strings.TrimSuffix(query, ".")`. */
  function Domain(query: string): string {
    if query != "" && query[|query| - 1] == '.' then query[..|query| - 1] else query
  }

  function Reasons(cfg: Config, domain: string): seq<DnsReason> {
    (if cfg.entropy(domain) > cfg.dnsEntropyThreshold then [HighEntropy(cfg.entropy(domain))] else [])
    + (if |domain| > 50 then [TooLong(|domain|)] else [])
    + (if multiset(domain)['.'] >= 5 then [ManySubdomains(multiset(domain)['.'])] else [])
  }

  function CheckDns(cfg: Config, p: PacketInfo): seq<Event> {
    var domain := Domain(p.dnsQuery);
    if p.srcIP.Some? && p.protocol == "DNS" && p.dnsQuery != "" && Reasons(cfg, domain) != []
    then [SuspiciousDns(p.timestamp, p.srcIP.value, domain, Reasons(cfg, domain))] else []
  }

  /** There is one label more than there are dots. */
  lemma {:induction false} LabelsAndDots(s: string)
    ensures |Split(s, '.')| == multiset(s)['.'] + 1
  {
    if s != [] {
      LabelsAndDots(s[1..]);
      assert s == [s[0]] + s[1..];
    }
  }

  function CheckPacket(cfg: Config, d: State, p: PacketInfo, flow: Option<(FlowKey, nat)>): (State, seq<Event>) {
    var (d1, scan) := CheckScan(cfg, d, p);
    var (d2, transfer) := CheckTransfer(cfg, d1, p, flow);
    (d2, scan + transfer + CheckDns(cfg, p))
  }

  /** A slice of a backing array, or none. */
  datatype Slice = Nil | Slice(data: array<Stamp>, len: nat)

  ghost predicate InBounds(s: Slice) {
    s.Slice? ==> s.len <= s.data.Length
  }

  ghost function Contents(s: Slice): seq<Stamp>
    requires InBounds(s)
    reads if s.Slice? then {s.data} else {}
  {
    if s.Nil? then [] else s.data[..s.len]
  }

  ghost predicate Holds(s: Slice, entries: seq<Stamp>)
    reads if s.Slice? then {s.data} else {}
  {
    InBounds(s) && Contents(s) == entries
  }

  lemma {:induction false} AfterSnoc(entries: seq<Stamp>, i: nat, start: Time)
    requires i < |entries|
    ensures After(entries[..i + 1], start) == After(entries[..i], start)
            + (if entries[i].time > start then [entries[i]] else [])
  {
    assert entries[..i + 1][..i] == entries[..i];
  }

  /** Expired entries are squeezed out in place. */
  method DropExpired(entries: array<Stamp>, len: nat, windowStart: Time) returns (validIndex: nat)
    requires len <= entries.Length
    modifies entries
    ensures validIndex <= len && entries[..validIndex] == After(old(entries[..len]), windowStart)
  {
    ghost var was := entries[..len];
    validIndex := 0;
    for i := 0 to len
      invariant validIndex <= i
      invariant forall k | i <= k < len :: entries[k] == was[k]
      invariant entries[..validIndex] == After(was[..i], windowStart)
    {
      var entry := entries[i];
      AfterSnoc(was, i, windowStart);
      if entry.time > windowStart {
        ghost var kept := entries[..validIndex];
        entries[validIndex] := entry;
        assert entries[..validIndex + 1] == kept + [entry];
        validIndex := validIndex + 1;
      }
    }
    assert was[..len] == was;
  }

  /** `append`: in place when there is room, and otherwise into a larger array. */
  method Append(entries: array<Stamp>, len: nat, c: Stamp) returns (s: Slice)
    requires len <= entries.Length
    modifies entries
    ensures s.Slice? && InBounds(s) && Contents(s) == old(entries[..len]) + [c]
    ensures s.data == entries || fresh(s.data)
  {
    var data := entries;
    if len == entries.Length {
      data := new Stamp[2 * len + 1](i requires 0 <= i < 2 * len + 1 reads entries =>
                                       if i < len then entries[i] else c);
    }
    assert data[..len] == old(entries[..len]);
    data[len] := c;
    s := Slice(data, len + 1);
    assert data[..len + 1] == data[..len] + [c];
  }

  /** Window and new check of a host. */
  method Slide(s: Slice, windowStart: Time, c: Stamp) returns (r: Slice)
    requires InBounds(s)
    modifies if s.Slice? then {s.data} else {}
    ensures r.Slice? && InBounds(r) && Contents(r) == After(old(Contents(s)), windowStart) + [c]
    ensures fresh(r.data) || (s.Slice? && r.data == s.data)
  {
    match s
    case Nil =>
      var data := new Stamp[1](i => c);
      r := Slice(data, 1);
      assert data[..1] == [c];
    case Slice(data, len) =>
      var validIndex := DropExpired(data, len, windowStart);
      r := Append(data, validIndex, c);
  }

  method DistinctPorts(entries: array<Stamp>, len: nat) returns (ports: set<uint16>)
    requires len <= entries.Length
    ensures ports == Ports(entries[..len])
  {
    ports := {};
    for i := 0 to len
      invariant ports == Ports(entries[..i])
    {
      assert entries[..i + 1] == entries[..i] + [entries[i]];
      ports := ports + {entries[i].port};
    }
  }

  /** Window, threshold and reset of one host, put together. */
  lemma StepOf(cfg: Config, was: map<string, seq<Stamp>>, ip: string, c: Stamp, kept: seq<Stamp>,
               view: map<string, seq<Stamp>>, alert: Option<nat>)
    requires kept == After(if ip in was then was[ip] else [], WindowStart(cfg, c.time)) + [c]
    requires alert == if |Ports(kept)| >= cfg.scanThreshold then Some(|Ports(kept)|) else None
    requires view == if alert.Some? then was[ip := kept][ip := []] else was[ip := kept]
    ensures var (entries, a) := ScanStep(cfg, if ip in was then was[ip] else [], c);
            alert == a && view == was[ip := entries]
  {
    Overwrites(was, ip, kept, []);
  }

  class Detector {
    const config: Config
    var portScanTrack: map<string, Slice>
    var flaggedFlows: set<FlowKey>
    ghost var view: map<string, seq<Stamp>>
    ghost var owner: map<array<Stamp>, string>
    ghost var repr: set<object>

    /** `view` is what the slices hold; every array belongs to one host. */
    ghost predicate Valid()
      reads this, repr
    {
      && this in repr && portScanTrack.Keys == view.Keys
      && forall ip | ip in portScanTrack :: Owned(ip) && Holds(portScanTrack[ip], view[ip])
    }

    /** The slices of all hosts but one are in order. */
    ghost predicate OthersHold(host: string)
      reads this, repr
    {
      && this in repr && portScanTrack.Keys == view.Keys
      && forall ip | ip in portScanTrack && ip != host :: Owned(ip) && Holds(portScanTrack[ip], view[ip])
    }

    /** The slice is in new memory or in the host's own array. */
    twostate predicate BelongsTo(new s: Slice, host: string)
      reads this
    {
      s.Slice? && (fresh(s.data) || (s.data in repr && s.data in owner && owner[s.data] == host))
    }

    ghost predicate Owned(ip: string)
      requires ip in portScanTrack
      reads this
    {
      var s := portScanTrack[ip];
      s.Slice? ==> s.data in repr && s.data in owner && owner[s.data] == ip
    }

    ghost function Model(): State
      reads this
    {
      State(view, flaggedFlows)
    }

    constructor (cfg: Config)
      ensures Valid() && fresh(repr) && config == cfg && Model() == State(map[], {})
    {
      config := cfg;
      portScanTrack, view, owner := map[], map[], map[];
      flaggedFlows := {};
      repr := {this};
    }

    /** The compaction writes one host's array only; the other hosts' slices hold what they held. */
    method SlideHost(srcIP: string, windowStart: Time, c: Stamp) returns (entries: Slice)
      requires Valid()
      modifies repr - {this}
      ensures OthersHold(srcIP) && BelongsTo(entries, srcIP)
      ensures Holds(entries, After(old(Window(Model(), srcIP)), windowStart) + [c])
    {
      entries := if srcIP in portScanTrack then portScanTrack[srcIP] else Nil;
      entries := Slide(entries, windowStart, c);
    }

    method Track(srcIP: string, windowStart: Time, c: Stamp) returns (entries: Slice)
      requires Valid()
      modifies repr
      ensures Valid() && fresh(repr - old(repr)) && flaggedFlows == old(flaggedFlows)
      ensures entries.Slice? && srcIP in portScanTrack && portScanTrack[srcIP] == entries
      ensures Holds(entries, After(old(Window(Model(), srcIP)), windowStart) + [c])
      ensures view == old(view)[srcIP := Contents(entries)]
    {
      entries := SlideHost(srcIP, windowStart, c);
      ghost var kept := Contents(entries);
      Put(srcIP, entries, kept);
    }

    method Put(srcIP: string, s: Slice, ghost kept: seq<Stamp>)
      requires OthersHold(srcIP) && s.Slice? && Holds(s, kept)
      requires s.data in owner ==> owner[s.data] == srcIP
      requires s.data !in owner ==> s.data !in repr
      modifies this
      ensures Valid() && repr == old(repr) + {s.data} && flaggedFlows == old(flaggedFlows)
      ensures portScanTrack == old(portScanTrack)[srcIP := s] && view == old(view)[srcIP := kept]
    {
      portScanTrack := portScanTrack[srcIP := s];
      view := view[srcIP := kept];
      owner := owner[s.data := srcIP];
      repr := repr + {s.data};
    }

    method CheckPortScan(srcIP: string, dstPort: uint16, now: Time) returns (alert: Option<nat>)
      requires Valid()
      modifies repr
      ensures Valid() && fresh(repr - old(repr)) && flaggedFlows == old(flaggedFlows)
      ensures var (entries, a) := ScanStep(config, old(Window(Model(), srcIP)), Stamp(dstPort, now));
              alert == a && view == old(view)[srcIP := entries]
    {
      ghost var was := view;
      var c := Stamp(dstPort, now);
      var entries := Track(srcIP, WindowStart(config, now), c);
      ghost var kept := Contents(entries);
      alert := Decide(srcIP, entries);
      StepOf(config, was, srcIP, c, kept, view, alert);
    }

    /** At the threshold the host's history is reset. */
    method Decide(srcIP: string, entries: Slice) returns (alert: Option<nat>)
      requires Valid() && srcIP in portScanTrack && portScanTrack[srcIP] == entries && entries.Slice?
      modifies this`portScanTrack, this`view
      ensures Valid()
      ensures var ports := |Ports(old(view)[srcIP])|;
              && alert == (if ports >= config.scanThreshold then Some(ports) else None)
              && view == if alert.Some? then old(view)[srcIP := []] else old(view)
    {
      var distinctPorts := DistinctPorts(entries.data, entries.len);
      alert := None;
      if |distinctPorts| >= config.scanThreshold {
        portScanTrack := portScanTrack[srcIP := Nil];
        view := view[srcIP := []];
        alert := Some(|distinctPorts|);
      }
    }

    method CheckLargeTransfer(p: PacketInfo, key: FlowKey, bytesSent: nat) returns (events: seq<Event>)
      requires Valid() && p.srcIP.Some?
      modifies this`flaggedFlows
      ensures Valid() && (Model(), events) == CheckTransfer(config, old(Model()), p, Some((key, bytesSent)))
      ensures var limit := config.transferThresholdMB * 1024 * 1024 % 0x1_0000_0000_0000_0000;
              events == if bytesSent >= limit && key !in old(flaggedFlows)
                        then [LargeTransfer(p.timestamp, p.srcIP.value, key, bytesSent)] else []
    {
      var thresholdBytes := config.transferThresholdMB * 1024 * 1024 % 0x1_0000_0000_0000_0000;
      events := [];
      if bytesSent >= thresholdBytes && key !in flaggedFlows {
        flaggedFlows := flaggedFlows + {key};
        events := [LargeTransfer(p.timestamp, p.srcIP.value, key, bytesSent)];
      }
    }

    method CheckScanned(p: PacketInfo) returns (scan: seq<Event>)
      requires Valid() && p.srcIP.Some?
      modifies repr
      ensures Valid() && fresh(repr - old(repr))
      ensures (Model(), scan) == CheckScan(config, old(Model()), p)
    {
      scan := [];
      if p.protocol == "TCP" || p.protocol == "UDP" {
        var alert := CheckPortScan(p.srcIP.value, p.dstPort, p.timestamp);
        if alert.Some? {
          scan := [PortScan(p.timestamp, p.srcIP.value, alert.value)];
        }
      }
    }

    method CheckSuspiciousDns(p: PacketInfo) returns (events: seq<Event>)
      requires p.srcIP.Some? && p.protocol == "DNS" && p.dnsQuery != ""
      ensures events == CheckDns(config, p)
    {
      var domain := Domain(p.dnsQuery);
      var labels := Split(domain, '.');
      LabelsAndDots(domain);
      var entropy, dotCount := config.entropy(domain), |labels| - 1;
      var reasons: seq<DnsReason> := [];
      if entropy > config.dnsEntropyThreshold {
        reasons := reasons + [HighEntropy(entropy)];
      }
      if |domain| > 50 {
        reasons := reasons + [TooLong(|domain|)];
      }
      if dotCount >= 5 {
        reasons := reasons + [ManySubdomains(dotCount)];
      }
      assert reasons == Reasons(config, domain);
      events := [];
      if reasons != [] {
        events := [SuspiciousDns(p.timestamp, p.srcIP.value, domain, reasons)];
      }
    }

    method Check(p: PacketInfo, flow: Option<(FlowKey, nat)>) returns (events: seq<Event>)
      requires Valid()
      modifies repr
      ensures Valid() && fresh(repr - old(repr))
      ensures (Model(), events) == CheckPacket(config, old(Model()), p, flow)
    {
      events := [];
      if p.srcIP.None? {
        assert events + events + events == events;
        return;
      }
      var scan := CheckScanned(p);
      var transfer, dns := [], [];
      if flow.Some? {
        transfer := CheckLargeTransfer(p, flow.value.0, flow.value.1);
      }
      if p.protocol == "DNS" && p.dnsQuery != "" {
        dns := CheckSuspiciousDns(p);
      }
      events := scan + transfer + dns;
    }
  }
}
