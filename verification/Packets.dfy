/** Decoded packets, flow keys and anomaly events. */
module Packets {
  import opened Wire

  datatype Option<+T> = None | Some(value: T)

  /** Instants in nanoseconds. */
  type Time = int
  const SECOND: int := 1_000_000_000

  datatype FlowKey = FlowKey(src: string, dst: string, srcPort: uint16, dstPort: uint16, protocol: string)

  /** A decoded packet; an address is the text `net.IP.String()` prints, or absent. */
  datatype PacketInfo = PacketInfo(
    timestamp: Time,
    length: nat,
    srcIP: Option<string>,
    dstIP: Option<string>,
    protocol: string,
    srcPort: uint16,
    dstPort: uint16,
    dnsQuery: string)

  /** The key of a packet with both addresses. */
  function KeyOf(p: PacketInfo): FlowKey
    requires p.srcIP.Some? && p.dstIP.Some?
  {
    FlowKey(p.srcIP.value, p.dstIP.value, p.srcPort, p.dstPort, p.protocol)
  }

  predicate HasFlow(p: PacketInfo) {
    p.srcIP.Some? && p.dstIP.Some?
  }

  /** What makes a name suspicious. */
  datatype DnsReason = HighEntropy(entropy: real) | TooLong(length: nat) | ManySubdomains(dots: nat)

  /** Anomaly events, one constructor for each `Kind`, with the numbers their `Detail` prints. */
  datatype Event =
    | PortScan(time: Time, source: string, ports: nat)
    | LargeTransfer(time: Time, source: string, key: FlowKey, bytes: nat)
    | SuspiciousDns(time: Time, source: string, domain: string, reasons: seq<DnsReason>)
    | PacketRate(time: Time, source: string)
    | ByteRate(time: Time, source: string)

  /** Events of kind BEHAVIORAL_DEVIATION. */
  predicate Behavioral(e: Event) {
    e.PacketRate? || e.ByteRate?
  }

  // ---- sums over packet histories ----

  /** The packets a sum ranges over. */
  datatype Selection =
    | All
    | Speaking(protocol: string)
    | From(source: string)
    | To(destination: string)
    | WithSource
    | WithDestination
    | FromWithoutDestination(loneSource: string)
    | Within(key: FlowKey)

  predicate Selects(sel: Selection, p: PacketInfo) {
    match sel
    case All => true
    case Speaking(x) => p.protocol == x
    case From(ip) => p.srcIP == Some(ip)
    case To(ip) => p.dstIP == Some(ip)
    case WithSource => p.srcIP.Some?
    case WithDestination => p.dstIP.Some?
    case FromWithoutDestination(ip) => p.srcIP == Some(ip) && p.dstIP.None?
    case Within(k) => HasFlow(p) && KeyOf(p) == k
  }

  /** The bytes of the selected packets. */
  function Bytes(ps: seq<PacketInfo>, sel: Selection): nat {
    if ps == [] then 0
    else Bytes(ps[..|ps| - 1], sel) + (if Selects(sel, ps[|ps| - 1]) then ps[|ps| - 1].length else 0)
  }

  /** The number of the selected packets. */
  function Count(ps: seq<PacketInfo>, sel: Selection): nat {
    if ps == [] then 0
    else Count(ps[..|ps| - 1], sel) + (if Selects(sel, ps[|ps| - 1]) then 1 else 0)
  }

  lemma {:induction false} BytesConcat(ps: seq<PacketInfo>, qs: seq<PacketInfo>, sel: Selection)
    ensures Bytes(ps + qs, sel) == Bytes(ps, sel) + Bytes(qs, sel)
    ensures Count(ps + qs, sel) == Count(ps, sel) + Count(qs, sel)
  {
    if qs == [] {
      assert ps + qs == ps;
    } else {
      assert (ps + qs)[..|ps + qs| - 1] == ps + qs[..|qs| - 1];
      BytesConcat(ps, qs[..|qs| - 1], sel);
    }
  }
}
