/** Capture, decode pool and aggregator as one labelled step system: any interleaving of the goroutines, the
    cancellation and the timers is a sequence of labels. */
module Pipeline {
  import opened Wire
  import opened Packets
  import opened Sequences
  import opened StatsModel

  /** A captured frame; only `DecodePacket` looks inside. */
  datatype Raw = Raw(bytes: seq<byte>)

  /** `decode` is `DecodePacket`; both buffer sizes are those of the channels. */
  datatype Setup = Setup(decode: Raw -> PacketInfo, packetCap: nat, outCap: nat, stats: StatsModel.Config)

  datatype Capture = Reading | Offering(pkt: Raw) | Exited
  datatype Worker = Idle | Holding(info: PacketInfo) | Done
  datatype Aggregator = Looping | Draining | Returned

  /** The counters of a published snapshot. */
  datatype Published = Published(totalPackets: nat, totalBytes: nat, dropped: nat)

  /** The goroutines and channels; `read`, `dropped`, `accepted` and `discarded` are history, and the length of
      `dropped` is the atomic counter. `ops` are the calls the aggregator has made on its manager. */
  datatype State = State(
    capture: Capture,
    packetChan: seq<Raw>,
    packetClosed: bool,
    workers: seq<Worker>,
    outChan: seq<PacketInfo>,
    outClosed: bool,
    closerDone: bool,
    aggregator: Aggregator,
    ops: seq<Op>,
    published: Published,
    cancelled: bool,
    panicked: bool,
    read: seq<Raw>,
    dropped: seq<Raw>,
    accepted: seq<Raw>,
    discarded: seq<PacketInfo>)

  function Start(numWorkers: nat): State {
    State(Reading, [], false, seq(numWorkers, _ => Idle), [], false, false, Looping, [], Published(0, 0, 0),
          false, false, [], [], [], [])
  }

  datatype Label =
    | Cancel
    | Read(pkt: Raw) | SourceEnds | CaptureStops | Offer
    | Receive(w: nat) | SeeClosed(w: nat) | Stop(w: nat) | SendOut(w: nat) | Discard(w: nat)
    | CloseOut
    | Take | StartDraining | Finish
    | Second(order: seq<string>, now: Time) | SnapshotTick

  function Stats(c: Setup, s: State): StatsModel.Stats {
    Run(c.stats, Initial(map[]), s.ops)
  }

  function Publish(c: Setup, s: State): State {
    s.(published := Published(Stats(c, s).totalPackets, Stats(c, s).totalBytes, |s.dropped|))
  }

  /** Closing a closed channel panics. */
  function ClosePackets(s: State): State {
    s.(capture := Exited, packetClosed := true, panicked := s.panicked || s.packetClosed)
  }

  function WithWorker(s: State, w: nat, worker: Worker): State
    requires w < |s.workers|
  {
    s.(workers := s.workers[w := worker])
  }

  // ---- the steps of each goroutine ----

  function CaptureNext(c: Setup, s: State, l: Label): Option<State> {
    match l
    case Read(pkt) => if s.capture.Reading? then Some(s.(capture := Offering(pkt), read := s.read + [pkt])) else None
    case SourceEnds => if s.capture.Reading? then Some(ClosePackets(s)) else None
    case CaptureStops => if s.capture.Reading? && s.cancelled then Some(ClosePackets(s)) else None
    case Offer =>
      if !s.capture.Offering? then None
      else if s.packetClosed then Some(s.(panicked := true))
      else if |s.packetChan| < c.packetCap
        then Some(s.(capture := Reading, packetChan := s.packetChan + [s.capture.pkt],
                     accepted := s.accepted + [s.capture.pkt]))
        else Some(s.(capture := Reading, dropped := s.dropped + [s.capture.pkt]))
    case _ => None
  }

  function WorkerNext(c: Setup, s: State, l: Label): Option<State> {
    match l
    case Receive(w) =>
      if w < |s.workers| && s.workers[w].Idle? && s.packetChan != []
        then Some(WithWorker(s, w, Holding(c.decode(s.packetChan[0]))).(packetChan := s.packetChan[1..])) else None
    case SeeClosed(w) =>
      if w < |s.workers| && s.workers[w].Idle? && s.packetChan == [] && s.packetClosed
        then Some(WithWorker(s, w, Done)) else None
    case Stop(w) =>
      if w < |s.workers| && s.workers[w].Idle? && s.cancelled then Some(WithWorker(s, w, Done)) else None
    case SendOut(w) =>
      if !(w < |s.workers| && s.workers[w].Holding?) then None
      else if s.outClosed then Some(s.(panicked := true))
      else if |s.outChan| < c.outCap then Some(WithWorker(s, w, Idle).(outChan := s.outChan + [s.workers[w].info]))
      else None
    case Discard(w) =>
      if w < |s.workers| && s.workers[w].Holding? && s.cancelled
        then Some(WithWorker(s, w, Done).(discarded := s.discarded + [s.workers[w].info])) else None
    case CloseOut =>
      if !s.closerDone && (forall w | 0 <= w < |s.workers| :: s.workers[w].Done?)
        then Some(s.(closerDone := true, outClosed := true, panicked := s.panicked || s.outClosed)) else None
    case _ => None
  }

  function AggregatorNext(c: Setup, s: State, l: Label): Option<State> {
    match l
    case Take =>
      if !s.aggregator.Returned? && s.outChan != []
        then Some(s.(outChan := s.outChan[1..], ops := s.ops + [Packet(s.outChan[0])])) else None
    case StartDraining => if s.aggregator.Looping? && s.cancelled then Some(s.(aggregator := Draining)) else None
    case Finish =>
      if !s.aggregator.Returned? && s.outChan == [] && s.outClosed
        then Some(Publish(c, s).(aggregator := Returned)) else None
    case Second(order, now) =>
      if s.aggregator.Looping? then Some(Publish(c, s.(ops := s.ops + [SecondTick(order, now)]))) else None
    case SnapshotTick => if s.aggregator.Looping? then Some(Publish(c, s)) else None
    case _ => None
  }

  function Next(c: Setup, s: State, l: Label): Option<State> {
    if s.panicked then None
    else if l.Cancel? then (if s.cancelled then None else Some(s.(cancelled := true)))
    else if l.Read? || l.SourceEnds? || l.CaptureStops? || l.Offer? then CaptureNext(c, s, l)
    else if l.Take? || l.StartDraining? || l.Finish? || l.Second? || l.SnapshotTick? then AggregatorNext(c, s, l)
    else WorkerNext(c, s, l)
  }

  /** A run; it has no result if some label was not possible where it stands. */
  function Exec(c: Setup, s: State, ls: seq<Label>): Option<State> {
    if ls == [] then Some(s)
    else
      match Exec(c, s, ls[..|ls| - 1])
      case None => None
      case Some(t) => Next(c, t, ls[|ls| - 1])
  }

  // ---- close safety ----

  predicate AllDone(ws: seq<Worker>) {
    forall w | 0 <= w < |ws| :: ws[w].Done?
  }

  ghost predicate Safe(c: Setup, s: State) {
    && !s.panicked
    && (s.packetClosed <==> s.capture.Exited?)
    && (s.outClosed <==> s.closerDone)
    && (s.closerDone ==> AllDone(s.workers))
    && |s.packetChan| <= c.packetCap && |s.outChan| <= c.outCap
    && (s.aggregator.Draining? ==> s.cancelled)
    && (s.aggregator.Returned? ==> s.outClosed && s.outChan == [])
    && (s.discarded != [] ==> s.cancelled)
    && (!s.cancelled ==> forall w | 0 <= w < |s.workers| && s.workers[w].Done? :: s.packetClosed && s.packetChan == [])
  }

  lemma CaptureKeepsSafe(c: Setup, s: State, l: Label)
    requires Safe(c, s) && CaptureNext(c, s, l).Some?
    ensures Safe(c, CaptureNext(c, s, l).value) && CaptureNext(c, s, l).value.workers == s.workers
  {
  }

  lemma WorkerKeepsSafe(c: Setup, s: State, l: Label)
    requires Safe(c, s) && WorkerNext(c, s, l).Some?
    ensures Safe(c, WorkerNext(c, s, l).value) && |WorkerNext(c, s, l).value.workers| == |s.workers|
  {
  }

  lemma AggregatorKeepsSafe(c: Setup, s: State, l: Label)
    requires Safe(c, s) && AggregatorNext(c, s, l).Some?
    ensures Safe(c, AggregatorNext(c, s, l).value) && AggregatorNext(c, s, l).value.workers == s.workers
  {
  }

  lemma StepKeepsSafe(c: Setup, s: State, l: Label)
    requires Safe(c, s) && Next(c, s, l).Some?
    ensures Safe(c, Next(c, s, l).value)
    ensures |Next(c, s, l).value.workers| == |s.workers|
  {
    if l.Cancel? {
    } else if l.Read? || l.SourceEnds? || l.CaptureStops? || l.Offer? {
      CaptureKeepsSafe(c, s, l);
    } else if l.Take? || l.StartDraining? || l.Finish? || l.Second? || l.SnapshotTick? {
      AggregatorKeepsSafe(c, s, l);
    } else {
      WorkerKeepsSafe(c, s, l);
    }
  }

  /** In no interleaving is a closed channel sent on or closed twice. */
  lemma {:induction false} NeverPanics(c: Setup, n: nat, ls: seq<Label>)
    requires Exec(c, Start(n), ls).Some?
    ensures Safe(c, Exec(c, Start(n), ls).value) && |Exec(c, Start(n), ls).value.workers| == n
  {
    if ls != [] {
      NeverPanics(c, n, ls[..|ls| - 1]);
      StepKeepsSafe(c, Exec(c, Start(n), ls[..|ls| - 1]).value, ls[|ls| - 1]);
    }
  }

  // ---- what each goroutine can do ----

  predicate IsWorker(s: State, w: nat, state: Worker) {
    w < |s.workers| && s.workers[w] == state
  }

  predicate IsHolding(s: State, w: nat) {
    w < |s.workers| && s.workers[w].Holding?
  }

  /** When each goroutine can take each step: a `select` case is possible exactly when its channel or context is ready,
      and capture's send has a default. */
  predicate Possible(c: Setup, s: State, l: Label) {
    match l
    case Cancel => !s.cancelled
    case Read(_) => s.capture.Reading?
    case SourceEnds => s.capture.Reading?
    case CaptureStops => s.capture.Reading? && s.cancelled
    case Offer => s.capture.Offering?
    case Receive(w) => IsWorker(s, w, Idle) && s.packetChan != []
    case SeeClosed(w) => IsWorker(s, w, Idle) && s.packetChan == [] && s.packetClosed
    case Stop(w) => IsWorker(s, w, Idle) && s.cancelled
    case SendOut(w) => IsHolding(s, w) && |s.outChan| < c.outCap
    case Discard(w) => IsHolding(s, w) && s.cancelled
    case CloseOut => !s.outClosed && forall w | 0 <= w < |s.workers| :: s.workers[w] == Done
    case Take => s.outChan != []
    case StartDraining => s.aggregator == Looping && s.cancelled
    case Finish => s.aggregator != Returned && s.outChan == [] && s.outClosed
    case Second(_, _) => s.aggregator == Looping
    case SnapshotTick => s.aggregator == Looping
  }

  /** In every reachable state exactly these steps are possible. */
  lemma PossibleExactly(c: Setup, n: nat, ls: seq<Label>, l: Label)
    requires Exec(c, Start(n), ls).Some?
    ensures var s := Exec(c, Start(n), ls).value; Next(c, s, l).Some? <==> Possible(c, s, l)
  {
    NeverPanics(c, n, ls);
    SafePossible(c, Exec(c, Start(n), ls).value, l);
  }

  lemma SafePossible(c: Setup, s: State, l: Label)
    requires Safe(c, s)
    ensures Next(c, s, l).Some? <==> Possible(c, s, l)
  {
  }

  /** Capture never blocks: in every reachable state in which it has a packet it can offer it, and reads on. A full
      channel drops that packet and changes nothing else; otherwise the packet is queued last. */
  lemma CaptureNeverBlocks(c: Setup, n: nat, ls: seq<Label>)
    requires Exec(c, Start(n), ls).Some? && Exec(c, Start(n), ls).value.capture.Offering?
    ensures var s := Exec(c, Start(n), ls).value;
            var r, pkt := Next(c, s, Offer), s.capture.pkt;
            && r.Some? && r.value.capture == Reading
            && r.value == (if |s.packetChan| == c.packetCap
                           then s.(capture := Reading, dropped := s.dropped + [pkt])
                           else s.(capture := Reading, packetChan := s.packetChan + [pkt],
                                   accepted := s.accepted + [pkt]))
  {
    NeverPanics(c, n, ls);
  }

  /** The packets are read while no worker takes any: the channel fills with the first of them and the rest are dropped,
      one by one. */
  lemma {:induction false} FloodDrops(c: Setup, n: nat, pkts: seq<Raw>) returns (ls: seq<Label>)
    ensures Exec(c, Start(n), ls) == Some(Flooded(c, n, pkts))
  {
    if pkts == [] {
      ls := [];
      assert Flooded(c, n, pkts) == Start(n);
    } else {
      var init, pkt := pkts[..|pkts| - 1], pkts[|pkts| - 1];
      ls := FloodDrops(c, n, init);
      var s := Flooded(c, n, init);
      var t := s.(capture := Offering(pkt), read := pkts);
      assert init + [pkt] == pkts;
      ls := ExecStep(c, Start(n), ls, s, Read(pkt), t);
      OfferMore(c, n, pkts, t);
      ls := ExecStep(c, Start(n), ls, t, Offer, Flooded(c, n, pkts));
    }
  }

  function Flooded(c: Setup, n: nat, pkts: seq<Raw>): State {
    var fit := if |pkts| <= c.packetCap then |pkts| else c.packetCap;
    Start(n).(read := pkts, packetChan := pkts[..fit], accepted := pkts[..fit], dropped := pkts[fit..])
  }

  lemma OfferMore(c: Setup, n: nat, pkts: seq<Raw>, t: State)
    requires pkts != []
    requires t == Flooded(c, n, pkts[..|pkts| - 1]).(capture := Offering(pkts[|pkts| - 1]), read := pkts)
    ensures Next(c, t, Offer) == Some(Flooded(c, n, pkts))
  {
    var init, pkt := pkts[..|pkts| - 1], pkts[|pkts| - 1];
    var k := c.packetCap;
    if |init| < k {
      assert init[..|init|] == init && init[|init|..] == [] && pkts[..|pkts|] == pkts && pkts[|pkts|..] == [];
      assert init + [pkt] == pkts;
    } else {
      assert init[..k] == pkts[..k] && init[k..] + [pkt] == pkts[k..];
    }
  }

  /** One packet more than the channel holds, with no worker step in between, costs exactly one drop. */
  lemma OneTooMany(c: Setup, n: nat, pkts: seq<Raw>) returns (ls: seq<Label>)
    requires |pkts| == c.packetCap + 1
    ensures var r := Exec(c, Start(n), ls);
            && r.Some? && r.value.read == pkts && r.value.dropped == [pkts[c.packetCap]]
            && r.value.packetChan == r.value.accepted == pkts[..c.packetCap]
  {
    ls := FloodDrops(c, n, pkts);
  }

  /** After cancellation every worker can leave at its next step. */
  lemma CancelledWorkersLeave(c: Setup, n: nat, ls: seq<Label>, w: nat)
    requires Exec(c, Start(n), ls).Some? && Exec(c, Start(n), ls).value.cancelled && w < n
    ensures var s := Exec(c, Start(n), ls).value;
            && w < |s.workers|
            && match s.workers[w]
               case Idle => Next(c, s, Stop(w)) == Some(s.(workers := s.workers[w := Done]))
               case Holding(info) =>
                 Next(c, s, Discard(w)) == Some(s.(workers := s.workers[w := Done], discarded := s.discarded + [info]))
               case Done => true
  {
    NeverPanics(c, n, ls);
  }

  // ---- conservation ----

  function Decoded(c: Setup, ps: seq<Raw>): seq<PacketInfo> {
    if ps == [] then [] else [c.decode(ps[0])] + Decoded(c, ps[1..])
  }

  lemma {:induction false} DecodedConcat(c: Setup, a: seq<Raw>, b: seq<Raw>)
    ensures Decoded(c, a + b) == Decoded(c, a) + Decoded(c, b)
  {
    if a == [] {
      assert a + b == b;
    } else {
      assert (a + b)[1..] == a[1..] + b;
      DecodedConcat(c, a[1..], b);
    }
  }

  function HeldBy(w: Worker): seq<PacketInfo> {
    if w.Holding? then [w.info] else []
  }

  function Held(ws: seq<Worker>): seq<PacketInfo> {
    if ws == [] then [] else HeldBy(ws[0]) + Held(ws[1..])
  }

  function One<T(==)>(a: T, x: T): nat {
    if a == x then 1 else 0
  }

  /** The number of occurrences of `x`. */
  function Num<T(==)>(s: seq<T>, x: T): nat {
    if s == [] then 0 else One(s[0], x) + Num(s[1..], x)
  }

  lemma {:induction false} NumIsMultiplicity<T>(s: seq<T>, x: T)
    ensures Num(s, x) == multiset(s)[x]
  {
    if s != [] {
      assert s == [s[0]] + s[1..];
      NumIsMultiplicity(s[1..], x);
    }
  }

  lemma {:induction false} NumConcat<T>(a: seq<T>, b: seq<T>, x: T)
    ensures Num(a + b, x) == Num(a, x) + Num(b, x)
  {
    if a == [] {
      assert a + b == b;
    } else {
      assert (a + b)[1..] == a[1..] + b;
      NumConcat(a[1..], b, x);
    }
  }

  lemma NumSnoc<T>(s: seq<T>, a: T, x: T)
    ensures Num(s + [a], x) == Num(s, x) + One(a, x)
  {
    NumConcat(s, [a], x);
    assert [a][1..] == [];
  }

  lemma {:induction false} HeldUpdate(ws: seq<Worker>, w: nat, y: Worker, x: PacketInfo)
    requires w < |ws|
    ensures Num(Held(ws[w := y]), x) + Num(HeldBy(ws[w]), x) == Num(Held(ws), x) + Num(HeldBy(y), x)
  {
    var ys := ws[w := y];
    NumConcat(HeldBy(ws[0]), Held(ws[1..]), x);
    NumConcat(HeldBy(ys[0]), Held(ys[1..]), x);
    if w == 0 {
      assert ys[1..] == ws[1..];
    } else {
      assert ys[1..] == ws[1..][w - 1 := y];
      HeldUpdate(ws[1..], w - 1, y, x);
    }
  }

  function InHand(s: State): seq<Raw> {
    if s.capture.Offering? then [s.capture.pkt] else []
  }

  /** A read packet is in the capture's hand, dropped, or accepted. */
  ghost predicate ReadConserved(s: State, x: Raw) {
    Num(s.read, x) == Num(InHand(s), x) + Num(s.dropped, x) + Num(s.accepted, x)
  }

  /** An accepted packet is queued, held by a worker, decoded and queued, aggregated, or discarded at cancellation. */
  ghost predicate AcceptedConserved(c: Setup, s: State, x: PacketInfo) {
    Num(Decoded(c, s.accepted), x)
    == Num(Decoded(c, s.packetChan), x) + Num(Held(s.workers), x) + Num(s.outChan, x) + Num(PacketsOf(s.ops), x)
    + Num(s.discarded, x)
  }

  lemma DecodedSnoc(c: Setup, ps: seq<Raw>, p: Raw, x: PacketInfo)
    ensures Num(Decoded(c, ps + [p]), x) == Num(Decoded(c, ps), x) + One(c.decode(p), x)
  {
    DecodedConcat(c, ps, [p]);
    assert Decoded(c, [p]) == [c.decode(p)];
    NumSnoc(Decoded(c, ps), c.decode(p), x);
  }

  lemma DecodedHead(c: Setup, ps: seq<Raw>, x: PacketInfo)
    requires ps != []
    ensures Num(Decoded(c, ps), x) == One(c.decode(ps[0]), x) + Num(Decoded(c, ps[1..]), x)
  {
    assert Decoded(c, ps)[1..] == Decoded(c, ps[1..]);
  }

  lemma HeldNum(w: Worker, x: PacketInfo)
    ensures Num(HeldBy(w), x) == if w.Holding? then One(w.info, x) else 0
  {
  }

  lemma InHandNum(s: State, x: Raw)
    ensures Num(InHand(s), x) == if s.capture.Offering? then One(s.capture.pkt, x) else 0
  {
  }

  lemma ReadStep(c: Setup, s: State, l: Label, x: Raw)
    requires ReadConserved(s, x) && CaptureNext(c, s, l).Some?
    ensures ReadConserved(CaptureNext(c, s, l).value, x)
  {
    var t := CaptureNext(c, s, l).value;
    InHandNum(s, x);
    InHandNum(t, x);
    if l.Read? {
      NumSnoc(s.read, l.pkt, x);
    } else if l.Offer? && !s.packetClosed {
      if |s.packetChan| < c.packetCap {
        NumSnoc(s.accepted, s.capture.pkt, x);
      } else {
        NumSnoc(s.dropped, s.capture.pkt, x);
      }
    }
  }

  lemma CaptureStep(c: Setup, s: State, l: Label, x: PacketInfo)
    requires AcceptedConserved(c, s, x) && CaptureNext(c, s, l).Some?
    ensures AcceptedConserved(c, CaptureNext(c, s, l).value, x)
  {
    if l.Offer? && !s.packetClosed && |s.packetChan| < c.packetCap {
      AcceptStep(c, s, s.capture.pkt, CaptureNext(c, s, l).value, x);
    }
  }

  lemma AcceptStep(c: Setup, s: State, p: Raw, t: State, x: PacketInfo)
    requires AcceptedConserved(c, s, x)
    requires t.accepted == s.accepted + [p] && t.packetChan == s.packetChan + [p]
    requires t.workers == s.workers && t.outChan == s.outChan && t.ops == s.ops && t.discarded == s.discarded
    ensures AcceptedConserved(c, t, x)
  {
    DecodedSnoc(c, s.packetChan, p, x);
    DecodedSnoc(c, s.accepted, p, x);
  }

  lemma WorkerSwap(c: Setup, s: State, t: State, w: nat, x: PacketInfo)
    requires w < |s.workers| == |t.workers| && t.workers == s.workers[w := t.workers[w]] && t.accepted == s.accepted
             && t.ops == s.ops
    requires AcceptedConserved(c, s, x)
    requires Num(Decoded(c, t.packetChan), x) + Num(HeldBy(t.workers[w]), x) + Num(t.outChan, x) + Num(t.discarded, x)
          == Num(Decoded(c, s.packetChan), x) + Num(HeldBy(s.workers[w]), x) + Num(s.outChan, x) + Num(s.discarded, x)
    ensures AcceptedConserved(c, t, x)
  {
    HeldUpdate(s.workers, w, t.workers[w], x);
  }

  lemma ReceiveStep(c: Setup, s: State, w: nat, x: PacketInfo)
    requires AcceptedConserved(c, s, x) && WorkerNext(c, s, Receive(w)).Some?
    ensures AcceptedConserved(c, WorkerNext(c, s, Receive(w)).value, x)
  {
    var t := WorkerNext(c, s, Receive(w)).value;
    HeldNum(s.workers[w], x);
    HeldNum(t.workers[w], x);
    DecodedHead(c, s.packetChan, x);
    WorkerSwap(c, s, t, w, x);
  }

  lemma SendStep(c: Setup, s: State, w: nat, x: PacketInfo)
    requires AcceptedConserved(c, s, x) && WorkerNext(c, s, SendOut(w)).Some? && !s.outClosed
    ensures AcceptedConserved(c, WorkerNext(c, s, SendOut(w)).value, x)
  {
    HeldNum(s.workers[w], x);
    NumSnoc(s.outChan, s.workers[w].info, x);
    WorkerSwap(c, s, WorkerNext(c, s, SendOut(w)).value, w, x);
  }

  lemma DiscardStep(c: Setup, s: State, w: nat, x: PacketInfo)
    requires AcceptedConserved(c, s, x) && WorkerNext(c, s, Discard(w)).Some?
    ensures AcceptedConserved(c, WorkerNext(c, s, Discard(w)).value, x)
  {
    HeldNum(s.workers[w], x);
    NumSnoc(s.discarded, s.workers[w].info, x);
    WorkerSwap(c, s, WorkerNext(c, s, Discard(w)).value, w, x);
  }

  /** A worker that holds nothing is done. */
  lemma RetireStep(c: Setup, s: State, w: nat, x: PacketInfo)
    requires AcceptedConserved(c, s, x) && w < |s.workers| && s.workers[w].Idle?
    ensures AcceptedConserved(c, WithWorker(s, w, Done), x)
  {
    WorkerSwap(c, s, WithWorker(s, w, Done), w, x);
  }

  lemma WorkerStep(c: Setup, s: State, l: Label, x: PacketInfo)
    requires AcceptedConserved(c, s, x) && WorkerNext(c, s, l).Some? && !s.outClosed
    ensures AcceptedConserved(c, WorkerNext(c, s, l).value, x)
  {
    match l
    case Receive(w) => ReceiveStep(c, s, w, x);
    case SeeClosed(w) => RetireStep(c, s, w, x);
    case Stop(w) => RetireStep(c, s, w, x);
    case SendOut(w) => SendStep(c, s, w, x);
    case Discard(w) => DiscardStep(c, s, w, x);
    case _ =>
  }

  lemma PacketsOfMore(ops: seq<Op>, op: Op)
    ensures PacketsOf(ops + [op]) == if op.Packet? then PacketsOf(ops) + [op.p] else PacketsOf(ops)
  {
    assert (ops + [op])[..|ops + [op]| - 1] == ops;
  }

  lemma AggregatorStep(c: Setup, s: State, l: Label, x: PacketInfo)
    requires AcceptedConserved(c, s, x) && AggregatorNext(c, s, l).Some?
    ensures AcceptedConserved(c, AggregatorNext(c, s, l).value, x)
  {
    if l.Take? {
      PacketsOfMore(s.ops, Packet(s.outChan[0]));
      NumSnoc(PacketsOf(s.ops), s.outChan[0], x);
    } else if l.Second? {
      PacketsOfMore(s.ops, SecondTick(l.order, l.now));
    }
  }

  lemma StepConservesRead(c: Setup, s: State, l: Label, x: Raw)
    requires ReadConserved(s, x) && Next(c, s, l).Some?
    ensures ReadConserved(Next(c, s, l).value, x)
  {
    if l.Read? || l.SourceEnds? || l.CaptureStops? || l.Offer? {
      ReadStep(c, s, l, x);
    } else {
      var t := Next(c, s, l).value;
      assert t.read == s.read && t.capture == s.capture && t.dropped == s.dropped && t.accepted == s.accepted;
    }
  }

  lemma StepConservesAccepted(c: Setup, s: State, l: Label, x: PacketInfo)
    requires AcceptedConserved(c, s, x) && Safe(c, s) && Next(c, s, l).Some?
    ensures AcceptedConserved(c, Next(c, s, l).value, x)
  {
    if l.Cancel? {
    } else if l.Read? || l.SourceEnds? || l.CaptureStops? || l.Offer? {
      CaptureStep(c, s, l, x);
    } else if l.Take? || l.StartDraining? || l.Finish? || l.Second? || l.SnapshotTick? {
      AggregatorStep(c, s, l, x);
    } else {
      DoneWorkersIdle(c, s, l);
      WorkerStep(c, s, l, x);
    }
  }

  /** Once the output channel is closed no worker has a step left. */
  lemma DoneWorkersIdle(c: Setup, s: State, l: Label)
    requires Safe(c, s) && WorkerNext(c, s, l).Some?
    ensures !s.outClosed
  {
  }

  lemma {:induction false} RunConservesEach(c: Setup, n: nat, ls: seq<Label>, x: PacketInfo, r: Raw)
    requires Exec(c, Start(n), ls).Some?
    ensures ReadConserved(Exec(c, Start(n), ls).value, r) && AcceptedConserved(c, Exec(c, Start(n), ls).value, x)
  {
    if ls == [] {
      NothingHeld(n);
    } else {
      var before, l := ls[..|ls| - 1], ls[|ls| - 1];
      RunConservesEach(c, n, before, x, r);
      NeverPanics(c, n, before);
      StepConservesRead(c, Exec(c, Start(n), before).value, l, r);
      StepConservesAccepted(c, Exec(c, Start(n), before).value, l, x);
    }
  }

  lemma {:induction false} NothingHeld(n: nat)
    ensures Held(Start(n).workers) == []
  {
    if n > 0 {
      assert Start(n).workers[1..] == Start(n - 1).workers;
      NothingHeld(n - 1);
    }
  }

  lemma ReadAsMultisets(s: State)
    requires forall r :: ReadConserved(s, r)
    ensures multiset(s.read) == multiset(InHand(s)) + multiset(s.dropped) + multiset(s.accepted)
  {
    forall r: Raw ensures multiset(s.read)[r] == (multiset(InHand(s)) + multiset(s.dropped) + multiset(s.accepted))[r] {
      assert ReadConserved(s, r);
      NumIsMultiplicity(s.read, r);
      NumIsMultiplicity(InHand(s), r);
      NumIsMultiplicity(s.dropped, r);
      NumIsMultiplicity(s.accepted, r);
    }
  }

  lemma AcceptedAsMultisets(c: Setup, s: State)
    requires forall x :: AcceptedConserved(c, s, x)
    ensures multiset(Decoded(c, s.accepted))
         == multiset(Decoded(c, s.packetChan)) + multiset(Held(s.workers)) + multiset(s.outChan)
            + multiset(PacketsOf(s.ops)) + multiset(s.discarded)
  {
    forall x: PacketInfo
      ensures multiset(Decoded(c, s.accepted))[x]
           == (multiset(Decoded(c, s.packetChan)) + multiset(Held(s.workers)) + multiset(s.outChan)
               + multiset(PacketsOf(s.ops)) + multiset(s.discarded))[x]
    {
      assert AcceptedConserved(c, s, x);
      NumIsMultiplicity(Decoded(c, s.accepted), x);
      NumIsMultiplicity(Decoded(c, s.packetChan), x);
      NumIsMultiplicity(Held(s.workers), x);
      NumIsMultiplicity(s.outChan, x);
      NumIsMultiplicity(PacketsOf(s.ops), x);
      NumIsMultiplicity(s.discarded, x);
    }
  }

  /** In every reachable state nothing read is lost or invented, contents included. */
  lemma RunConserves(c: Setup, n: nat, ls: seq<Label>)
    requires Exec(c, Start(n), ls).Some?
    ensures var s := Exec(c, Start(n), ls).value;
            && multiset(s.read) == multiset(InHand(s)) + multiset(s.dropped) + multiset(s.accepted)
            && multiset(Decoded(c, s.accepted))
               == multiset(Decoded(c, s.packetChan)) + multiset(Held(s.workers)) + multiset(s.outChan)
                  + multiset(PacketsOf(s.ops)) + multiset(s.discarded)
  {
    var s := Exec(c, Start(n), ls).value;
    forall r: Raw ensures ReadConserved(s, r) {
      RunConservesEach(c, n, ls, PacketInfo(0, 0, None, None, "", 0, 0, ""), r);
    }
    forall x: PacketInfo ensures AcceptedConserved(c, s, x) {
      RunConservesEach(c, n, ls, x, Raw([]));
    }
    ReadAsMultisets(s);
    AcceptedAsMultisets(c, s);
  }

  lemma DecodedLength(c: Setup, ps: seq<Raw>)
    ensures |Decoded(c, ps)| == |ps|
  {
  }

  lemma RunCounts(c: Setup, n: nat, ls: seq<Label>)
    requires Exec(c, Start(n), ls).Some?
    ensures var s := Exec(c, Start(n), ls).value;
            && |s.read| == |InHand(s)| + |s.dropped| + |s.accepted|
            && |s.accepted| == |s.packetChan| + |Held(s.workers)| + |s.outChan| + |PacketsOf(s.ops)| + |s.discarded|
  {
    var s := Exec(c, Start(n), ls).value;
    RunConserves(c, n, ls);
    assert |multiset(s.read)| == |multiset(InHand(s))| + |multiset(s.dropped)| + |multiset(s.accepted)|;
    DecodedLength(c, s.accepted);
    DecodedLength(c, s.packetChan);
    assert |multiset(Decoded(c, s.accepted))|
        == |multiset(Decoded(c, s.packetChan))| + |multiset(Held(s.workers))| + |multiset(s.outChan)|
           + |multiset(PacketsOf(s.ops))| + |multiset(s.discarded)|;
  }

  // ---- what the snapshots count ----

  /** Snapshots lag but never overcount. The last one has every aggregated packet and, in an uncancelled run with
      workers, every dropped one. */
  ghost predicate Reported(c: Setup, s: State) {
    && s.published.totalPackets <= |PacketsOf(s.ops)| && s.published.dropped <= |s.dropped|
    && (s.aggregator.Returned? ==>
          s.published.totalPackets == |PacketsOf(s.ops)| && s.published.totalBytes == Bytes(PacketsOf(s.ops), All))
    && (s.aggregator.Returned? && !s.cancelled && s.workers != []
        ==> s.capture.Exited? && s.published.dropped == |s.dropped|)
  }

  lemma AggregatorReports(c: Setup, s: State, l: Label)
    requires Safe(c, s) && Reported(c, s) && AggregatorNext(c, s, l).Some?
    ensures Reported(c, AggregatorNext(c, s, l).value)
  {
    if l.Take? {
      PacketsOfMore(s.ops, Packet(s.outChan[0]));
    } else if l.Second? {
      PacketsOfMore(s.ops, SecondTick(l.order, l.now));
      StatsTotals(c, s.(ops := s.ops + [SecondTick(l.order, l.now)]));
    } else if l.SnapshotTick? {
      StatsTotals(c, s);
    } else if l.Finish? {
      StatsTotals(c, s);
      FinishReports(c, s);
    }
  }

  lemma StepKeepsReported(c: Setup, s: State, l: Label)
    requires Safe(c, s) && Reported(c, s) && Next(c, s, l).Some?
    ensures Reported(c, Next(c, s, l).value)
  {
    if l.Take? || l.StartDraining? || l.Finish? || l.Second? || l.SnapshotTick? {
      AggregatorReports(c, s, l);
    }
  }

  lemma StatsTotals(c: Setup, s: State)
    ensures Stats(c, s).totalPackets == |PacketsOf(s.ops)| && Stats(c, s).totalBytes == Bytes(PacketsOf(s.ops), All)
  {
    IndexesAreFolds(c.stats, map[], s.ops);
  }

  lemma FinishReports(c: Setup, s: State)
    requires Safe(c, s) && AggregatorNext(c, s, Finish).Some?
    ensures !s.cancelled && s.workers != [] ==> s.capture.Exited?
  {
    if s.workers != [] {
      assert s.workers[0].Done?;
    }
  }

  lemma {:induction false} RunReported(c: Setup, n: nat, ls: seq<Label>)
    requires Exec(c, Start(n), ls).Some?
    ensures Reported(c, Exec(c, Start(n), ls).value)
  {
    if ls != [] {
      RunReported(c, n, ls[..|ls| - 1]);
      NeverPanics(c, n, ls[..|ls| - 1]);
      StepKeepsReported(c, Exec(c, Start(n), ls[..|ls| - 1]).value, ls[|ls| - 1]);
    }
  }

  /** The totals of every packet aggregated, and the drops so far. */
  function Totals(s: State): Published {
    Published(|PacketsOf(s.ops)|, Bytes(PacketsOf(s.ops), All), |s.dropped|)
  }

  lemma PublishesTotals(c: Setup, s: State)
    ensures Publish(c, s) == s.(published := Totals(s))
  {
    StatsTotals(c, s);
  }

  lemma SecondPublishes(c: Setup, s: State, order: seq<string>, now: Time)
    ensures Publish(c, s.(ops := s.ops + [SecondTick(order, now)]))
         == s.(ops := s.ops + [SecondTick(order, now)], published := Totals(s))
  {
    var ticked := s.(ops := s.ops + [SecondTick(order, now)]);
    PublishesTotals(c, ticked);
    PacketsOfMore(s.ops, SecondTick(order, now));
  }

  /** While the aggregator loops, a second reaches its manager and is then published, and the snapshot timer publishes
      the totals as they are. Once it drains, neither timer runs. */
  lemma TimersPublish(c: Setup, n: nat, ls: seq<Label>, order: seq<string>, now: Time)
    requires Exec(c, Start(n), ls).Some?
    ensures var s := Exec(c, Start(n), ls).value;
            && Next(c, s, Second(order, now))
               == (if s.aggregator.Looping?
                   then Some(s.(ops := s.ops + [SecondTick(order, now)], published := Totals(s))) else None)
            && Next(c, s, SnapshotTick) == (if s.aggregator.Looping? then Some(s.(published := Totals(s))) else None)
  {
    NeverPanics(c, n, ls);
    SecondTimer(c, Exec(c, Start(n), ls).value, order, now);
    SnapshotTimer(c, Exec(c, Start(n), ls).value);
  }

  /** The aggregator returns, looping or draining, once its input is closed and empty, and publishes on its way out. */
  lemma ReturnPublishes(c: Setup, n: nat, ls: seq<Label>)
    requires Exec(c, Start(n), ls).Some?
    ensures var s := Exec(c, Start(n), ls).value;
            Next(c, s, Finish) == if !s.aggregator.Returned? && s.outClosed && s.outChan == []
                                  then Some(s.(published := Totals(s), aggregator := Returned)) else None
  {
    NeverPanics(c, n, ls);
    FinishNext(c, Exec(c, Start(n), ls).value);
  }

  lemma FinishNext(c: Setup, s: State)
    requires !s.panicked
    ensures Next(c, s, Finish) == if !s.aggregator.Returned? && s.outClosed && s.outChan == []
                                  then Some(s.(published := Totals(s), aggregator := Returned)) else None
  {
    PublishesTotals(c, s);
  }

  lemma SecondTimer(c: Setup, s: State, order: seq<string>, now: Time)
    requires !s.panicked
    ensures Next(c, s, Second(order, now))
         == if s.aggregator.Looping?
            then Some(s.(ops := s.ops + [SecondTick(order, now)], published := Totals(s))) else None
  {
    SecondPublishes(c, s, order, now);
    SecondNext(c, s, Second(order, now), s.(ops := s.ops + [SecondTick(order, now)]));
  }

  lemma SecondNext(c: Setup, s: State, l: Label, ticked: State)
    requires !s.panicked && l.Second? && ticked == s.(ops := s.ops + [SecondTick(l.order, l.now)])
    ensures Next(c, s, l) == if s.aggregator.Looping? then Some(Publish(c, ticked)) else None
  {
  }

  lemma SnapshotTimer(c: Setup, s: State)
    requires !s.panicked
    ensures Next(c, s, SnapshotTick) == if s.aggregator.Looping? then Some(s.(published := Totals(s))) else None
  {
    PublishesTotals(c, s);
  }

  /** No snapshot of any run counts more packets than were read. */
  lemma SnapshotsNeverOvercount(c: Setup, n: nat, ls: seq<Label>)
    requires Exec(c, Start(n), ls).Some?
    ensures var s := Exec(c, Start(n), ls).value; s.published.totalPackets + s.published.dropped <= |s.read|
  {
    RunReported(c, n, ls);
    RunCounts(c, n, ls);
  }

  /** Later snapshots never count less. */
  lemma SnapshotsGrow(c: Setup, n: nat, ls: seq<Label>, l: Label)
    requires Exec(c, Start(n), ls + [l]).Some? && Exec(c, Start(n), ls).Some?
    ensures Exec(c, Start(n), ls).value.published.totalPackets
         <= Exec(c, Start(n), ls + [l]).value.published.totalPackets
    ensures Exec(c, Start(n), ls).value.published.dropped <= Exec(c, Start(n), ls + [l]).value.published.dropped
  {
    ExecOne(c, Start(n), ls, l);
    RunReported(c, n, ls);
    PublishedGrows(c, Exec(c, Start(n), ls).value, l);
  }

  lemma SecondGrows(c: Setup, s: State, l: Label)
    requires Reported(c, s) && l.Second? && AggregatorNext(c, s, l).Some?
    ensures s.published.totalPackets <= AggregatorNext(c, s, l).value.published.totalPackets
    ensures s.published.dropped <= AggregatorNext(c, s, l).value.published.dropped
  {
    var ticked := s.(ops := s.ops + [SecondTick(l.order, l.now)]);
    PacketsOfMore(s.ops, SecondTick(l.order, l.now));
    StatsTotals(c, ticked);
    assert AggregatorNext(c, s, l).value == Publish(c, ticked);
  }

  lemma PublishedGrows(c: Setup, s: State, l: Label)
    requires Reported(c, s) && Next(c, s, l).Some?
    ensures s.published.totalPackets <= Next(c, s, l).value.published.totalPackets
    ensures s.published.dropped <= Next(c, s, l).value.published.dropped
  {
    if l.Second? {
      SecondGrows(c, s, l);
    } else if l.SnapshotTick? {
      SnapshotTimer(c, s);
    } else if l.Finish? {
      FinishNext(c, s);
    } else {
      assert Next(c, s, l).value.published == s.published;
    }
  }

  /** Nothing is dropped while no more packets have been read than the input channel can hold. */
  lemma {:induction false} NoDropsWithinCapacity(c: Setup, n: nat, ls: seq<Label>)
    requires Exec(c, Start(n), ls).Some?
    ensures var s := Exec(c, Start(n), ls).value; |s.read| <= c.packetCap ==> s.dropped == []
  {
    if ls != [] {
      var before := ls[..|ls| - 1];
      NoDropsWithinCapacity(c, n, before);
      RunCounts(c, n, before);
      DropsWhenFull(c, Exec(c, Start(n), before).value, ls[|ls| - 1]);
    }
  }

  /** Only a full input channel makes a step drop, and it drops the packet in hand. */
  lemma DropsWhenFull(c: Setup, s: State, l: Label)
    requires Next(c, s, l).Some?
    ensures var t := Next(c, s, l).value;
            && |s.read| <= |t.read|
            && (|| t.dropped == s.dropped
                || (|s.packetChan| >= c.packetCap && t.dropped == s.dropped + InHand(s) && |InHand(s)| == 1))
  {
    var t := Next(c, s, l).value;
    if l.Read? {
      assert t.read == s.read + [l.pkt] && t.dropped == s.dropped;
    } else if !l.Offer? {
      assert t.read == s.read && t.dropped == s.dropped;
    }
  }

  lemma {:induction false} DoneHoldNothing(ws: seq<Worker>)
    requires AllDone(ws)
    ensures Held(ws) == []
  {
    if ws != [] {
      DoneHoldNothing(ws[1..]);
    }
  }

  lemma BytesInserted(a: seq<PacketInfo>, p: PacketInfo, b: seq<PacketInfo>)
    ensures Bytes((a + [p]) + b, All) == Bytes(a + b, All) + p.length
  {
    BytesConcat(a + [p], b, All);
    BytesConcat(a, b, All);
    assert (a + [p])[..|a|] == a;
  }

  lemma BytesWithout(qs: seq<PacketInfo>, i: nat)
    requires i < |qs|
    ensures Bytes(qs, All) == Bytes(qs[..i] + qs[i + 1..], All) + qs[i].length
  {
    Parts(qs, i);
    BytesInserted(qs[..i], qs[i], qs[i + 1..]);
  }

  lemma {:induction false} BytesPermuted(ps: seq<PacketInfo>, qs: seq<PacketInfo>)
    requires multiset(ps) == multiset(qs)
    ensures Bytes(ps, All) == Bytes(qs, All)
  {
    if ps == [] {
      assert |multiset(qs)| == |qs|;
    } else {
      var last := |ps| - 1;
      assert ps[last] in multiset(qs);
      var i :| 0 <= i < |qs| && qs[i] == ps[last];
      Without(ps, last);
      Without(qs, i);
      BytesWithout(ps, last);
      BytesWithout(qs, i);
      BytesPermuted(ps[..last] + ps[last + 1..], qs[..i] + qs[i + 1..]);
    }
  }

  /** When the aggregator of an uncancelled run with workers returns, its last snapshot accounts for every packet
      read: it aggregated exactly the accepted ones, and counts the others as dropped. */
  lemma FinishedRunAccounts(c: Setup, n: nat, ls: seq<Label>)
    requires n >= 1 && Exec(c, Start(n), ls).Some?
    requires var s := Exec(c, Start(n), ls).value; s.aggregator.Returned? && !s.cancelled
    ensures var s := Exec(c, Start(n), ls).value;
            && s.published.totalPackets + s.published.dropped == |s.read|
            && multiset(PacketsOf(s.ops)) == multiset(Decoded(c, s.accepted))
            && s.published.totalBytes == Bytes(Decoded(c, s.accepted), All)
  {
    var s := Exec(c, Start(n), ls).value;
    NeverPanics(c, n, ls);
    RunReported(c, n, ls);
    RunCounts(c, n, ls);
    RunConserves(c, n, ls);
    assert s.workers[0].Done?;
    DoneHoldNothing(s.workers);
    BytesPermuted(PacketsOf(s.ops), Decoded(c, s.accepted));
  }

  /** Cancelled or not, what the last snapshot misses of the accepted packets is exactly what the workers left in their
      input or threw away. */
  lemma ReturnedRunAccounts(c: Setup, n: nat, ls: seq<Label>)
    requires Exec(c, Start(n), ls).Some? && Exec(c, Start(n), ls).value.aggregator.Returned?
    ensures var s := Exec(c, Start(n), ls).value;
            && s.published.totalPackets + |s.packetChan| + |s.discarded| == |s.accepted|
            && multiset(Decoded(c, s.accepted))
               == multiset(PacketsOf(s.ops)) + multiset(Decoded(c, s.packetChan)) + multiset(s.discarded)
            && s.published.totalBytes == Bytes(PacketsOf(s.ops), All)
  {
    var s := Exec(c, Start(n), ls).value;
    NeverPanics(c, n, ls);
    RunReported(c, n, ls);
    RunCounts(c, n, ls);
    RunConserves(c, n, ls);
    DoneHoldNothing(s.workers);
  }

  /** At least one worker is needed: without any, the pool closes its output at once and accepted packets are lost. */
  lemma NoWorkersLosePackets(c: Setup, p: Raw) returns (ls: seq<Label>)
    requires c.packetCap >= 1
    ensures var r := Exec(c, Start(0), ls);
            r.Some? && r.value.aggregator.Returned? && !r.value.cancelled
            && r.value.published.totalPackets + r.value.published.dropped < |r.value.read|
  {
    var s0 := Start(0);
    var s1 := s0.(capture := Offering(p), read := [p]);
    var s2 := s0.(packetChan := [p], read := [p], accepted := [p]);
    var s3 := s2.(capture := Exited, packetClosed := true);
    var s4 := s3.(closerDone := true, outClosed := true);
    assert [] + [p] == [p];
    ls := ExecStep(c, s0, [], s0, Read(p), s1);
    ls := ExecStep(c, s0, ls, s1, Offer, s2);
    ls := ExecStep(c, s0, ls, s2, SourceEnds, s3);
    ls := ExecStep(c, s0, ls, s3, CloseOut, s4);
    StatsTotals(c, s4);
    ls := ExecStep(c, s0, ls, s4, Finish, Publish(c, s4).(aggregator := Returned));
  }

  lemma ExecStep(c: Setup, s: State, ls: seq<Label>, t: State, l: Label, u: State)
    returns (more: seq<Label>)
    requires Exec(c, s, ls) == Some(t) && Next(c, t, l) == Some(u)
    ensures more == ls + [l] && Exec(c, s, more) == Some(u)
  {
    more := ls + [l];
    ExecOne(c, s, ls, l);
  }

  lemma ExecOne(c: Setup, s: State, ls: seq<Label>, l: Label)
    requires Exec(c, s, ls).Some?
    ensures Exec(c, s, ls + [l]) == Next(c, Exec(c, s, ls).value, l)
  {
    assert (ls + [l])[..|ls + [l]| - 1] == ls;
  }

  // ---- termination ----

  predicate Timer(l: Label) {
    l.Second? || l.SnapshotTick?
  }

  function Weight(w: Worker): nat {
    match w case Idle => 1 case Holding(_) => 3 case Done => 0
  }

  function Weights(ws: seq<Worker>): nat {
    if ws == [] then 0 else Weight(ws[0]) + Weights(ws[1..])
  }

  lemma {:induction false} WeightsUpdate(ws: seq<Worker>, w: nat, x: Worker)
    requires w < |ws|
    ensures Weights(ws[w := x]) + Weight(ws[w]) == Weights(ws) + Weight(x)
  {
    var ys := ws[w := x];
    if w == 0 {
      assert ys[1..] == ws[1..];
    } else {
      assert ys[1..] == ws[1..][w - 1 := x];
      WeightsUpdate(ws[1..], w - 1, x);
    }
  }

  /** Queued and held packets, live goroutines, and the cancellation still to come. */
  function Measure(s: State): nat {
    3 * |s.packetChan| + Weights(s.workers) + |s.outChan|
    + (if s.closerDone then 0 else 1)
    + (match s.aggregator case Looping => 2 case Draining => 1 case Returned => 0)
    + (if s.cancelled then 0 else 1)
  }

  lemma WorkerDecreases(c: Setup, s: State, l: Label)
    requires Safe(c, s) && WorkerNext(c, s, l).Some?
    ensures Measure(WorkerNext(c, s, l).value) < Measure(s)
  {
    DoneWorkersIdle(c, s, l);
    var t := WorkerNext(c, s, l).value;
    match l
    case Receive(w) => WeightsUpdate(s.workers, w, t.workers[w]);
    case SeeClosed(w) => WeightsUpdate(s.workers, w, Done);
    case Stop(w) => WeightsUpdate(s.workers, w, Done);
    case SendOut(w) => WeightsUpdate(s.workers, w, Idle);
    case Discard(w) => WeightsUpdate(s.workers, w, Done);
    case _ =>
  }

  /** Once capture has exited, every step that is not a timer brings the pipeline nearer to its end. */
  lemma StepsDecrease(c: Setup, s: State, l: Label)
    requires Safe(c, s) && s.capture.Exited? && Next(c, s, l).Some? && !Timer(l)
    ensures Next(c, s, l).value.capture.Exited? && Measure(Next(c, s, l).value) < Measure(s)
  {
    if !(l.Cancel? || l.Read? || l.SourceEnds? || l.CaptureStops? || l.Offer? || l.Take? || l.StartDraining?
         || l.Finish?) {
      WorkerDecreases(c, s, l);
    }
  }

  /** The first worker that is not done. */
  lemma {:induction false} LiveWorker(ws: seq<Worker>) returns (w: nat)
    requires !AllDone(ws)
    ensures w < |ws| && !ws[w].Done?
  {
    if !ws[0].Done? {
      w := 0;
    } else {
      w := LiveWorker(ws[1..]);
      w := w + 1;
    }
  }

  /** No state is stuck before the aggregator has returned, whatever the buffer of the output channel holds. */
  lemma NotStuck(c: Setup, s: State) returns (l: Label)
    requires Safe(c, s) && s.capture.Exited? && !s.aggregator.Returned? && c.outCap >= 1
    ensures !Timer(l) && !l.Cancel? && Next(c, s, l).Some?
  {
    if s.outChan != [] {
      l := Take;
    } else if AllDone(s.workers) {
      l := if s.closerDone then Finish else CloseOut;
    } else {
      var w := LiveWorker(s.workers);
      if s.workers[w].Holding? {
        l := SendOut(w);
      } else if s.packetChan != [] {
        l := Receive(w);
      } else {
        l := SeeClosed(w);
      }
    }
  }

  /** From every safe state after capture has exited, at most `Measure(s)` non-timer steps lead to the return. */
  lemma {:induction false} PipelineFinishes(c: Setup, s: State) returns (ls: seq<Label>)
    requires Safe(c, s) && s.capture.Exited? && c.outCap >= 1
    ensures |ls| <= Measure(s) && (forall l | l in ls :: !Timer(l) && !l.Cancel?)
    ensures Exec(c, s, ls).Some? && Exec(c, s, ls).value.aggregator.Returned?
    decreases Measure(s)
  {
    if s.aggregator.Returned? {
      ls := [];
    } else {
      var l := NotStuck(c, s);
      var t := Next(c, s, l).value;
      StepKeepsSafe(c, s, l);
      StepsDecrease(c, s, l);
      var rest := PipelineFinishes(c, t);
      ls := [l] + rest;
      ExecCons(c, s, l, rest);
    }
  }

  /** From every reachable state, whatever capture is doing, the source may end and the pipeline run to the return with
      no cancellation and no timer. */
  lemma RunsFinish(c: Setup, n: nat, ls: seq<Label>) returns (rest: seq<Label>)
    requires Exec(c, Start(n), ls).Some? && c.outCap >= 1
    ensures forall l | l in rest :: !Timer(l) && !l.Cancel?
    ensures Exec(c, Start(n), ls + rest).Some? && Exec(c, Start(n), ls + rest).value.aggregator.Returned?
  {
    NeverPanics(c, n, ls);
    var s := Exec(c, Start(n), ls).value;
    var first, t := CaptureEnds(c, s);
    var last := PipelineFinishes(c, t);
    rest := first + last;
    ExecConcat(c, s, first, t, last);
    ExecConcat(c, Start(n), ls, s, rest);
  }

  lemma CaptureEnds(c: Setup, s: State) returns (ls: seq<Label>, t: State)
    requires Safe(c, s)
    ensures Exec(c, s, ls) == Some(t) && Safe(c, t) && t.capture.Exited?
    ensures forall l | l in ls :: !Timer(l) && !l.Cancel?
  {
    ls, t := [], s;
    if t.capture.Offering? {
      ls, t := OneStep(c, s, ls, t, Offer);
    }
    if t.capture.Reading? {
      ls, t := OneStep(c, s, ls, t, SourceEnds);
    }
  }

  lemma OneStep(c: Setup, s: State, ls: seq<Label>, t: State, l: Label) returns (more: seq<Label>, u: State)
    requires Exec(c, s, ls) == Some(t) && Safe(c, t) && Next(c, t, l).Some?
    ensures more == ls + [l] && Next(c, t, l) == Some(u) && Exec(c, s, more) == Some(u) && Safe(c, u)
  {
    u := Next(c, t, l).value;
    more := ExecStep(c, s, ls, t, l, u);
    StepKeepsSafe(c, t, l);
  }

  lemma {:induction false} ExecCons(c: Setup, s: State, l: Label, rest: seq<Label>)
    requires Next(c, s, l).Some?
    ensures Exec(c, s, [l] + rest) == Exec(c, Next(c, s, l).value, rest)
  {
    if rest == [] {
      ExecOne(c, s, [], l);
      assert [l] + rest == [] + [l];
    } else {
      var init := rest[..|rest| - 1];
      ExecCons(c, s, l, init);
      assert ([l] + rest)[..|[l] + rest| - 1] == [l] + init;
    }
  }

  /** The timers aside, no run after capture has exited is longer than the measure. */
  lemma {:induction false} RunsAreBounded(c: Setup, s: State, ls: seq<Label>)
    requires Safe(c, s) && s.capture.Exited? && Exec(c, s, ls).Some? && forall l | l in ls :: !Timer(l)
    ensures Safe(c, Exec(c, s, ls).value) && Exec(c, s, ls).value.capture.Exited?
    ensures |ls| + Measure(Exec(c, s, ls).value) <= Measure(s)
  {
    if ls != [] {
      var before, l := ls[..|ls| - 1], ls[|ls| - 1];
      assert l in ls;
      RunsAreBounded(c, s, before);
      StepKeepsSafe(c, Exec(c, s, before).value, l);
      StepsDecrease(c, Exec(c, s, before).value, l);
    }
  }

  // ---- order ----

  /** With one worker the pipeline is a queue: what is aggregated, what is waiting to be, what the worker holds or has
      discarded, and what it has yet to receive. */
  function Line(c: Setup, s: State): seq<PacketInfo>
    requires |s.workers| == 1
  {
    PacketsOf(s.ops) + (s.outChan + (HeldBy(s.workers[0]) + (s.discarded + Decoded(c, s.packetChan))))
  }

  ghost predicate Ordered(c: Setup, s: State) {
    && |s.workers| == 1
    && (s.discarded != [] ==> s.workers[0].Done?)
    && Decoded(c, s.accepted) == Line(c, s)
  }

  lemma AppendToLine<T>(a: seq<T>, b: seq<T>, h: seq<T>, d: seq<T>, q: seq<T>, x: T)
    ensures a + (b + (h + (d + (q + [x])))) == (a + (b + (h + (d + q)))) + [x]
  {
  }

  lemma CaptureKeepsOrder(c: Setup, s: State, l: Label)
    requires Ordered(c, s) && CaptureNext(c, s, l).Some?
    ensures Ordered(c, CaptureNext(c, s, l).value)
  {
    if l.Offer? && !s.packetClosed && |s.packetChan| < c.packetCap {
      var p := s.capture.pkt;
      DecodedConcat(c, s.packetChan, [p]);
      DecodedConcat(c, s.accepted, [p]);
      assert Decoded(c, [p]) == [c.decode(p)];
      AppendToLine(PacketsOf(s.ops), s.outChan, HeldBy(s.workers[0]), s.discarded, Decoded(c, s.packetChan),
                   c.decode(p));
    }
  }

  lemma ReceiveKeepsOrder(c: Setup, s: State)
    requires Ordered(c, s) && WorkerNext(c, s, Receive(0)).Some?
    ensures Ordered(c, WorkerNext(c, s, Receive(0)).value)
  {
    var x, q := c.decode(s.packetChan[0]), Decoded(c, s.packetChan[1..]);
    assert Decoded(c, s.packetChan) == [x] + q;
    assert [] + (s.discarded + ([x] + q)) == [x] + (s.discarded + q);
  }

  lemma SendKeepsOrder(c: Setup, s: State)
    requires Ordered(c, s) && WorkerNext(c, s, SendOut(0)).Some? && !s.outClosed
    ensures Ordered(c, WorkerNext(c, s, SendOut(0)).value)
  {
    var x, rest := s.workers[0].info, s.discarded + Decoded(c, s.packetChan);
    assert s.outChan + ([x] + rest) == (s.outChan + [x]) + ([] + rest);
  }

  lemma DiscardKeepsOrder(c: Setup, s: State)
    requires Ordered(c, s) && WorkerNext(c, s, Discard(0)).Some?
    ensures Ordered(c, WorkerNext(c, s, Discard(0)).value)
  {
    var x, q := s.workers[0].info, Decoded(c, s.packetChan);
    assert [x] + (s.discarded + q) == [] + ((s.discarded + [x]) + q);
  }

  lemma WorkerKeepsOrder(c: Setup, s: State, l: Label)
    requires Ordered(c, s) && WorkerNext(c, s, l).Some? && !s.outClosed
    ensures Ordered(c, WorkerNext(c, s, l).value)
  {
    match l
    case Receive(w) => ReceiveKeepsOrder(c, s);
    case SendOut(w) => SendKeepsOrder(c, s);
    case Discard(w) => DiscardKeepsOrder(c, s);
    case _ =>
  }

  lemma TakeFromLine<T>(done: seq<T>, out: seq<T>, rest: seq<T>)
    requires out != []
    ensures done + (out + rest) == (done + [out[0]]) + (out[1..] + rest)
  {
  }

  lemma TakeKeepsOrder(c: Setup, s: State)
    requires Ordered(c, s) && AggregatorNext(c, s, Take).Some?
    ensures Ordered(c, AggregatorNext(c, s, Take).value)
  {
    PacketsOfMore(s.ops, Packet(s.outChan[0]));
    TakeFromLine(PacketsOf(s.ops), s.outChan, HeldBy(s.workers[0]) + (s.discarded + Decoded(c, s.packetChan)));
  }

  lemma AggregatorKeepsOrder(c: Setup, s: State, l: Label)
    requires Ordered(c, s) && AggregatorNext(c, s, l).Some?
    ensures Ordered(c, AggregatorNext(c, s, l).value)
  {
    if l.Take? {
      TakeKeepsOrder(c, s);
    } else {
      if l.Second? {
        PacketsOfMore(s.ops, SecondTick(l.order, l.now));
      }
      var t := AggregatorNext(c, s, l).value;
      assert PacketsOf(t.ops) == PacketsOf(s.ops) && t.outChan == s.outChan && t.workers == s.workers;
      assert t.discarded == s.discarded && t.packetChan == s.packetChan && t.accepted == s.accepted;
    }
  }

  lemma StepKeepsOrder(c: Setup, s: State, l: Label)
    requires Safe(c, s) && Ordered(c, s) && Next(c, s, l).Some?
    ensures Ordered(c, Next(c, s, l).value)
  {
    if l.Cancel? {
    } else if l.Read? || l.SourceEnds? || l.CaptureStops? || l.Offer? {
      CaptureKeepsOrder(c, s, l);
    } else if l.Take? || l.StartDraining? || l.Finish? || l.Second? || l.SnapshotTick? {
      AggregatorKeepsOrder(c, s, l);
    } else {
      DoneWorkersIdle(c, s, l);
      WorkerKeepsOrder(c, s, l);
    }
  }

  /** With one worker, what the aggregator has seen is a prefix of the accepted packets, in order, in every state. */
  lemma {:induction false} OneWorkerKeepsOrder(c: Setup, ls: seq<Label>)
    requires Exec(c, Start(1), ls).Some?
    ensures var s := Exec(c, Start(1), ls).value; Ordered(c, s) && PacketsOf(s.ops) <= Decoded(c, s.accepted)
  {
    if ls != [] {
      OneWorkerKeepsOrder(c, ls[..|ls| - 1]);
      NeverPanics(c, 1, ls[..|ls| - 1]);
      StepKeepsOrder(c, Exec(c, Start(1), ls[..|ls| - 1]).value, ls[|ls| - 1]);
    }
  }

  /** Two packets read and queued. */
  lemma QueueTwo(c: Setup, n: nat, p: Raw, q: Raw) returns (s: State, ls: seq<Label>)
    requires c.packetCap >= 2
    ensures s == Start(n).(packetChan := [p, q], read := [p, q], accepted := [p, q]) && Exec(c, Start(n), ls) == Some(s)
  {
    var s0 := Start(n);
    var s1 := s0.(capture := Offering(p), read := [p]);
    var s2 := s0.(packetChan := [p], read := [p], accepted := [p]);
    var s3 := s2.(capture := Offering(q), read := [p, q]);
    s := s0.(packetChan := [p, q], read := [p, q], accepted := [p, q]);
    assert [] + [p] == [p] && [p] + [q] == [p, q];
    ls := ExecStep(c, s0, [], s0, Read(p), s1);
    ls := ExecStep(c, s0, ls, s1, Offer, s2);
    ls := ExecStep(c, s0, ls, s2, Read(q), s3);
    ls := ExecStep(c, s0, ls, s3, Offer, s);
  }

  lemma ReceiveTwo(c: Setup, s: State, p: Raw, q: Raw) returns (t: State, ls: seq<Label>)
    requires s.workers == [Idle, Idle] && s.packetChan == [p, q] && !s.panicked
    ensures t == s.(packetChan := [], workers := [Holding(c.decode(p)), Holding(c.decode(q))])
            && Exec(c, s, ls) == Some(t)
  {
    var s1 := s.(packetChan := [q], workers := [Holding(c.decode(p)), Idle]);
    t := s.(packetChan := [], workers := [Holding(c.decode(p)), Holding(c.decode(q))]);
    assert s.workers[0 := s1.workers[0]] == s1.workers && [p, q][1..] == [q];
    ls := ExecStep(c, s, [], s, Receive(0), s1);
    assert s1.workers[1 := t.workers[1]] == t.workers && [q][1..] == [];
    ls := ExecStep(c, s, ls, s1, Receive(1), t);
  }

  lemma SendsTo(c: Setup, s: State, w: nat, x: PacketInfo, workers: seq<Worker>, out: seq<PacketInfo>)
    requires w < |s.workers| && s.workers[w] == Holding(x) && |s.outChan| < c.outCap && !s.panicked && !s.outClosed
    requires workers == s.workers[w := Idle] && out == s.outChan + [x]
    ensures Next(c, s, SendOut(w)) == Some(s.(workers := workers, outChan := out))
  {
  }

  /** The second of two holding workers sends first. */
  lemma Overtake(c: Setup, s: State, x: PacketInfo, y: PacketInfo) returns (t: State, ls: seq<Label>)
    requires c.outCap >= 2 && s.workers == [Holding(x), Holding(y)] && s.outChan == [] && !s.panicked && !s.outClosed
    ensures t == s.(workers := [Idle, Idle], outChan := [y, x]) && Exec(c, s, ls) == Some(t)
  {
    var s1 := s.(workers := [Holding(x), Idle], outChan := [y]);
    t := s.(workers := [Idle, Idle], outChan := [y, x]);
    assert s.workers[1 := Idle] == s1.workers && [] + [y] == [y];
    SendsTo(c, s, 1, y, s1.workers, s1.outChan);
    ls := ExecStep(c, s, [], s, SendOut(1), s1);
    assert s1.workers[0 := Idle] == t.workers && [y] + [x] == [y, x];
    SendsTo(c, s1, 0, x, t.workers, t.outChan);
    ls := ExecStep(c, s, ls, s1, SendOut(0), t);
  }

  lemma TakeTwo(c: Setup, s: State, x: PacketInfo, y: PacketInfo) returns (t: State, ls: seq<Label>)
    requires !s.panicked && s.aggregator.Looping? && s.outChan == [x, y] && s.ops == []
    ensures t == s.(outChan := [], ops := [Packet(x), Packet(y)]) && Exec(c, s, ls) == Some(t)
    ensures PacketsOf(t.ops) == [x, y]
  {
    var s1 := s.(outChan := [y], ops := [Packet(x)]);
    t := s.(outChan := [], ops := [Packet(x), Packet(y)]);
    assert [] + [Packet(x)] == [Packet(x)] && [Packet(x)] + [Packet(y)] == t.ops;
    assert [x, y][1..] == [y] && [y][1..] == [];
    ls := ExecStep(c, s, [], s, Take, s1);
    ls := ExecStep(c, s, ls, s1, Take, t);
    PacketsOfMore([], Packet(x));
    PacketsOfMore([Packet(x)], Packet(y));
  }

  lemma {:induction false} ExecConcat(c: Setup, s: State, a: seq<Label>, t: State, b: seq<Label>)
    requires Exec(c, s, a) == Some(t)
    ensures Exec(c, s, a + b) == Exec(c, t, b)
  {
    if b == [] {
      assert a + b == a;
    } else {
      ExecConcat(c, s, a, t, b[..|b| - 1]);
      assert (a + b)[..|a + b| - 1] == a + b[..|b| - 1];
    }
  }

  /** With two workers the second packet may overtake the first. */
  lemma TwoWorkersReorder(c: Setup, p: Raw, q: Raw) returns (ls: seq<Label>)
    requires c.packetCap >= 2 && c.outCap >= 2
    ensures Exec(c, Start(2), ls).Some?
    ensures var s := Exec(c, Start(2), ls).value;
            s.accepted == [p, q] && PacketsOf(s.ops) == [c.decode(q), c.decode(p)]
  {
    var s1, a := QueueTwo(c, 2, p, q);
    var s2, b := ReceiveTwo(c, s1, p, q);
    var s3, d := Overtake(c, s2, c.decode(p), c.decode(q));
    var s4, e := TakeTwo(c, s3, c.decode(q), c.decode(p));
    ExecConcat(c, Start(2), a, s1, b);
    ExecConcat(c, Start(2), a + b, s2, d);
    ExecConcat(c, Start(2), a + b + d, s3, e);
    ls := a + b + d + e;
  }
}
