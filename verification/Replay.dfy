/** The replay engine: a cursor over a recording, moved by the playback loop and by seek, pause and speed commands. */
module Replay {
  import opened Packets

  /** What the mutex protects. */
  datatype Deck = Deck(index: nat, paused: bool, speed: real)

  datatype Command = TogglePause | SetSpeed(to: real) | CycleSpeed | StepSec(seconds: int) | JumpStart | JumpEnd

  datatype ReplayStatus = ReplayStatus(
    paused: bool, speed: real, currentTime: Time, startTime: Time, endTime: Time, totalPackets: nat, currentIndex: nat)

  ghost predicate Ok(ps: seq<PacketInfo>, d: Deck) {
    d.index <= |ps| && d.speed > 0.0
  }

  // ---- seeking ----

  /** Forward in time: the first packet from `i` on at or after the target, or the last one. */
  function Forward(ps: seq<PacketInfo>, i: nat, target: Time): (j: nat)
    requires i < |ps|
    ensures LandsAfter(ps, i, target, j)
    decreases |ps| - i
  {
    if i < |ps| - 1 && ps[i].timestamp < target then Forward(ps, i + 1, target) else i
  }

  predicate LandsAfter(ps: seq<PacketInfo>, i: nat, target: Time, j: nat) {
    && i <= j < |ps|
    && (forall k | i <= k < j :: ps[k].timestamp < target)
    && (ps[j].timestamp >= target || j == |ps| - 1)
  }

  /** Backward in time: the latest packet up to `i` at or before the target, or the first one. */
  function Backward(ps: seq<PacketInfo>, i: nat, target: Time): (j: nat)
    requires i < |ps|
    ensures LandsBefore(ps, i, target, j)
  {
    if i > 0 && ps[i].timestamp > target then Backward(ps, i - 1, target) else i
  }

  predicate LandsBefore(ps: seq<PacketInfo>, i: nat, target: Time, j: nat) {
    && j <= i < |ps|
    && (forall k | j < k <= i :: ps[k].timestamp > target)
    && (ps[j].timestamp <= target || j == 0)
  }

  function Target(ps: seq<PacketInfo>, i: nat, seconds: int): Time
    requires i < |ps|
  {
    ps[i].timestamp + seconds * SECOND
  }

  function Seek(ps: seq<PacketInfo>, i: nat, seconds: int): nat
    requires i < |ps|
  {
    if seconds > 0 then Forward(ps, i, Target(ps, i, seconds)) else Backward(ps, i, Target(ps, i, seconds))
  }

  /** Where a step lands is the only place that fits the description. */
  lemma SeekLands(ps: seq<PacketInfo>, i: nat, seconds: int, j: nat)
    requires i < |ps|
    ensures j == Seek(ps, i, seconds)
       <==> (if seconds > 0 then LandsAfter(ps, i, Target(ps, i, seconds), j)
             else LandsBefore(ps, i, Target(ps, i, seconds), j))
  {
    var r := Seek(ps, i, seconds);
    if seconds > 0 && LandsAfter(ps, i, Target(ps, i, seconds), j) {
      assert !(r < j) && !(j < r);
    } else if seconds <= 0 && LandsBefore(ps, i, Target(ps, i, seconds), j) {
      assert !(r < j) && !(j < r);
    }
  }

  ghost predicate InTimeOrder(ps: seq<PacketInfo>) {
    forall i, j | 0 <= i <= j < |ps| :: ps[i].timestamp <= ps[j].timestamp
  }

  /** The step forward found a packet at or after its target. */
  predicate Unclamped(ps: seq<PacketInfo>, i: nat, seconds: int)
    requires i < |ps|
  {
    ps[Seek(ps, i, seconds)].timestamp >= Target(ps, i, seconds)
  }

  /** Stepping n seconds forward and n seconds back: the cursor ends between the two positions, or at or before the
      first when the recording was too short; and exactly when it is back where it was. */
  lemma ThereAndBack(ps: seq<PacketInfo>, i: nat, n: int)
    requires i < |ps| && n > 0 && InTimeOrder(ps)
    ensures var j := Seek(ps, i, n); var k := Seek(ps, j, -n);
            && (Unclamped(ps, i, n) ==> i < j && i <= k <= j)
            && (!Unclamped(ps, i, n) ==> j == |ps| - 1 && k <= i)
            && (k == i <==> if Unclamped(ps, i, n) then ps[i + 1].timestamp > Target(ps, j, -n) else i == 0)
  {
    var j := Seek(ps, i, n);
    var k := Seek(ps, j, -n);
    assert LandsAfter(ps, i, Target(ps, i, n), j);
    assert LandsBefore(ps, j, Target(ps, j, -n), k);
    if Unclamped(ps, i, n) {
      assert Target(ps, j, -n) >= ps[i].timestamp;
    } else {
      assert Target(ps, j, -n) < ps[i].timestamp;
    }
  }

  /** Stepping n seconds back and n seconds forward. */
  lemma BackAndThere(ps: seq<PacketInfo>, i: nat, n: int)
    requires i < |ps| && n > 0 && InTimeOrder(ps)
    ensures var j := Seek(ps, i, -n); var k := Seek(ps, j, n);
            && (ps[j].timestamp <= Target(ps, i, -n) ==> j < i && j <= k <= i)
            && (ps[j].timestamp > Target(ps, i, -n) ==> j == 0 && k >= i)
            && (k == i <==> if ps[j].timestamp <= Target(ps, i, -n) then ps[i - 1].timestamp < Target(ps, j, n)
                else i == |ps| - 1)
  {
    var j := Seek(ps, i, -n);
    var k := Seek(ps, j, n);
    assert LandsBefore(ps, i, Target(ps, i, -n), j);
    assert LandsAfter(ps, j, Target(ps, j, n), k);
    if ps[j].timestamp <= Target(ps, i, -n) {
      assert Target(ps, j, n) <= ps[i].timestamp;
    } else {
      assert Target(ps, j, n) > ps[i].timestamp;
    }
  }

  /** In a recording out of order the way back can stop past the start: packets at 100 s, 0 s and 50 s. */
  lemma DisorderOvershoots(p: PacketInfo)
    ensures var ps := [p.(timestamp := 100 * SECOND), p.(timestamp := 0), p.(timestamp := 50 * SECOND)];
            !Unclamped(ps, 0, 10) && Seek(ps, Seek(ps, 0, 10), -10) == 1
  {
    var ps := [p.(timestamp := 100 * SECOND), p.(timestamp := 0), p.(timestamp := 50 * SECOND)];
    SeekLands(ps, 0, 10, 2);
    SeekLands(ps, 2, -10, 1);
  }

  // ---- speed and pace ----

  function NextSpeed(speed: real): (r: real)
    ensures r in [0.5, 1.0, 2.0, 4.0, 8.0]
  {
    if speed == 1.0 then 2.0
    else if speed == 2.0 then 4.0
    else if speed == 4.0 then 8.0
    else if speed == 8.0 then 0.5
    else 1.0
  }

  function Cycled(speed: real, times: nat): real {
    if times == 0 then speed else NextSpeed(Cycled(speed, times - 1))
  }

  /** Each press doubles a speed on the dial, from 8 back to 0.5; five presses come back to the speed they started from
      exactly when it is on the dial. */
  lemma FiveCycles(speed: real)
    ensures speed in [0.5, 1.0, 2.0, 4.0] ==> NextSpeed(speed) == 2.0 * speed
    ensures NextSpeed(8.0) == 0.5 && (speed !in [0.5, 1.0, 2.0, 4.0, 8.0] ==> NextSpeed(speed) == 1.0)
    ensures Cycled(speed, 5) == speed <==> speed in [0.5, 1.0, 2.0, 4.0, 8.0]
  {
    assert Cycled(speed, 1) == NextSpeed(speed);
    assert Cycled(speed, 2) == NextSpeed(Cycled(speed, 1));
    assert Cycled(speed, 3) == NextSpeed(Cycled(speed, 2));
    assert Cycled(speed, 4) == NextSpeed(Cycled(speed, 3));
  }

  const MAX_DELAY: int := 2 * SECOND

  /** `x` nanoseconds of recording at the given speed. */
  function Scaled(x: int, speed: real): real
    requires speed > 0.0
  {
    x as real / speed
  }

  /** The pause between two packets. */
  function Delay(before: Time, after: Time, speed: real): (d: int)
    requires speed > 0.0
    ensures 0 <= d <= MAX_DELAY
  {
    var gap := after - before;
    if gap <= 0 then 0
    else
      ScaledPositive(gap, speed);
      var scaled := Scaled(gap, speed).Floor;
      if scaled > MAX_DELAY then MAX_DELAY else scaled
  }

  /** Nothing before an earlier packet; otherwise the whole nanoseconds of the gap at this speed, two seconds at
      most. */
  predicate Waits(gap: int, speed: real, d: int) {
    if gap <= 0 then d == 0
    else
      && 0 <= d <= 2_000_000_000 && d as real * speed <= gap as real
      && (d < 2_000_000_000 ==> gap as real < (d as real + 1.0) * speed)
  }

  lemma DelayWaits(before: Time, after: Time, speed: real)
    requires speed > 0.0
    ensures Waits(after - before, speed, Delay(before, after, speed))
  {
    var gap, d := after - before, Delay(before, after, speed);
    if gap > 0 {
      ScaledPositive(gap, speed);
      WaitsFloor(gap, speed, Scaled(gap, speed), d);
    }
  }

  lemma WaitsFloor(gap: int, speed: real, q: real, d: int)
    requires gap > 0 && speed > 0.0 && q >= 0.0 && q * speed == gap as real
    requires d == if q.Floor > MAX_DELAY then MAX_DELAY else q.Floor
    ensures Waits(gap, speed, d)
  {
    var x, y := d as real, gap as real;
    NotSlower(x, q, speed, y);
    if d < MAX_DELAY {
      Faster(q, x + 1.0, speed, y);
    }
  }

  lemma NotSlower(x: real, q: real, speed: real, y: real)
    requires x <= q && speed > 0.0 && q * speed == y
    ensures x * speed <= y
  {
  }

  lemma Faster(q: real, x: real, speed: real, y: real)
    requires q < x && speed > 0.0 && q * speed == y
    ensures y < x * speed
  {
  }

  lemma ScaledPositive(x: int, speed: real)
    requires speed > 0.0 && x >= 0
    ensures Scaled(x, speed) >= 0.0
  {
  }

  lemma ScaledAdds(x: int, y: int, speed: real)
    requires speed > 0.0
    ensures Scaled(x, speed) + Scaled(y, speed) == Scaled(x + y, speed)
  {
    assert (x + y) as real == x as real + y as real;
  }

  /** The delay is the scaled gap, rounded down, unless that exceeds the cap. */
  lemma DelayWithinGap(before: Time, after: Time, speed: real)
    requires speed > 0.0 && before <= after
    ensures Delay(before, after, speed) as real <= Scaled(after - before, speed)
    ensures Delay(before, after, speed) < MAX_DELAY
            ==> Scaled(after - before, speed) < Delay(before, after, speed) as real + 1.0
  {
    ScaledPositive(after - before, speed);
  }

  /** All the pauses of a recording played through at one speed. */
  function TotalDelay(ps: seq<PacketInfo>, speed: real): int
    requires speed > 0.0
  {
    if |ps| <= 1 then 0
    else TotalDelay(ps[..|ps| - 1], speed) + Delay(ps[|ps| - 2].timestamp, ps[|ps| - 1].timestamp, speed)
  }

  /** Playing a recording takes at most its own length scaled by the speed, and at most two seconds for each packet
      after the first. */
  lemma {:induction false} PlaybackTime(ps: seq<PacketInfo>, speed: real)
    requires ps != [] && speed > 0.0 && InTimeOrder(ps)
    ensures TotalDelay(ps, speed) as real <= Scaled(ps[|ps| - 1].timestamp - ps[0].timestamp, speed)
    ensures 0 <= TotalDelay(ps, speed) <= MAX_DELAY * (|ps| - 1)
  {
    if |ps| == 1 {
      ScaledPositive(0, speed);
    } else {
      var before, n := ps[..|ps| - 1], |ps|;
      PlaybackTime(before, speed);
      DelayWithinGap(ps[n - 2].timestamp, ps[n - 1].timestamp, speed);
      ScaledAdds(ps[n - 2].timestamp - ps[0].timestamp, ps[n - 1].timestamp - ps[n - 2].timestamp, speed);
    }
  }

  // ---- commands ----

  datatype Reply = Panics | Now(deck: Deck)

  /** `StepSec` indexes the recording with the cursor, which the playback loop may have left at its end. */
  function Apply(ps: seq<PacketInfo>, d: Deck, c: Command): Reply {
    match c
    case TogglePause => Now(d.(paused := !d.paused))
    case SetSpeed(to) => Now(if to > 0.0 then d.(speed := to) else d)
    case CycleSpeed => Now(d.(speed := NextSpeed(d.speed)))
    case StepSec(seconds) =>
      if ps == [] then Now(d) else if d.index >= |ps| then Panics else Now(d.(index := Seek(ps, d.index, seconds)))
    case JumpStart => Now(d.(index := 0))
    case JumpEnd => Now(if ps == [] then d else d.(index := |ps| - 1))
  }

  /** What each command does to the deck, in terms of the recording. */
  predicate Means(ps: seq<PacketInfo>, d: Deck, c: Command, t: Deck) {
    && (c.TogglePause? || t.paused == d.paused)
    && (c.SetSpeed? || c.CycleSpeed? || t.speed == d.speed)
    && (IsSeek(c) || t.index == d.index)
    && match c
       case TogglePause => t.paused != d.paused
       case SetSpeed(to) => t.speed == (if to > 0.0 then to else d.speed)
       case CycleSpeed => OnDial(d.speed, t.speed)
       case StepSec(seconds) => if ps == [] then t.index == d.index else StepsTo(ps, d.index, seconds, t.index)
       case JumpStart => t.index == 0
       case JumpEnd => t.index == if ps == [] then d.index else |ps| - 1
  }

  /** The dial doubles the speed up to 8, from where it goes to 0.5; from any other speed it goes to 1. */
  predicate OnDial(speed: real, next: real) {
    if speed in [0.5, 1.0, 2.0, 4.0] then next == 2.0 * speed else next == (if speed == 8.0 then 0.5 else 1.0)
  }

  /** Forward steps land on the first packet at or after the target time, or the last one; the others on the latest
      packet at or before it, or the first. */
  predicate StepsTo(ps: seq<PacketInfo>, i: nat, seconds: int, j: nat) {
    && i < |ps|
    && var target := ps[i].timestamp + seconds * SECOND;
       if seconds > 0 then LandsAfter(ps, i, target, j) else LandsBefore(ps, i, target, j)
  }

  /** A command does what it means. */
  lemma CommandMeans(ps: seq<PacketInfo>, d: Deck, c: Command)
    requires Ok(ps, d) && !(c.StepSec? && ps != [] && d.index == |ps|)
    ensures Apply(ps, d, c).Now? && Means(ps, d, c, Apply(ps, d, c).deck)
  {
    if c.CycleSpeed? {
      FiveCycles(d.speed);
    }
  }

  predicate IsSeek(c: Command) {
    c.StepSec? || c.JumpStart? || c.JumpEnd?
  }

  /** A command panics exactly when it steps from the end of a recording; otherwise it keeps the cursor inside the
      recording and the speed positive, and only a seek moves the cursor. */
  lemma ApplyLaws(ps: seq<PacketInfo>, d: Deck, c: Command)
    requires Ok(ps, d)
    ensures Apply(ps, d, c).Panics? <==> c.StepSec? && ps != [] && d.index == |ps|
    ensures Apply(ps, d, c).Now? ==> Ok(ps, Apply(ps, d, c).deck)
    ensures Apply(ps, d, c).Now? && !IsSeek(c) ==> Apply(ps, d, c).deck.index == d.index
    ensures Apply(ps, d, c).Now? && IsSeek(c) && ps != [] ==> Apply(ps, d, c).deck.index < |ps|
  {
  }

  /** The locked section of the playback loop: the packet to send and the cursor moved past it. */
  function Taken(ps: seq<PacketInfo>, d: Deck): (r: Option<Deck>)
    ensures r.Some? <==> d.index < |ps| && !d.paused
  {
    if d.index >= |ps| || d.paused then None else Some(d.(index := d.index + 1))
  }

  // ---- the engine ----

  class ReplayEngine {
    const packets: seq<PacketInfo>
    const startTime: Time
    const endTime: Time
    var speed: real
    var isPaused: bool
    var currentIndex: nat

    ghost predicate Valid()
      reads this
    {
      && Ok(packets, View())
      && (packets != [] ==> startTime == packets[0].timestamp && endTime == packets[|packets| - 1].timestamp)
    }

    function View(): Deck
      reads this
    {
      Deck(currentIndex, isPaused, speed)
    }

    constructor (decoded: seq<PacketInfo>)
      requires decoded != []
      ensures Valid() && packets == decoded && View() == Deck(0, false, 1.0)
    {
      packets := decoded;
      startTime := decoded[0].timestamp;
      endTime := decoded[|decoded| - 1].timestamp;
      speed := 1.0;
      isPaused := false;
      currentIndex := 0;
    }

    /** The time shown is that of the packet at the cursor, or the end of the recording when it is past the last. */
    method Status() returns (s: ReplayStatus)
      requires Valid()
      ensures s.paused == isPaused && s.speed == speed && s.currentIndex == currentIndex && s.totalPackets == |packets|
      ensures s.startTime == startTime && s.endTime == endTime
      ensures packets != [] ==>
                s.currentTime == packets[if currentIndex == |packets| then |packets| - 1 else currentIndex].timestamp
      ensures packets != [] && InTimeOrder(packets) ==> s.startTime <= s.currentTime <= s.endTime
      ensures packets == [] ==> s.currentTime == startTime
    {
      var current := startTime;
      if currentIndex < |packets| {
        current := packets[currentIndex].timestamp;
      } else if |packets| > 0 {
        current := endTime;
      }
      s := ReplayStatus(isPaused, speed, current, startTime, endTime, |packets|, currentIndex);
    }

    method TogglePause() returns (paused: bool)
      requires Valid()
      modifies this`isPaused
      ensures Valid() && Now(View()) == Apply(packets, old(View()), Command.TogglePause)
      ensures isPaused != old(isPaused) && paused == isPaused
    {
      isPaused := !isPaused;
      paused := isPaused;
    }

    method SetSpeed(to: real)
      requires Valid()
      modifies this`speed
      ensures Valid() && Now(View()) == Apply(packets, old(View()), Command.SetSpeed(to))
      ensures speed == if to > 0.0 then to else old(speed)
    {
      if to > 0.0 {
        speed := to;
      }
    }

    method CycleSpeed() returns (r: real)
      requires Valid()
      modifies this`speed
      ensures Valid() && Now(View()) == Apply(packets, old(View()), Command.CycleSpeed)
      ensures OnDial(old(speed), speed) && r == speed
    {
      if speed == 1.0 {
        speed := 2.0;
      } else if speed == 2.0 {
        speed := 4.0;
      } else if speed == 4.0 {
        speed := 8.0;
      } else if speed == 8.0 {
        speed := 0.5;
      } else {
        speed := 1.0;
      }
      r := speed;
    }

    /** `panicked` stands for the index out of range. */
    method StepSec(seconds: int) returns (panicked: bool)
      requires Valid()
      modifies this`currentIndex
      ensures Valid()
      ensures (if panicked then Panics else Now(View())) == Apply(packets, old(View()), Command.StepSec(seconds))
      ensures panicked ==> View() == old(View())
      ensures panicked <==> packets != [] && old(currentIndex) == |packets|
      ensures !panicked ==>
                if packets == [] then currentIndex == old(currentIndex)
                else StepsTo(packets, old(currentIndex), seconds, currentIndex)
    {
      panicked := false;
      if |packets| == 0 {
        return;
      }
      if currentIndex >= |packets| {
        return true;
      }
      var target := packets[currentIndex].timestamp + seconds * SECOND;
      if seconds > 0 {
        while currentIndex < |packets| - 1 && packets[currentIndex].timestamp < target
          invariant currentIndex < |packets|
          invariant Forward(packets, currentIndex, target) == Forward(packets, old(currentIndex), target)
        {
          currentIndex := currentIndex + 1;
        }
      } else {
        while currentIndex > 0 && packets[currentIndex].timestamp > target
          invariant currentIndex < |packets|
          invariant Backward(packets, currentIndex, target) == Backward(packets, old(currentIndex), target)
        {
          currentIndex := currentIndex - 1;
        }
      }
    }

    method JumpStart()
      requires Valid()
      modifies this`currentIndex
      ensures Valid() && Now(View()) == Apply(packets, old(View()), Command.JumpStart)
      ensures currentIndex == 0
    {
      currentIndex := 0;
    }

    method JumpEnd()
      requires Valid()
      modifies this`currentIndex
      ensures Valid() && Now(View()) == Apply(packets, old(View()), Command.JumpEnd)
      ensures currentIndex == if packets == [] then old(currentIndex) else |packets| - 1
    {
      if |packets| > 0 {
        currentIndex := |packets| - 1;
      }
    }

    /** The locked section of `Run`: the packet to send, the index after it and the speed to pace it by. */
    method TakeNext() returns (taken: Option<(PacketInfo, nat, real)>)
      requires Valid()
      modifies this`currentIndex
      ensures Valid()
      ensures Taken(packets, old(View())) == if taken.Some? then Some(View()) else None
      ensures taken.Some? <==> old(currentIndex) < |packets| && !isPaused
      ensures currentIndex == old(currentIndex) + if taken.Some? then 1 else 0
      ensures taken.Some? ==> taken.value == (packets[old(currentIndex)], currentIndex, speed)
    {
      if currentIndex >= |packets| {
        return None;
      }
      if isPaused {
        return None;
      }
      var pkt := packets[currentIndex];
      var next := currentIndex + 1;
      currentIndex := currentIndex + 1;
      taken := Some((pkt, next, speed));
    }

    /** How long `Run` sleeps after it has sent a packet. */
    method Pace(pkt: PacketInfo, next: nat, at: real) returns (sleep: int)
      requires Valid() && at > 0.0
      ensures sleep == if next < |packets| then Delay(pkt.timestamp, packets[next].timestamp, at) else 0
      ensures if next < |packets| then Waits(packets[next].timestamp - pkt.timestamp, at, sleep) else sleep == 0
    {
      sleep := 0;
      if next < |packets| {
        DelayWaits(pkt.timestamp, packets[next].timestamp, at);
        var gap := packets[next].timestamp - pkt.timestamp;
        if gap > 0 {
          sleep := (gap as real / at).Floor;
          if sleep > MAX_DELAY {
            sleep := MAX_DELAY;
          }
        }
      }
    }
  }

  /** An empty recording is refused. */
  method NewReplayEngine(decoded: seq<PacketInfo>) returns (engine: Option<ReplayEngine>)
    ensures engine.Some? <==> decoded != []
    ensures engine.Some? ==> fresh(engine.value) && engine.value.Valid()
    ensures engine.Some? ==> engine.value.packets == decoded && engine.value.View() == Deck(0, false, 1.0)
  {
    if |decoded| == 0 {
      return None;
    }
    var e := new ReplayEngine(decoded);
    engine := Some(e);
  }

  // ---- the playback loop among the commands ----

  /** Where `Run` is: before the check for cancellation, before the lock, sending packet `index`, asleep, or gone. */
  datatype Loop = Checking | Locking | Sending(index: nat, speed: real) | Sleeping(delay: int) | Stopped

  /** `taken` and `sent` are the indices of the packets taken from the recording and of those sent; `seeks` counts the
      seek commands. */
  datatype Player = Player(
    deck: Deck, loop: Loop, closed: bool, cancelled: bool, crashed: bool, taken: seq<nat>, sent: seq<nat>, seeks: nat)

  const FRESH := Player(Deck(0, false, 1.0), Checking, false, false, false, [], [], 0)

  datatype Event = Do(c: Command) | Cancel | Check | Lock | Send | GiveUp | Wake

  function Next(ps: seq<PacketInfo>, s: Player, e: Event): Option<Player> {
    if s.crashed then None
    else
      match e
      case Do(c) =>
        var seeks := s.seeks + (if IsSeek(c) then 1 else 0);
        (match Apply(ps, s.deck, c)
         case Panics => Some(s.(crashed := true, seeks := seeks))
         case Now(d) => Some(s.(deck := d, seeks := seeks)))
      case Cancel => Some(s.(cancelled := true))
      case Check =>
        if !s.loop.Checking? then None
        else if s.cancelled then Some(s.(loop := Stopped, closed := true)) else Some(s.(loop := Locking))
      case Lock =>
        if !s.loop.Locking? then None
        else
          (match Taken(ps, s.deck)
           case None => Some(s.(loop := Checking))
           case Some(d) =>
             Some(s.(deck := d, loop := Sending(s.deck.index, s.deck.speed), taken := s.taken + [s.deck.index])))
      case Send =>
        if !s.loop.Sending? || s.loop.index >= |ps| || s.loop.speed <= 0.0 then None
        else Some(s.(loop := Sleeping(PaceAfter(ps, s.loop.index, s.loop.speed)), sent := s.sent + [s.loop.index]))
      case GiveUp => if s.loop.Sending? && s.cancelled then Some(s.(loop := Stopped, closed := true)) else None
      case Wake => if s.loop.Sleeping? then Some(s.(loop := Checking)) else None
  }

  function PaceAfter(ps: seq<PacketInfo>, i: nat, speed: real): int
    requires i < |ps| && speed > 0.0
  {
    if i + 1 < |ps| then Delay(ps[i].timestamp, ps[i + 1].timestamp, speed) else 0
  }

  function Exec(ps: seq<PacketInfo>, s: Player, es: seq<Event>): Option<Player> {
    if es == [] then Some(s)
    else
      match Exec(ps, s, es[..|es| - 1])
      case None => None
      case Some(t) => Next(ps, t, es[|es| - 1])
  }

  /** What can happen next: commands and the cancellation at any time, and of the loop its next step; a blocked send can
      be given up once cancelled. */
  predicate CanHappen(s: Player, e: Event) {
    && !s.crashed
    && match e
       case Do(_) => true
       case Cancel => true
       case Check => s.loop.Checking?
       case Lock => s.loop.Locking?
       case Send => s.loop.Sending?
       case GiveUp => s.loop.Sending? && s.cancelled
       case Wake => s.loop.Sleeping?
  }

  /** In every reachable state exactly these events can happen. */
  lemma HappensExactly(ps: seq<PacketInfo>, es: seq<Event>, e: Event)
    requires Exec(ps, FRESH, es).Some?
    ensures var s := Exec(ps, FRESH, es).value; Next(ps, s, e).Some? <==> CanHappen(s, e)
  {
    RunIsSafe(ps, es);
  }

  /** Once cancelled, the loop stops at its next check or blocked send, and closes the channel. */
  lemma CancelledLoopStops(ps: seq<PacketInfo>, es: seq<Event>)
    requires Exec(ps, FRESH, es).Some? && Exec(ps, FRESH, es).value.cancelled && !Exec(ps, FRESH, es).value.crashed
    ensures var s := Exec(ps, FRESH, es).value;
            && (s.loop.Checking? ==> Next(ps, s, Check) == Some(s.(loop := Stopped, closed := true)))
            && (s.loop.Sending? ==> Next(ps, s, GiveUp) == Some(s.(loop := Stopped, closed := true)))
  {
    RunIsSafe(ps, es);
  }

  /** In a run, a command does what it means to the deck and nothing to the loop; a step in seconds with the cursor past
      the last packet crashes. */
  lemma DoMeans(ps: seq<PacketInfo>, s: Player, c: Command)
    requires Ok(ps, s.deck) && !s.crashed
    ensures var r := Next(ps, s, Do(c));
            && r.Some?
            && (r.value.crashed <==> c.StepSec? && ps != [] && s.deck.index == |ps|)
            && (!r.value.crashed ==> Means(ps, s.deck, c, r.value.deck))
            && r.value == s.(deck := r.value.deck, crashed := r.value.crashed, seeks := r.value.seeks)
  {
    if !(c.StepSec? && ps != [] && s.deck.index == |ps|) {
      CommandMeans(ps, s.deck, c);
    }
  }

  /** The loop takes the packet at the cursor, sends it, and sleeps for the gap to the next packet at the speed at which
      it was taken; after the last packet it does not sleep. */
  lemma LoopPaces(ps: seq<PacketInfo>, s: Player)
    requires Ok(ps, s.deck) && !s.crashed && s.loop.Locking? && !s.deck.paused && s.deck.index < |ps|
    ensures var i, taken := s.deck.index, Next(ps, s, Lock);
            && taken.Some? && taken.value.deck == Deck(i + 1, false, s.deck.speed)
            && var sent := Next(ps, taken.value, Send);
            && sent.Some? && sent.value.sent == s.sent + [i] && sent.value.loop.Sleeping?
            && if i + 1 == |ps| then sent.value.loop.delay == 0
               else Waits(ps[i + 1].timestamp - ps[i].timestamp, s.deck.speed, sent.value.loop.delay)
  {
    var i := s.deck.index;
    if i + 1 < |ps| {
      DelayWaits(ps[i].timestamp, ps[i + 1].timestamp, s.deck.speed);
    }
  }

  /** While playback is paused the loop takes no packet, whatever else happens. */
  lemma {:induction false} PausedTakesNothing(ps: seq<PacketInfo>, s: Player, es: seq<Event>)
    requires s.deck.paused && Exec(ps, s, es).Some? && Do(TogglePause) !in es
    ensures Exec(ps, s, es).value.deck.paused && Exec(ps, s, es).value.taken == s.taken
  {
    if es != [] {
      var before, e := es[..|es| - 1], es[|es| - 1];
      assert e in es && forall x | x in before :: x in es;
      PausedTakesNothing(ps, s, before);
    }
  }

  // ---- safety ----

  ghost predicate Safe(ps: seq<PacketInfo>, s: Player) {
    && Ok(ps, s.deck)
    && (s.closed <==> s.loop.Stopped?) && (s.closed ==> s.cancelled)
    && (s.loop.Sending? ==> s.loop.index < |ps| && s.loop.speed > 0.0 && s.taken == s.sent + [s.loop.index])
    && (s.loop.Sleeping? ==> 0 <= s.loop.delay <= MAX_DELAY)
    && (!s.loop.Sending? && !s.loop.Stopped? ==> s.taken == s.sent)
    && s.sent <= s.taken && |s.taken| <= |s.sent| + 1
    && (forall i | i in s.taken :: i < |ps|)
  }

  lemma StepKeepsSafe(ps: seq<PacketInfo>, s: Player, e: Event)
    requires Safe(ps, s) && Next(ps, s, e).Some?
    ensures Safe(ps, Next(ps, s, e).value)
  {
    if e.Do? {
      ApplyLaws(ps, s.deck, e.c);
    }
  }

  /** In every interleaving the cursor stays inside the recording, the speed positive and each sleep within two
      seconds; and the output channel is closed only after cancellation, however much has been played. */
  lemma {:induction false} RunIsSafe(ps: seq<PacketInfo>, es: seq<Event>)
    requires Exec(ps, FRESH, es).Some?
    ensures Safe(ps, Exec(ps, FRESH, es).value)
    ensures Exec(ps, FRESH, es).value.closed ==> Cancel in es
  {
    if es != [] {
      var before, e := es[..|es| - 1], es[|es| - 1];
      RunIsSafe(ps, before);
      StepKeepsSafe(ps, Exec(ps, FRESH, before).value, e);
      CancelledByCancel(ps, es);
    }
  }

  lemma {:induction false} CancelledByCancel(ps: seq<PacketInfo>, es: seq<Event>)
    requires Exec(ps, FRESH, es).Some?
    ensures Exec(ps, FRESH, es).value.cancelled <==> Cancel in es
  {
    if es != [] {
      CancelledByCancel(ps, es[..|es| - 1]);
      assert es == es[..|es| - 1] + [es[|es| - 1]];
    }
  }

  // ---- what is played ----

  /** The number of places where a packet is not followed by its successor. */
  function Breaks(ks: seq<nat>): nat {
    if |ks| <= 1 then 0
    else Breaks(ks[..|ks| - 1]) + (if ks[|ks| - 1] == ks[|ks| - 2] + 1 then 0 else 1)
  }

  /** The cursor is not where the last taken packet left it. */
  function Moved(s: Player): nat {
    if s.taken != [] && s.deck.index != s.taken[|s.taken| - 1] + 1 then 1 else 0
  }

  ghost predicate Contiguous(s: Player) {
    && Breaks(s.taken) + Moved(s) <= s.seeks
    && (s.seeks == 0 ==> |s.taken| == s.deck.index && forall k | 0 <= k < |s.taken| :: s.taken[k] == k)
  }

  lemma StepKeepsContiguous(ps: seq<PacketInfo>, s: Player, e: Event)
    requires Safe(ps, s) && Contiguous(s) && Next(ps, s, e).Some?
    ensures Contiguous(Next(ps, s, e).value)
  {
    if e.Do? {
      DoKeepsContiguous(ps, s, e.c);
    } else if e.Lock? && Taken(ps, s.deck).Some? {
      TakeKeepsContiguous(s, Next(ps, s, e).value);
    } else {
      OthersKeepCursor(ps, s, e);
    }
  }

  lemma OthersKeepCursor(ps: seq<PacketInfo>, s: Player, e: Event)
    requires Next(ps, s, e).Some? && !e.Do? && !(e.Lock? && Taken(ps, s.deck).Some?)
    ensures var t := Next(ps, s, e).value; t.taken == s.taken && t.deck == s.deck && t.seeks == s.seeks
  {
  }

  lemma DoKeepsContiguous(ps: seq<PacketInfo>, s: Player, c: Command)
    requires Safe(ps, s) && Contiguous(s) && Next(ps, s, Do(c)).Some?
    ensures Contiguous(Next(ps, s, Do(c)).value)
  {
    ApplyLaws(ps, s.deck, c);
    var t := Next(ps, s, Do(c)).value;
    assert t.taken == s.taken && t.seeks == s.seeks + (if IsSeek(c) then 1 else 0);
  }

  lemma TakeKeepsContiguous(s: Player, t: Player)
    requires Contiguous(s) && t.seeks == s.seeks && t.deck.index == s.deck.index + 1
             && t.taken == s.taken + [s.deck.index]
    ensures Contiguous(t)
  {
    assert t.taken[..|t.taken| - 1] == s.taken;
    assert Breaks(t.taken) == Breaks(s.taken) + Moved(s);
  }

  lemma {:induction false} RunIsContiguous(ps: seq<PacketInfo>, es: seq<Event>)
    requires Exec(ps, FRESH, es).Some?
    ensures Contiguous(Exec(ps, FRESH, es).value)
  {
    if es != [] {
      RunIsContiguous(ps, es[..|es| - 1]);
      RunIsSafe(ps, es[..|es| - 1]);
      StepKeepsContiguous(ps, Exec(ps, FRESH, es[..|es| - 1]).value, es[|es| - 1]);
    }
  }

  function PacketsAt(ps: seq<PacketInfo>, ks: seq<nat>): seq<PacketInfo>
    requires forall i | i in ks :: i < |ps|
  {
    seq(|ks|, k requires 0 <= k < |ks| => assert ks[k] in ks; ps[ks[k]])
  }

  /** The seek commands of a run. */
  function Seeks(es: seq<Event>): nat {
    if es == [] then 0
    else Seeks(es[..|es| - 1]) + (if es[|es| - 1].Do? && IsSeek(es[|es| - 1].c) then 1 else 0)
  }

  lemma {:induction false} SeeksCounted(ps: seq<PacketInfo>, es: seq<Event>)
    requires Exec(ps, FRESH, es).Some?
    ensures Exec(ps, FRESH, es).value.seeks == Seeks(es)
  {
    if es != [] {
      SeeksCounted(ps, es[..|es| - 1]);
    }
  }

  /** Whatever is paused, resumed or sped up, without seeks the packets sent are a prefix of the recording, each once
      and in order. */
  lemma PlaysAPrefix(ps: seq<PacketInfo>, es: seq<Event>)
    requires Exec(ps, FRESH, es).Some? && Seeks(es) == 0
    ensures var s := Exec(ps, FRESH, es).value;
            && (forall i | i in s.sent :: i < |ps|)
            && PacketsAt(ps, s.sent) <= ps
            && |s.sent| <= s.deck.index <= |s.sent| + 1
  {
    var s := Exec(ps, FRESH, es).value;
    RunIsSafe(ps, es);
    RunIsContiguous(ps, es);
    SeeksCounted(ps, es);
    assert forall i | i in s.sent :: i in s.taken;
    assert forall k | 0 <= k < |s.sent| :: s.sent[k] == s.taken[k];
  }

  /** A run of consecutive packets. */
  datatype Segment = Segment(from: nat, count: nat)

  function Stretch(from: nat, count: nat): seq<nat> {
    seq(count, k requires 0 <= k => from + k)
  }

  function Indices(segments: seq<Segment>): seq<nat> {
    if segments == [] then []
    else Indices(segments[..|segments| - 1]) + Stretch(segments[|segments| - 1].from, segments[|segments| - 1].count)
  }

  lemma LastIndex(segments: seq<Segment>)
    requires segments != [] && segments[|segments| - 1].count > 0
    ensures var ks, last := Indices(segments), segments[|segments| - 1];
            ks != [] && ks[|ks| - 1] == last.from + last.count - 1
  {
  }

  lemma AddSegment(segments: seq<Segment>, from: nat, count: nat)
    ensures Indices(segments + [Segment(from, count)]) == Indices(segments) + Stretch(from, count)
  {
    assert (segments + [Segment(from, count)])[..|segments|] == segments;
  }

  lemma StretchMore(a: seq<nat>, from: nat, count: nat)
    ensures a + Stretch(from, count + 1) == (a + Stretch(from, count)) + [from + count]
  {
  }

  lemma LengthenLast(segments: seq<Segment>) returns (longer: seq<Segment>)
    requires segments != [] && segments[|segments| - 1].count > 0
    ensures var ks := Indices(segments); ks != [] && Indices(longer) == ks + [ks[|ks| - 1] + 1]
    ensures |longer| == |segments| && longer[|longer| - 1].count > 0
  {
    var before, last := segments[..|segments| - 1], segments[|segments| - 1];
    var from, count := last.from, last.count;
    longer := before + [Segment(from, count + 1)];
    LastIndex(segments);
    AddSegment(before, from, count + 1);
    StretchMore(Indices(before), from, count);
  }

  lemma AddPacket(segments: seq<Segment>, k: nat)
    ensures Indices(segments + [Segment(k, 1)]) == Indices(segments) + [k]
  {
    AddSegment(segments, k, 1);
    assert Stretch(k, 1) == [k];
  }

  lemma BreaksOfSnoc(ks: seq<nat>, n: nat)
    requires n > 0 && |ks| == n + 1
    ensures Breaks(ks) == Breaks(ks[..n]) + (if ks[n] == ks[n - 1] + 1 then 0 else 1)
    ensures ks == ks[..n] + [ks[n]] && ks[..n] != [] && ks[..n][n - 1] == ks[n - 1]
  {
  }

  lemma OneSegment(k: nat)
    ensures Indices([Segment(k, 1)]) == [k]
  {
    AddPacket([], k);
    assert [] + [Segment(k, 1)] == [Segment(k, 1)];
  }

  /** Sequences with few breaks are made of few segments. */
  lemma {:induction false} Segmented(ks: seq<nat>) returns (segments: seq<Segment>)
    requires ks != []
    ensures Indices(segments) == ks && |segments| == Breaks(ks) + 1
    ensures segments[|segments| - 1].count > 0
  {
    var n := |ks| - 1;
    if n == 0 {
      OneSegment(ks[0]);
      segments := [Segment(ks[0], 1)];
    } else {
      BreaksOfSnoc(ks, n);
      segments := Segmented(ks[..n]);
      if ks[n] == ks[n - 1] + 1 {
        segments := LengthenLast(segments);
      } else {
        AddPacket(segments, ks[n]);
        segments := segments + [Segment(ks[n], 1)];
      }
    }
  }

  lemma {:induction false} BreaksOfPrefix(ks: seq<nat>, more: seq<nat>)
    requires ks <= more
    ensures Breaks(ks) <= Breaks(more)
  {
    if |ks| < |more| {
      BreaksOfPrefix(ks, more[..|more| - 1]);
    } else {
      assert ks == more;
    }
  }

  /** With seeks, the packets sent are a concatenation of stretches of the recording, at most one more than the
      seeks. */
  lemma PlaysSegments(ps: seq<PacketInfo>, es: seq<Event>) returns (segments: seq<Segment>)
    requires Exec(ps, FRESH, es).Some?
    ensures Indices(segments) == Exec(ps, FRESH, es).value.sent && |segments| <= Seeks(es) + 1
  {
    var s := Exec(ps, FRESH, es).value;
    RunIsSafe(ps, es);
    RunIsContiguous(ps, es);
    SeeksCounted(ps, es);
    if s.sent == [] {
      segments := [];
    } else {
      BreaksOfPrefix(s.sent, s.taken);
      segments := Segmented(s.sent);
    }
  }

  // ---- the end of the recording ----

  lemma {:induction false} ExecConcat(ps: seq<PacketInfo>, s: Player, a: seq<Event>, b: seq<Event>)
    requires Exec(ps, s, a).Some?
    ensures Exec(ps, s, a + b) == Exec(ps, Exec(ps, s, a).value, b)
  {
    if b == [] {
      assert a + b == a;
    } else {
      assert (a + b)[..|a + b| - 1] == a + b[..|b| - 1];
      ExecConcat(ps, s, a, b[..|b| - 1]);
    }
  }

  lemma ExecStep(ps: seq<PacketInfo>, s: Player, a: seq<Event>, e: Event) returns (b: seq<Event>)
    requires Exec(ps, s, a).Some?
    ensures b == a + [e] && Exec(ps, s, b) == Next(ps, Exec(ps, s, a).value, e)
  {
    b := a + [e];
    assert b[..|b| - 1] == a;
  }

  /** The loop at rest, ready for the next packet. */
  predicate Playing(s: Player) {
    s.loop.Checking? && !s.cancelled && !s.crashed && !s.deck.paused
  }

  /** Four steps play one packet. */
  lemma PlayOne(ps: seq<PacketInfo>, s: Player) returns (es: seq<Event>, t: Player)
    requires Safe(ps, s) && Playing(s) && s.deck.index < |ps|
    ensures Exec(ps, s, es) == Some(t) && |es| == 4 && Safe(ps, t)
    ensures Playing(t) && t.deck == s.deck.(index := s.deck.index + 1) && t.sent == s.sent + [s.deck.index]
  {
    es := ExecStep(ps, s, [], Check);
    es := ExecStep(ps, s, es, Lock);
    es := ExecStep(ps, s, es, Send);
    es := ExecStep(ps, s, es, Wake);
    t := Exec(ps, s, es).value;
    ExecKeepsSafe(ps, s, es);
  }

  lemma PlayOn(ps: seq<PacketInfo>, s: Player, a: seq<Event>, u: Player, b: seq<Event>, t: Player)
    returns (es: seq<Event>)
    requires Exec(ps, s, a) == Some(u) && Exec(ps, u, b) == Some(t)
    ensures Exec(ps, s, es) == Some(t) && |es| == |a| + |b|
  {
    es := a + b;
    ExecConcat(ps, s, a, b);
  }

  lemma StretchHead(sent: seq<nat>, i: nat, n: nat)
    requires n > 0
    ensures (sent + [i]) + Stretch(i + 1, n - 1) == sent + Stretch(i, n)
  {
    assert Stretch(i, n) == [i] + Stretch(i + 1, n - 1);
  }

  /** Left alone, an unpaused loop plays the rest of the recording, in order, in four steps a packet. */
  lemma {:induction false} PlaysToTheEnd(ps: seq<PacketInfo>, s: Player) returns (es: seq<Event>, t: Player)
    requires Safe(ps, s) && Playing(s)
    ensures Exec(ps, s, es) == Some(t) && |es| == 4 * (|ps| - s.deck.index)
    ensures Playing(t) && t.deck.index == |ps| && Safe(ps, t)
    ensures t.sent == s.sent + Stretch(s.deck.index, |ps| - s.deck.index)
    decreases |ps| - s.deck.index
  {
    if s.deck.index == |ps| {
      es, t := [], s;
    } else {
      var i, n := s.deck.index, |ps| - s.deck.index;
      var first, u := PlayOne(ps, s);
      var rest;
      rest, t := PlaysToTheEnd(ps, u);
      assert t.sent == u.sent + Stretch(i + 1, n - 1);
      StretchHead(s.sent, i, n);
      es := PlayOn(ps, s, first, u, rest, t);
    }
  }

  lemma {:induction false} ExecKeepsSafe(ps: seq<PacketInfo>, s: Player, es: seq<Event>)
    requires Safe(ps, s) && Exec(ps, s, es).Some?
    ensures Safe(ps, Exec(ps, s, es).value)
  {
    if es != [] {
      ExecKeepsSafe(ps, s, es[..|es| - 1]);
      StepKeepsSafe(ps, Exec(ps, s, es[..|es| - 1]).value, es[|es| - 1]);
    }
  }

  /** Every recording can be played to its end with the channel still open, and stepping from there crashes. */
  lemma StepAfterTheEndCrashes(ps: seq<PacketInfo>, seconds: int) returns (es: seq<Event>)
    requires ps != []
    ensures Exec(ps, FRESH, es).Some? && Cancel !in es
    ensures var s := Exec(ps, FRESH, es).value; PacketsAtAll(ps, s) && !s.closed && !s.crashed
    ensures Next(ps, Exec(ps, FRESH, es).value, Do(StepSec(seconds))).Some?
         && Next(ps, Exec(ps, FRESH, es).value, Do(StepSec(seconds))).value.crashed
  {
    var s;
    es, s := PlaysToTheEnd(ps, FRESH);
    CancelledByCancel(ps, es);
  }

  ghost predicate PacketsAtAll(ps: seq<PacketInfo>, s: Player) {
    (forall i | i in s.sent :: i < |ps|) && PacketsAt(ps, s.sent) == ps
  }

  /** A run crashes exactly by a step in seconds given when the cursor is past the last packet. */
  lemma CrashExactly(ps: seq<PacketInfo>, es: seq<Event>, e: Event)
    requires Exec(ps, FRESH, es).Some? && Next(ps, Exec(ps, FRESH, es).value, e).Some?
    ensures Next(ps, Exec(ps, FRESH, es).value, e).value.crashed
       <==> e.Do? && e.c.StepSec? && ps != [] && Exec(ps, FRESH, es).value.deck.index == |ps|
  {
    RunIsSafe(ps, es);
    var s := Exec(ps, FRESH, es).value;
    if e.Do? {
      ApplyLaws(ps, s.deck, e.c);
    }
  }
}
