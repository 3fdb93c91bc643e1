/** The lock-free broadcast ring as a step relation under sequential consistency.

    Every shared access of `publish_batch`, `write_at`, `try_read`, `read_batch`,
    `lap` and `attach` is one step: the ticket fetch_add, one CAS attempt, one
    payload word store, the publish store, one load of the sequence word, one
    payload word load, the re-check load and the load inside `oldest()`. Any
    number of producers and readers interleave freely. Positions are unbounded.
 */
module BroadcastRing {

  /** A frame in memory: five 64-bit words, word 0 being the sequence field. */
  type Words = w: seq<nat> | |w| == 5 witness [0, 0, 0, 0, 0]

  /** What `write_at` stores: the frame with its ticket in the sequence field. */
  function Stamp(frame: Words, pos: nat): Words { frame[0 := pos] }

  /** `mark` is the cell's sequence word. */
  datatype Cell = Cell(mark: nat, words: Words)

  /** A producer inside `publish_batch`: frame `i` of the batch goes to position
      `base + i`; `k` words of it have been stored so far. */
  datatype Producer =
    | Idle
    | Claiming(base: nat, frames: seq<Words>, i: nat)
    | Storing(base: nat, frames: seq<Words>, i: nat, k: nat)

  /** Who was issued a position, and the frame handed in for it. */
  datatype Entry = Entry(frame: Words, owner: nat)

  /** Everything producers touch. `log` is a history variable: entry `p`
      records what ticket `p` was issued for. */
  datatype Core = Core(writePos: nat, cells: seq<Cell>, producers: seq<Producer>, log: seq<Entry>)

  /** Where a reader stands inside `try_read`. */
  datatype Phase = Ready | Copying(s1: nat, got: seq<nat>) | Lapping

  /** How the current or latest `read_batch` call stands. */
  datatype Outcome = Running | Full | RanDry

  /** One `read_batch` call. `entry` is the write position when it began, `seen`
      the one its latest `oldest()` loaded (`entry` before the first). */
  datatype Call = Call(room: nat, count: nat, iterations: nat, laps: nat, entry: nat, seen: nat, outcome: Outcome)

  datatype Delivery = Delivery(pos: nat, words: seq<nat>)

  datatype Reader = Reader(start: nat, next: nat, missed: nat, phase: Phase, call: Call, delivered: seq<Delivery>)

  datatype State = State(core: Core, readers: seq<Reader>, inconsistent: nat)

  datatype Step =
    | Join                                     // another producer thread appears
    | Attach                                   // another reader attaches
    | TakeTickets(j: nat, frames: seq<Words>)  // write_pos_.fetch_add
    | Cas(j: nat, spurious: bool)              // one compare_exchange_weak
    | StoreWord(j: nat)
    | Publish(j: nat)
    | BeginBatch(r: nat, room: nat)
    | LoadMark(r: nat)                         // s1
    | LoadWord(r: nat)
    | Recheck(r: nat)                          // s2
    | LoadOldest(r: nat)                       // the load inside lap()

  // ---------------------------------------------------------------------
  // The machine

  ghost predicate Init(s: State) {
    && |s.core.cells| >= 2
    && s.core.writePos == 0 && s.core.producers == [] && s.core.log == []
    && (forall c | 0 <= c < |s.core.cells| :: s.core.cells[c].mark == 0)
    && s.readers == [] && s.inconsistent == 0
  }

  /** The cell index of a position; `RingSize.SlotIsMask` identifies it with
      `pos & mask`. Laps are peeled off one at a time, which keeps proofs linear. */
  function Slot(cap: nat, pos: nat): (i: nat)
    requires cap > 0
    ensures i < cap
  {
    if pos < cap then pos else Slot(cap, pos - cap)
  }

  function CellOf(c: Core, pos: nat): (i: nat)
    requires |c.cells| > 0
    ensures i < |c.cells|
  {
    Slot(|c.cells|, pos)
  }

  function Mark(c: Core, pos: nat): nat
    requires |c.cells| > 0
  {
    c.cells[CellOf(c, pos)].mark
  }

  /** The word the previous lap leaves behind, which the CAS expects. */
  function Expected(cap: nat, pos: nat): nat {
    if pos < cap then 0 else 2 * (pos - cap) + 2
  }

  function Oldest(c: Core): nat {
    if c.writePos > |c.cells| then c.writePos - |c.cells| else 0
  }

  predicate ProducerEnabled(c: Core, step: Step) {
    match step
    case Join => true
    case TakeTickets(j, frames) => j < |c.producers| && c.producers[j].Idle? && frames != []
    case Cas(j, _) => j < |c.producers| && c.producers[j].Claiming?
    case StoreWord(j) =>
      && j < |c.producers| && c.producers[j].Storing?
      && c.producers[j].k < 5 && c.producers[j].i < |c.producers[j].frames|
    case Publish(j) => j < |c.producers| && c.producers[j].Storing? && c.producers[j].k == 5
    case _ => false
  }

  function ApplyProducer(c: Core, step: Step): Core
    requires |c.cells| > 0 && ProducerEnabled(c, step)
  {
    match step
    case Join => c.(producers := c.producers + [Idle])
    case TakeTickets(j, frames) =>
      c.(writePos := c.writePos + |frames|,
         producers := c.producers[j := Claiming(c.writePos, frames, 0)],
         log := c.log + seq(|frames|, n requires 0 <= n < |frames| => Entry(frames[n], j)))
    case Cas(j, spurious) =>
      var p := c.producers[j];
      var pos := p.base + p.i;
      var at := CellOf(c, pos);
      if spurious || c.cells[at].mark != Expected(|c.cells|, pos) then c
      else c.(cells := c.cells[at := c.cells[at].(mark := 2 * pos + 1)],
              producers := c.producers[j := Storing(p.base, p.frames, p.i, 0)])
    case StoreWord(j) =>
      var p := c.producers[j];
      var pos := p.base + p.i;
      var at := CellOf(c, pos);
      var words: Words := c.cells[at].words[p.k := Stamp(p.frames[p.i], pos)[p.k]];
      c.(cells := c.cells[at := c.cells[at].(words := words)],
         producers := c.producers[j := p.(k := p.k + 1)])
    case Publish(j) =>
      var p := c.producers[j];
      var pos := p.base + p.i;
      var at := CellOf(c, pos);
      c.(cells := c.cells[at := c.cells[at].(mark := 2 * pos + 2)],
         producers := c.producers[j := if p.i + 1 < |p.frames| then Claiming(p.base, p.frames, p.i + 1) else Idle])
  }

  predicate ReaderEnabled(rd: Reader, step: Step) {
    match step
    case BeginBatch(_, _) => !rd.call.outcome.Running?
    case LoadMark(_) => rd.call.outcome.Running? && rd.phase.Ready?
    case LoadWord(_) => rd.phase.Copying? && |rd.phase.got| < 5
    case Recheck(_) => rd.phase.Copying? && |rd.phase.got| == 5
    case LoadOldest(_) => rd.phase.Lapping?
    case _ => false
  }

  /** `try_read` returned kEmpty: the cursor is untouched and the batch ends. */
  function ReturnEmpty(rd: Reader): Reader {
    rd.(phase := Ready, call := rd.call.(iterations := rd.call.iterations + 1, outcome := RanDry))
  }

  function ReturnOk(rd: Reader, words: seq<nat>): Reader {
    rd.(next := rd.next + 1,
        phase := Ready,
        delivered := rd.delivered + [Delivery(rd.next, words)],
        call := rd.call.(iterations := rd.call.iterations + 1,
                         count := rd.call.count + 1,
                         outcome := if rd.call.count + 1 < rd.call.room then Running else Full))
  }

  /** `lap` with the write position it loaded; both branches of the source. */
  function ReturnLapped(c: Core, rd: Reader): Reader {
    var target := Oldest(c);
    var moved := if target > rd.next
                 then rd.(missed := rd.missed + (target - rd.next), next := target)
                 else rd.(missed := rd.missed + 1, next := rd.next + 1);
    moved.(phase := Ready,
           call := rd.call.(iterations := rd.call.iterations + 1, laps := rd.call.laps + 1, seen := c.writePos))
  }

  function ApplyReader(c: Core, rd: Reader, step: Step): Reader
    requires |c.cells| > 0 && ReaderEnabled(rd, step)
  {
    match step
    case BeginBatch(_, room) =>
      rd.(call := Call(room, 0, 0, 0, c.writePos, c.writePos, if room == 0 then Full else Running))
    case LoadMark(_) =>
      var s1 := Mark(c, rd.next);
      if s1 == 0 || (s1 - 1) / 2 < rd.next then ReturnEmpty(rd)
      else if (s1 - 1) / 2 > rd.next then rd.(phase := Lapping)
      else if s1 % 2 == 1 then ReturnEmpty(rd)
      else rd.(phase := Copying(s1, []))
    case LoadWord(_) =>
      var got := rd.phase.got;
      rd.(phase := rd.phase.(got := got + [c.cells[CellOf(c, rd.next)].words[|got|]]))
    case Recheck(_) =>
      if Mark(c, rd.next) != rd.phase.s1 || rd.phase.got[0] != rd.next then rd.(phase := Lapping)
      else ReturnOk(rd, rd.phase.got)
    case LoadOldest(_) => ReturnLapped(c, rd)
  }

  /** The diagnostic counter: the re-check passed, yet word 0 is another position. */
  predicate Inconsistent(c: Core, rd: Reader, step: Step)
    requires |c.cells| > 0 && ReaderEnabled(rd, step)
  {
    step.Recheck? && Mark(c, rd.next) == rd.phase.s1 && rd.phase.got[0] != rd.next
  }

  predicate IsReaderStep(step: Step) {
    step.BeginBatch? || step.LoadMark? || step.LoadWord? || step.Recheck? || step.LoadOldest?
  }

  predicate Enabled(s: State, step: Step) {
    && |s.core.cells| > 0
    && (if step.Attach? then true
        else if IsReaderStep(step) then step.r < |s.readers| && ReaderEnabled(s.readers[step.r], step)
        else ProducerEnabled(s.core, step))
  }

  function Apply(s: State, step: Step): State
    requires Enabled(s, step)
  {
    if step.Attach? then
      var at := Oldest(s.core);
      var rested := Call(0, 0, 0, 0, s.core.writePos, s.core.writePos, Full);
      s.(readers := s.readers + [Reader(at, at, 0, Ready, rested, [])])
    else if IsReaderStep(step) then
      var rd := s.readers[step.r];
      s.(readers := s.readers[step.r := ApplyReader(s.core, rd, step)],
         inconsistent := s.inconsistent + if Inconsistent(s.core, rd, step) then 1 else 0)
    else
      s.(core := ApplyProducer(s.core, step))
  }

  /** `states` is a whole run of the ring, taking `steps` in order. */
  ghost predicate Behavior(states: seq<State>, steps: seq<Step>) {
    && |states| == |steps| + 1
    && Init(states[0])
    && forall n | 0 <= n < |steps| :: Enabled(states[n], steps[n]) && states[n + 1] == Apply(states[n], steps[n])
  }
}
