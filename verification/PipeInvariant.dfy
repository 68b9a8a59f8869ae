/** The invariant of the pipe, clause by clause.  Clauses take the parts of the state they depend on,
    so that an action leaving those parts alone visibly leaves the clause alone. */
module PipeInvariant {
  import opened Options
  import opened PipeModel

  // ----- Positions, ordered by lap and then by offset -----

  predicate Le(a: Pos, b: Pos) { a.lap < b.lap || (a.lap == b.lap && a.off <= b.off) }

  predicate Lt(a: Pos, b: Pos) { a.lap < b.lap || (a.lap == b.lap && a.off < b.off) }

  function Len(c: Config, r: Record): nat { MsgOffset(c) + |r.content| }

  function StartPos(r: Record): Pos { Pos(r.lap, r.start) }

  function EndPos(c: Config, r: Record): Pos { Pos(r.lap, r.start + Len(c, r)) }

  /** The position right behind the first j messages. */
  function EndAt(c: Config, log: seq<Record>, j: nat): Pos
    requires j <= |log|
  {
    if j == 0 then Pos(0, 0) else EndPos(c, log[j-1])
  }

  function RecvPos(recv: nat, h: History): Pos { Pos(h.recvLap, recv) }

  // ----- The log of messages -----

  predicate Before(c: Config, a: Record, b: Record) {
    a.lap < b.lap || (a.lap == b.lap && a.start + Len(c, a) <= b.start)
  }

  /** Each message starts where the previous one ends, or at the start of the next lap. */
  predicate Follows(c: Config, log: seq<Record>, j: nat)
    requires j < |log|
  {
    StartPos(log[j]) == EndAt(c, log, j) || StartPos(log[j]) == Pos(EndAt(c, log, j).lap + 1, 0)
  }

  predicate Fits(c: Config, r: Record) {
    r.start + Len(c, r) <= c.size && |r.content| <= c.maxContent
  }

  ghost predicate LogOk(c: Config, log: seq<Record>) {
    && (forall j {:trigger Fits(c, log[j])} :: 0 <= j < |log| ==> Fits(c, log[j]))
    && (forall j :: 0 <= j < |log| ==> Follows(c, log, j))
    && (forall j, k {:trigger Before(c, log[j], log[k])} :: 0 <= j < k < |log| ==> Before(c, log[j], log[k]))
  }

  // ----- The three paces -----

  predicate FromOk(c: Config, from: Pos, h: History)
    requires h.passed <= |h.log|
  {
    from == EndAt(c, h.log, h.passed) || (h.passed < |h.log| && from == StartPos(h.log[h.passed]))
  }

  predicate RecvOk(c: Config, recv: nat, h: History)
    requires h.consumed <= |h.log|
  {
    RecvPos(recv, h) == EndAt(c, h.log, h.consumed)
    || (h.consumed < |h.log| && RecvPos(recv, h) == StartPos(h.log[h.consumed]))
  }

  /** sender_pace_to_ is ahead of receiver_pace_ but has not caught up with it from behind. */
  predicate WithinALap(to: Pos, recv: Pos) {
    (to.lap == recv.lap && recv.off <= to.off) || (to.lap == recv.lap + 1 && to.off < recv.off)
  }

  predicate PacesOk(c: Config, from: Pos, to: Pos, recv: nat, h: History) {
    && h.consumed <= h.passed <= |h.log|
    && to == EndAt(c, h.log, |h.log|)
    && FromOk(c, from, h)
    && RecvOk(c, recv, h)
    && Le(RecvPos(recv, h), from)
    && WithinALap(to, RecvPos(recv, h))
  }

  // ----- Memory -----

  function ExpectedWord(r: Record): nat { if r.stage >= 4 then |r.content| + NOT_WRITING else |r.content| }

  /** The k-th byte of a message whose sender has come as far as r.stage. */
  function CellOf(c: Config, r: Record, k: int): Cell
    requires 0 <= k < Len(c, r)
  {
    if k < c.sizeOffset then
      if r.stage >= 1 then HeaderByte(r.header, k) else Blank
    else if k < MsgOffset(c) then
      if r.stage >= 2 then SizeByte(ExpectedWord(r), k - c.sizeOffset) else Blank
    else
      if r.stage >= 3 then ContentByte(r.content[k - MsgOffset(c)]) else Blank
  }

  predicate Inside(c: Config, r: Record, x: int) { r.start <= x < r.start + Len(c, r) }

  ghost predicate Holds(c: Config, mem: seq<Cell>, r: Record) {
    r.start + Len(c, r) <= |mem|
    && forall x :: Inside(c, r, x) ==> mem[x] == CellOf(c, r, x - r.start)
  }

  ghost predicate Covered(c: Config, log: seq<Record>, consumed: nat, x: int) {
    exists j :: consumed <= j < |log| && Inside(c, log[j], x)
  }

  /** The part of the buffer MsgConsumed has given back but not yet blanked. */
  function ClearLo(receiver: Receiver): nat { if receiver.Clearing? then receiver.orig else 0 }
  function ClearHi(receiver: Receiver, recv: nat): nat { if receiver.Clearing? then recv else 0 }

  predicate Apart(lo: nat, hi: nat, lo': nat, hi': nat) { hi <= lo' || hi' <= lo || lo >= hi || lo' >= hi' }

  predicate Clear(c: Config, r: Record, lo: nat, hi: nat) { Apart(r.start, r.start + Len(c, r), lo, hi) }

  /** Unconsumed messages hold what their senders wrote; every other byte is blank, except those being cleared. */
  ghost predicate MemoryOk(c: Config, mem: seq<Cell>, log: seq<Record>, consumed: nat, lo: nat, hi: nat) {
    && |mem| == c.size
    && (forall j {:trigger Holds(c, mem, log[j])} :: consumed <= j < |log| ==> Holds(c, mem, log[j]))
    && (forall j {:trigger Clear(c, log[j], lo, hi)} :: consumed <= j < |log| ==> Clear(c, log[j], lo, hi))
    && (forall x :: 0 <= x < |mem| && !(lo <= x < hi) && !Covered(c, log, consumed, x) ==> mem[x] == Blank)
  }

  // ----- Stages and deliveries -----

  /** A message that is not ready is being written by its owner. */
  predicate StageOk(h: History, senders: seq<Sender>, j: nat)
    requires j < |h.log|
  {
    var r := h.log[j];
    && r.stage <= 4
    && (r.stage < 4 ==> r.owner < |senders| && senders[r.owner].pc.Filling? && senders[r.owner].mine == j)
  }

  ghost predicate StagesOk(h: History, senders: seq<Sender>) {
    && h.passed <= |h.log|
    && (forall j :: 0 <= j < h.passed ==> h.log[j].stage == 4)
    && (forall j :: 0 <= j < |h.log| ==> StageOk(h, senders, j))
  }

  /** The bytes of a ready message. */
  function Image(c: Config, header: int, content: string): (b: seq<Cell>)
  {
    var r := Record(0, 0, header, content, 4, 0);
    seq(Len(c, r), k requires 0 <= k < Len(c, r) => CellOf(c, r, k))
  }

  ghost predicate DeliveredOk(c: Config, h: History) {
    && h.consumed <= |h.log|
    && |h.delivered| == h.consumed
    && (forall j :: 0 <= j < h.consumed ==> h.delivered[j] == Image(c, h.log[j].header, h.log[j].content))
  }

  // ----- Senders -----

  predicate Mine(h: History, i: nat, snd: Sender) { snd.mine < |h.log| && h.log[snd.mine].owner == i }

  /** The message at sender_pace_from_ is ready. */
  predicate AtReady(from: Pos, h: History) {
    h.passed < |h.log| && from == StartPos(h.log[h.passed]) && h.log[h.passed].stage == 4
  }

  /** sender_pace_from_ is at the unused tail of a lap whose successor has begun. */
  predicate AtGap(from: Pos, h: History) {
    h.passed < |h.log| && from != StartPos(h.log[h.passed])
  }

  /** Only the owner of a message at the start of the pipe moves sender_pace_from_ there and over it. */
  predicate RewindOk(c: Config, from: Pos, h: History, mine: nat, rewind: Option<nat>)
    requires mine < |h.log|
  {
    h.log[mine].start == 0 ==>
      && h.passed <= mine
      && (h.log[mine].lap > 0 ==>
            rewind == Some(EndAt(c, h.log, mine).off) && from != StartPos(h.log[mine]))
  }

  predicate LoadedOk(to: Pos, recv: nat, h: History, pace: Pos, r: nat) {
    && Le(pace, to)
    && (pace == to ==>
          if r <= pace.off then h.recvLap == pace.lap && r <= recv
          else h.recvLap == pace.lap || (h.recvLap + 1 == pace.lap && r <= recv))
  }

  predicate SenderOk(c: Config, from: Pos, to: Pos, recv: nat, h: History, i: nat, snd: Sender) {
    match snd.pc
    case Idle => true
    case LoadedTo(_, content, pace) => |content| <= c.maxContent && Le(pace, to)
    case LoadedRecv(_, content, pace, r) => |content| <= c.maxContent && r <= c.size && LoadedOk(to, recv, h, pace, r)
    case Filling(at, rewind, header, content, stage) =>
      && Mine(h, i, snd)
      && stage < 4
      && h.log[snd.mine] == Record(h.log[snd.mine].lap, at, header, content, stage, i)
      && RewindOk(c, from, h, snd.mine, rewind)
    case Marked(at, rewind) =>
      && Mine(h, i, snd) && h.log[snd.mine].start == at && h.log[snd.mine].stage == 4
      && RewindOk(c, from, h, snd.mine, rewind)
    case Waiting(at, rewind, lap) =>
      && Mine(h, i, snd) && h.log[snd.mine].start == 0 && h.log[snd.mine].lap == lap + 1 && h.log[snd.mine].stage == 4
      && RewindOk(c, from, h, snd.mine, rewind)
    case Rewinding(lap) =>
      && Mine(h, i, snd) && h.log[snd.mine].start == 0 && h.log[snd.mine].lap == lap + 1 && h.log[snd.mine].stage == 4
      && h.passed == snd.mine && from != StartPos(h.log[snd.mine])
    case Measuring(pace) =>
      && Mine(h, i, snd) && Le(pace, from)
      && (pace == from ==> AtReady(from, h) || AtGap(from, h) || Foreign(h, snd, pace))
      && (pace == from && pace.off == 0 ==> snd.mine == h.passed)
    case Passing(pace, next) =>
      && Mine(h, i, snd) && Le(pace, from)
      && (pace == from ==> AtReady(from, h) && EndPos(c, h.log[h.passed]).off == next)
      && (pace == from && pace.off == 0 ==> snd.mine == h.passed)
    case Checking(pace) => Mine(h, i, snd) && Le(pace, from) && pace.off > 0
    case Probing(pace) => Mine(h, i, snd) && Le(pace, from) && pace.off > 0 && (pace == from ==> h.passed < |h.log|)
  }

  /** The sender took sender_pace_from_ for its own message, but it is a later lap at the same offset. */
  predicate Foreign(h: History, snd: Sender, pace: Pos)
    requires snd.mine < |h.log|
  {
    h.log[snd.mine].start == pace.off && h.log[snd.mine].lap < pace.lap
  }

  ghost predicate SendersOk(c: Config, s: State) {
    forall i {:trigger SenderOk(c, s.from, s.to, s.recv, s.hist, i, s.senders[i])} :: 0 <= i < |s.senders| ==>
      SenderOk(c, s.from, s.to, s.recv, s.hist, i, s.senders[i])
  }

  // ----- Receiver -----

  predicate SeenOk(c: Config, pace: Pos, h: History)
    requires h.seen <= |h.log|
  {
    pace == EndAt(c, h.log, h.seen) || (h.seen < |h.log| && pace == StartPos(h.log[h.seen]))
  }

  predicate ReceiverOk(c: Config, from: Pos, recv: nat, h: History, receiver: Receiver) {
    match receiver
    case Polling => true
    case LoadedFrom(pace) =>
      && h.consumed <= h.seen <= h.passed <= |h.log|
      && SeenOk(c, pace, h)
      && Le(RecvPos(recv, h), pace) && Le(pace, from)
    case AtTail(pace) =>
      && h.consumed <= h.seen <= h.passed <= |h.log| && h.consumed < |h.log|
      && SeenOk(c, pace, h)
      && pace.lap == h.recvLap + 1 && Le(pace, from)
      && StartPos(h.log[h.consumed]) == Pos(h.recvLap + 1, 0)
    case Holding =>
      && h.consumed < h.passed <= |h.log|
      && RecvPos(recv, h) == StartPos(h.log[h.consumed])
    case Clearing(orig) =>
      && 0 < h.consumed <= |h.log|
      && h.log[h.consumed - 1].start == orig
      && RecvPos(recv, h) == EndPos(c, h.log[h.consumed - 1])
  }

  // ----- Obligations: who will move sender_pace_from_ next -----

  predicate Obliged(from: Pos, h: History, snd: Sender) {
    match snd.pc
    case Marked(_, _) => snd.mine == h.passed
    case Measuring(pace) => pace == from
    case Passing(pace, _) => pace == from
    case Checking(pace) => pace == from
    case Probing(pace) => pace == from
    case _ => false
  }

  ghost predicate SomeoneObliged(from: Pos, h: History, senders: seq<Sender>) {
    exists i :: 0 <= i < |senders| && Obliged(from, h, senders[i])
  }

  /** Message j begins a lap that sender_pace_from_ has not entered. */
  predicate Pending(from: Pos, h: History, j: nat) {
    h.passed <= j < |h.log| && h.log[j].start == 0 && from != StartPos(h.log[j])
  }

  predicate WillRewind(snd: Sender, j: nat) {
    snd.mine == j && (snd.pc.Filling? || snd.pc.Marked? || snd.pc.Waiting? || snd.pc.Rewinding?)
  }

  predicate PendingOk(from: Pos, h: History, senders: seq<Sender>, j: nat)
    requires j < |h.log|
  {
    Pending(from, h, j) ==> h.log[j].owner < |senders| && WillRewind(senders[h.log[j].owner], j)
  }

  ghost predicate ObligationsOk(from: Pos, h: History, senders: seq<Sender>) {
    && (AtReady(from, h) ==> SomeoneObliged(from, h, senders))
    && (forall j {:trigger PendingOk(from, h, senders, j)} :: 0 <= j < |h.log| ==> PendingOk(from, h, senders, j))
  }

  ghost predicate Inv(c: Config, s: State) {
    && LogOk(c, s.hist.log)
    && PacesOk(c, s.from, s.to, s.recv, s.hist)
    && StagesOk(s.hist, s.senders)
    && MemoryOk(c, s.mem, s.hist.log, s.hist.consumed, ClearLo(s.receiver), ClearHi(s.receiver, s.recv))
    && SendersOk(c, s)
    && ReceiverOk(c, s.from, s.recv, s.hist, s.receiver)
    && DeliveredOk(c, s.hist)
    && ObligationsOk(s.from, s.hist, s.senders)
  }

  // ----- Timely actions: the two places where the protocol relies on timing -----

  /** A size word that is not blank, read where sender_pace_from_ points, has the ready bit set, and
      sender_pace_from_ has not reached sender_pace_to_.  (Line 340 only tests for blank.) */
  predicate TimelyMeasure(s: State, i: nat, word: nat)
    requires i < |s.senders| && s.senders[i].pc.Measuring?
  {
    s.senders[i].pc.pace == s.from && word != BLANK_WORD ==> IsReadyWord(word) && s.from != s.to
  }

  /** A reservation does not take bytes that MsgConsumed has yet to blank. */
  predicate TimelyReserve(c: Config, s: State, i: nat)
    requires i < |s.senders| && s.senders[i].pc.LoadedRecv?
  {
    var p := s.senders[i].pc;
    var need := MsgOffset(c) + |p.content|;
    var r := Reservation(c, p.pace, p.recv, need);
    r.Some? && s.to == p.pace ==>
      Apart(r.value.0, r.value.0 + need, ClearLo(s.receiver), ClearHi(s.receiver, s.recv))
  }

  predicate Timely(c: Config, s: State, a: Action)
    requires Enabled(c, s, a)
  {
    match a
    case Measure(i, word) => TimelyMeasure(s, i, word)
    case CasTo(i) => TimelyReserve(c, s, i)
    case _ => true
  }
}
