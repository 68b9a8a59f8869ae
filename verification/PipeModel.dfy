/** The multi-producer single-consumer pipe of src/mpsc_fixed_pipe/mpsc_fixed_pipe.hpp as a
    state machine.  One action is one access to a shared word (sender_pace_from_,
    sender_pace_to_, receiver_pace_, or the size field of a message), or one bulk write of
    message bytes.  The buffer is modelled cell by cell.  A pace is a pair of a lap number and an
    offset; PipeEncoding relates it to the 16+48 bit word.  Fields of History never influence an
    action: they record what happened so that properties of whole runs can be stated. */
module PipeModel {
  import opened Options

  /** sizeOffset is the offset of the size field in a message; the content follows it. */
  datatype Config = Config(size: nat, maxContent: nat, sizeOffset: nat)

  const NOT_WRITING: nat := 0x8000_0000
  const BLANK_WORD: nat := 0xFFFF_FFFF

  function MsgOffset(c: Config): nat { c.sizeOffset + 4 }

  /** What Init demands of its sizes, and that a ready size can never read as blank. */
  predicate ValidConfig(c: Config) {
    && c.sizeOffset > 0
    && c.size > c.maxContent + MsgOffset(c)
    && c.maxContent + 1 < NOT_WRITING
  }

  // ----- Memory -----

  /** A byte of the buffer.  Blank is the byte 255 as SetBlank_ leaves it. */
  datatype Cell =
    | Blank
    | HeaderByte(header: int, k: int)
    | SizeByte(word: nat, k: int)
    | ContentByte(ch: char)

  function WriteHeader(c: Config, mem: seq<Cell>, at: nat, header: int): (m: seq<Cell>)
    ensures |m| == |mem|
  {
    seq(|mem|, x requires 0 <= x < |mem| =>
      if at <= x < at + c.sizeOffset then HeaderByte(header, x - at) else mem[x])
  }

  function WriteSize(c: Config, mem: seq<Cell>, at: nat, word: nat): (m: seq<Cell>)
    ensures |m| == |mem|
  {
    seq(|mem|, x requires 0 <= x < |mem| =>
      if at + c.sizeOffset <= x < at + MsgOffset(c) then SizeByte(word, x - at - c.sizeOffset) else mem[x])
  }

  function WriteContent(c: Config, mem: seq<Cell>, at: nat, content: string): (m: seq<Cell>)
    ensures |m| == |mem|
  {
    seq(|mem|, x requires 0 <= x < |mem| =>
      if at + MsgOffset(c) <= x < at + MsgOffset(c) + |content| then ContentByte(content[x - at - MsgOffset(c)])
      else mem[x])
  }

  /** `size |= kMaskNotWriting`: sets the top bit; blank bytes already have it. */
  function MarkCell(cell: Cell): Cell {
    if cell.SizeByte? && cell.word < NOT_WRITING then cell.(word := cell.word + NOT_WRITING) else cell
  }

  function MarkReady(c: Config, mem: seq<Cell>, at: nat): (m: seq<Cell>)
    ensures |m| == |mem|
  {
    seq(|mem|, x requires 0 <= x < |mem| =>
      if at + c.sizeOffset <= x < at + MsgOffset(c) then MarkCell(mem[x]) else mem[x])
  }

  function SetBlank(mem: seq<Cell>, lo: nat, hi: nat): (m: seq<Cell>)
    ensures |m| == |mem|
  {
    seq(|mem|, x requires 0 <= x < |mem| => if lo <= x < hi then Blank else mem[x])
  }

  /** The 32-bit words a read of the size field of a message at offset `at` may return.  Bytes that are
      not one whole size field may read as any word; a field reaching past the buffer reads as blank. */
  predicate Observes(c: Config, mem: seq<Cell>, at: nat, word: nat) {
    var f := at + c.sizeOffset;
    if f + 4 > |mem| then
      word == BLANK_WORD
    else if mem[f].Blank? && mem[f+1].Blank? && mem[f+2].Blank? && mem[f+3].Blank? then
      word == BLANK_WORD
    else if mem[f].SizeByte? && (forall k :: 0 <= k < 4 ==> mem[f+k] == SizeByte(mem[f].word, k)) then
      word == mem[f].word
    else
      word <= BLANK_WORD
  }

  predicate IsReadyWord(word: nat) { word != BLANK_WORD && word >= NOT_WRITING }

  /** GetMsgSize_ on a word that is not blank: the content size is the word without its top bit. */
  function SizeOfWord(c: Config, word: nat): nat {
    MsgOffset(c) + if word >= NOT_WRITING then word - NOT_WRITING else word
  }

  // ----- State -----

  /** A pace pointer: lap is the (unbounded) version number, off the offset in the buffer. */
  datatype Pos = Pos(lap: nat, off: nat)

  /** Where a sender is in SendMsg_ and what its local variables hold. */
  datatype Pc =
    | Idle
    | LoadedTo(header: int, content: string, pace: Pos)                     // line 294 done
    | LoadedRecv(header: int, content: string, pace: Pos, recv: nat)        // line 296 done
    | Filling(at: nat, rewind: Option<nat>, header: int, content: string, stage: nat) // lines 269-273, 319
    | Marked(at: nat, rewind: Option<nat>)                                  // line 319 done
    | Waiting(at: nat, rewind: Option<nat>, lap: nat)                       // line 328
    | Rewinding(lap: nat)                                                   // line 334
    | Measuring(pace: Pos)                                                  // line 339 or 350
    | Passing(pace: Pos, next: nat)                                         // line 343 or 355
    | Checking(from: Pos)                                                   // line 346
    | Probing(from: Pos)                                                    // line 347

  /** `mine` is history: the index in the log of the last message this sender reserved. */
  datatype Sender = Sender(pc: Pc, mine: nat)

  datatype Receiver =
    | Polling
    | LoadedFrom(pace: Pos)           // line 362 done
    | AtTail(pace: Pos)               // line 369
    | Holding                         // ReceiveMsg_ returned a message
    | Clearing(orig: nat)             // line 183 done, line 184 not yet

  /** A reserved message.  Stages: 0 reserved, 1 header written, 2 size written, 3 content written, 4 ready. */
  datatype Record = Record(lap: nat, start: nat, header: int, content: string, stage: nat, owner: nat)

  datatype History = History(
    log: seq<Record>,             // messages in order of their successful reservation
    passed: nat,                  // how many of them sender_pace_from_ has moved over
    consumed: nat,                // how many of them the receiver has consumed
    seen: nat,                    // value of `passed` when the receiver last loaded sender_pace_from_
    recvLap: nat,                 // lap of receiver_pace_, which carries no version
    delivered: seq<seq<Cell>>)    // the bytes of each message at the time it was consumed

  datatype State = State(
    mem: seq<Cell>,
    from: Pos,                    // sender_pace_from_
    to: Pos,                      // sender_pace_to_
    recv: nat,                    // receiver_pace_
    receiver: Receiver,
    senders: seq<Sender>,
    hist: History)

  function InitState(c: Config, numSenders: nat): State {
    State(
      seq(c.size, _ => Blank), Pos(0, 0), Pos(0, 0), 0, Polling,
      seq(numSenders, _ => Sender(Idle, 0)),
      History([], 0, 0, 0, 0, []))
  }

  // ----- Actions -----

  datatype Action =
    | LoadTo(i: nat, header: int, content: string)
    | LoadRecv(i: nat)
    | CasTo(i: nat)
    | PutHeader(i: nat)
    | PutSize(i: nat)
    | PutContent(i: nat)
    | PutReady(i: nat)
    | LoadFrom(i: nat)
    | Spin(i: nat)
    | StoreFrom(i: nat)
    | Measure(i: nat, word: nat)
    | CasFrom(i: nat)
    | CheckTo(i: nat)
    | Probe(i: nat, word: nat)
    | RecvLoad
    | RecvDecide(word: nat)
    | RecvRewind
    | RecvPublish
    | RecvClear

  function SetPc(s: State, i: nat, pc: Pc): State
    requires i < |s.senders|
  {
    s.(senders := s.senders[i := s.senders[i].(pc := pc)])
  }

  /** When an action can happen.  Enabledness depends on the real state only. */
  predicate Enabled(c: Config, s: State, a: Action) {
    match a
    case LoadTo(i, _, content) => i < |s.senders| && s.senders[i].pc.Idle? && |content| <= c.maxContent
    case LoadRecv(i) => i < |s.senders| && s.senders[i].pc.LoadedTo?
    case CasTo(i) => i < |s.senders| && s.senders[i].pc.LoadedRecv?
    case PutHeader(i) => i < |s.senders| && s.senders[i].pc.Filling? && s.senders[i].pc.stage == 0
    case PutSize(i) => i < |s.senders| && s.senders[i].pc.Filling? && s.senders[i].pc.stage == 1
    case PutContent(i) => i < |s.senders| && s.senders[i].pc.Filling? && s.senders[i].pc.stage == 2
    case PutReady(i) => i < |s.senders| && s.senders[i].pc.Filling? && s.senders[i].pc.stage == 3
    case LoadFrom(i) => i < |s.senders| && s.senders[i].pc.Marked?
    case Spin(i) => i < |s.senders| && s.senders[i].pc.Waiting?
    case StoreFrom(i) => i < |s.senders| && s.senders[i].pc.Rewinding?
    case Measure(i, word) =>
      i < |s.senders| && s.senders[i].pc.Measuring? && Observes(c, s.mem, s.senders[i].pc.pace.off, word)
    case CasFrom(i) => i < |s.senders| && s.senders[i].pc.Passing?
    case CheckTo(i) => i < |s.senders| && s.senders[i].pc.Checking?
    case Probe(i, word) =>
      i < |s.senders| && s.senders[i].pc.Probing? && Observes(c, s.mem, s.senders[i].pc.from.off, word)
    case RecvLoad => s.receiver.Polling?
    case RecvDecide(word) => s.receiver.LoadedFrom? && Observes(c, s.mem, s.recv, word)
    case RecvRewind => s.receiver.AtTail?
    case RecvPublish =>
      // a client reads the message and calls MsgConsumed; the size field must be a size to be added
      s.receiver.Holding? && CanPublish(c, s)
    case RecvClear => s.receiver.Clearing?
  }

  /** Where a sender that loaded `pace` and `recv` would reserve `need` bytes: the offset of its message
      and the new value of sender_pace_to_ (ReserveSpaceForSend_, lines 298-314). */
  function Reservation(c: Config, pace: Pos, recv: nat, need: nat): Option<(nat, Pos)> {
    if pace.off >= recv then
      if pace.off + need <= c.size then Some((pace.off, Pos(pace.lap, pace.off + need)))
      else if need < recv then Some((0, Pos(pace.lap + 1, need)))
      else None
    else if pace.off + need < recv then Some((pace.off, Pos(pace.lap, pace.off + need)))
    else None
  }

  /** The message is placed at the start of the pipe because it did not fit behind `pace`. */
  predicate Rewinds(c: Config, pace: Pos, recv: nat, need: nat) {
    pace.off >= recv && pace.off + need > c.size
  }

  /** The state after a successful reservation. */
  function Reserve(s: State, i: nat, at: nat, to: Pos, rewind: Option<nat>): State
    requires i < |s.senders| && s.senders[i].pc.LoadedRecv?
  {
    var p := s.senders[i].pc;
    s.(to := to,
       senders := s.senders[i := Sender(Filling(at, rewind, p.header, p.content, 0), |s.hist.log|)],
       hist := s.hist.(log := s.hist.log + [Record(to.lap, at, p.header, p.content, 0, i)]))
  }

  function ApplyCasTo(c: Config, s: State, i: nat): State
    requires i < |s.senders| && s.senders[i].pc.LoadedRecv?
  {
    var p := s.senders[i].pc;
    var need := MsgOffset(c) + |p.content|;
    match Reservation(c, p.pace, p.recv, need)
    case None => SetPc(s, i, Idle)
    case Some((at, to)) =>
      if s.to != p.pace then SetPc(s, i, Idle)
      else Reserve(s, i, at, to, if Rewinds(c, p.pace, p.recv, need) then Some(p.pace.off) else None)
  }

  /** A write into the message being filled: new memory, and the next stage in the log. */
  function Advance(s: State, i: nat, mem: seq<Cell>, pc: Pc): State
    requires i < |s.senders|
  {
    var j := s.senders[i].mine;
    var t := SetPc(s, i, pc).(mem := mem);
    if j < |s.hist.log| then
      t.(hist := s.hist.(log := s.hist.log[j := s.hist.log[j].(stage := s.hist.log[j].stage + 1)]))
    else t
  }

  function ApplyLoadFrom(s: State, i: nat): State
    requires i < |s.senders| && s.senders[i].pc.Marked?
  {
    var p := s.senders[i].pc;
    if s.from.off == p.at then SetPc(s, i, Measuring(s.from))
    else if p.at == 0 then SetPc(s, i, Waiting(p.at, p.rewind, s.from.lap))
    else SetPc(s, i, Idle)
  }

  function ApplySpin(s: State, i: nat): State
    requires i < |s.senders| && s.senders[i].pc.Waiting?
  {
    var p := s.senders[i].pc;
    if Some(s.from.off) == p.rewind then SetPc(s, i, Rewinding(p.lap)) else s
  }

  function ApplyStoreFrom(s: State, i: nat): State
    requires i < |s.senders| && s.senders[i].pc.Rewinding?
  {
    var from := Pos(s.senders[i].pc.lap + 1, 0);
    SetPc(s, i, Measuring(from)).(from := from)
  }

  function ApplyMeasure(c: Config, s: State, i: nat, word: nat): State
    requires i < |s.senders| && s.senders[i].pc.Measuring?
  {
    var p := s.senders[i].pc;
    if word == BLANK_WORD then SetPc(s, i, Idle)
    else SetPc(s, i, Passing(p.pace, p.pace.off + SizeOfWord(c, word)))
  }

  function ApplyCasFrom(s: State, i: nat): State
    requires i < |s.senders| && s.senders[i].pc.Passing?
  {
    var p := s.senders[i].pc;
    if s.from != p.pace then SetPc(s, i, Idle)
    else
      var from := Pos(p.pace.lap, p.next);
      SetPc(s, i, Checking(from)).(
        from := from,
        hist := s.hist.(passed := if s.hist.passed < |s.hist.log| then s.hist.passed + 1 else s.hist.passed))
  }

  function ApplyCheckTo(s: State, i: nat): State
    requires i < |s.senders| && s.senders[i].pc.Checking?
  {
    var p := s.senders[i].pc;
    if p.from.off == s.to.off then SetPc(s, i, Idle) else SetPc(s, i, Probing(p.from))
  }

  function ApplyProbe(s: State, i: nat, word: nat): State
    requires i < |s.senders| && s.senders[i].pc.Probing?
  {
    if IsReadyWord(word) then SetPc(s, i, Measuring(s.senders[i].pc.from)) else SetPc(s, i, Idle)
  }

  function ApplyRecvDecide(c: Config, s: State, word: nat): State
    requires s.receiver.LoadedFrom?
  {
    var f := s.receiver.pace;
    if s.recv < f.off then s.(receiver := Holding)
    else if s.recv == f.off then s.(receiver := Polling)
    else if s.recv + MsgOffset(c) > c.size || word == BLANK_WORD then s.(receiver := AtTail(f))
    else s.(receiver := Holding)
  }

  predicate CanPublish(c: Config, s: State) {
    && s.recv + MsgOffset(c) <= |s.mem| && s.mem[s.recv + c.sizeOffset].SizeByte?
    && s.recv + SizeOfWord(c, s.mem[s.recv + c.sizeOffset].word) <= |s.mem|
  }

  function ApplyRecvPublish(c: Config, s: State): State
    requires CanPublish(c, s)
  {
    var len := SizeOfWord(c, s.mem[s.recv + c.sizeOffset].word);
    s.(recv := s.recv + len,
       receiver := Clearing(s.recv),
       hist := s.hist.(
         consumed := s.hist.consumed + 1,
         delivered := s.hist.delivered + [s.mem[s.recv .. s.recv + len]]))
  }

  function ApplyRecvRewind(s: State): State
    requires s.receiver.AtTail?
  {
    s.(recv := 0, receiver := if s.receiver.pace.off != 0 then Holding else Polling,
       hist := s.hist.(recvLap := s.hist.recvLap + 1))
  }

  function Apply(c: Config, s: State, a: Action): State
    requires Enabled(c, s, a)
  {
    match a
    case LoadTo(i, header, content) => SetPc(s, i, LoadedTo(header, content, s.to))
    case LoadRecv(i) =>
      var p := s.senders[i].pc;
      SetPc(s, i, LoadedRecv(p.header, p.content, p.pace, s.recv))
    case CasTo(i) => ApplyCasTo(c, s, i)
    case PutHeader(i) =>
      var p := s.senders[i].pc;
      Advance(s, i, WriteHeader(c, s.mem, p.at, p.header), p.(stage := 1))
    case PutSize(i) =>
      var p := s.senders[i].pc;
      Advance(s, i, WriteSize(c, s.mem, p.at, |p.content|), p.(stage := 2))
    case PutContent(i) =>
      var p := s.senders[i].pc;
      Advance(s, i, WriteContent(c, s.mem, p.at, p.content), p.(stage := 3))
    case PutReady(i) =>
      var p := s.senders[i].pc;
      Advance(s, i, MarkReady(c, s.mem, p.at), Marked(p.at, p.rewind))
    case LoadFrom(i) => ApplyLoadFrom(s, i)
    case Spin(i) => ApplySpin(s, i)
    case StoreFrom(i) => ApplyStoreFrom(s, i)
    case Measure(i, word) => ApplyMeasure(c, s, i, word)
    case CasFrom(i) => ApplyCasFrom(s, i)
    case CheckTo(i) => ApplyCheckTo(s, i)
    case Probe(i, word) => ApplyProbe(s, i, word)
    case RecvLoad => s.(receiver := LoadedFrom(s.from), hist := s.hist.(seen := s.hist.passed))
    case RecvDecide(word) => ApplyRecvDecide(c, s, word)
    case RecvRewind => ApplyRecvRewind(s)
    case RecvPublish => ApplyRecvPublish(c, s)
    case RecvClear => s.(mem := SetBlank(s.mem, s.receiver.orig, s.recv), receiver := Polling)
  }
}
