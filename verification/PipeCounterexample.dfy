/** Two schedules of two senders and the receiver on a buffer of 15 bytes with headers of 1 byte.  In the
    first the receiver is handed a message that its sender is still writing; in the second a reserved
    message is about to be blanked.  Up to the last step every action is timely, so the invariant tells what
    each read of a size field returns. */
module PipeCounterexample {
  import opened Options
  import opened PipeModel
  import opened PipeInvariant
  import opened PipeSenderProof
  import opened PipeReceiverProof
  import opened PipeTheorems
  import opened PipeProgress

  const C := Config(15, 1, 1)

  /** Reached from the initial state of two senders by timely actions. */
  ghost predicate Good(s: State) { exists actions :: TimelyRun(C, InitState(C, 2), actions, s) }

  lemma GoodInv(s: State)
    requires Good(s)
    ensures Inv(C, s)
  {
    var actions :| TimelyRun(C, InitState(C, 2), actions, s);
    assert Reachable(C, s);
    ReachableInv(C, s);
  }

  lemma MemorySize(s: State)
    requires Good(s)
    ensures |s.mem| == 15
  {
    GoodInv(s);
  }

  lemma Begin() returns (t: State)
    ensures Good(t) && t == InitState(C, 2)
  {
    t := InitState(C, 2);
    assert TimelyRun(C, t, [], t);
  }

  lemma Go(s: State, a: Action) returns (t: State)
    requires Good(s) && Enabled(C, s, a) && Timely(C, s, a)
    ensures t == Apply(C, s, a) && Good(t)
  {
    t := Apply(C, s, a);
    var actions :| TimelyRun(C, InitState(C, 2), actions, s);
    TimelyRunStep(C, InitState(C, 2), actions, s, a);
  }

  /** Reached by any actions. */
  ghost predicate Possible(t: State) { exists actions :: Run(C, InitState(C, 2), actions, t) }

  lemma GoodIsPossible(s: State)
    requires Good(s)
    ensures Possible(s)
  {
    var actions :| TimelyRun(C, InitState(C, 2), actions, s);
    TimelyRunIsRun(C, InitState(C, 2), actions, s);
  }

  lemma Extend(s: State, a: Action) returns (t: State)
    requires Possible(s) && Enabled(C, s, a)
    ensures t == Apply(C, s, a) && Possible(t)
  {
    t := Apply(C, s, a);
    RunOne(C, s, a);
    StillPossible(s, [a], t);
  }

  lemma WordReads(s: State, j: nat)
    requires Good(s) && s.hist.consumed <= j < |s.hist.log| && s.hist.log[j].stage >= 2
    ensures Observes(C, s.mem, s.hist.log[j].start, ExpectedWord(s.hist.log[j]))
  {
    GoodInv(s);
    var r := s.hist.log[j];
    assert Holds(C, s.mem, r) && Fits(C, r);
    SizeField(C, s.mem, r, 0);
    SizeField(C, s.mem, r, 1);
    SizeField(C, s.mem, r, 2);
    SizeField(C, s.mem, r, 3);
  }

  lemma HeldReads(s: State)
    requires Good(s) && s.receiver.Holding?
    ensures s.hist.consumed < |s.hist.log| && CanPublish(C, s)
    ensures SizeOfWord(C, s.mem[s.recv + C.sizeOffset].word) == Len(C, s.hist.log[s.hist.consumed])
  {
    GoodInv(s);
    HeldMessage(C, s);
  }

  /** Everything about a state except its bytes. */
  predicate Shape(s: State, from: Pos, to: Pos, recv: nat, receiver: Receiver, snd0: Sender, snd1: Sender,
                  log: seq<Record>, passed: nat, consumed: nat, recvLap: nat)
  {
    && s.from == from && s.to == to && s.recv == recv && s.receiver == receiver && s.senders == [snd0, snd1]
    && s.hist.log == log && s.hist.passed == passed && s.hist.consumed == consumed && s.hist.recvLap == recvLap
  }

  // ----- An unfinished message is handed out -----

  predicate AfterFirstReserves(s: State) {
    Shape(s, Pos(0, 0), Pos(0, 5), 0, Polling,
      Sender(Idle, 0),
      Sender(Filling(0, None, 7, "", 0), 0),
      [Record(0, 0, 7, "", 0, 1)],
      0, 0, 0)
  }

  predicate AfterSecondReserves(s: State) {
    Shape(s, Pos(0, 0), Pos(0, 11), 0, Polling,
      Sender(Filling(5, None, 8, "x", 0), 1),
      Sender(Filling(0, None, 7, "", 0), 0),
      [Record(0, 0, 7, "", 0, 1),
       Record(0, 5, 8, "x", 0, 0)],
      0, 0, 0)
  }

  predicate AfterSecondFills(s: State) {
    Shape(s, Pos(0, 0), Pos(0, 11), 0, Polling,
      Sender(Filling(5, None, 8, "x", 2), 1),
      Sender(Filling(0, None, 7, "", 0), 0),
      [Record(0, 0, 7, "", 0, 1),
       Record(0, 5, 8, "x", 2, 0)],
      0, 0, 0)
  }

  predicate AfterSecondReady(s: State) {
    Shape(s, Pos(0, 0), Pos(0, 11), 0, Polling,
      Sender(Marked(5, None), 1),
      Sender(Filling(0, None, 7, "", 0), 0),
      [Record(0, 0, 7, "", 0, 1),
       Record(0, 5, 8, "x", 4, 0)],
      0, 0, 0)
  }

  predicate AfterFirstFills(s: State) {
    Shape(s, Pos(0, 0), Pos(0, 11), 0, Polling,
      Sender(Marked(5, None), 1),
      Sender(Filling(0, None, 7, "", 2), 0),
      [Record(0, 0, 7, "", 2, 1),
       Record(0, 5, 8, "x", 4, 0)],
      0, 0, 0)
  }

  predicate AfterFirstReady(s: State) {
    Shape(s, Pos(0, 0), Pos(0, 11), 0, Polling,
      Sender(Marked(5, None), 1),
      Sender(Marked(0, None), 0),
      [Record(0, 0, 7, "", 4, 1),
       Record(0, 5, 8, "x", 4, 0)],
      0, 0, 0)
  }

  predicate AfterFirstPassed(s: State) {
    Shape(s, Pos(0, 5), Pos(0, 11), 0, Polling,
      Sender(Marked(5, None), 1),
      Sender(Checking(Pos(0, 5)), 0),
      [Record(0, 0, 7, "", 4, 1),
       Record(0, 5, 8, "x", 4, 0)],
      1, 0, 0)
  }

  predicate AfterFoundReady(s: State) {
    Shape(s, Pos(0, 5), Pos(0, 11), 0, Polling,
      Sender(Marked(5, None), 1),
      Sender(Measuring(Pos(0, 5)), 0),
      [Record(0, 0, 7, "", 4, 1),
       Record(0, 5, 8, "x", 4, 0)],
      1, 0, 0)
  }

  predicate AfterSecondPassed(s: State) {
    Shape(s, Pos(0, 11), Pos(0, 11), 0, Polling,
      Sender(Marked(5, None), 1),
      Sender(Idle, 0),
      [Record(0, 0, 7, "", 4, 1),
       Record(0, 5, 8, "x", 4, 0)],
      2, 0, 0)
  }

  predicate AfterFirstConsumed(s: State) {
    Shape(s, Pos(0, 11), Pos(0, 11), 5, Polling,
      Sender(Marked(5, None), 1),
      Sender(Idle, 0),
      [Record(0, 0, 7, "", 4, 1),
       Record(0, 5, 8, "x", 4, 0)],
      2, 1, 0)
  }

  predicate AfterSecondConsumed(s: State) {
    Shape(s, Pos(0, 11), Pos(0, 11), 11, Polling,
      Sender(Marked(5, None), 1),
      Sender(Idle, 0),
      [Record(0, 0, 7, "", 4, 1),
       Record(0, 5, 8, "x", 4, 0)],
      2, 2, 0)
  }

  predicate AfterNextLap(s: State) {
    Shape(s, Pos(0, 11), Pos(1, 5), 11, Polling,
      Sender(Marked(5, None), 1),
      Sender(Filling(0, Some(11), 9, "", 0), 2),
      [Record(0, 0, 7, "", 4, 1),
       Record(0, 5, 8, "x", 4, 0),
       Record(1, 0, 9, "", 0, 1)],
      2, 2, 0)
  }

  predicate AfterNextLapFilled(s: State) {
    Shape(s, Pos(0, 11), Pos(1, 5), 11, Polling,
      Sender(Marked(5, None), 1),
      Sender(Filling(0, Some(11), 9, "", 2), 2),
      [Record(0, 0, 7, "", 4, 1),
       Record(0, 5, 8, "x", 4, 0),
       Record(1, 0, 9, "", 2, 1)],
      2, 2, 0)
  }

  predicate AfterNextLapReady(s: State) {
    Shape(s, Pos(0, 11), Pos(1, 5), 11, Polling,
      Sender(Marked(5, None), 1),
      Sender(Marked(0, Some(11)), 2),
      [Record(0, 0, 7, "", 4, 1),
       Record(0, 5, 8, "x", 4, 0),
       Record(1, 0, 9, "", 4, 1)],
      2, 2, 0)
  }

  predicate AfterNextLapEntered(s: State) {
    Shape(s, Pos(1, 0), Pos(1, 5), 11, Polling,
      Sender(Marked(5, None), 1),
      Sender(Measuring(Pos(1, 0)), 2),
      [Record(0, 0, 7, "", 4, 1),
       Record(0, 5, 8, "x", 4, 0),
       Record(1, 0, 9, "", 4, 1)],
      2, 2, 0)
  }

  predicate AfterNextLapPassed(s: State) {
    Shape(s, Pos(1, 5), Pos(1, 5), 11, Polling,
      Sender(Marked(5, None), 1),
      Sender(Idle, 2),
      [Record(0, 0, 7, "", 4, 1),
       Record(0, 5, 8, "x", 4, 0),
       Record(1, 0, 9, "", 4, 1)],
      3, 2, 0)
  }

  predicate AfterReceiverJumps(s: State) {
    Shape(s, Pos(1, 5), Pos(1, 5), 0, Holding,
      Sender(Marked(5, None), 1),
      Sender(Idle, 2),
      [Record(0, 0, 7, "", 4, 1),
       Record(0, 5, 8, "x", 4, 0),
       Record(1, 0, 9, "", 4, 1)],
      3, 2, 1)
  }

  predicate AfterThirdConsumed(s: State) {
    Shape(s, Pos(1, 5), Pos(1, 5), 5, Polling,
      Sender(Marked(5, None), 1),
      Sender(Idle, 2),
      [Record(0, 0, 7, "", 4, 1),
       Record(0, 5, 8, "x", 4, 0),
       Record(1, 0, 9, "", 4, 1)],
      3, 3, 1)
  }

  predicate AfterPlaceReused(s: State) {
    Shape(s, Pos(1, 5), Pos(1, 10), 5, Polling,
      Sender(Marked(5, None), 1),
      Sender(Filling(5, None, 10, "", 0), 3),
      [Record(0, 0, 7, "", 4, 1),
       Record(0, 5, 8, "x", 4, 0),
       Record(1, 0, 9, "", 4, 1),
       Record(1, 5, 10, "", 0, 1)],
      3, 3, 1)
  }

  predicate AfterHalfWritten(s: State) {
    Shape(s, Pos(1, 5), Pos(1, 10), 5, Polling,
      Sender(Marked(5, None), 1),
      Sender(Filling(5, None, 10, "", 2), 3),
      [Record(0, 0, 7, "", 4, 1),
       Record(0, 5, 8, "x", 4, 0),
       Record(1, 0, 9, "", 4, 1),
       Record(1, 5, 10, "", 2, 1)],
      3, 3, 1)
  }

  /** Sender 1 reserves. */
  lemma FirstReserves(s: State) returns (t: State)
    requires Good(s) && s == InitState(C, 2)
    ensures Good(t) && AfterFirstReserves(t)
  {
    t := Go(s, LoadTo(1, 7, ""));
    t := Go(t, LoadRecv(1));
    t := Go(t, CasTo(1));
  }

  /** Sender 0 reserves behind it. */
  lemma SecondReserves(s: State) returns (t: State)
    requires Good(s) && AfterFirstReserves(s)
    ensures Good(t) && AfterSecondReserves(t)
  {
    t := Go(s, LoadTo(0, 8, "x"));
    t := Go(t, LoadRecv(0));
    t := Go(t, CasTo(0));
  }

  /** Sender 0 writes header and size. */
  lemma SecondFills(s: State) returns (t: State)
    requires Good(s) && AfterSecondReserves(s)
    ensures Good(t) && AfterSecondFills(t)
  {
    t := Go(s, PutHeader(0));
    t := Go(t, PutSize(0));
  }

  /** It writes the content, marks the message ready, and is then delayed before line 323. */
  lemma SecondReady(s: State) returns (t: State)
    requires Good(s) && AfterSecondFills(s)
    ensures Good(t) && AfterSecondReady(t)
  {
    t := Go(s, PutContent(0));
    t := Go(t, PutReady(0));
  }

  /** Sender 1 writes header and size. */
  lemma FirstFills(s: State) returns (t: State)
    requires Good(s) && AfterSecondReady(s)
    ensures Good(t) && AfterFirstFills(t)
  {
    t := Go(s, PutHeader(1));
    t := Go(t, PutSize(1));
  }

  /** It writes the content and marks the message ready. */
  lemma FirstReady(s: State) returns (t: State)
    requires Good(s) && AfterFirstFills(s)
    ensures Good(t) && AfterFirstReady(t)
  {
    t := Go(s, PutContent(1));
    t := Go(t, PutReady(1));
  }

  /** Sender 1 advances over its own message. */
  lemma FirstPassed(s: State) returns (t: State)
    requires Good(s) && AfterFirstReady(s)
    ensures Good(t) && AfterFirstPassed(t)
  {
    t := Go(s, LoadFrom(1));
    WordReads(t, 0);
    t := Go(t, Measure(1, 2147483648));
    t := Go(t, CasFrom(1));
  }

  /** It finds the one behind it ready. */
  lemma FoundReady(s: State) returns (t: State)
    requires Good(s) && AfterFirstPassed(s)
    ensures Good(t) && AfterFoundReady(t)
  {
    t := Go(s, CheckTo(1));
    WordReads(t, 1);
    t := Go(t, Probe(1, 2147483649));
  }

  /** It advances over that one too. */
  lemma SecondPassed(s: State) returns (t: State)
    requires Good(s) && AfterFoundReady(s)
    ensures Good(t) && AfterSecondPassed(t)
  {
    WordReads(s, 1);
    t := Go(s, Measure(1, 2147483649));
    t := Go(t, CasFrom(1));
    t := Go(t, CheckTo(1));
  }

  /** The receiver consumes the message of sender 1. */
  lemma FirstConsumed(s: State) returns (t: State)
    requires Good(s) && AfterSecondPassed(s)
    ensures Good(t) && AfterFirstConsumed(t)
  {
    t := Go(s, RecvLoad);
    WordReads(t, 0);
    t := Go(t, RecvDecide(2147483648));
    HeldReads(t);
    t := Go(t, RecvPublish);
    t := Go(t, RecvClear);
  }

  /** The receiver consumes the message of sender 0. */
  lemma SecondConsumed(s: State) returns (t: State)
    requires Good(s) && AfterFirstConsumed(s)
    ensures Good(t) && AfterSecondConsumed(t)
  {
    t := Go(s, RecvLoad);
    WordReads(t, 1);
    t := Go(t, RecvDecide(2147483649));
    HeldReads(t);
    t := Go(t, RecvPublish);
    t := Go(t, RecvClear);
  }

  /** Sender 1 reserves at the start of the next lap. */
  lemma NextLap(s: State) returns (t: State)
    requires Good(s) && AfterSecondConsumed(s)
    ensures Good(t) && AfterNextLap(t)
  {
    t := Go(s, LoadTo(1, 9, ""));
    t := Go(t, LoadRecv(1));
    t := Go(t, CasTo(1));
  }

  /** It writes header and size. */
  lemma NextLapFilled(s: State) returns (t: State)
    requires Good(s) && AfterNextLap(s)
    ensures Good(t) && AfterNextLapFilled(t)
  {
    t := Go(s, PutHeader(1));
    t := Go(t, PutSize(1));
  }

  /** It writes the content and marks the message ready. */
  lemma NextLapReady(s: State) returns (t: State)
    requires Good(s) && AfterNextLapFilled(s)
    ensures Good(t) && AfterNextLapReady(t)
  {
    t := Go(s, PutContent(1));
    t := Go(t, PutReady(1));
  }

  /** It stores sender_pace_from_. */
  lemma NextLapEntered(s: State) returns (t: State)
    requires Good(s) && AfterNextLapReady(s)
    ensures Good(t) && AfterNextLapEntered(t)
  {
    t := Go(s, LoadFrom(1));
    t := Go(t, Spin(1));
    t := Go(t, StoreFrom(1));
  }

  /** It advances over its message. */
  lemma NextLapPassed(s: State) returns (t: State)
    requires Good(s) && AfterNextLapEntered(s)
    ensures Good(t) && AfterNextLapPassed(t)
  {
    WordReads(s, 2);
    t := Go(s, Measure(1, 2147483648));
    t := Go(t, CasFrom(1));
    t := Go(t, CheckTo(1));
  }

  /** The receiver jumps to the start. */
  lemma ReceiverJumps(s: State) returns (t: State)
    requires Good(s) && AfterNextLapPassed(s)
    ensures Good(t) && AfterReceiverJumps(t)
  {
    t := Go(s, RecvLoad);
    MemorySize(t);
    t := Go(t, RecvDecide(4294967295));
    t := Go(t, RecvRewind);
  }

  /** It consumes the message there. */
  lemma ThirdConsumed(s: State) returns (t: State)
    requires Good(s) && AfterReceiverJumps(s)
    ensures Good(t) && AfterThirdConsumed(t)
  {
    HeldReads(s);
    t := Go(s, RecvPublish);
    t := Go(t, RecvClear);
  }

  /** Sender 1 reserves the place of sender 0's old message. */
  lemma PlaceReused(s: State) returns (t: State)
    requires Good(s) && AfterThirdConsumed(s)
    ensures Good(t) && AfterPlaceReused(t)
  {
    t := Go(s, LoadTo(1, 10, ""));
    t := Go(t, LoadRecv(1));
    t := Go(t, CasTo(1));
  }

  /** It writes header and size. */
  lemma HalfWritten(s: State) returns (t: State)
    requires Good(s) && AfterPlaceReused(s)
    ensures Good(t) && AfterHalfWritten(t)
  {
    t := Go(s, PutHeader(1));
    t := Go(t, PutSize(1));
  }

  /** Sender 0 resumes, takes the place for its own, and advances over the unfinished message. */
  lemma StaleAdvance(s: State) returns (t: State)
    requires Good(s) && AfterHalfWritten(s)
    ensures Possible(t) && t.from == Pos(1, 10) && t.hist == s.hist.(passed := 4)
    ensures t.recv == s.recv && t.receiver == s.receiver
  {
    t := Go(s, LoadFrom(0));
    WordReads(t, 3);
    GoodIsPossible(t);
    t := Extend(t, Measure(0, 0));
    t := Extend(t, CasFrom(0));
  }

  /** The receiver polls. */
  lemma PolledAgain(s: State) returns (t: State)
    requires Possible(s) && s.receiver.Polling? && s.recv < s.from.off
    ensures Possible(t) && t.receiver.Holding? && t.recv == s.recv && t.hist == s.hist.(seen := s.hist.passed)
  {
    t := Extend(s, RecvLoad);
    var word := SomeWord(C, t.mem, t.recv);
    t := Extend(t, RecvDecide(word));
  }

  /** sender_pace_from_ has passed a message that is not ready, and the client holds it, unfinished. */
  lemma UnfinishedMessageHandedOut()
    ensures ValidConfig(C)
    ensures exists t :: Possible(t)
              && t.hist.passed == 4 == |t.hist.log| && t.hist.log[3].stage == 2
              && t.receiver.Holding? && t.hist.consumed == 3 && t.recv == t.hist.log[3].start
  {
    hide Good, Possible;
    var t := Begin();
    t := FirstReserves(t);
    t := SecondReserves(t);
    t := SecondFills(t);
    t := SecondReady(t);
    t := FirstFills(t);
    t := FirstReady(t);
    t := FirstPassed(t);
    t := FoundReady(t);
    t := SecondPassed(t);
    t := FirstConsumed(t);
    t := SecondConsumed(t);
    t := NextLap(t);
    t := NextLapFilled(t);
    t := NextLapReady(t);
    t := NextLapEntered(t);
    t := NextLapPassed(t);
    t := ReceiverJumps(t);
    t := ThirdConsumed(t);
    t := PlaceReused(t);
    t := HalfWritten(t);
    t := StaleAdvance(t);
    t := PolledAgain(t);
  }

  // ----- A reserved message is about to be blanked -----

  predicate AfterOneReserved(s: State) {
    Shape(s, Pos(0, 0), Pos(0, 6), 0, Polling,
      Sender(Filling(0, None, 7, "x", 0), 0),
      Sender(Idle, 0),
      [Record(0, 0, 7, "x", 0, 0)],
      0, 0, 0)
  }

  predicate AfterOneFilled(s: State) {
    Shape(s, Pos(0, 0), Pos(0, 6), 0, Polling,
      Sender(Filling(0, None, 7, "x", 2), 0),
      Sender(Idle, 0),
      [Record(0, 0, 7, "x", 2, 0)],
      0, 0, 0)
  }

  predicate AfterOneReady(s: State) {
    Shape(s, Pos(0, 0), Pos(0, 6), 0, Polling,
      Sender(Marked(0, None), 0),
      Sender(Idle, 0),
      [Record(0, 0, 7, "x", 4, 0)],
      0, 0, 0)
  }

  predicate AfterOneOpened(s: State) {
    Shape(s, Pos(0, 6), Pos(0, 6), 0, Polling,
      Sender(Idle, 0),
      Sender(Idle, 0),
      [Record(0, 0, 7, "x", 4, 0)],
      1, 0, 0)
  }

  predicate AfterTwoReserved(s: State) {
    Shape(s, Pos(0, 6), Pos(0, 11), 0, Polling,
      Sender(Filling(6, None, 8, "", 0), 1),
      Sender(Idle, 0),
      [Record(0, 0, 7, "x", 4, 0),
       Record(0, 6, 8, "", 0, 0)],
      1, 0, 0)
  }

  predicate AfterOneHeld(s: State) {
    Shape(s, Pos(0, 6), Pos(0, 11), 0, Holding,
      Sender(Filling(6, None, 8, "", 0), 1),
      Sender(Idle, 0),
      [Record(0, 0, 7, "x", 4, 0),
       Record(0, 6, 8, "", 0, 0)],
      1, 0, 0)
  }

  predicate AfterOneReleased(s: State) {
    Shape(s, Pos(0, 6), Pos(0, 11), 6, Clearing(0),
      Sender(Filling(6, None, 8, "", 0), 1),
      Sender(Idle, 0),
      [Record(0, 0, 7, "x", 4, 0),
       Record(0, 6, 8, "", 0, 0)],
      1, 1, 0)
  }

  predicate AfterLoaded(s: State) {
    Shape(s, Pos(0, 6), Pos(0, 11), 6, Clearing(0),
      Sender(Filling(6, None, 8, "", 0), 1),
      Sender(LoadedRecv(9, "", Pos(0, 11), 6), 0),
      [Record(0, 0, 7, "x", 4, 0),
       Record(0, 6, 8, "", 0, 0)],
      1, 1, 0)
  }

  /** Sender 0 reserves at the start. */
  lemma OneReserved(s: State) returns (t: State)
    requires Good(s) && s == InitState(C, 2)
    ensures Good(t) && AfterOneReserved(t)
  {
    t := Go(s, LoadTo(0, 7, "x"));
    t := Go(t, LoadRecv(0));
    t := Go(t, CasTo(0));
  }

  /** It writes header and size. */
  lemma OneFilled(s: State) returns (t: State)
    requires Good(s) && AfterOneReserved(s)
    ensures Good(t) && AfterOneFilled(t)
  {
    t := Go(s, PutHeader(0));
    t := Go(t, PutSize(0));
  }

  /** It writes the content and marks the message ready. */
  lemma OneReady(s: State) returns (t: State)
    requires Good(s) && AfterOneFilled(s)
    ensures Good(t) && AfterOneReady(t)
  {
    t := Go(s, PutContent(0));
    t := Go(t, PutReady(0));
  }

  /** It advances over its message. */
  lemma OneOpened(s: State) returns (t: State)
    requires Good(s) && AfterOneReady(s)
    ensures Good(t) && AfterOneOpened(t)
  {
    hide Good;
    t := Go(s, LoadFrom(0));
    WordReads(t, 0);
    t := Go(t, Measure(0, 2147483649));
    t := Go(t, CasFrom(0));
    t := Go(t, CheckTo(0));
  }

  /** It reserves behind it. */
  lemma TwoReserved(s: State) returns (t: State)
    requires Good(s) && AfterOneOpened(s)
    ensures Good(t) && AfterTwoReserved(t)
  {
    hide Good;
    t := Go(s, LoadTo(0, 8, ""));
    t := Go(t, LoadRecv(0));
    t := Go(t, CasTo(0));
  }

  /** The receiver is handed the first message. */
  lemma OneHeld(s: State) returns (t: State)
    requires Good(s) && AfterTwoReserved(s)
    ensures Good(t) && AfterOneHeld(t)
  {
    t := Go(s, RecvLoad);
    WordReads(t, 0);
    t := Go(t, RecvDecide(2147483649));
  }

  /** It publishes its new pace; the message is not blanked yet. */
  lemma OneReleased(s: State) returns (t: State)
    requires Good(s) && AfterOneHeld(s)
    ensures Good(t) && AfterOneReleased(t)
  {
    HeldReads(s);
    t := Go(s, RecvPublish);
  }

  /** Sender 1 loads the paces. */
  lemma Loaded(s: State) returns (t: State)
    requires Good(s) && AfterOneReleased(s)
    ensures Good(t) && AfterLoaded(t)
  {
    t := Go(s, LoadTo(1, 9, ""));
    t := Go(t, LoadRecv(1));
  }

  /** The reservation sender 1 is about to make takes bytes that the receiver has yet to blank. */
  lemma ReservationOverBytesToBlank()
    ensures exists s :: Good(s) && Enabled(C, s, CasTo(1)) && !TimelyReserve(C, s, 1)
  {
    hide Good;
    var t := Begin();
    t := OneReserved(t);
    t := OneFilled(t);
    t := OneReady(t);
    t := OneOpened(t);
    t := TwoReserved(t);
    t := OneHeld(t);
    t := OneReleased(t);
    t := Loaded(t);
    assert Reservation(C, Pos(0, 11), 6, 5) == Some((0, Pos(1, 5)));
    assert !TimelyReserve(C, t, 1);
  }

  /** A message reserved there can be marked ready and then blanked. */
  lemma ReadyMessageBlanked()
    ensures exists t :: Possible(t) && |t.hist.log| > 0
              && var r := t.hist.log[|t.hist.log| - 1]; r.stage == 4 && !Holds(C, t.mem, r)
  {
    hide Good, Run, TimelyReserve, Holds, Reachable, Possible;
    ReservationOverBytesToBlank();
    var s :| Good(s) && Enabled(C, s, CasTo(1)) && !TimelyReserve(C, s, 1);
    GoodIsReachable(s);
    UntimelyReserveLosesBytes(C, s, 1);
    var actions, t :| Run(C, s, actions, t) && |t.hist.log| == |s.hist.log| + 1
                      && t.hist.log[|s.hist.log|].stage == 4 && !Holds(C, t.mem, t.hist.log[|s.hist.log|]);
    GoodIsPossible(s);
    StillPossible(s, actions, t);
  }

  lemma GoodIsReachable(s: State)
    requires Good(s)
    ensures Reachable(C, s)
  {
    var actions :| TimelyRun(C, InitState(C, 2), actions, s);
  }

  lemma StillPossible(s: State, actions: seq<Action>, t: State)
    requires Possible(s) && Run(C, s, actions, t)
    ensures Possible(t)
  {
    var prefix :| Run(C, InitState(C, 2), prefix, s);
    RunJoin(C, InitState(C, 2), prefix, s, actions, t);
  }
}
