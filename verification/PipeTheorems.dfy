/** What the pipe guarantees over whole runs, and the exact point where it stops doing so. */
module PipeTheorems {
  import opened PipeModel
  import opened PipeInvariant
  import opened PipePositions
  import opened PipeSenderProof
  import opened PipeFillProof
  import opened PipeReserveProof
  import opened PipeAdvanceProof
  import opened PipeReceiverProof

  lemma InitHolds(c: Config, numSenders: nat)
    ensures Inv(c, InitState(c, numSenders))
  {
  }

  lemma SenderStep(c: Config, s: State, a: Action)
    requires ValidConfig(c) && Inv(c, s) && Enabled(c, s, a) && Timely(c, s, a)
    requires !a.RecvLoad? && !a.RecvDecide? && !a.RecvRewind? && !a.RecvPublish? && !a.RecvClear?
    ensures Inv(c, Apply(c, s, a))
  {
    match a
    case LoadTo(i, header, content) => LoadToKeeps(c, s, i, header, content);
    case LoadRecv(i) => LoadRecvKeeps(c, s, i);
    case CasTo(i) => CasToKeeps(c, s, i);
    case PutHeader(i) => PutHeaderKeeps(c, s, i);
    case PutSize(i) => PutSizeKeeps(c, s, i);
    case PutContent(i) => PutContentKeeps(c, s, i);
    case PutReady(i) => PutReadyKeeps(c, s, i);
    case LoadFrom(i) => LoadFromKeeps(c, s, i);
    case Spin(i) => SpinKeeps(c, s, i);
    case StoreFrom(i) => StoreFromKeeps(c, s, i);
    case Measure(i, word) => MeasureKeeps(c, s, i, word);
    case CasFrom(i) => CasFromKeeps(c, s, i);
    case CheckTo(i) => CheckToKeeps(c, s, i);
    case Probe(i, word) => ProbeKeeps(c, s, i, word);
  }

  lemma ReceiverStep(c: Config, s: State, a: Action)
    requires ValidConfig(c) && Inv(c, s) && Enabled(c, s, a)
    requires a.RecvLoad? || a.RecvDecide? || a.RecvRewind? || a.RecvPublish? || a.RecvClear?
    ensures Inv(c, Apply(c, s, a))
  {
    match a
    case RecvLoad => RecvLoadKeeps(c, s);
    case RecvDecide(word) => RecvDecideKeeps(c, s, word);
    case RecvRewind => RecvRewindKeeps(c, s);
    case RecvPublish => RecvPublishKeeps(c, s);
    case RecvClear => RecvClearKeeps(c, s);
  }

  /** Of all actions possible in a good state, exactly the timely ones lead to a good state. */
  lemma StepIffTimely(c: Config, s: State, a: Action)
    requires ValidConfig(c) && Inv(c, s) && Enabled(c, s, a)
    ensures Inv(c, Apply(c, s, a)) <==> Timely(c, s, a)
  {
    if Timely(c, s, a) {
      if a.RecvLoad? || a.RecvDecide? || a.RecvRewind? || a.RecvPublish? || a.RecvClear? {
        ReceiverStep(c, s, a);
      } else {
        SenderStep(c, s, a);
      }
    } else {
      match a
      case Measure(i, word) => UntimelyMeasureBreaks(c, s, i, word);
      case CasTo(i) => UntimelyReserveBreaks(c, s, i);
    }
  }

  // ----- Runs -----

  /** The actions, one after the other, lead from s to t. */
  ghost predicate Run(c: Config, s: State, actions: seq<Action>, t: State)
    decreases |actions|
  {
    if actions == [] then s == t
    else Enabled(c, s, actions[0]) && Run(c, Apply(c, s, actions[0]), actions[1..], t)
  }

  /** A run of timely actions only. */
  ghost predicate TimelyRun(c: Config, s: State, actions: seq<Action>, t: State)
    decreases |actions|
  {
    if actions == [] then s == t
    else
      && Enabled(c, s, actions[0]) && Timely(c, s, actions[0])
      && TimelyRun(c, Apply(c, s, actions[0]), actions[1..], t)
  }

  ghost predicate Reachable(c: Config, t: State) {
    exists numSenders: nat, actions :: TimelyRun(c, InitState(c, numSenders), actions, t)
  }

  lemma {:induction false} TimelyRunStep(c: Config, s: State, actions: seq<Action>, t: State, a: Action)
    requires TimelyRun(c, s, actions, t) && Enabled(c, t, a) && Timely(c, t, a)
    ensures TimelyRun(c, s, actions + [a], Apply(c, t, a))
    decreases |actions|
  {
    if actions == [] {
      assert TimelyRun(c, Apply(c, t, a), [a][1..], Apply(c, t, a));
    } else {
      TimelyRunStep(c, Apply(c, s, actions[0]), actions[1..], t, a);
      assert (actions + [a])[1..] == actions[1..] + [a];
    }
  }

  lemma {:induction false} TimelyRunIsRun(c: Config, s: State, actions: seq<Action>, t: State)
    requires TimelyRun(c, s, actions, t)
    ensures Run(c, s, actions, t)
    decreases |actions|
  {
    if actions != [] { TimelyRunIsRun(c, Apply(c, s, actions[0]), actions[1..], t); }
  }

  lemma {:induction false} RunKeeps(c: Config, s: State, actions: seq<Action>, t: State)
    requires ValidConfig(c) && Inv(c, s) && TimelyRun(c, s, actions, t)
    ensures Inv(c, t)
    decreases |actions|
  {
    if actions != [] {
      StepIffTimely(c, s, actions[0]);
      RunKeeps(c, Apply(c, s, actions[0]), actions[1..], t);
    }
  }

  /** The invariant holds at the state and at every state the actions lead to. */
  ghost predicate InvAlong(c: Config, s: State, actions: seq<Action>)
    decreases |actions|
  {
    Inv(c, s) && (actions != [] ==> Enabled(c, s, actions[0]) && InvAlong(c, Apply(c, s, actions[0]), actions[1..]))
  }

  /** A run keeps the invariant at every state if and only if all its actions are timely. */
  lemma {:induction false} RunIffTimely(c: Config, s: State, actions: seq<Action>, t: State)
    requires ValidConfig(c) && Inv(c, s) && Run(c, s, actions, t)
    ensures InvAlong(c, s, actions) <==> TimelyRun(c, s, actions, t)
    decreases |actions|
  {
    if actions != [] {
      var u := Apply(c, s, actions[0]);
      assert Run(c, u, actions[1..], t);
      StepIffTimely(c, s, actions[0]);
      if Inv(c, u) { RunIffTimely(c, u, actions[1..], t); }
    }
  }

  lemma ReachableInv(c: Config, t: State)
    requires ValidConfig(c) && Reachable(c, t)
    ensures Inv(c, t)
  {
    var numSenders, actions :| TimelyRun(c, InitState(c, numSenders), actions, t);
    InitHolds(c, numSenders);
    RunKeeps(c, InitState(c, numSenders), actions, t);
  }

  // ----- FIFO, exactly once, unaltered -----

  /** Header and content of every message, in order of reservation. */
  function Sent(h: History): seq<(int, string)> {
    seq(|h.log|, j requires 0 <= j < |h.log| => (h.log[j].header, h.log[j].content))
  }

  function Images(c: Config, messages: seq<(int, string)>): seq<seq<Cell>> {
    seq(|messages|, j requires 0 <= j < |messages| => Image(c, messages[j].0, messages[j].1))
  }

  /** The receiver has been given the messages in order of reservation, each exactly once, byte for byte. */
  lemma FifoExactlyOnce(c: Config, s: State)
    requires ValidConfig(c) && Reachable(c, s)
    ensures s.hist.delivered <= Images(c, Sent(s.hist))
  {
    ReachableInv(c, s);
    assert s.hist.delivered == Images(c, Sent(s.hist))[..|s.hist.delivered|];
  }

  /** The bytes of a message determine its header and its content. */
  lemma ImageDetermines(c: Config, header: int, content: string, header': int, content': string)
    requires ValidConfig(c) && Image(c, header, content) == Image(c, header', content')
    ensures header == header' && content == content'
  {
    var a, b := Image(c, header, content), Image(c, header', content');
    assert a[0] == HeaderByte(header, 0) && b[0] == HeaderByte(header', 0);
    assert |content| == |content'|;
    forall k | 0 <= k < |content| ensures content[k] == content'[k] {
      assert a[MsgOffset(c) + k] == ContentByte(content[k]);
      assert b[MsgOffset(c) + k] == ContentByte(content'[k]);
    }
  }

  /** The sequence of sent messages only grows, and only by a successful reservation, with the header and
      content the sender was called with. */
  lemma SentGrows(c: Config, s: State, a: Action)
    requires Enabled(c, s, a)
    ensures var t := Apply(c, s, a);
            if a.CasTo? && t.to != s.to
            then Sent(t.hist) == Sent(s.hist) + [(s.senders[a.i].pc.header, s.senders[a.i].pc.content)]
            else Sent(t.hist) == Sent(s.hist)
  {
  }

  /** So it only grows over a run: no message is taken back. */
  lemma {:induction false} SentGrowsAlong(c: Config, s: State, actions: seq<Action>, t: State)
    requires Run(c, s, actions, t)
    ensures Sent(s.hist) <= Sent(t.hist)
    decreases |actions|
  {
    if actions != [] {
      SentGrows(c, s, actions[0]);
      SentGrowsAlong(c, Apply(c, s, actions[0]), actions[1..], t);
    }
  }

  /** Whatever the client is handed is a complete message: its bytes in the buffer are its image. */
  lemma HandedOutComplete(c: Config, s: State)
    requires ValidConfig(c) && Reachable(c, s) && s.receiver.Holding?
    ensures s.hist.consumed < |s.hist.log|
    ensures var r := s.hist.log[s.hist.consumed];
            s.recv + Len(c, r) <= |s.mem| && s.mem[s.recv .. s.recv + Len(c, r)] == Image(c, r.header, r.content)
  {
    ReachableInv(c, s);
    HeldMessage(c, s);
  }

  // ----- Ring order -----

  /** receiver <= from <= to in unrolled order and within one lap; reserved messages that are not consumed
      lie inside the buffer, behind one another between receiver and to, on disjoint bytes; all else is blank. */
  lemma RingOrder(c: Config, s: State)
    requires ValidConfig(c) && Reachable(c, s)
    ensures Le(RecvPos(s.recv, s.hist), s.from) && Le(s.from, s.to) && WithinALap(s.to, RecvPos(s.recv, s.hist))
    ensures forall j :: s.hist.consumed <= j < |s.hist.log| ==>
              && s.hist.log[j].start + Len(c, s.hist.log[j]) <= c.size && Follows(c, s.hist.log, j)
              && Le(RecvPos(s.recv, s.hist), StartPos(s.hist.log[j])) && Le(EndPos(c, s.hist.log[j]), s.to)
    ensures forall j, k :: s.hist.consumed <= j < k < |s.hist.log| ==>
              && Le(EndPos(c, s.hist.log[j]), StartPos(s.hist.log[k]))
              && Apart(s.hist.log[j].start, s.hist.log[j].start + Len(c, s.hist.log[j]),
                       s.hist.log[k].start, s.hist.log[k].start + Len(c, s.hist.log[k]))
    ensures !s.receiver.Clearing? ==>
              forall x :: 0 <= x < |s.mem| && !Covered(c, s.hist.log, s.hist.consumed, x) ==> s.mem[x] == Blank
  {
    hide SendersOk, DeliveredOk, StagesOk, ObligationsOk, ReceiverOk, Reachable;
    ReachableInv(c, s);
    var h := s.hist;
    ToOrder(c, s.from, s.to, s.recv, h);
    forall j | h.consumed <= j < |h.log|
      ensures h.log[j].start + Len(c, h.log[j]) <= c.size && Follows(c, h.log, j)
      ensures Le(RecvPos(s.recv, h), StartPos(h.log[j])) && Le(EndPos(c, h.log[j]), s.to)
    {
      assert Fits(c, h.log[j]);
      RecvOrder(c, s.recv, h, j);
      EndOrder(c, h.log, j, |h.log|);
    }
    forall j, k | h.consumed <= j < k < |h.log|
      ensures Le(EndPos(c, h.log[j]), StartPos(h.log[k]))
      ensures Apart(h.log[j].start, h.log[j].start + Len(c, h.log[j]), h.log[k].start, h.log[k].start + Len(c,
                h.log[k]))
    {
      EndOrder(c, h.log, j, k);
      EndOrder(c, h.log, k, k + 1);
      LiveApart(c, s.from, s.to, s.recv, h, j, k);
    }
  }

  // ----- Advancing sender_pace_from_ -----

  /** Only the CAS and the rewinding store move sender_pace_from_. */
  lemma FromStays(c: Config, s: State, a: Action)
    requires Enabled(c, s, a) && !a.CasFrom? && !a.StoreFrom?
    ensures Apply(c, s, a).from == s.from
  {
  }

  /** However late the CAS comes: if it succeeds, it moves sender_pace_from_ forward over exactly one message,
      which is ready. */
  lemma CasFromAdvances(c: Config, s: State, i: nat)
    requires ValidConfig(c) && Reachable(c, s) && Enabled(c, s, CasFrom(i)) && ApplyCasFrom(s, i).from != s.from
    ensures var t := ApplyCasFrom(s, i);
            && Lt(s.from, t.from)
            && AtReady(s.from, s.hist) && t.from == EndPos(c, s.hist.log[s.hist.passed])
                  && t.hist.passed == s.hist.passed + 1
  {
    ReachableInv(c, s);
    assert SenderOk(c, s.from, s.to, s.recv, s.hist, i, s.senders[i]);
  }

  /** The store moves it forward from behind the last message of the lap to a ready message in the next. */
  lemma StoreFromAdvances(c: Config, s: State, i: nat)
    requires ValidConfig(c) && Reachable(c, s) && Enabled(c, s, StoreFrom(i))
    ensures var t := ApplyStoreFrom(s, i);
            && Lt(s.from, t.from) && s.hist.passed <= |s.hist.log| && s.from == EndAt(c, s.hist.log, s.hist.passed)
            && AtReady(t.from, t.hist) && t.hist.passed == s.hist.passed
  {
    ReachableInv(c, s);
    RewindFacts(c, s, i);
  }

  /** Over a run sender_pace_from_ never moves back; where it has not moved it has passed nothing. */
  lemma {:induction false} FromOnlyAdvances(c: Config, s: State, actions: seq<Action>, t: State)
    requires ValidConfig(c) && Inv(c, s) && TimelyRun(c, s, actions, t)
    ensures Le(s.from, t.from) && (t.from == s.from ==> t.hist.passed == s.hist.passed)
    decreases |actions|
  {
    if actions != [] {
      FromAdvancesOrStays(c, s, actions[0]);
      StepIffTimely(c, s, actions[0]);
      FromOnlyAdvances(c, Apply(c, s, actions[0]), actions[1..], t);
    }
  }

  lemma FromAdvancesOrStays(c: Config, s: State, a: Action)
    requires ValidConfig(c) && Inv(c, s) && Enabled(c, s, a)
    ensures var t := Apply(c, s, a);
            Lt(s.from, t.from) || (t.from == s.from && t.hist.passed == s.hist.passed)
  {
    hide MemoryOk, DeliveredOk, StagesOk, ObligationsOk, ReceiverOk;
    if a.CasFrom? || a.StoreFrom? {
      assert SenderOk(c, s.from, s.to, s.recv, s.hist, a.i, s.senders[a.i]);
      if a.StoreFrom? { RewindFacts(c, s, a.i); }
    } else {
      FromStays(c, s, a);
    }
  }

  /** The sender is between its reservation and the end of JustSendMsg_. */
  predicate InFlight(snd: Sender) { !snd.pc.Idle? && !snd.pc.LoadedTo? && !snd.pc.LoadedRecv? }

  /** While sender_pace_from_ has not reached sender_pace_to_, some sender in flight is to move it: the
      writer of the next message, or, if that is ready, one that is about to advance over it. */
  lemma NoMessageStranded(c: Config, s: State)
    requires ValidConfig(c) && Reachable(c, s) && s.from != s.to
    ensures s.hist.passed < |s.hist.log|
    ensures exists i :: 0 <= i < |s.senders| && InFlight(s.senders[i])
              && if AtReady(s.from, s.hist) then Obliged(s.from, s.hist, s.senders[i])
                 else s.senders[i].mine == s.hist.passed && s.hist.log[s.hist.passed].owner == i
  {
    ReachableInv(c, s);
    ToOrder(c, s.from, s.to, s.recv, s.hist);
    var h := s.hist;
    if AtReady(s.from, h) {
      var w :| 0 <= w < |s.senders| && Obliged(s.from, h, s.senders[w]);
      assert InFlight(s.senders[w]);
    } else {
      assert StageOk(h, s.senders, h.passed) && PendingOk(s.from, h, s.senders, h.passed)
            && Follows(c, h.log, h.passed);
      var o := h.log[h.passed].owner;
      assert InFlight(s.senders[o]) && s.senders[o].mine == h.passed;
    }
  }

  /** Once no sender is in flight, every reserved message is open to the receiver. */
  lemma QuietMeansAllPassed(c: Config, s: State)
    requires ValidConfig(c) && Reachable(c, s)
    requires forall i :: 0 <= i < |s.senders| ==> !InFlight(s.senders[i])
    ensures s.from == s.to && s.hist.passed == |s.hist.log|
  {
    ReachableInv(c, s);
    ToOrder(c, s.from, s.to, s.recv, s.hist);
    if s.from != s.to { NoMessageStranded(c, s); }
  }

  // ----- What an untimely action does -----

  /** A size read at sender_pace_from_ that is not blank is followed by a CAS that succeeds at once; it passes
      a ready message if and only if the read was timely. */
  lemma MeasureDecidesAdvance(c: Config, s: State, i: nat, word: nat)
    requires ValidConfig(c) && Reachable(c, s) && Enabled(c, s, Measure(i, word))
    requires s.senders[i].pc.pace == s.from && word != BLANK_WORD
    ensures var t := ApplyMeasure(c, s, i, word);
            && Enabled(c, t, CasFrom(i))
            && ApplyCasFrom(t, i).from != s.from
            && (TimelyMeasure(s, i, word) <==>
                  AtReady(t.from, t.hist) && ApplyCasFrom(t, i).from == EndPos(c, t.hist.log[t.hist.passed]))
  {
    ReachableInv(c, s);
    TimelyMeansReady(c, s, i, word);
  }

  /** An untimely size read is made by a sender that compared offsets only: its own message, of an earlier
      lap, was passed for it before it loaded sender_pace_from_, and its place has come up again. */
  lemma UntimelyMeasureCause(c: Config, s: State, i: nat, word: nat)
    requires ValidConfig(c) && Reachable(c, s) && Enabled(c, s, Measure(i, word)) && !TimelyMeasure(s, i, word)
    ensures s.senders[i].mine < s.hist.passed <= |s.hist.log|
    ensures var r := s.hist.log[s.senders[i].mine];
            r.owner == i && r.start == s.from.off && r.lap < s.from.lap
  {
    ReachableInv(c, s);
    assert SenderOk(c, s.from, s.to, s.recv, s.hist, i, s.senders[i]);
    TimelyMeansReady(c, s, i, word);
    if AtGap(s.from, s.hist) { GapIsBlank(c, s, word); }
    FromOrder(c, s.from, s.hist, s.senders[i].mine);
  }

  /** The state after sender i has written its message and marked it ready. */
  function FillAll(c: Config, s: State, i: nat): State
    requires i < |s.senders| && s.senders[i].pc.Filling? && s.senders[i].pc.stage == 0
  {
    var s1 := Apply(c, s, PutHeader(i));
    var s2 := Apply(c, s1, PutSize(i));
    var s3 := Apply(c, s2, PutContent(i));
    Apply(c, s3, PutReady(i))
  }

  lemma FillAllRun(c: Config, s: State, i: nat)
    requires i < |s.senders| && s.senders[i].pc.Filling? && s.senders[i].pc.stage == 0
    requires s.senders[i].mine < |s.hist.log| && s.hist.log[s.senders[i].mine].stage == 0
    ensures var t := FillAll(c, s, i);
            var j := s.senders[i].mine;
            && Run(c, s, [PutHeader(i), PutSize(i), PutContent(i), PutReady(i)], t)
            && t.receiver == s.receiver && t.recv == s.recv && |t.mem| == |s.mem|
            && t.hist.log == s.hist.log[j := s.hist.log[j].(stage := 4)]
  {
    var s1 := Apply(c, s, PutHeader(i));
    var s2 := Apply(c, s1, PutSize(i));
    var s3 := Apply(c, s2, PutContent(i));
    var t := Apply(c, s3, PutReady(i));
    assert Run(c, t, [], t);
    assert Run(c, s3, [PutReady(i)], t);
    assert [PutContent(i), PutReady(i)][1..] == [PutReady(i)];
    assert Run(c, s2, [PutContent(i), PutReady(i)], t);
    assert [PutSize(i), PutContent(i), PutReady(i)][1..] == [PutContent(i), PutReady(i)];
    assert Run(c, s1, [PutSize(i), PutContent(i), PutReady(i)], t);
    assert [PutHeader(i), PutSize(i), PutContent(i), PutReady(i)][1..] == [PutSize(i), PutContent(i), PutReady(i)];
  }

  lemma {:induction false} RunJoin(c: Config, s: State, a: seq<Action>, t: State, b: seq<Action>, u: State)
    requires Run(c, s, a, t) && Run(c, t, b, u)
    ensures Run(c, s, a + b, u)
    decreases |a|
  {
    hide Enabled, Apply;
    if a == [] {
      assert a + b == b;
    } else {
      RunJoin(c, Apply(c, s, a[0]), a[1..], t, b, u);
      assert (a + b)[1..] == a[1..] + b;
    }
  }

  lemma RunOne(c: Config, s: State, a: Action)
    requires Enabled(c, s, a)
    ensures Run(c, s, [a], Apply(c, s, a))
  {
    assert Run(c, Apply(c, s, a), [a][1..], Apply(c, s, a));
  }

  /** An untimely reservation succeeds, at bytes the receiver has given back and not yet blanked. */
  lemma UntimelyReserveSucceeds(c: Config, s: State, i: nat)
    requires ValidConfig(c) && Inv(c, s) && Enabled(c, s, CasTo(i)) && !TimelyReserve(c, s, i)
    ensures var t := ApplyCasTo(c, s, i);
            var j := |s.hist.log|;
            && s.receiver.Clearing? && t.receiver == s.receiver && t.recv == s.recv <= |t.mem|
            && t.senders[i].pc.Filling? && t.senders[i].pc.stage == 0 && t.senders[i].mine == j
            && |t.hist.log| == j + 1 && t.hist.log[j].stage == 0
            && !Clear(c, t.hist.log[j], s.receiver.orig, s.recv)
  {
    var p := s.senders[i].pc;
    var (at, to) := Reservation(c, p.pace, p.recv, MsgOffset(c) + |p.content|).value;
    ToOrder(c, s.from, s.to, s.recv, s.hist);
  }

  /** After an untimely reservation the message can be filled, marked ready, and then lose bytes to the
      receiver's late blanking. */
  lemma UntimelyReserveLosesBytes(c: Config, s: State, i: nat)
    requires ValidConfig(c) && Reachable(c, s) && Enabled(c, s, CasTo(i)) && !TimelyReserve(c, s, i)
    ensures exists actions, t :: Run(c, s, actions, t)
              && |t.hist.log| == |s.hist.log| + 1
              && t.hist.log[|s.hist.log|].stage == 4 && !Holds(c, t.mem, t.hist.log[|s.hist.log|])
  {
    hide Inv, Run, Holds;
    ReachableInv(c, s);
    UntimelyReserveSucceeds(c, s, i);
    var s1 := Apply(c, s, CasTo(i));
    FillAllRun(c, s1, i);
    var s2 := FillAll(c, s1, i);
    var t := Apply(c, s2, RecvClear);
    RunAround(c, s, CasTo(i), [PutHeader(i), PutSize(i), PutContent(i), PutReady(i)], s2, RecvClear);
    BlankedBytesAreLost(c, s2, |s.hist.log|);
  }

  /** A run with one action before it and one behind. */
  lemma RunAround(c: Config, s: State, a: Action, actions: seq<Action>, t: State, b: Action)
    requires Enabled(c, s, a) && Run(c, Apply(c, s, a), actions, t) && Enabled(c, t, b)
    ensures Run(c, s, [a] + actions + [b], Apply(c, t, b))
  {
    hide Enabled, Apply, Run;
    RunOne(c, s, a);
    RunJoin(c, s, [a], Apply(c, s, a), actions, t);
    RunOne(c, t, b);
    RunJoin(c, s, [a] + actions, t, [b], Apply(c, t, b));
  }

  lemma BlankedBytesAreLost(c: Config, s: State, j: nat)
    requires s.receiver.Clearing? && s.recv <= |s.mem| && j < |s.hist.log| && s.hist.log[j].stage == 4
    requires !Clear(c, s.hist.log[j], s.receiver.orig, s.recv)
    ensures !Holds(c, Apply(c, s, RecvClear).mem, s.hist.log[j])
  {
    var r := s.hist.log[j];
    var x := if r.start < s.receiver.orig then s.receiver.orig else r.start;
    assert Apply(c, s, RecvClear).mem[x] == Blank;
    assert Inside(c, r, x) && CellOf(c, r, x - r.start) != Blank;
  }
}
