/** The pipe cannot lock up: from every reachable state the senders in flight and the receiver can finish. */
module PipeProgress {
  import opened Options
  import opened PipeModel
  import opened PipeInvariant
  import opened PipePositions
  import opened PipeSenderProof
  import opened PipeReceiverProof
  import opened PipeTheorems

  // ----- Runs, put together -----

  lemma TimelyOne(c: Config, s: State, a: Action)
    requires Enabled(c, s, a) && Timely(c, s, a)
    ensures TimelyRun(c, s, [a], Apply(c, s, a))
  {
    assert TimelyRun(c, Apply(c, s, a), [a][1..], Apply(c, s, a));
  }

  lemma {:induction false} TimelyJoin(c: Config, s: State, a: seq<Action>, t: State, b: seq<Action>, u: State)
    requires TimelyRun(c, s, a, t) && TimelyRun(c, t, b, u)
    ensures TimelyRun(c, s, a + b, u)
    decreases |a|
  {
    hide Enabled, Apply, Timely;
    if a == [] {
      assert a + b == b;
    } else {
      TimelyJoin(c, Apply(c, s, a[0]), a[1..], t, b, u);
      assert (a + b)[1..] == a[1..] + b;
    }
  }

  /** Some timely run leads from s to t. */
  ghost predicate Leads(c: Config, s: State, t: State) { exists actions :: TimelyRun(c, s, actions, t) }

  lemma LeadsNowhere(c: Config, s: State)
    ensures Leads(c, s, s)
  {
    assert TimelyRun(c, s, [], s);
  }

  /** One step and then others. */
  lemma LeadsOn(c: Config, s: State, a: Action, t: State)
    requires Enabled(c, s, a) && Timely(c, s, a) && Leads(c, Apply(c, s, a), t)
    ensures Leads(c, s, t)
  {
    TimelyOne(c, s, a);
    var b :| TimelyRun(c, Apply(c, s, a), b, t);
    TimelyJoin(c, s, [a], Apply(c, s, a), b, t);
  }

  lemma LeadsFar(c: Config, s: State, t: State, u: State)
    requires Leads(c, s, t) && Leads(c, t, u)
    ensures Leads(c, s, u)
  {
    var a :| TimelyRun(c, s, a, t);
    var b :| TimelyRun(c, t, b, u);
    TimelyJoin(c, s, a, t, b, u);
  }

  /** Something can always be read. */
  lemma SomeWord(c: Config, mem: seq<Cell>, at: nat) returns (word: nat)
    ensures Observes(c, mem, at, word)
  {
    var f := at + c.sizeOffset;
    word := if f + 4 <= |mem| && mem[f].SizeByte? then mem[f].word else BLANK_WORD;
    if word > BLANK_WORD && !Observes(c, mem, at, word) { word := 0; }
  }

  // ----- How far the senders are from the end -----

  function Early(pc: Pc): nat {
    match pc
    case LoadedTo(_, _, _) => 7
    case LoadedRecv(_, _, _, _) => 6
    case Filling(_, _, _, _, stage) => if stage < 4 then 5 - stage else 2
    case Marked(_, _) => 1
    case _ => 0
  }

  function Late(pc: Pc): nat {
    match pc
    case Waiting(_, _, _) => 7
    case Rewinding(_) => 6
    case Checking(_) => 5
    case Probing(_) => 4
    case Measuring(_) => 3
    case Passing(_, _) => 2
    case _ => 0
  }

  function Total(senders: seq<Sender>, late: bool): nat {
    if senders == [] then 0
    else
      var pc := senders[|senders| - 1].pc;
      Total(senders[..|senders| - 1], late) + if late then Late(pc) else Early(pc)
  }

  lemma {:induction false} TotalUpdate(senders: seq<Sender>, i: nat, snd: Sender, late: bool)
    requires i < |senders|
    ensures Total(senders[i := snd], late) + (if late then Late(senders[i].pc) else Early(senders[i].pc)) ==
            Total(senders, late) + if late then Late(snd.pc) else Early(snd.pc)
  {
    var n := |senders| - 1;
    if i < n {
      TotalUpdate(senders[..n], i, snd, late);
      assert senders[i := snd][..n] == senders[..n][i := snd];
    } else {
      assert senders[i := snd][..n] == senders[..n];
    }
  }

  /** Nearer to the end: less to reserve and fill, or else less to pass, or else less to do around it. */
  predicate Nearer(t: State, s: State) {
    var e, e' := Total(s.senders, false), Total(t.senders, false);
    var p, p' := |s.hist.log| - s.hist.passed, |t.hist.log| - t.hist.passed;
    e' < e || (e' == e && (p' < p || (p' == p && Total(t.senders, true) < Total(s.senders, true))))
  }

  /** A sender that has nothing to do, or waits for others. */
  predicate Blocked(s: State, i: nat)
    requires i < |s.senders|
  {
    match s.senders[i].pc
    case Idle => true
    case Waiting(_, rewind, _) => rewind != Some(s.from.off)
    case Measuring(pace) => pace == s.from && !AtReady(s.from, s.hist)
    case _ => false
  }

  /** The sender comes nearer to the end by the action. */
  predicate Helps(c: Config, s: State, i: nat, a: Action)
    requires i < |s.senders|
  {
    && Enabled(c, s, a)
    && var t := Apply(c, s, a);
       && |t.senders| == |s.senders| && t.senders == s.senders[i := t.senders[i]] && t.receiver == s.receiver
       && var was, pc := s.senders[i].pc, t.senders[i].pc;
          || Early(pc) < Early(was)
          || (Early(pc) == Early(was) && |t.hist.log| == |s.hist.log| &&
                if t.hist.passed == s.hist.passed then Late(pc) < Late(was) else t.hist.passed > s.hist.passed)
  }

  lemma ReserveHelps(c: Config, s: State, i: nat)
    requires !s.receiver.Clearing? && i < |s.senders| && s.senders[i].pc.LoadedRecv?
    ensures Helps(c, s, i, CasTo(i)) && Timely(c, s, CasTo(i))
  {}

  lemma FillStage(c: Config, s: State, i: nat)
    requires Inv(c, s) && i < |s.senders| && s.senders[i].pc.Filling?
    ensures s.senders[i].pc.stage < 4
  {
    assert SenderOk(c, s.from, s.to, s.recv, s.hist, i, s.senders[i]);
  }

  lemma FillHelps(c: Config, s: State, i: nat) returns (a: Action)
    requires i < |s.senders| && s.senders[i].pc.Filling? && s.senders[i].pc.stage < 4
    ensures Helps(c, s, i, a) && Timely(c, s, a)
  {
    var stage := s.senders[i].pc.stage;
    a := if stage == 0 then PutHeader(i) else if stage == 1 then PutSize(i)
         else if stage == 2 then PutContent(i) else PutReady(i);
  }

  lemma MeasureHelps(c: Config, s: State, i: nat) returns (a: Action)
    requires ValidConfig(c) && Inv(c, s) && i < |s.senders| && s.senders[i].pc.Measuring? && !Blocked(s, i)
    ensures Helps(c, s, i, a) && Timely(c, s, a)
  {
    var pace := s.senders[i].pc.pace;
    var word := SomeWord(c, s.mem, pace.off);
    if pace == s.from && word != BLANK_WORD { TimelyMeansReady(c, s, i, word); }
    a := Measure(i, word);
  }

  lemma PassHelps(c: Config, s: State, i: nat)
    requires Inv(c, s) && i < |s.senders| && s.senders[i].pc.Passing?
    ensures Helps(c, s, i, CasFrom(i)) && Timely(c, s, CasFrom(i))
  {
    assert SenderOk(c, s.from, s.to, s.recv, s.hist, i, s.senders[i]);
  }

  /** What a sender that is not blocked does next. */
  lemma NextAction(c: Config, s: State, i: nat) returns (a: Action)
    requires ValidConfig(c) && Inv(c, s) && !s.receiver.Clearing? && i < |s.senders| && !Blocked(s, i)
    ensures Helps(c, s, i, a) && Timely(c, s, a)
  {
    hide Inv, Observes;
    match s.senders[i].pc
    case LoadedTo(_, _, _) => a := LoadRecv(i);
    case LoadedRecv(_, _, _, _) => ReserveHelps(c, s, i); a := CasTo(i);
    case Filling(_, _, _, _, _) =>
      FillStage(c, s, i);
      a := FillHelps(c, s, i);
    case Marked(_, _) => a := LoadFrom(i);
    case Waiting(_, _, _) => a := Spin(i);
    case Rewinding(_) => a := StoreFrom(i);
    case Measuring(_) => a := MeasureHelps(c, s, i);
    case Passing(_, _) => PassHelps(c, s, i); a := CasFrom(i);
    case Checking(_) => a := CheckTo(i);
    case Probing(pace) =>
      var word := SomeWord(c, s.mem, pace.off);
      a := Probe(i, word);
  }

  lemma StepIsNearer(c: Config, s: State, i: nat) returns (a: Action)
    requires ValidConfig(c) && Inv(c, s) && !s.receiver.Clearing? && i < |s.senders| && !Blocked(s, i)
    ensures Enabled(c, s, a) && Timely(c, s, a) && Inv(c, Apply(c, s, a))
    ensures Apply(c, s, a).receiver == s.receiver && Nearer(Apply(c, s, a), s)
  {
    a := NextAction(c, s, i);
    StepIffTimely(c, s, a);
    var t := Apply(c, s, a);
    TotalUpdate(s.senders, i, t.senders[i], false);
    TotalUpdate(s.senders, i, t.senders[i], true);
  }

  ghost predicate Settled(s: State) { forall i :: 0 <= i < |s.senders| ==> Blocked(s, i) }

  lemma {:induction false} Settle(c: Config, s: State) returns (t: State)
    requires ValidConfig(c) && Inv(c, s) && !s.receiver.Clearing?
    ensures Leads(c, s, t) && Inv(c, t) && t.receiver == s.receiver && Settled(t)
    decreases Total(s.senders, false), |s.hist.log| - s.hist.passed, Total(s.senders, true)
  {
    if Settled(s) {
      LeadsNowhere(c, s);
      return s;
    }
    var i :| 0 <= i < |s.senders| && !Blocked(s, i);
    var a := StepIsNearer(c, s, i);
    t := Settle(c, Apply(c, s, a));
    LeadsOn(c, s, a, t);
  }

  /** When all senders are blocked, sender_pace_from_ has caught up, and nobody waits at line 328. */
  lemma SettledMeansCaughtUp(c: Config, s: State)
    requires Inv(c, s) && Settled(s)
    ensures s.from == s.to && s.hist.passed == |s.hist.log|
    ensures forall i :: 0 <= i < |s.senders| ==> s.senders[i].pc == Idle || s.senders[i].pc == Measuring(s.from)
  {
    ToOrder(c, s.from, s.to, s.recv, s.hist);
    if s.hist.passed < |s.hist.log| { SomebodyMoves(c, s); }
    forall i | 0 <= i < |s.senders| ensures s.senders[i].pc == Idle || s.senders[i].pc == Measuring(s.from) {
      assert Blocked(s, i) && SenderOk(c, s.from, s.to, s.recv, s.hist, i, s.senders[i]);
    }
  }

  /** While a message is not passed, some sender is not blocked. */
  lemma SomebodyMoves(c: Config, s: State)
    requires Inv(c, s) && s.hist.passed < |s.hist.log|
    ensures !Settled(s)
  {
    var h := s.hist;
    if AtReady(s.from, h) {
      var w :| 0 <= w < |s.senders| && Obliged(s.from, h, s.senders[w]);
      assert !Blocked(s, w);
    } else {
      assert StageOk(h, s.senders, h.passed) && PendingOk(s.from, h, s.senders, h.passed)
            && Follows(c, h.log, h.passed);
      var o := h.log[h.passed].owner;
      assert SenderOk(c, s.from, s.to, s.recv, h, o, s.senders[o]);
      assert !Blocked(s, o);
    }
  }

  // ----- The receiver -----

  /** Only the receiver has moved. */
  predicate SameSenders(s: State, t: State) {
    && t.from == s.from && t.to == s.to && t.senders == s.senders
    && t.hist.log == s.hist.log && t.hist.passed == s.hist.passed
  }

  /** From s the receiver can get to t on its own. */
  ghost predicate ReceiverLeads(c: Config, s: State, t: State) { Leads(c, s, t) && SameSenders(s, t) && Inv(c, t) }

  lemma ReceiverGoesOn(c: Config, s: State, a: Action, t: State)
    requires ValidConfig(c) && Inv(c, s) && Enabled(c, s, a)
    requires a.RecvLoad? || a.RecvDecide? || a.RecvRewind? || a.RecvPublish? || a.RecvClear?
    requires ReceiverLeads(c, Apply(c, s, a), t)
    ensures ReceiverLeads(c, s, t)
  {
    hide Inv, TimelyRun, Leads;
    LeadsOn(c, s, a, t);
  }

  lemma ReceiverStays(c: Config, s: State)
    requires Inv(c, s)
    ensures ReceiverLeads(c, s, s)
  {
    LeadsNowhere(c, s);
  }

  /** Having seen the messages that are passed, the receiver decides rightly. */
  lemma FreshDecision(c: Config, s: State)
    requires ValidConfig(c) && Inv(c, s) && s.receiver == LoadedFrom(s.from) && s.hist.consumed < s.hist.passed
    ensures s.recv != s.from.off
  {
    ToOrder(c, s.from, s.to, s.recv, s.hist);
    RecvOrder(c, s.recv, s.hist, s.hist.consumed);
    FromOrder(c, s.from, s.hist, s.hist.consumed);
    EndOrder(c, s.hist.log, s.hist.consumed, s.hist.passed);
  }

  /** A polling receiver gets hold of the next message that is passed. */
  lemma FromPolling(c: Config, s: State) returns (t: State)
    requires ValidConfig(c) && Inv(c, s) && s.receiver.Polling? && s.hist.consumed < s.hist.passed
    ensures ReceiverLeads(c, s, t) && t.receiver.Holding? && t.hist.consumed == s.hist.consumed
  {
    hide Inv, ReceiverLeads;
    var loaded := Apply(c, s, RecvLoad);
    ReceiverStep(c, s, RecvLoad);
    t := FromLoaded(c, loaded);
    ReceiverGoesOn(c, s, RecvLoad, t);
  }

  lemma FromLoaded(c: Config, s: State) returns (t: State)
    requires ValidConfig(c) && Inv(c, s) && s.receiver == LoadedFrom(s.from) && s.hist.consumed < s.hist.passed
    ensures ReceiverLeads(c, s, t) && t.receiver.Holding? && t.hist.consumed == s.hist.consumed
  {
    hide Inv, ReceiverLeads, Observes;
    FreshDecision(c, s);
    var word := SomeWord(c, s.mem, s.recv);
    var decided := Apply(c, s, RecvDecide(word));
    ReceiverStep(c, s, RecvDecide(word));
    if decided.receiver.AtTail? {
      RewindHolds(c, decided);
      t := Apply(c, decided, RecvRewind);
      ReceiverStep(c, decided, RecvRewind);
      ReceiverStays(c, t);
      ReceiverGoesOn(c, decided, RecvRewind, t);
    } else {
      t := decided;
      ReceiverStays(c, t);
    }
    ReceiverGoesOn(c, s, RecvDecide(word), t);
  }

  /** At the tail, the sender_pace_from_ that has passed a message of the next lap is not at its start. */
  lemma RewindHolds(c: Config, s: State)
    requires ValidConfig(c) && Inv(c, s) && s.receiver == AtTail(s.from) && s.hist.consumed < s.hist.passed
    ensures s.from.off != 0
  {
    FromOrder(c, s.from, s.hist, s.hist.consumed);
    EndOrder(c, s.hist.log, s.hist.consumed, s.hist.passed);
  }

  /** Whatever the receiver was doing, it gets to polling or to holding a message. */
  lemma ToPolling(c: Config, s: State) returns (t: State)
    requires ValidConfig(c) && Inv(c, s)
    ensures ReceiverLeads(c, s, t) && (t.receiver.Polling? || t.receiver.Holding?) && t.hist.consumed == s.hist.consumed
    decreases match s.receiver { case LoadedFrom(_) => 2 case AtTail(_) => 1 case Clearing(_) => 1 case _ => 0 }
  {
    hide Inv, ReceiverLeads, Observes;
    if s.receiver.Polling? || s.receiver.Holding? {
      ReceiverStays(c, s);
      return s;
    }
    var word := SomeWord(c, s.mem, s.recv);
    var a := match s.receiver
             case LoadedFrom(_) => RecvDecide(word)
             case AtTail(_) => RecvRewind
             case _ => RecvClear;
    ReceiverStep(c, s, a);
    t := ToPolling(c, Apply(c, s, a));
    ReceiverGoesOn(c, s, a, t);
  }

  /** The next message that is passed is consumed. */
  lemma ReceiveOne(c: Config, s: State) returns (t: State)
    requires ValidConfig(c) && Inv(c, s) && s.hist.consumed < s.hist.passed
    ensures ReceiverLeads(c, s, t) && t.receiver.Polling? && t.hist.consumed == s.hist.consumed + 1
  {
    hide Inv, Leads;
    var p := ToPolling(c, s);
    var h := p;
    if p.receiver.Polling? { h := FromPolling(c, p); }
    HeldMessage(c, h);
    var published := Apply(c, h, RecvPublish);
    ReceiverStep(c, h, RecvPublish);
    t := Apply(c, published, RecvClear);
    ReceiverStep(c, published, RecvClear);
    ReceiverStays(c, t);
    ReceiverGoesOn(c, published, RecvClear, t);
    ReceiverGoesOn(c, h, RecvPublish, t);
    if p.receiver.Polling? { LeadsFar(c, s, p, h); }
    LeadsFar(c, s, h, t);
  }

  /** All messages that are passed are consumed. */
  lemma {:induction false} ReceiveAll(c: Config, s: State) returns (t: State)
    requires ValidConfig(c) && Inv(c, s)
    ensures ReceiverLeads(c, s, t) && t.receiver.Polling? && t.hist.consumed == t.hist.passed
    decreases s.hist.passed - s.hist.consumed
  {
    if s.hist.consumed == s.hist.passed {
      t := ToPolling(c, s);
    } else {
      var u := ReceiveOne(c, s);
      t := ReceiveAll(c, u);
      LeadsFar(c, s, u, t);
    }
  }

  // ----- The last senders -----

  /** With all messages consumed the buffer is blank. */
  lemma EmptyIsBlank(c: Config, s: State, at: nat, word: nat)
    requires Inv(c, s) && !s.receiver.Clearing? && s.hist.consumed == |s.hist.log| && Observes(c, s.mem, at, word)
    ensures word == BLANK_WORD
  {
    forall x | 0 <= x < |s.mem| ensures s.mem[x] == Blank {
      assert !Covered(c, s.hist.log, s.hist.consumed, x);
    }
  }

  /** Senders that found sender_pace_from_ where their own, long consumed message had been see a blank and end. */
  lemma {:induction false} LetGo(c: Config, s: State) returns (t: State)
    requires ValidConfig(c) && Inv(c, s) && s.receiver.Polling? && s.hist.consumed == |s.hist.log|
    requires forall i :: 0 <= i < |s.senders| ==> s.senders[i].pc == Idle || s.senders[i].pc.Measuring?
    ensures Leads(c, s, t) && Inv(c, t) && t.receiver.Polling? && t.hist == s.hist && t.from == s.from && t.to == s.to
    ensures forall i :: 0 <= i < |t.senders| ==> t.senders[i].pc.Idle?
    decreases Total(s.senders, true)
  {
    hide Inv, Leads, Observes;
    if forall i :: 0 <= i < |s.senders| ==> s.senders[i].pc.Idle? {
      LeadsNowhere(c, s);
      return s;
    }
    var i :| 0 <= i < |s.senders| && !s.senders[i].pc.Idle?;
    var word := SomeWord(c, s.mem, s.senders[i].pc.pace.off);
    EmptyIsBlank(c, s, s.senders[i].pc.pace.off, word);
    var a := Measure(i, word);
    StepIffTimely(c, s, a);
    var u := Apply(c, s, a);
    TotalUpdate(s.senders, i, u.senders[i], true);
    t := LetGo(c, u);
    LeadsOn(c, s, a, t);
  }

  // ----- Nothing locks up -----

  /** The state in which nothing is left to do: every sender has returned, and the receiver has been given every
      message ever reserved. */
  predicate AtRest(c: Config, t: State) {
    && (forall i :: 0 <= i < |t.senders| ==> t.senders[i].pc.Idle?)
    && t.from == t.to && t.receiver.Polling? && t.hist.delivered == Images(c, Sent(t.hist))
  }

  lemma AllDelivered(c: Config, t: State)
    requires Inv(c, t) && t.hist.consumed == |t.hist.log|
    ensures t.hist.delivered == Images(c, Sent(t.hist))
  {}

  lemma ComesToRest(c: Config, s: State) returns (t: State)
    requires ValidConfig(c) && Inv(c, s)
    ensures Leads(c, s, t) && AtRest(c, t)
  {
    hide Inv, Leads, Settled, Images, Sent;
    var cleared := ToPolling(c, s);
    var settled := Settle(c, cleared);
    SettledMeansCaughtUp(c, settled);
    var received := ReceiveAll(c, settled);
    t := LetGo(c, received);
    AllDelivered(c, t);
    LeadsFar(c, s, cleared, settled);
    LeadsFar(c, s, settled, received);
    LeadsFar(c, s, received, t);
  }

  /** No interleaving locks up.  In particular a sender at line 328 can always be released. */
  lemma AlwaysComesToRest(c: Config, s: State)
    requires ValidConfig(c) && Reachable(c, s)
    ensures exists actions, t :: TimelyRun(c, s, actions, t) && AtRest(c, t) && Sent(s.hist) <= Sent(t.hist)
  {
    ReachableInv(c, s);
    var t := ComesToRest(c, s);
    var actions :| TimelyRun(c, s, actions, t);
    TimelyRunIsRun(c, s, actions, t);
    SentGrowsAlong(c, s, actions, t);
  }

  // ----- An untimely size read always does harm -----

  /** The state after a size read and the CAS that follows. */
  function AfterAdvance(c: Config, s: State, i: nat, word: nat): State
    requires i < |s.senders| && s.senders[i].pc.Measuring? && word != BLANK_WORD
  {
    ApplyCasFrom(ApplyMeasure(c, s, i, word), i)
  }

  lemma AdvanceTo(c: Config, s: State, i: nat, word: nat, r: Record)
    requires i < |s.senders| && s.senders[i].pc == Measuring(s.from) && word != BLANK_WORD
    requires s.from == StartPos(r) && SizeOfWord(c, word) == Len(c, r)
    ensures var u := AfterAdvance(c, s, i, word);
            && u.from == EndPos(c, r) && u.mem == s.mem && u.recv == s.recv && u.receiver == s.receiver
            && u.hist.log == s.hist.log && u.hist.consumed == s.hist.consumed
  {}

  lemma AdvanceRuns(c: Config, s: State, i: nat, word: nat)
    requires Enabled(c, s, Measure(i, word)) && word != BLANK_WORD
    ensures Run(c, s, [Measure(i, word), CasFrom(i)], AfterAdvance(c, s, i, word))
  {
    var m := ApplyMeasure(c, s, i, word);
    RunOne(c, m, CasFrom(i));
    assert [Measure(i, word), CasFrom(i)][1..] == [CasFrom(i)];
  }

  /** The message an untimely size read is about, unless sender_pace_from_ has reached sender_pace_to_. */
  lemma UntimelyTarget(c: Config, s: State, i: nat, word: nat)
    requires ValidConfig(c) && Inv(c, s) && Enabled(c, s, Measure(i, word)) && !TimelyMeasure(s, i, word)
              && s.from != s.to
    ensures s.hist.passed < |s.hist.log|
    ensures var r := s.hist.log[s.hist.passed];
            s.from == StartPos(r) && 2 <= r.stage < 4 && word == ExpectedWord(r) && SizeOfWord(c, word) == Len(c, r)
  {
    ToOrder(c, s.from, s.to, s.recv, s.hist);
    TimelyMeansReady(c, s, i, word);
    if AtGap(s.from, s.hist) { GapIsBlank(c, s, word); }
    WordAt(c, s, s.hist.passed, word);
    ReadyWords(c, s.hist.log[s.hist.passed]);
  }

  /** The client holds a message whose sender has not finished, and its bytes are not those of the message. */
  ghost predicate Unfinished(c: Config, t: State) {
    && t.receiver.Holding? && t.hist.consumed < |t.hist.log|
    && var r := t.hist.log[t.hist.consumed];
       && r.stage < 4 && t.recv == r.start && t.recv + Len(c, r) <= |t.mem|
       && t.mem[t.recv .. t.recv + Len(c, r)] != Image(c, r.header, r.content)
  }

  lemma NotItsImage(c: Config, mem: seq<Cell>, r: Record)
    requires Holds(c, mem, r) && r.stage < 4
    ensures mem[r.start .. r.start + Len(c, r)] != Image(c, r.header, r.content)
  {
    var x := r.start + c.sizeOffset;
    assert Inside(c, r, x);
    assert mem[r.start .. r.start + Len(c, r)][c.sizeOffset] == mem[x] == CellOf(c, r, c.sizeOffset);
    assert Image(c, r.header, r.content)[c.sizeOffset] == SizeByte(|r.content| + NOT_WRITING, 0);
  }

  /** A message that is not ready, handed out from memory as the invariant describes it, is unfinished. */
  lemma HoldsUnfinished(c: Config, s: State, t: State)
    requires Inv(c, s) && s.hist.consumed < |s.hist.log| && s.hist.log[s.hist.consumed].stage < 4
    requires t.receiver.Holding? && t.mem == s.mem && t.hist.log == s.hist.log && t.hist.consumed == s.hist.consumed
    requires t.recv == s.hist.log[s.hist.consumed].start
    ensures Unfinished(c, t)
  {
    assert Holds(c, s.mem, s.hist.log[s.hist.consumed]);
    NotItsImage(c, s.mem, s.hist.log[s.hist.consumed]);
  }

  /** Where the receiver is when it has consumed all messages that are passed and the next one is at
      sender_pace_from_. */
  lemma WhereItPolls(c: Config, s: State, word: nat)
    requires ValidConfig(c) && Inv(c, s) && s.receiver.Polling? && s.hist.consumed == s.hist.passed < |s.hist.log|
    requires s.from == StartPos(s.hist.log[s.hist.passed]) && Observes(c, s.mem, s.recv, word)
    ensures var end := EndPos(c, s.hist.log[s.hist.passed]).off;
            || (s.recv == s.from.off && s.recv < end)
            || (s.from.off == 0 && 0 < end < s.recv && (s.recv + MsgOffset(c) > c.size || word == BLANK_WORD))
  {
    var k := s.hist.passed;
    ToOrder(c, s.from, s.to, s.recv, s.hist);
    if s.recv != s.from.off {
      assert Follows(c, s.hist.log, k);
      LiveWhere(c, s.from, s.to, s.recv, s.hist, k);
      var loaded := Apply(c, s, RecvLoad);
      ReceiverStep(c, s, RecvLoad);
      BehindMeansNextLap(c, loaded, word);
    }
  }

  /** A receiver that is behind sender_pace_from_, or at the tail with sender_pace_from_ inside the next lap, gets a
      message when it polls. */
  lemma PollHolds(c: Config, u: State, word: nat) returns (actions: seq<Action>, t: State)
    requires u.receiver.Polling? && Observes(c, u.mem, u.recv, word)
    requires u.recv < u.from.off
          || (0 < u.from.off < u.recv && (u.recv + MsgOffset(c) > c.size || word == BLANK_WORD))
    ensures Run(c, u, actions, t) && t.receiver.Holding? && t.mem == u.mem
    ensures t.hist.log == u.hist.log && t.hist.consumed == u.hist.consumed
    ensures t.recv == if u.recv < u.from.off then u.recv else 0
  {
    hide Run, Observes;
    var loaded := Apply(c, u, RecvLoad);
    var decided := Apply(c, loaded, RecvDecide(word));
    RunOne(c, u, RecvLoad);
    RunOne(c, loaded, RecvDecide(word));
    RunJoin(c, u, [RecvLoad], loaded, [RecvDecide(word)], decided);
    actions, t := [RecvLoad] + [RecvDecide(word)], decided;
    if u.recv > u.from.off {
      t := Apply(c, decided, RecvRewind);
      RunOne(c, decided, RecvRewind);
      RunJoin(c, u, actions, decided, [RecvRewind], t);
      actions := actions + [RecvRewind];
    }
  }

  /** The receiver polls after the advance and is handed the unfinished message. */
  lemma HandedOutUnfinished(c: Config, s: State, i: nat, word: nat) returns (actions: seq<Action>, t: State)
    requires ValidConfig(c) && Inv(c, s) && Enabled(c, s, Measure(i, word)) && !TimelyMeasure(s, i, word)
              && s.from != s.to
    requires s.receiver.Polling? && s.hist.consumed == s.hist.passed
    ensures Run(c, AfterAdvance(c, s, i, word), actions, t) && Unfinished(c, t)
  {
    hide Inv, Run, Observes, AfterAdvance, Unfinished;
    UntimelyTarget(c, s, i, word);
    var r := s.hist.log[s.hist.passed];
    var read := SomeWord(c, s.mem, s.recv);
    WhereItPolls(c, s, read);
    AdvanceTo(c, s, i, word, r);
    actions, t := PollHolds(c, AfterAdvance(c, s, i, word), read);
    HoldsUnfinished(c, s, t);
  }

  /** The receiver consuming what is passed does not make the size read timely. */
  lemma StillUntimely(c: Config, s: State, u: State, i: nat, word: nat)
    requires ValidConfig(c) && Inv(c, s) && Enabled(c, s, Measure(i, word)) && !TimelyMeasure(s, i, word)
              && s.from != s.to
    requires Inv(c, u) && SameSenders(s, u)
    ensures Enabled(c, u, Measure(i, word)) && !TimelyMeasure(u, i, word)
  {
    UntimelyTarget(c, s, i, word);
    var again := SomeWord(c, u.mem, u.from.off);
    WordAt(c, u, u.hist.passed, again);
  }

  lemma UnfinishedRun(c: Config, s: State, i: nat, word: nat) returns (actions: seq<Action>, t: State)
    requires ValidConfig(c) && Inv(c, s) && Enabled(c, s, Measure(i, word)) && !TimelyMeasure(s, i, word)
              && s.from != s.to
    ensures Run(c, s, actions, t) && Unfinished(c, t)
  {
    var u := ReceiveAll(c, s);
    StillUntimely(c, s, u, i, word);
    hide Inv, Run, TimelyRun, Unfinished, AfterAdvance;
    var rest: seq<Action>;
    rest, t := HandedOutUnfinished(c, u, i, word);
    var before :| TimelyRun(c, s, before, u);
    var advance := [Measure(i, word), CasFrom(i)];
    TimelyRunIsRun(c, s, before, u);
    AdvanceRuns(c, u, i, word);
    RunJoin(c, s, before, u, advance, AfterAdvance(c, u, i, word));
    RunJoin(c, s, before + advance, AfterAdvance(c, u, i, word), rest, t);
    actions := before + advance + rest;
  }

  /** From every state with an untimely size read: if sender_pace_from_ has reached sender_pace_to_, it overtakes
      it; otherwise there is a run after which the client holds a message that is not finished. */
  lemma UntimelyMeasureHarms(c: Config, s: State, i: nat, word: nat)
    requires ValidConfig(c) && Reachable(c, s) && Enabled(c, s, Measure(i, word)) && !TimelyMeasure(s, i, word)
    ensures s.from == s.to ==> Lt(AfterAdvance(c, s, i, word).to, AfterAdvance(c, s, i, word).from)
    ensures s.from != s.to ==> exists actions, t :: Run(c, s, actions, t) && Unfinished(c, t)
  {
    if s.from != s.to {
      ReachableInv(c, s);
      var actions, t := UnfinishedRun(c, s, i, word);
    }
  }

  // ----- When an empty pipe takes a message -----

  /** A sender whose copies of the paces are up to date. */
  predicate UpToDate(s: State, i: nat) {
    i < |s.senders| && s.senders[i].pc.LoadedRecv? && s.senders[i].pc.pace == s.to && s.senders[i].pc.recv == s.recv
  }

  /** The record may be the next: it begins at sender_pace_to_ or at the start of the next lap, lies inside the
      buffer and
      does not reach the receiver from behind. */
  predicate MayFollow(c: Config, s: State, r: Record) {
    && (StartPos(r) == s.to || StartPos(r) == Pos(s.to.lap + 1, 0))
    && r.start + Len(c, r) <= c.size
    && WithinALap(EndPos(c, r), RecvPos(s.recv, s.hist))
  }

  /** There is room for a message with that much content. */
  ghost predicate Room(c: Config, s: State, size: nat) { exists r: Record :: |r.content| == size && MayFollow(c, s, r) }

  /** With up-to-date paces a reservation succeeds if and only if there is room; it is made at sender_pace_to_ if it
      may be,
      and else at the start of the next lap. */
  lemma ReservesIff(c: Config, s: State, i: nat)
    requires ValidConfig(c) && Inv(c, s) && UpToDate(s, i)
    ensures var t, p := ApplyCasTo(c, s, i), s.senders[i].pc;
            && (t.senders[i].pc.Filling? <==> Room(c, s, |p.content|))
            && if t.senders[i].pc.Filling? then
                 && |t.hist.log| == |s.hist.log| + 1
                 && var r := t.hist.log[|s.hist.log|];
                    && MayFollow(c, s, r) && t.to == EndPos(c, r) && r.header == p.header && r.content == p.content
                    && (MayFollow(c, s, r.(lap := s.to.lap, start := s.to.off)) ==> StartPos(r) == s.to)
               else
                 t == SetPc(s, i, Idle)
  {
    var p := s.senders[i].pc;
    ToOrder(c, s.from, s.to, s.recv, s.hist);
    var here := Record(s.to.lap, s.to.off, p.header, p.content, 0, i);
    var next := Record(s.to.lap + 1, 0, p.header, p.content, 0, i);
    FollowIff(c, s, p.content);
    assert MayFollow(c, s, here) || MayFollow(c, s, next) <==> Room(c, s, |p.content|) by {
      if r: Record :| |r.content| == |p.content| && MayFollow(c, s, r) {
        assert MayFollow(c, s, if StartPos(r) == s.to then here else next);
      }
    }
  }

  /** The two places, in terms of offsets. */
  lemma FollowIff(c: Config, s: State, content: string)
    requires ValidConfig(c) && Inv(c, s)
    ensures forall r: Record :: r.content == content && StartPos(r) == s.to ==>
              (MayFollow(c, s, r) <==>
                 if s.to.off >= s.recv then s.to.off + Len(c, r) <= c.size else s.to.off + Len(c, r) < s.recv)
    ensures forall r: Record :: r.content == content && StartPos(r) == Pos(s.to.lap + 1, 0) ==>
              (MayFollow(c, s, r) <==> s.to.off >= s.recv && Len(c, r) < s.recv)
  {
    ToOrder(c, s.from, s.to, s.recv, s.hist);
  }

  /** What a sender does that is not interrupted. */
  function Attempt(i: nat, header: int, content: string): seq<Action> {
    [LoadTo(i, header, content), LoadRecv(i), CasTo(i)]
  }

  /** An idle sender that is not interrupted gets its space if and only if the content is not larger than allowed and
      there
      is room. */
  lemma SendsIff(c: Config, s: State, i: nat, header: int, content: string)
    requires ValidConfig(c) && Inv(c, s) && i < |s.senders| && s.senders[i].pc.Idle?
    ensures (exists t :: Run(c, s, Attempt(i, header, content), t) && i < |t.senders| && t.senders[i].pc.Filling?) <==>
            |content| <= c.maxContent && Room(c, s, |content|)
  {
    var load := LoadTo(i, header, content);
    if |content| <= c.maxContent {
      var s1 := Apply(c, s, load);
      StepIffTimely(c, s, load);
      var s2 := Apply(c, s1, LoadRecv(i));
      StepIffTimely(c, s1, LoadRecv(i));
      ReservesIff(c, s2, i);
      RoomSame(c, s, s2, |content|);
      AttemptRuns(c, s, i, header, content, s1, s2);
    } else {
      assert !Enabled(c, s, Attempt(i, header, content)[0]);
    }
  }

  lemma RoomSame(c: Config, s: State, t: State, size: nat)
    requires t.to == s.to && t.recv == s.recv && t.hist == s.hist
    ensures Room(c, s, size) <==> Room(c, t, size)
  {
    assert forall r :: MayFollow(c, s, r) <==> MayFollow(c, t, r);
  }

  lemma AttemptRuns(c: Config, s: State, i: nat, header: int, content: string, s1: State, s2: State)
    requires Enabled(c, s, LoadTo(i, header, content)) && s1 == Apply(c, s, LoadTo(i, header, content))
    requires Enabled(c, s1, LoadRecv(i)) && s2 == Apply(c, s1, LoadRecv(i)) && Enabled(c, s2, CasTo(i))
    ensures forall t :: Run(c, s, Attempt(i, header, content), t) <==> t == ApplyCasTo(c, s2, i)
  {
    var u := ApplyCasTo(c, s2, i);
    var a := Attempt(i, header, content);
    assert a[1..] == [LoadRecv(i), CasTo(i)] && a[1..][1..] == [CasTo(i)] && [CasTo(i)][1..] == [];
    forall t ensures Run(c, s, a, t) <==> t == u {
      assert Run(c, s, a, t) <==> Run(c, s1, a[1..], t);
      assert Run(c, s1, a[1..], t) <==> Run(c, s2, [CasTo(i)], t);
      assert Run(c, s2, [CasTo(i)], t) <==> Run(c, u, [], t);
    }
  }

  /** An empty pipe refuses a message if and only if it neither fits behind the offset the paces are at nor before
      it. */
  lemma EmptyPipeRefusesIff(c: Config, s: State, i: nat)
    requires UpToDate(s, i) && s.to.off == s.recv
    ensures var need := MsgOffset(c) + |s.senders[i].pc.content|;
            ApplyCasTo(c, s, i).senders[i].pc.Idle? <==> s.recv + need > c.size && need >= s.recv
  {}

  /** A length that Init admits is taken by the empty pipe at every offset if and only if two of it fit the pipe. */
  lemma EmptyPipeTakesIff(c: Config, need: nat)
    requires need <= c.size
    ensures (forall lap: nat, x: nat :: x <= c.size ==> Reservation(c, Pos(lap, x), x, need) != None) <==>
              2 * need <= c.size
  {
    if 2 * need > c.size {
      assert Reservation(c, Pos(0, need), need, need) == None;
    }
  }
}
