/** The two ways sender_pace_from_ moves: the CAS over a message, and the store of a rewinding sender. */
module PipeAdvanceProof {
  import opened PipeModel
  import opened PipeInvariant
  import opened PipePositions
  import opened PipeSenderProof

  // ----- CAS over the message at sender_pace_from_ -----

  lemma PassedSender(c: Config, s: State, i: nat, k: nat)
    requires Inv(c, s) && i < |s.senders| && k < |s.senders| && i != k
    requires s.senders[i].pc.Passing? && s.senders[i].pc.pace == s.from
    ensures var from := Pos(s.from.lap, s.senders[i].pc.next);
            SenderOk(c, from, s.to, s.recv, s.hist.(passed := s.hist.passed + 1), k, s.senders[k])
  {
    hide MemoryOk, DeliveredOk, StagesOk, ObligationsOk, ReceiverOk;
    var h := s.hist;
    assert SenderOk(c, s.from, s.to, s.recv, h, i, s.senders[i]);
    assert SenderOk(c, s.from, s.to, s.recv, h, k, s.senders[k]);
  }

  lemma PassedPaces(c: Config, s: State)
    requires Inv(c, s) && AtReady(s.from, s.hist)
    ensures var h := s.hist.(passed := s.hist.passed + 1);
            var from := EndPos(c, s.hist.log[s.hist.passed]);
            PacesOk(c, from, s.to, s.recv, h) && ReceiverOk(c, from, s.recv, h, s.receiver) && Lt(s.from, from)
  {
    EndOrder(c, s.hist.log, s.hist.passed, s.hist.passed + 1);
  }

  lemma PassedObligations(c: Config, s: State, i: nat, from: Pos)
    requires Inv(c, s) && AtReady(s.from, s.hist) && i < |s.senders| && s.senders[i].pc.Passing?
    requires from == EndPos(c, s.hist.log[s.hist.passed])
    ensures ObligationsOk(from, s.hist.(passed := s.hist.passed + 1),
              s.senders[i := s.senders[i].(pc := Checking(from))])
  {
    var h := s.hist.(passed := s.hist.passed + 1);
    var senders := s.senders[i := s.senders[i].(pc := Checking(from))];
    assert Obliged(from, h, senders[i]);
    forall j | 0 <= j < |h.log| ensures PendingOk(from, h, senders, j) {
      assert PendingOk(s.from, s.hist, s.senders, j);
      FromOrder(c, s.from, s.hist, j);
    }
  }

  lemma PassedStages(c: Config, s: State, i: nat, pc: Pc)
    requires Inv(c, s) && AtReady(s.from, s.hist) && i < |s.senders| && s.senders[i].pc.Passing?
    ensures StagesOk(s.hist.(passed := s.hist.passed + 1), s.senders[i := s.senders[i].(pc := pc)])
  {
    var h := s.hist.(passed := s.hist.passed + 1);
    var senders := s.senders[i := s.senders[i].(pc := pc)];
    forall j | 0 <= j < |h.log| ensures StageOk(h, senders, j) {
      assert StageOk(s.hist, s.senders, j);
    }
  }

  lemma PassKeeps(c: Config, s: State, i: nat)
    requires Inv(c, s) && i < |s.senders| && s.senders[i].pc.Passing? && s.senders[i].pc.pace == s.from
    ensures Inv(c, ApplyCasFrom(s, i))
  {
    var t := ApplyCasFrom(s, i);
    assert SenderOk(c, s.from, s.to, s.recv, s.hist, i, s.senders[i]);
    assert t.from == EndPos(c, s.hist.log[s.hist.passed]);
    PassedPaces(c, s);
    PassedObligations(c, s, i, t.from);
    PassedStages(c, s, i, Checking(t.from));
    forall k | 0 <= k < |t.senders| ensures SenderOk(c, t.from, t.to, t.recv, t.hist, k, t.senders[k]) {
      if k != i { PassedSender(c, s, i, k); }
    }
  }

  lemma CasFromKeeps(c: Config, s: State, i: nat)
    requires Inv(c, s) && i < |s.senders| && s.senders[i].pc.Passing?
    ensures Inv(c, ApplyCasFrom(s, i))
  {
    if s.senders[i].pc.pace == s.from {
      PassKeeps(c, s, i);
    } else {
      PcOnly(c, s, i, Idle);
    }
  }

  // ----- Store by the sender of a message at the start of a lap -----

  /** A rewinding sender knows that sender_pace_from_ waits behind the last message of the lap. */
  lemma RewindFacts(c: Config, s: State, i: nat)
    requires Inv(c, s) && i < |s.senders| && s.senders[i].pc.Rewinding?
    ensures var mine := s.senders[i].mine;
            && Mine(s.hist, i, s.senders[i]) && mine == s.hist.passed && s.hist.log[mine].stage == 4
            && s.from == EndAt(c, s.hist.log, mine) && s.from != StartPos(s.hist.log[mine])
            && Pos(s.senders[i].pc.lap + 1, 0) == StartPos(s.hist.log[mine])
            && Lt(s.from, StartPos(s.hist.log[mine]))
  {
    assert SenderOk(c, s.from, s.to, s.recv, s.hist, i, s.senders[i]);
    FromOrder(c, s.from, s.hist, s.hist.passed);
  }

  lemma StoredSender(c: Config, s: State, i: nat, k: nat)
    requires Inv(c, s) && i < |s.senders| && k < |s.senders| && i != k && s.senders[i].pc.Rewinding?
    ensures SenderOk(c, Pos(s.senders[i].pc.lap + 1, 0), s.to, s.recv, s.hist, k, s.senders[k])
  {
    RewindFacts(c, s, i);
    assert SenderOk(c, s.from, s.to, s.recv, s.hist, k, s.senders[k]);
    if s.senders[k].mine < |s.hist.log| {
      FromOrder(c, StartPos(s.hist.log[s.hist.passed]), s.hist, s.senders[k].mine);
    }
  }

  lemma StoredObligations(c: Config, s: State, i: nat)
    requires Inv(c, s) && i < |s.senders| && s.senders[i].pc.Rewinding?
    ensures var t := ApplyStoreFrom(s, i); ObligationsOk(t.from, t.hist, t.senders) && StagesOk(t.hist, t.senders)
  {
    RewindFacts(c, s, i);
    var t := ApplyStoreFrom(s, i);
    assert Obliged(t.from, t.hist, t.senders[i]);
    forall j | 0 <= j < |t.hist.log| ensures PendingOk(t.from, t.hist, t.senders, j) && StageOk(t.hist, t.senders, j) {
      assert PendingOk(s.from, s.hist, s.senders, j) && StageOk(s.hist, s.senders, j);
      FromOrder(c, s.from, s.hist, j);
    }
  }

  lemma StoreFromKeeps(c: Config, s: State, i: nat)
    requires Inv(c, s) && i < |s.senders| && s.senders[i].pc.Rewinding?
    ensures Inv(c, ApplyStoreFrom(s, i))
  {
    var t := ApplyStoreFrom(s, i);
    RewindFacts(c, s, i);
    StoredObligations(c, s, i);
    forall k | 0 <= k < |t.senders| ensures SenderOk(c, t.from, t.to, t.recv, t.hist, k, t.senders[k]) {
      if k != i { StoredSender(c, s, i, k); }
    }
  }
}
