/** Writing a message: header, size, content and ready bit. */
module PipeFillProof {
  import opened PipeModel
  import opened PipeInvariant
  import opened PipePositions

  /** The log with the stage of message j changed. */
  function Staged(log: seq<Record>, j: nat, stage: nat): seq<Record>
    requires j < |log|
  {
    log[j := log[j].(stage := stage)]
  }

  lemma StagedEndAt(c: Config, log: seq<Record>, j: nat, stage: nat, k: nat)
    requires j < |log| && k <= |log|
    ensures EndAt(c, Staged(log, j, stage), k) == EndAt(c, log, k)
  {
  }

  lemma StagedLog(c: Config, log: seq<Record>, j: nat, stage: nat)
    requires LogOk(c, log) && j < |log|
    ensures LogOk(c, Staged(log, j, stage))
  {
    var t := Staged(log, j, stage);
    forall k | 0 <= k < |t| ensures Fits(c, t[k]) && Follows(c, t, k) {
      StagedEndAt(c, log, j, stage, k);
      assert Fits(c, log[k]) && Follows(c, log, k);
    }
    forall a, b | 0 <= a < b < |t| ensures Before(c, t[a], t[b]) {
      assert Before(c, log[a], log[b]);
    }
  }

  lemma StagedPaces(c: Config, s: State, j: nat, stage: nat)
    requires Inv(c, s) && s.hist.passed <= j < |s.hist.log|
    ensures var h := s.hist.(log := Staged(s.hist.log, j, stage));
            && PacesOk(c, s.from, s.to, s.recv, h)
            && ReceiverOk(c, s.from, s.recv, h, s.receiver)
            && DeliveredOk(c, h)
  {
    var h := s.hist;
    StagedEndAt(c, h.log, j, stage, |h.log|);
    StagedEndAt(c, h.log, j, stage, h.passed);
    StagedEndAt(c, h.log, j, stage, h.consumed);
    if h.seen <= |h.log| { StagedEndAt(c, h.log, j, stage, h.seen); }
  }

  lemma StagedSender(c: Config, s: State, j: nat, stage: nat, k: nat)
    requires Inv(c, s) && s.hist.passed <= j < |s.hist.log| && k < |s.senders| && s.hist.log[j].owner != k
    requires s.hist.log[j].stage < 4
    ensures SenderOk(c, s.from, s.to, s.recv, s.hist.(log := Staged(s.hist.log, j, stage)), k, s.senders[k])
  {
    var h := s.hist;
    assert SenderOk(c, s.from, s.to, s.recv, h, k, s.senders[k]);
    if s.senders[k].mine < |h.log| { StagedEndAt(c, h.log, j, stage, s.senders[k].mine); }
  }

  lemma StagedCovered(c: Config, log: seq<Record>, j: nat, stage: nat, consumed: nat, x: int)
    requires j < |log|
    ensures Covered(c, log, consumed, x) ==> Covered(c, Staged(log, j, stage), consumed, x)
  {
    if Covered(c, log, consumed, x) {
      var k :| consumed <= k < |log| && Inside(c, log[k], x);
      assert Inside(c, Staged(log, j, stage)[k], x);
    }
  }

  /** A message keeps its bytes when only bytes of another, disjoint one change. */
  lemma HoldsElsewhere(c: Config, mem: seq<Cell>, mem': seq<Cell>, r: Record, w: Record)
    requires Holds(c, mem, r) && |mem'| == |mem|
    requires Apart(w.start, w.start + Len(c, w), r.start, r.start + Len(c, r))
    requires forall x :: 0 <= x < |mem| && !Inside(c, w, x) ==> mem'[x] == mem[x]
    ensures Holds(c, mem', r)
  {
    forall x | Inside(c, r, x) ensures mem'[x] == CellOf(c, r, x - r.start) {
      assert !Inside(c, w, x);
    }
  }

  lemma StagedMemory(c: Config, s: State, j: nat, stage: nat, mem: seq<Cell>)
    requires Inv(c, s) && s.hist.passed <= j < |s.hist.log| && |mem| == |s.mem|
    requires forall x :: 0 <= x < |mem| && !Inside(c, s.hist.log[j], x) ==> mem[x] == s.mem[x]
    requires Holds(c, mem, s.hist.log[j].(stage := stage))
    ensures MemoryOk(c, mem, Staged(s.hist.log, j, stage), s.hist.consumed, ClearLo(s.receiver), ClearHi(s.receiver,
              s.recv))
  {
    var h := s.hist;
    forall k | h.consumed <= k < |h.log| && k != j ensures Holds(c, mem, h.log[k]) {
      LiveApart(c, s.from, s.to, s.recv, h, j, k);
      HoldsElsewhere(c, s.mem, mem, h.log[k], h.log[j]);
    }
    StagedMemoryOk(c, s.mem, mem, h.log, j, stage, h.consumed, ClearLo(s.receiver), ClearHi(s.receiver, s.recv));
  }

  lemma StagedMemoryOk(c: Config, mem: seq<Cell>, mem': seq<Cell>, log: seq<Record>, j: nat, stage: nat,
        consumed: nat, lo: nat, hi: nat)
    requires MemoryOk(c, mem, log, consumed, lo, hi) && consumed <= j < |log| && |mem'| == |mem|
    requires forall x :: 0 <= x < |mem| && !Inside(c, log[j], x) ==> mem'[x] == mem[x]
    requires Holds(c, mem', log[j].(stage := stage))
    requires forall k :: consumed <= k < |log| && k != j ==> Holds(c, mem', log[k])
    ensures MemoryOk(c, mem', Staged(log, j, stage), consumed, lo, hi)
  {
    var t := Staged(log, j, stage);
    forall k | consumed <= k < |t| ensures Clear(c, t[k], lo, hi) && Holds(c, mem', t[k]) {
      assert Clear(c, log[k], lo, hi);
    }
    forall x | 0 <= x < |mem'| && !(lo <= x < hi) && !Covered(c, t, consumed, x) ensures mem'[x] == Blank {
      StagedCovered(c, log, j, stage, consumed, x);
      assert !Inside(c, log[j], x);
    }
  }

  lemma AdvanceSenders(c: Config, s: State, i: nat, t: State)
    requires Inv(c, s) && i < |s.senders| && s.senders[i].pc.Filling? && Mine(s.hist, i, s.senders[i])
    requires var p := s.senders[i].pc;
             t.senders == s.senders[i := Sender(if p.stage < 3 then p.(stage := p.stage + 1) else Marked(p.at,
                   p.rewind), s.senders[i].mine)]
    requires var j := s.senders[i].mine; t.hist == s.hist.(log := Staged(s.hist.log, j, s.hist.log[j].stage + 1))
    requires t.from == s.from && t.to == s.to && t.recv == s.recv
    ensures SendersOk(c, t)
  {
    var j := s.senders[i].mine;
    assert SenderOk(c, s.from, s.to, s.recv, s.hist, i, s.senders[i]);
    StagedEndAt(c, s.hist.log, j, s.hist.log[j].stage + 1, j);
    forall k | 0 <= k < |t.senders| ensures SenderOk(c, t.from, t.to, t.recv, t.hist, k, t.senders[k]) {
      if k != i { StagedSender(c, s, j, s.hist.log[j].stage + 1, k); }
    }
  }

  lemma AdvanceStages(c: Config, s: State, i: nat, t: State)
    requires Inv(c, s) && i < |s.senders| && s.senders[i].pc.Filling? && Mine(s.hist, i, s.senders[i])
    requires var j := s.senders[i].mine; s.hist.log[j].stage < 4
    requires var j := s.senders[i].mine; t.hist == s.hist.(log := Staged(s.hist.log, j, s.hist.log[j].stage + 1))
    requires |t.senders| == |s.senders| && t.senders[i].mine == s.senders[i].mine
    requires forall k :: 0 <= k < |s.senders| && k != i ==> t.senders[k] == s.senders[k]
    requires t.hist.log[s.senders[i].mine].stage < 4 ==> t.senders[i].pc.Filling?
    ensures StagesOk(t.hist, t.senders)
  {
    forall k | 0 <= k < |t.hist.log| ensures StageOk(t.hist, t.senders, k) {
      assert StageOk(s.hist, s.senders, k);
    }
  }

  /** A write that brings the message of sender i one stage further keeps the invariant. */
  lemma AdvanceKeeps(c: Config, s: State, i: nat, mem: seq<Cell>, pc: Pc)
    requires Inv(c, s) && i < |s.senders| && s.senders[i].pc.Filling? && |mem| == |s.mem|
    requires Mine(s.hist, i, s.senders[i]) && s.hist.log[s.senders[i].mine].stage == s.senders[i].pc.stage < 4
    requires var p := s.senders[i].pc;
             pc == if p.stage < 3 then p.(stage := p.stage + 1) else Marked(p.at, p.rewind)
    requires forall x :: 0 <= x < |mem| && !Inside(c, s.hist.log[s.senders[i].mine], x) ==> mem[x] == s.mem[x]
    requires var r := s.hist.log[s.senders[i].mine]; Holds(c, mem, r.(stage := r.stage + 1))
    ensures Inv(c, Advance(s, i, mem, pc))
  {
    var j, h := s.senders[i].mine, s.hist;
    var stage := h.log[j].stage + 1;
    var t := Advance(s, i, mem, pc);
    assert t.hist == h.(log := Staged(h.log, j, stage));
    StagedLog(c, h.log, j, stage);
    StagedPaces(c, s, j, stage);
    StagedMemory(c, s, j, stage, mem);
    AdvanceSenders(c, s, i, t);
    AdvanceStages(c, s, i, t);
    AdvanceObligations(c, s, i, t);
  }

  lemma AdvanceObligations(c: Config, s: State, i: nat, t: State)
    requires Inv(c, s) && i < |s.senders| && s.senders[i].pc.Filling? && Mine(s.hist, i, s.senders[i])
    requires var j := s.senders[i].mine; t.hist == s.hist.(log := Staged(s.hist.log, j, s.hist.log[j].stage + 1))
    requires t.from == s.from && |t.senders| == |s.senders| && t.senders[i].mine == s.senders[i].mine
    requires forall k :: 0 <= k < |s.senders| && k != i ==> t.senders[k] == s.senders[k]
    requires t.senders[i].pc.Filling? || t.senders[i].pc.Marked?
    requires t.hist.log[t.senders[i].mine].stage == 4 ==> t.senders[i].pc.Marked?
    ensures ObligationsOk(t.from, t.hist, t.senders)
  {
    if AtReady(t.from, t.hist) {
      if t.senders[i].mine == t.hist.passed {
        assert Obliged(t.from, t.hist, t.senders[i]);
      } else {
        assert AtReady(s.from, s.hist);
        var w :| 0 <= w < |s.senders| && Obliged(s.from, s.hist, s.senders[w]);
        assert Obliged(t.from, t.hist, t.senders[w]);
      }
    }
    forall k | 0 <= k < |t.hist.log| ensures PendingOk(t.from, t.hist, t.senders, k) {
      assert PendingOk(s.from, s.hist, s.senders, k);
    }
  }

  // ----- Each write turns a message of one stage into a message of the next -----

  lemma HeaderHolds(c: Config, mem: seq<Cell>, r: Record)
    requires Holds(c, mem, r) && r.stage == 0
    ensures Holds(c, WriteHeader(c, mem, r.start, r.header), r.(stage := 1))
  {
  }

  lemma SizeHolds(c: Config, mem: seq<Cell>, r: Record)
    requires Holds(c, mem, r) && r.stage == 1
    ensures Holds(c, WriteSize(c, mem, r.start, |r.content|), r.(stage := 2))
  {
  }

  lemma ContentHolds(c: Config, mem: seq<Cell>, r: Record)
    requires Holds(c, mem, r) && r.stage == 2
    ensures Holds(c, WriteContent(c, mem, r.start, r.content), r.(stage := 3))
  {
  }

  lemma ReadyHolds(c: Config, mem: seq<Cell>, r: Record)
    requires ValidConfig(c) && Holds(c, mem, r) && Fits(c, r) && r.stage == 3
    ensures Holds(c, MarkReady(c, mem, r.start), r.(stage := 4))
  {
    forall x | Inside(c, r, x)
      ensures MarkReady(c, mem, r.start)[x] == CellOf(c, r.(stage := 4), x - r.start)
    {
      assert mem[x] == CellOf(c, r, x - r.start);
    }
  }

  /** The message a filling sender is writing. */
  lemma MessageOf(c: Config, s: State, i: nat)
    requires Inv(c, s) && i < |s.senders| && s.senders[i].pc.Filling?
    ensures Mine(s.hist, i, s.senders[i])
    ensures var p, r := s.senders[i].pc, s.hist.log[s.senders[i].mine];
            && r.start == p.at && r.header == p.header && r.content == p.content && r.stage == p.stage < 4
            && Holds(c, s.mem, r) && Fits(c, r)
  {
    assert SenderOk(c, s.from, s.to, s.recv, s.hist, i, s.senders[i]);
  }

  lemma PutHeaderKeeps(c: Config, s: State, i: nat)
    requires Inv(c, s) && Enabled(c, s, PutHeader(i))
    ensures Inv(c, Apply(c, s, PutHeader(i)))
  {
    MessageOf(c, s, i);
    HeaderHolds(c, s.mem, s.hist.log[s.senders[i].mine]);
    var p := s.senders[i].pc;
    AdvanceKeeps(c, s, i, WriteHeader(c, s.mem, p.at, p.header), p.(stage := 1));
  }

  lemma PutSizeKeeps(c: Config, s: State, i: nat)
    requires Inv(c, s) && Enabled(c, s, PutSize(i))
    ensures Inv(c, Apply(c, s, PutSize(i)))
  {
    MessageOf(c, s, i);
    SizeHolds(c, s.mem, s.hist.log[s.senders[i].mine]);
    var p := s.senders[i].pc;
    AdvanceKeeps(c, s, i, WriteSize(c, s.mem, p.at, |p.content|), p.(stage := 2));
  }

  lemma PutContentKeeps(c: Config, s: State, i: nat)
    requires Inv(c, s) && Enabled(c, s, PutContent(i))
    ensures Inv(c, Apply(c, s, PutContent(i)))
  {
    MessageOf(c, s, i);
    ContentHolds(c, s.mem, s.hist.log[s.senders[i].mine]);
    var p := s.senders[i].pc;
    AdvanceKeeps(c, s, i, WriteContent(c, s.mem, p.at, p.content), p.(stage := 3));
  }

  lemma PutReadyKeeps(c: Config, s: State, i: nat)
    requires ValidConfig(c) && Inv(c, s) && Enabled(c, s, PutReady(i))
    ensures Inv(c, Apply(c, s, PutReady(i)))
  {
    MessageOf(c, s, i);
    ReadyHolds(c, s.mem, s.hist.log[s.senders[i].mine]);
    var p := s.senders[i].pc;
    AdvanceKeeps(c, s, i, MarkReady(c, s.mem, p.at), Marked(p.at, p.rewind));
  }
}
