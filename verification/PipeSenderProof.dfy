/** Actions that change one sender's program counter and nothing else. */
module PipeSenderProof {
  import opened Options
  import opened PipeModel
  import opened PipeInvariant
  import opened PipePositions

  /** A sender may change its program counter if its own clause holds again and it drops no obligation. */
  lemma PcOnly(c: Config, s: State, i: nat, pc: Pc)
    requires Inv(c, s) && i < |s.senders|
    requires !s.senders[i].pc.Filling?
    requires SenderOk(c, s.from, s.to, s.recv, s.hist, i, s.senders[i].(pc := pc))
    requires Obliged(s.from, s.hist, s.senders[i]) && AtReady(s.from, s.hist) ==>
               Obliged(s.from, s.hist, s.senders[i].(pc := pc))
    requires var mine := s.senders[i].mine;
             WillRewind(s.senders[i], mine) && Pending(s.from, s.hist, mine) ==>
                   WillRewind(s.senders[i].(pc := pc), mine)
    ensures Inv(c, SetPc(s, i, pc))
  {
    var t := SetPc(s, i, pc);
    if AtReady(s.from, s.hist) {
      var w :| 0 <= w < |s.senders| && Obliged(s.from, s.hist, s.senders[w]);
      assert Obliged(t.from, t.hist, t.senders[w]);
    }
    forall j | 0 <= j < |t.hist.log| ensures StageOk(t.hist, t.senders, j) && PendingOk(t.from, t.hist, t.senders, j) {
      assert StageOk(s.hist, s.senders, j) && PendingOk(s.from, s.hist, s.senders, j);
    }
  }

  lemma LoadToKeeps(c: Config, s: State, i: nat, header: int, content: string)
    requires Inv(c, s) && Enabled(c, s, LoadTo(i, header, content))
    ensures Inv(c, Apply(c, s, LoadTo(i, header, content)))
  {
    PcOnly(c, s, i, LoadedTo(header, content, s.to));
  }

  lemma LoadRecvKeeps(c: Config, s: State, i: nat)
    requires Inv(c, s) && Enabled(c, s, LoadRecv(i))
    ensures Inv(c, Apply(c, s, LoadRecv(i)))
  {
    var p := s.senders[i].pc;
    assert SenderOk(c, s.from, s.to, s.recv, s.hist, i, s.senders[i]);
    ToOrder(c, s.from, s.to, s.recv, s.hist);
    PcOnly(c, s, i, LoadedRecv(p.header, p.content, p.pace, s.recv));
  }

  lemma LoadFromKeeps(c: Config, s: State, i: nat)
    requires Inv(c, s) && i < |s.senders| && s.senders[i].pc.Marked?
    ensures Inv(c, ApplyLoadFrom(s, i))
  {
    var p, mine, h := s.senders[i].pc, s.senders[i].mine, s.hist;
    assert SenderOk(c, s.from, s.to, s.recv, h, i, s.senders[i]);
    FromOrder(c, s.from, h, mine);
    ToOrder(c, s.from, s.to, s.recv, h);
    if h.passed <= mine && h.log[mine].lap > 0 && p.at == 0 {
      RewinderAhead(c, s.from, s.to, s.recv, h, mine);
    }
    if p.at == 0 && h.log[mine].lap == 0 && mine > 0 {
      FirstOfLapZero(c, h.log, mine);
    }
    if s.from.off == p.at {
      if h.log[mine].lap > s.from.lap { LiveWhere(c, s.from, s.to, s.recv, h, mine); }
      PcOnly(c, s, i, Measuring(s.from));
    } else if p.at == 0 {
      PcOnly(c, s, i, Waiting(p.at, p.rewind, s.from.lap));
    } else {
      PcOnly(c, s, i, Idle);
    }
  }

  lemma SpinKeeps(c: Config, s: State, i: nat)
    requires Inv(c, s) && i < |s.senders| && s.senders[i].pc.Waiting?
    ensures Inv(c, ApplySpin(s, i))
  {
    var p := s.senders[i].pc;
    assert SenderOk(c, s.from, s.to, s.recv, s.hist, i, s.senders[i]);
    if Some(s.from.off) == p.rewind {
      RewinderAhead(c, s.from, s.to, s.recv, s.hist, s.senders[i].mine);
      PcOnly(c, s, i, Rewinding(p.lap));
    }
  }

  /** The four bytes of the size field of a message in memory. */
  lemma SizeField(c: Config, mem: seq<Cell>, r: Record, k: nat)
    requires Holds(c, mem, r) && k < 4
    ensures mem[r.start + c.sizeOffset + k] == if r.stage >= 2 then SizeByte(ExpectedWord(r), k) else Blank
  {
    assert Inside(c, r, r.start + c.sizeOffset + k);
  }

  lemma ReadyWords(c: Config, r: Record)
    requires ValidConfig(c) && Fits(c, r) && r.stage <= 4
    ensures ExpectedWord(r) < BLANK_WORD
    ensures IsReadyWord(ExpectedWord(r)) <==> r.stage == 4
    ensures SizeOfWord(c, ExpectedWord(r)) == Len(c, r)
  {
  }

  /** What the size field of a message in memory reads as. */
  lemma WordOf(c: Config, mem: seq<Cell>, r: Record, word: nat)
    requires ValidConfig(c) && Holds(c, mem, r) && Fits(c, r) && r.stage <= 4
    requires Observes(c, mem, r.start, word)
    ensures word == if r.stage < 2 then BLANK_WORD else ExpectedWord(r)
  {
    SizeField(c, mem, r, 0);
    SizeField(c, mem, r, 1);
    SizeField(c, mem, r, 2);
    SizeField(c, mem, r, 3);
  }

  lemma WordAt(c: Config, s: State, j: nat, word: nat)
    requires ValidConfig(c) && Inv(c, s) && s.hist.consumed <= j < |s.hist.log|
    requires Observes(c, s.mem, s.hist.log[j].start, word)
    ensures word == if s.hist.log[j].stage < 2 then BLANK_WORD else ExpectedWord(s.hist.log[j])
    ensures IsReadyWord(word) <==> s.hist.log[j].stage == 4
    ensures s.hist.log[j].stage >= 2 ==> SizeOfWord(c, word) == Len(c, s.hist.log[j]) && word != BLANK_WORD
  {
    var r := s.hist.log[j];
    assert Holds(c, s.mem, r) && Fits(c, r) && StageOk(s.hist, s.senders, j);
    ReadyWords(c, r);
    WordOf(c, s.mem, r, word);
  }

  /** Behind the last message of a lap that has been given up, everything is blank. */
  lemma TailIsBlank(c: Config, s: State, at: nat, word: nat)
    requires ValidConfig(c) && Inv(c, s)
    requires s.to.lap == s.hist.recvLap + 1 && s.recv <= at
    requires forall j :: s.hist.consumed <= j < |s.hist.log| && s.hist.log[j].lap == s.hist.recvLap ==>
               s.hist.log[j].start + Len(c, s.hist.log[j]) <= at
    requires Observes(c, s.mem, at, word)
    ensures word == BLANK_WORD
  {
    forall x | at <= x < |s.mem| ensures s.mem[x] == Blank {
      if Covered(c, s.hist.log, s.hist.consumed, x) {
        var j :| s.hist.consumed <= j < |s.hist.log| && Inside(c, s.hist.log[j], x);
        LiveWhere(c, s.from, s.to, s.recv, s.hist, j);
        assert false;
      }
    }
  }

  /** Messages at or behind the gap are in the next lap. */
  lemma LiveAfterGap(c: Config, s: State, j: nat)
    requires Inv(c, s) && AtGap(s.from, s.hist) && s.hist.passed <= j < |s.hist.log|
    ensures s.hist.log[j].lap > s.from.lap
  {
    var h := s.hist;
    assert Follows(c, h.log, h.passed);
    FromOrder(c, s.from, h, h.passed);
    if h.passed < j { assert Before(c, h.log[h.passed], h.log[j]); }
  }

  /** At the gap sender_pace_from_ reads as blank. */
  lemma GapIsBlank(c: Config, s: State, word: nat)
    requires ValidConfig(c) && Inv(c, s) && AtGap(s.from, s.hist) && Observes(c, s.mem, s.from.off, word)
    ensures word == BLANK_WORD
  {
    var h := s.hist;
    ToOrder(c, s.from, s.to, s.recv, h);
    EndOrder(c, h.log, h.passed, |h.log|);
    assert Follows(c, h.log, h.passed);
    forall j | h.consumed <= j < |h.log| && h.log[j].lap == h.recvLap
      ensures h.log[j].start + Len(c, h.log[j]) <= s.from.off
    {
      FromOrder(c, s.from, h, j);
      if h.passed <= j { LiveAfterGap(c, s, j); }
    }
    TailIsBlank(c, s, s.from.off, word);
  }

  /** In terms of the log, a timely size read finds blank, or the ready message at sender_pace_from_. */
  lemma TimelyMeansReady(c: Config, s: State, i: nat, word: nat)
    requires ValidConfig(c) && Inv(c, s) && i < |s.senders| && s.senders[i].pc.Measuring?
    requires Observes(c, s.mem, s.senders[i].pc.pace.off, word)
    requires s.senders[i].pc.pace == s.from && word != BLANK_WORD
    ensures TimelyMeasure(s, i, word) <==> AtReady(s.from, s.hist)
    ensures AtReady(s.from, s.hist) ==> SizeOfWord(c, word) == Len(c, s.hist.log[s.hist.passed])
  {
    ToOrder(c, s.from, s.to, s.recv, s.hist);
    if AtGap(s.from, s.hist) {
      GapIsBlank(c, s, word);
    } else if s.hist.passed < |s.hist.log| {
      WordAt(c, s, s.hist.passed, word);
    }
  }

  lemma MeasureToIdle(c: Config, s: State, i: nat)
    requires Inv(c, s) && i < |s.senders| && s.senders[i].pc.Measuring?
    requires s.senders[i].pc.pace == s.from ==> !AtReady(s.from, s.hist)
    ensures Inv(c, SetPc(s, i, Idle))
  {
    PcOnly(c, s, i, Idle);
  }

  lemma MeasureToPassing(c: Config, s: State, i: nat, next: nat)
    requires Inv(c, s) && i < |s.senders| && s.senders[i].pc.Measuring?
    requires s.senders[i].pc.pace == s.from ==>
               AtReady(s.from, s.hist) && next == s.from.off + Len(c, s.hist.log[s.hist.passed])
    ensures Inv(c, SetPc(s, i, Passing(s.senders[i].pc.pace, next)))
  {
    assert SenderOk(c, s.from, s.to, s.recv, s.hist, i, s.senders[i]);
    PcOnly(c, s, i, Passing(s.senders[i].pc.pace, next));
  }

  lemma MeasureKeeps(c: Config, s: State, i: nat, word: nat)
    requires ValidConfig(c) && Inv(c, s) && i < |s.senders| && s.senders[i].pc.Measuring?
    requires Observes(c, s.mem, s.senders[i].pc.pace.off, word) && TimelyMeasure(s, i, word)
    ensures Inv(c, ApplyMeasure(c, s, i, word))
  {
    var pace := s.senders[i].pc.pace;
    if word == BLANK_WORD {
      assert pace == s.from ==> !AtReady(s.from, s.hist) by {
        if pace == s.from && AtReady(s.from, s.hist) { WordAt(c, s, s.hist.passed, word); }
      }
      MeasureToIdle(c, s, i);
    } else {
      var next := pace.off + SizeOfWord(c, word);
      assert pace == s.from ==> AtReady(s.from, s.hist) && next == s.from.off + Len(c, s.hist.log[s.hist.passed]) by {
        if pace == s.from { TimelyMeansReady(c, s, i, word); }
      }
      MeasureToPassing(c, s, i, next);
    }
  }

  lemma UntimelyMeasureBreaks(c: Config, s: State, i: nat, word: nat)
    requires ValidConfig(c) && Inv(c, s) && i < |s.senders| && s.senders[i].pc.Measuring?
    requires Observes(c, s.mem, s.senders[i].pc.pace.off, word) && !TimelyMeasure(s, i, word)
    ensures !Inv(c, ApplyMeasure(c, s, i, word))
  {
    TimelyMeansReady(c, s, i, word);
    var t := ApplyMeasure(c, s, i, word);
    assert !SenderOk(c, t.from, t.to, t.recv, t.hist, i, t.senders[i]);
  }

  lemma CheckToKeeps(c: Config, s: State, i: nat)
    requires Inv(c, s) && i < |s.senders| && s.senders[i].pc.Checking?
    ensures Inv(c, ApplyCheckTo(s, i))
  {
    var p := s.senders[i].pc;
    assert SenderOk(c, s.from, s.to, s.recv, s.hist, i, s.senders[i]);
    ToOrder(c, s.from, s.to, s.recv, s.hist);
    if p.from.off == s.to.off {
      PcOnly(c, s, i, Idle);
    } else {
      PcOnly(c, s, i, Probing(p.from));
    }
  }

  lemma ProbeKeeps(c: Config, s: State, i: nat, word: nat)
    requires ValidConfig(c) && Inv(c, s) && i < |s.senders| && s.senders[i].pc.Probing?
    requires Observes(c, s.mem, s.senders[i].pc.from.off, word)
    ensures Inv(c, ApplyProbe(s, i, word))
  {
    var p := s.senders[i].pc;
    assert SenderOk(c, s.from, s.to, s.recv, s.hist, i, s.senders[i]);
    if p.from == s.from {
      if AtGap(s.from, s.hist) { GapIsBlank(c, s, word); } else { WordAt(c, s, s.hist.passed, word); }
    }
    if IsReadyWord(word) {
      PcOnly(c, s, i, Measuring(p.from));
    } else {
      PcOnly(c, s, i, Idle);
    }
  }
}
