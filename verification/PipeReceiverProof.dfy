/** The receiver: polling, jumping to the next lap, consuming and blanking. */
module PipeReceiverProof {
  import opened PipeModel
  import opened PipeInvariant
  import opened PipePositions
  import opened PipeSenderProof
  import opened PipeFillProof

  /** Histories that agree on the messages and on what has been passed. */
  predicate SameLog(h: History, h': History) { h'.log == h.log && h'.passed == h.passed }

  /** The receiver moving on inside the lap, or into the next one, leaves every sender's clause alone. */
  lemma RecvSenders(c: Config, s: State, t: State)
    requires Inv(c, s) && SameLog(s.hist, t.hist)
    requires t.from == s.from && t.to == s.to && t.senders == s.senders
    requires (t.hist.recvLap == s.hist.recvLap && s.recv <= t.recv) || s.hist.recvLap + 1 == t.hist.recvLap <= s.to.lap
    ensures SendersOk(c, t)
  {
    hide MemoryOk, DeliveredOk, StagesOk, ObligationsOk, ReceiverOk;
    forall k | 0 <= k < |t.senders| ensures SenderOk(c, t.from, t.to, t.recv, t.hist, k, t.senders[k]) {
      assert SenderOk(c, s.from, s.to, s.recv, s.hist, k, s.senders[k]);
    }
  }

  lemma RecvObligations(c: Config, s: State, t: State)
    requires Inv(c, s) && SameLog(s.hist, t.hist) && t.from == s.from && t.senders == s.senders
    ensures ObligationsOk(t.from, t.hist, t.senders) && StagesOk(t.hist, t.senders)
  {
    if AtReady(t.from, t.hist) {
      var w :| 0 <= w < |s.senders| && Obliged(s.from, s.hist, s.senders[w]);
      assert Obliged(t.from, t.hist, t.senders[w]);
    }
    forall j | 0 <= j < |t.hist.log| ensures PendingOk(t.from, t.hist, t.senders, j) && StageOk(t.hist, t.senders, j) {
      assert PendingOk(s.from, s.hist, s.senders, j) && StageOk(s.hist, s.senders, j);
    }
  }

  lemma RecvLoadKeeps(c: Config, s: State)
    requires Inv(c, s) && s.receiver.Polling?
    ensures Inv(c, s.(receiver := LoadedFrom(s.from), hist := s.hist.(seen := s.hist.passed)))
  {
    var t := s.(receiver := LoadedFrom(s.from), hist := s.hist.(seen := s.hist.passed));
    RecvSenders(c, s, t);
    RecvObligations(c, s, t);
  }

  lemma RecvPcOnly(c: Config, s: State, receiver: Receiver)
    requires Inv(c, s) && !s.receiver.Clearing? && !receiver.Clearing?
    requires ReceiverOk(c, s.from, s.recv, s.hist, receiver)
    ensures Inv(c, s.(receiver := receiver))
  {
    var t := s.(receiver := receiver);
    RecvSenders(c, s, t);
  }

  /** sender_pace_from_ seen ahead in the same lap: there is a passed message at the receiver. */
  lemma AheadMeansMessage(c: Config, s: State)
    requires Inv(c, s) && s.receiver.LoadedFrom? && s.recv < s.receiver.pace.off
    ensures s.hist.consumed < s.hist.passed && RecvPos(s.recv, s.hist) == StartPos(s.hist.log[s.hist.consumed])
  {
    var h, f := s.hist, s.receiver.pace;
    ToOrder(c, s.from, s.to, s.recv, h);
    assert f.lap == h.recvLap;
    if h.consumed < |h.log| { assert Follows(c, h.log, h.consumed); }
    if h.consumed < h.seen { EndOrder(c, h.log, h.consumed, h.seen); }
    if h.seen < |h.log| { EndOrder(c, h.log, h.seen, h.seen + 1); }
  }

  /** sender_pace_from_ seen behind: it is in the next lap; the receiver jumps there exactly when the
      next message does not start where the receiver stands. */
  lemma BehindMeansNextLap(c: Config, s: State, word: nat)
    requires ValidConfig(c) && Inv(c, s) && s.receiver.LoadedFrom? && s.receiver.pace.off < s.recv
    requires Observes(c, s.mem, s.recv, word)
    ensures s.receiver.pace.lap == s.hist.recvLap + 1 && s.hist.consumed < |s.hist.log|
    ensures if s.recv + MsgOffset(c) > c.size || word == BLANK_WORD
            then StartPos(s.hist.log[s.hist.consumed]) == Pos(s.hist.recvLap + 1, 0)
            else s.hist.consumed < s.hist.passed && RecvPos(s.recv, s.hist) == StartPos(s.hist.log[s.hist.consumed])
  {
    var h := s.hist;
    ToOrder(c, s.from, s.to, s.recv, h);
    assert Follows(c, h.log, h.consumed);
    if RecvPos(s.recv, h) == StartPos(h.log[h.consumed]) {
      FromOrder(c, s.from, h, h.consumed);
      assert Fits(c, h.log[h.consumed]);
      WordAt(c, s, h.consumed, word);
    } else {
      forall j | h.consumed <= j < |h.log| ensures h.log[j].lap != h.recvLap {
        if h.consumed < j { assert Before(c, h.log[h.consumed], h.log[j]); }
      }
      TailIsBlank(c, s, s.recv, word);
    }
  }

  lemma RecvDecideKeeps(c: Config, s: State, word: nat)
    requires ValidConfig(c) && Inv(c, s) && s.receiver.LoadedFrom? && Observes(c, s.mem, s.recv, word)
    ensures Inv(c, ApplyRecvDecide(c, s, word))
  {
    var f := s.receiver.pace;
    if s.recv < f.off {
      AheadMeansMessage(c, s);
      RecvPcOnly(c, s, Holding);
    } else if s.recv == f.off {
      RecvPcOnly(c, s, Polling);
    } else {
      BehindMeansNextLap(c, s, word);
      RecvPcOnly(c, s, if s.recv + MsgOffset(c) > c.size || word == BLANK_WORD then AtTail(f) else Holding);
    }
  }

  /** At the start of the next lap there is a passed message, unless sender_pace_from_ stood there too. */
  lemma AfterTheJump(c: Config, s: State)
    requires Inv(c, s) && s.receiver.AtTail?
    ensures s.receiver.pace.off != 0 ==> s.hist.consumed < s.hist.passed
  {
    assert Follows(c, s.hist.log, s.hist.consumed);
  }

  lemma RecvRewindKeeps(c: Config, s: State)
    requires Inv(c, s) && s.receiver.AtTail?
    ensures Inv(c, ApplyRecvRewind(s))
  {
    var t := ApplyRecvRewind(s);
    AfterTheJump(c, s);
    ToOrder(c, s.from, s.to, s.recv, s.hist);
    RecvSenders(c, s, t);
    RecvObligations(c, s, t);
  }

  // ----- MsgConsumed -----

  /** The message handed to the client is complete: its bytes are its image. */
  lemma HeldMessage(c: Config, s: State)
    requires ValidConfig(c) && Inv(c, s) && s.receiver.Holding?
    ensures var r := s.hist.log[s.hist.consumed];
            && CanPublish(c, s) && SizeOfWord(c, s.mem[s.recv + c.sizeOffset].word) == Len(c, r)
            && s.mem[s.recv .. s.recv + Len(c, r)] == Image(c, r.header, r.content)
  {
    var r := s.hist.log[s.hist.consumed];
    assert Holds(c, s.mem, r) && Fits(c, r);
    ReadyWords(c, r);
    SizeField(c, s.mem, r, 0);
    var image := Image(c, r.header, r.content);
    forall k | 0 <= k < Len(c, r) ensures s.mem[s.recv + k] == image[k] {
      assert Inside(c, r, s.recv + k);
    }
  }

  lemma PublishMemory(c: Config, s: State)
    requires Inv(c, s) && s.receiver.Holding?
    ensures var r := s.hist.log[s.hist.consumed];
            MemoryOk(c, s.mem, s.hist.log, s.hist.consumed + 1, s.recv, s.recv + Len(c, r))
  {
    var h := s.hist;
    var r := h.log[h.consumed];
    forall j | h.consumed + 1 <= j < |h.log| ensures Clear(c, h.log[j], s.recv, s.recv + Len(c, r)) {
      LiveApart(c, s.from, s.to, s.recv, h, h.consumed, j);
    }
    forall x | 0 <= x < |s.mem| && !(s.recv <= x < s.recv + Len(c, r)) && !Covered(c, h.log, h.consumed + 1, x)
      ensures s.mem[x] == Blank
    {
      assert !Inside(c, r, x);
      assert !Covered(c, h.log, h.consumed, x);
    }
  }

  lemma PublishPaces(c: Config, s: State, t: State)
    requires Inv(c, s) && s.receiver.Holding? && SameLog(s.hist, t.hist)
    requires t.from == s.from && t.to == s.to
    requires t.hist.consumed == s.hist.consumed + 1 && t.hist.recvLap == s.hist.recvLap
    requires t.recv == s.recv + Len(c, s.hist.log[s.hist.consumed])
    ensures PacesOk(c, t.from, t.to, t.recv, t.hist)
  {
    FromOrder(c, s.from, s.hist, s.hist.consumed);
    ToOrder(c, s.from, s.to, s.recv, s.hist);
  }

  lemma RecvPublishKeeps(c: Config, s: State)
    requires ValidConfig(c) && Inv(c, s) && s.receiver.Holding? && CanPublish(c, s)
    ensures Inv(c, ApplyRecvPublish(c, s))
  {
    var t := ApplyRecvPublish(c, s);
    HeldMessage(c, s);
    PublishMemory(c, s);
    PublishPaces(c, s, t);
    RecvSenders(c, s, t);
    RecvObligations(c, s, t);
  }

  lemma ClearMemory(c: Config, mem: seq<Cell>, log: seq<Record>, consumed: nat, lo: nat, hi: nat)
    requires MemoryOk(c, mem, log, consumed, lo, hi)
    ensures MemoryOk(c, SetBlank(mem, lo, hi), log, consumed, 0, 0)
  {
    var m := SetBlank(mem, lo, hi);
    forall j | consumed <= j < |log| ensures Holds(c, m, log[j]) && Clear(c, log[j], 0, 0) {
      assert Holds(c, mem, log[j]) && Clear(c, log[j], lo, hi);
    }
  }

  lemma RecvClearKeeps(c: Config, s: State)
    requires Inv(c, s) && s.receiver.Clearing?
    ensures Inv(c, s.(mem := SetBlank(s.mem, s.receiver.orig, s.recv), receiver := Polling))
  {
    var t := s.(mem := SetBlank(s.mem, s.receiver.orig, s.recv), receiver := Polling);
    ClearMemory(c, s.mem, s.hist.log, s.hist.consumed, s.receiver.orig, s.recv);
    RecvSenders(c, s, t);
  }
}
