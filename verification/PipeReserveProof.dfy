/** The reservation CAS on sender_pace_to_. */
module PipeReserveProof {
  import opened Options
  import opened PipeModel
  import opened PipeInvariant
  import opened PipePositions
  import opened PipeSenderProof

  /** Where a reservation goes although receiver_pace_ was loaded earlier: behind all messages, clear of
      every unconsumed one, and never up to the receiver. */
  lemma ReservationFacts(c: Config, s: State, i: nat, at: nat, to: Pos)
    requires Inv(c, s) && i < |s.senders| && s.senders[i].pc.LoadedRecv?
    requires var p := s.senders[i].pc;
             s.to == p.pace && Reservation(c, p.pace, p.recv, MsgOffset(c) + |p.content|) == Some((at, to))
    ensures var p := s.senders[i].pc;
            var need := MsgOffset(c) + |p.content|;
            && |p.content| <= c.maxContent && at + need == to.off <= c.size
            && Lt(s.to, to) && WithinALap(to, RecvPos(s.recv, s.hist))
            && (if Rewinds(c, p.pace, p.recv, need) then at == 0 && to.lap == s.to.lap + 1
                else at == s.to.off && to.lap == s.to.lap)
  {
    assert SenderOk(c, s.from, s.to, s.recv, s.hist, i, s.senders[i]);
    ToOrder(c, s.from, s.to, s.recv, s.hist);
  }

  lemma ReservedApart(c: Config, s: State, at: nat, to: Pos, need: nat, j: nat)
    requires LogOk(c, s.hist.log) && PacesOk(c, s.from, s.to, s.recv, s.hist) && s.hist.consumed <= j < |s.hist.log|
    requires at + need == to.off <= c.size && WithinALap(to, RecvPos(s.recv, s.hist))
    requires (at == 0 && to.lap == s.to.lap + 1) || (at == s.to.off && to.lap == s.to.lap)
    ensures Apart(s.hist.log[j].start, s.hist.log[j].start + Len(c, s.hist.log[j]), at, at + need)
  {
    LiveWhere(c, s.from, s.to, s.recv, s.hist, j);
  }

  lemma AppendEndAt(c: Config, log: seq<Record>, r: Record, k: nat)
    requires k <= |log|
    ensures EndAt(c, log + [r], k) == EndAt(c, log, k)
  {
  }

  lemma AppendLog(c: Config, log: seq<Record>, r: Record)
    requires LogOk(c, log) && Fits(c, r)
    requires StartPos(r) == EndAt(c, log, |log|) || StartPos(r) == Pos(EndAt(c, log, |log|).lap + 1, 0)
    ensures LogOk(c, log + [r])
  {
    var t := log + [r];
    forall j | 0 <= j < |t| ensures Fits(c, t[j]) && Follows(c, t, j) {
      AppendEndAt(c, log, r, j);
      if j < |log| { assert Fits(c, log[j]) && Follows(c, log, j); }
    }
    forall j, k | 0 <= j < k < |t| ensures Before(c, t[j], t[k]) {
      if k < |log| {
        assert Before(c, log[j], log[k]);
      } else {
        EndOrder(c, log, j, |log|);
      }
    }
  }

  lemma AppendMemory(c: Config, mem: seq<Cell>, log: seq<Record>, consumed: nat, lo: nat, hi: nat, r: Record)
    requires MemoryOk(c, mem, log, consumed, lo, hi) && consumed <= |log| && Fits(c, r) && r.stage == 0
    requires forall j :: consumed <= j < |log| ==>
               Apart(log[j].start, log[j].start + Len(c, log[j]), r.start, r.start + Len(c, r))
    requires Apart(r.start, r.start + Len(c, r), lo, hi)
    ensures MemoryOk(c, mem, log + [r], consumed, lo, hi)
  {
    var t := log + [r];
    forall x | Inside(c, r, x) ensures mem[x] == Blank {
      assert !Covered(c, log, consumed, x);
    }
    assert Holds(c, mem, r);
    forall j | consumed <= j < |t| ensures Holds(c, mem, t[j]) && Clear(c, t[j], lo, hi) {
      if j < |log| { assert Holds(c, mem, log[j]) && Clear(c, log[j], lo, hi); }
    }
    forall x | 0 <= x < |mem| && !(lo <= x < hi) && !Covered(c, t, consumed, x) ensures mem[x] == Blank {
      AppendCovered(c, log, r, consumed, x);
    }
  }

  lemma AppendCovered(c: Config, log: seq<Record>, r: Record, consumed: nat, x: int)
    ensures Covered(c, log, consumed, x) ==> Covered(c, log + [r], consumed, x)
  {
    if Covered(c, log, consumed, x) {
      var j :| consumed <= j < |log| && Inside(c, log[j], x);
      assert Inside(c, (log + [r])[j], x);
    }
  }

  lemma AppendPaces(c: Config, s: State, to: Pos, r: Record)
    requires Inv(c, s) && to == EndPos(c, r) && WithinALap(to, RecvPos(s.recv, s.hist))
    ensures var h := s.hist.(log := s.hist.log + [r]);
            && PacesOk(c, s.from, to, s.recv, h)
            && ReceiverOk(c, s.from, s.recv, h, s.receiver)
            && DeliveredOk(c, h)
  {
    var h := s.hist;
    AppendEndAt(c, h.log, r, h.passed);
    AppendEndAt(c, h.log, r, h.consumed);
    if h.seen <= |h.log| { AppendEndAt(c, h.log, r, h.seen); }
  }

  lemma AppendSender(c: Config, s: State, to: Pos, r: Record, k: nat)
    requires Inv(c, s) && Lt(s.to, to) && k < |s.senders|
    ensures SenderOk(c, s.from, to, s.recv, s.hist.(log := s.hist.log + [r]), k, s.senders[k])
  {
    assert SenderOk(c, s.from, s.to, s.recv, s.hist, k, s.senders[k]);
    if s.senders[k].mine < |s.hist.log| { AppendEndAt(c, s.hist.log, r, s.senders[k].mine); }
  }

  lemma AppendObligations(c: Config, s: State, i: nat, r: Record, snd: Sender)
    requires Inv(c, s) && i < |s.senders| && s.senders[i].pc.LoadedRecv?
    requires r.stage == 0 && r.owner == i && snd.pc.Filling? && snd.mine == |s.hist.log|
    ensures var h := s.hist.(log := s.hist.log + [r]);
            var senders := s.senders[i := snd];
            ObligationsOk(s.from, h, senders) && StagesOk(h, senders)
  {
    var h := s.hist.(log := s.hist.log + [r]);
    var senders := s.senders[i := snd];
    if AtReady(s.from, h) {
      assert AtReady(s.from, s.hist);
      var w :| 0 <= w < |s.senders| && Obliged(s.from, s.hist, s.senders[w]);
      assert Obliged(s.from, h, senders[w]);
    }
    forall k | 0 <= k < |h.log| ensures StageOk(h, senders, k) && PendingOk(s.from, h, senders, k) {
      if k < |s.hist.log| { assert StageOk(s.hist, s.senders, k) && PendingOk(s.from, s.hist, s.senders, k); }
    }
  }

  /** The message a successful reservation adds. */
  function NewRecord(s: State, i: nat, at: nat, to: Pos): Record
    requires i < |s.senders| && s.senders[i].pc.LoadedRecv?
  {
    Record(to.lap, at, s.senders[i].pc.header, s.senders[i].pc.content, 0, i)
  }

  lemma NewSenderOk(c: Config, from: Pos, to: Pos, recv: nat, h: History, r: Record, rewind: Option<nat>)
    requires h.passed <= |h.log| && r.stage == 0 && Le(from, EndAt(c, h.log, |h.log|))
    requires r.start == 0 && r.lap > 0 ==>
               rewind == Some(EndAt(c, h.log, |h.log|).off) && r.lap == EndAt(c, h.log, |h.log|).lap + 1
    ensures SenderOk(c, from, to, recv, h.(log := h.log + [r]), r.owner,
              Sender(Filling(r.start, rewind, r.header, r.content, 0), |h.log|))
  {
    AppendEndAt(c, h.log, r, |h.log|);
  }

  lemma ReserveSenders(c: Config, s: State, i: nat, at: nat, to: Pos, rewind: Option<nat>)
    requires Inv(c, s) && i < |s.senders| && s.senders[i].pc.LoadedRecv? && Lt(s.to, to)
    requires at == 0 && to.lap > 0 ==> rewind == Some(s.to.off) && to.lap == s.to.lap + 1
    ensures SendersOk(c, Reserve(s, i, at, to, rewind))
  {
    var r := NewRecord(s, i, at, to);
    var t := Reserve(s, i, at, to, rewind);
    ToOrder(c, s.from, s.to, s.recv, s.hist);
    NewSenderOk(c, s.from, to, s.recv, s.hist, r, rewind);
    forall k | 0 <= k < |t.senders| ensures SenderOk(c, t.from, t.to, t.recv, t.hist, k, t.senders[k]) {
      if k != i { AppendSender(c, s, to, r, k); }
    }
  }

  lemma ReserveMemory(c: Config, s: State, at: nat, to: Pos, r: Record)
    requires Inv(c, s) && Fits(c, r) && r.stage == 0 && r.start == at && EndPos(c, r) == to
    requires WithinALap(to, RecvPos(s.recv, s.hist))
    requires (at == 0 && to.lap == s.to.lap + 1) || (at == s.to.off && to.lap == s.to.lap)
    requires Apart(at, at + Len(c, r), ClearLo(s.receiver), ClearHi(s.receiver, s.recv))
    ensures MemoryOk(c, s.mem, s.hist.log + [r], s.hist.consumed, ClearLo(s.receiver), ClearHi(s.receiver, s.recv))
  {
    var h := s.hist;
    forall j | h.consumed <= j < |h.log|
      ensures Apart(h.log[j].start, h.log[j].start + Len(c, h.log[j]), at, at + Len(c, r))
    {
      ReservedApart(c, s, at, to, Len(c, r), j);
    }
    AppendMemory(c, s.mem, h.log, h.consumed, ClearLo(s.receiver), ClearHi(s.receiver, s.recv), r);
  }

  /** The clauses of the invariant, put together for the state after a reservation. */
  lemma ReserveInv(c: Config, s: State, i: nat, at: nat, to: Pos, rewind: Option<nat>)
    requires Inv(c, s) && i < |s.senders| && s.senders[i].pc.LoadedRecv?
    requires var r := NewRecord(s, i, at, to);
             var t := Reserve(s, i, at, to, rewind);
             && LogOk(c, s.hist.log + [r])
             && to == EndPos(c, r) && WithinALap(to, RecvPos(s.recv, s.hist))
             && MemoryOk(c, s.mem, s.hist.log + [r], s.hist.consumed, ClearLo(s.receiver), ClearHi(s.receiver, s.recv))
             && SendersOk(c, t)
    ensures Inv(c, Reserve(s, i, at, to, rewind))
  {
    var r := NewRecord(s, i, at, to);
    AppendPaces(c, s, to, r);
    AppendObligations(c, s, i, r, Reserve(s, i, at, to, rewind).senders[i]);
  }

  lemma ReserveKeeps(c: Config, s: State, i: nat, at: nat, to: Pos, rewind: Option<nat>)
    requires Inv(c, s) && i < |s.senders| && s.senders[i].pc.LoadedRecv?
    requires var need := MsgOffset(c) + |s.senders[i].pc.content|;
             && |s.senders[i].pc.content| <= c.maxContent && at + need == to.off <= c.size
             && Apart(at, at + need, ClearLo(s.receiver), ClearHi(s.receiver, s.recv))
    requires Lt(s.to, to) && WithinALap(to, RecvPos(s.recv, s.hist))
    requires if rewind.Some? then at == 0 && to.lap == s.to.lap + 1 && rewind.value == s.to.off
             else at == s.to.off && to.lap == s.to.lap
    ensures Inv(c, Reserve(s, i, at, to, rewind))
  {
    var r := NewRecord(s, i, at, to);
    AppendLog(c, s.hist.log, r);
    ReserveMemory(c, s, at, to, r);
    if |s.hist.log| > 0 { EndOrder(c, s.hist.log, |s.hist.log| - 1, |s.hist.log|); }
    ReserveSenders(c, s, i, at, to, rewind);
    ReserveInv(c, s, i, at, to, rewind);
  }

  lemma CasToFails(c: Config, s: State, i: nat)
    requires Inv(c, s) && i < |s.senders| && s.senders[i].pc.LoadedRecv?
    ensures Inv(c, SetPc(s, i, Idle))
  {
    PcOnly(c, s, i, Idle);
  }

  lemma CasToSucceeds(c: Config, s: State, i: nat, at: nat, to: Pos)
    requires Inv(c, s) && i < |s.senders| && s.senders[i].pc.LoadedRecv?
    requires var p := s.senders[i].pc;
             var need := MsgOffset(c) + |p.content|;
             && s.to == p.pace && Reservation(c, p.pace, p.recv, need) == Some((at, to))
             && Apart(at, at + need, ClearLo(s.receiver), ClearHi(s.receiver, s.recv))
    ensures var p := s.senders[i].pc;
            var rewind := if Rewinds(c, p.pace, p.recv, MsgOffset(c) + |p.content|) then Some(p.pace.off) else None;
            Inv(c, Reserve(s, i, at, to, rewind))
  {
    var p := s.senders[i].pc;
    var rewind := if Rewinds(c, p.pace, p.recv, MsgOffset(c) + |p.content|) then Some(p.pace.off) else None;
    ReservationFacts(c, s, i, at, to);
    ReserveKeeps(c, s, i, at, to, rewind);
  }

  lemma CasToKeeps(c: Config, s: State, i: nat)
    requires Inv(c, s) && i < |s.senders| && s.senders[i].pc.LoadedRecv? && TimelyReserve(c, s, i)
    ensures Inv(c, ApplyCasTo(c, s, i))
  {
    hide Inv;
    var p := s.senders[i].pc;
    var r := Reservation(c, p.pace, p.recv, MsgOffset(c) + |p.content|);
    if r.Some? && s.to == p.pace {
      CasToSucceeds(c, s, i, r.value.0, r.value.1);
    } else {
      CasToFails(c, s, i);
    }
  }

  /** A reservation of bytes still to be blanked breaks the separation of messages and cleared bytes. */
  lemma UntimelyReserveBreaks(c: Config, s: State, i: nat)
    requires Inv(c, s) && i < |s.senders| && s.senders[i].pc.LoadedRecv? && !TimelyReserve(c, s, i)
    ensures !Inv(c, ApplyCasTo(c, s, i))
  {
    var p := s.senders[i].pc;
    var need := MsgOffset(c) + |p.content|;
    var (at, to) := Reservation(c, p.pace, p.recv, need).value;
    var t := ApplyCasTo(c, s, i);
    var j := |s.hist.log|;
    assert !Clear(c, t.hist.log[j], ClearLo(t.receiver), ClearHi(t.receiver, t.recv));
  }
}
