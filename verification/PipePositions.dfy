/** Consequences of the order of the log: where the three paces stand relative to the messages. */
module PipePositions {
  import opened PipeModel
  import opened PipeInvariant

  lemma EndOrder(c: Config, log: seq<Record>, j: nat, k: nat)
    requires LogOk(c, log) && j < k <= |log|
    ensures Lt(StartPos(log[j]), EndPos(c, log[j]))
    ensures Le(EndPos(c, log[j]), EndAt(c, log, k))
    ensures Le(EndAt(c, log, j), StartPos(log[j]))
    ensures EndAt(c, log, k).off > 0
  {
    if j + 1 < k {
      assert Before(c, log[j], log[k-1]);
    }
    assert Follows(c, log, j);
  }

  /** Messages already passed end at or before sender_pace_from_; the others start at or after it. */
  lemma FromOrder(c: Config, from: Pos, h: History, j: nat)
    requires LogOk(c, h.log) && h.passed <= |h.log| && FromOk(c, from, h) && j < |h.log|
    ensures j < h.passed ==> Le(EndPos(c, h.log[j]), from)
    ensures h.passed <= j ==> Le(from, StartPos(h.log[j]))
    ensures h.passed <= j ==> Le(from, EndAt(c, h.log, j)) || (j == h.passed && from == StartPos(h.log[j]))
    ensures from == StartPos(h.log[j]) ==> h.passed == j
  {
    if j < h.passed {
      EndOrder(c, h.log, j, h.passed);
      if h.passed < |h.log| { EndOrder(c, h.log, h.passed, h.passed + 1); }
    } else {
      EndOrder(c, h.log, j, j + 1);
      EndOrder(c, h.log, h.passed, h.passed + 1);
      if h.passed < j { EndOrder(c, h.log, h.passed, j); }
    }
  }

  /** The same for receiver_pace_ and the consumed messages. */
  lemma RecvOrder(c: Config, recv: nat, h: History, j: nat)
    requires LogOk(c, h.log) && h.consumed <= |h.log| && RecvOk(c, recv, h) && j < |h.log|
    ensures j < h.consumed ==> Le(EndPos(c, h.log[j]), RecvPos(recv, h))
    ensures h.consumed <= j ==> Le(RecvPos(recv, h), StartPos(h.log[j]))
  {
    FromOrder(c, RecvPos(recv, h), h.(passed := h.consumed), j);
  }

  lemma ToOrder(c: Config, from: Pos, to: Pos, recv: nat, h: History)
    requires LogOk(c, h.log) && PacesOk(c, from, to, recv, h)
    ensures Le(from, to) && to.off <= c.size && from.off <= c.size && recv <= c.size
    ensures from == to <==> h.passed == |h.log|
    ensures h.passed < |h.log| ==> Lt(from, to)
    ensures h.recvLap <= from.lap <= to.lap <= h.recvLap + 1
    ensures from.off == to.off ==> from == to
  {
    if h.passed < |h.log| {
      FromOrder(c, from, h, |h.log| - 1);
      EndOrder(c, h.log, |h.log| - 1, |h.log|);
    }
    OffsetsFit(c, h.log, |h.log|);
    OffsetsFit(c, h.log, h.passed);
    OffsetsFit(c, h.log, h.consumed);
  }

  lemma OffsetsFit(c: Config, log: seq<Record>, j: nat)
    requires LogOk(c, log) && j <= |log|
    ensures EndAt(c, log, j).off <= c.size
    ensures j < |log| ==> log[j].start <= c.size
  {
    if j > 0 { assert Fits(c, log[j-1]); }
    if j < |log| { assert Fits(c, log[j]); }
  }

  /** Unconsumed messages lie ahead of the receiver in its lap, or below sender_pace_to_ in the next. */
  lemma LiveWhere(c: Config, from: Pos, to: Pos, recv: nat, h: History, j: nat)
    requires LogOk(c, h.log) && PacesOk(c, from, to, recv, h) && h.consumed <= j < |h.log|
    ensures h.log[j].lap == h.recvLap ==> recv <= h.log[j].start
    ensures h.log[j].lap != h.recvLap ==>
              h.log[j].lap == h.recvLap + 1 == to.lap && h.log[j].start + Len(c, h.log[j]) <= to.off < recv
    ensures h.log[j].lap == to.lap ==> h.log[j].start + Len(c, h.log[j]) <= to.off
  {
    RecvOrder(c, recv, h, j);
    EndOrder(c, h.log, j, |h.log|);
  }

  /** Unconsumed messages occupy disjoint bytes. */
  lemma LiveApart(c: Config, from: Pos, to: Pos, recv: nat, h: History, j: nat, k: nat)
    requires LogOk(c, h.log) && PacesOk(c, from, to, recv, h) && h.consumed <= j < |h.log|
              && h.consumed <= k < |h.log| && j != k
    ensures Apart(h.log[j].start, h.log[j].start + Len(c, h.log[j]), h.log[k].start, h.log[k].start + Len(c, h.log[k]))
  {
    LiveWhere(c, from, to, recv, h, j);
    LiveWhere(c, from, to, recv, h, k);
    if j < k {
      assert Before(c, h.log[j], h.log[k]);
    } else {
      assert Before(c, h.log[k], h.log[j]);
    }
  }

  /** While the message at the start of a lap is not passed, sender_pace_from_ is inside the lap before. */
  lemma RewinderAhead(c: Config, from: Pos, to: Pos, recv: nat, h: History, j: nat)
    requires LogOk(c, h.log) && PacesOk(c, from, to, recv, h)
    requires h.passed <= j < |h.log| && h.log[j].start == 0 && h.log[j].lap > 0 && from != StartPos(h.log[j])
    ensures from.lap + 1 == h.log[j].lap && from.off > 0
    ensures EndAt(c, h.log, j).lap == from.lap
    ensures from.off == EndAt(c, h.log, j).off ==> h.passed == j
  {
    FromOrder(c, from, h, j);
    ToOrder(c, from, to, recv, h);
    EndOrder(c, h.log, j, |h.log|);
    assert Follows(c, h.log, j);
    if h.passed < j {
      EndOrder(c, h.log, h.passed, j);
      FromOrder(c, from, h, h.passed);
      EndOrder(c, h.log, h.passed, h.passed + 1);
    }
  }

  /** Only the very first message can start at offset 0 of lap 0. */
  lemma FirstOfLapZero(c: Config, log: seq<Record>, j: nat)
    requires LogOk(c, log) && 0 < j < |log|
    ensures log[j].start > 0 || log[j].lap > 0
  {
    assert Before(c, log[0], log[j]);
  }
}
