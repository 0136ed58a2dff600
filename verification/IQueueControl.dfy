/** Sequence tracking for the I-frames of one peer. */
module IQueueControl {
  import opened Base
  import opened SeqNum

  /** The four counters, as the octets the original keeps. */
  datatype Ctl = Ctl(confirmNs: byte, nextNs: byte, lastNs: byte, nextNr: byte) {
    predicate Valid() {
      confirmNs <= 7 && nextNs <= 7 && lastNs <= 7 && nextNr <= 7
    }

    predicate HasUnconfirmed() {
      confirmNs != lastNs
    }

    predicate AllSent() {
      nextNs == lastNs
    }

    predicate TxFull() {
      Succ(lastNs) == confirmNs
    }
  }

  const CTL_ZERO := Ctl(0, 0, 0, 0)

  /** The numbers an acknowledgement nr confirms, starting at c and going round until nr. */
  function Confirmed(c: byte, nr: byte): seq<byte>
    requires c <= 7 && nr <= 7
    decreases Gap(c, nr)
  {
    GapStep(c, nr);
    if c == nr then [] else SuccSmall(c); [c] + Confirmed(Succ(c), nr)
  }

  lemma ConfirmedUnfold(c: byte, nr: byte)
    requires c <= 7 && nr <= 7
    ensures c == nr ==> Confirmed(c, nr) == []
    ensures Succ(c) <= 7 && (c != nr ==> Confirmed(c, nr) == [c] + Confirmed(Succ(c), nr))
  {
    SuccSmall(c);
  }

  /** An acknowledgement of frame n confirms the frames from m to n - 1 when n is less than eight ahead. */
  lemma {:induction false} ConfirmedSeq(m: nat, n: nat)
    requires m <= n < m + 8
    ensures Confirmed(Seq(m), Seq(n)) == seq(n - m, i requires 0 <= i < n - m => Seq(m + i))
    decreases n - m
  {
    hide Seq;
    SeqEqual(m, n);
    if m < n {
      SeqSucc(m);
      ConfirmedSeq(m + 1, n);
      assert Confirmed(Seq(m), Seq(n)) == [Seq(m)] + Confirmed(Seq(m + 1), Seq(n));
    }
  }

  class IQueueControl {
    var lastNs: byte
    var confirmNs: byte
    var nextNs: byte
    var nextNr: byte

    ghost predicate Valid()
      reads this
    {
      View().Valid()
    }

    ghost function View(): Ctl
      reads this
    {
      Ctl(confirmNs, nextNs, lastNs, nextNr)
    }

    constructor ()
      ensures Valid() && View() == CTL_ZERO
    {
      lastNs, confirmNs, nextNs, nextNr := 0, 0, 0, 0;
    }

    method Reset()
      modifies this
      ensures Valid() && View() == CTL_ZERO
    {
      lastNs, confirmNs, nextNs, nextNr := 0, 0, 0, 0;
    }

    /** Confirms up to nr, collecting the confirmed numbers as the protocol's callback does. */
    method ConfirmSentFrames(nr: byte) returns (confirmed: bool, seqs: seq<byte>)
      requires Valid() && nr <= 7
      modifies this`confirmNs
      ensures Valid() && View() == old(View()).(confirmNs := nr)
      ensures seqs == Confirmed(old(confirmNs), nr)
      ensures confirmed <==> old(confirmNs) != nr
    {
      hide Gap;
      hide Succ;
      hide Confirmed;
      confirmed, seqs := false, [];
      ConfirmedUnfold(nr, nr);
      ConfirmedUnfold(confirmNs, nr);
      while confirmNs != nr
        invariant confirmNs <= 7
        invariant View() == old(View()).(confirmNs := confirmNs)
        invariant Confirmed(old(confirmNs), nr) == seqs + Confirmed(confirmNs, nr)
        invariant confirmed <==> seqs != []
        decreases Gap(confirmNs, nr)
      {
        GapStep(confirmNs, nr);
        ConfirmedUnfold(confirmNs, nr);
        assert seqs + ([confirmNs] + Confirmed(Succ(confirmNs), nr))
            == seqs + [confirmNs] + Confirmed(Succ(confirmNs), nr);
        seqs := seqs + [confirmNs];
        confirmNs := Succ(confirmNs);
        confirmed := true;
      }
    }

    /** Rewinds the next number to send. */
    method RetransmitFrame(nr: byte) returns (rewound: bool)
      requires Valid() && nr <= 7
      modifies this`nextNs
      ensures Valid() && View() == old(View()).(nextNs := nr)
      ensures rewound <==> old(nextNs) != nr
    {
      if nextNs == nr {
        return false;
      }
      nextNs := nr;
      return true;
    }

    method MoveToNextFrameToReceive()
      requires Valid()
      modifies this`nextNr
      ensures Valid() && View() == old(View()).(nextNr := Succ(old(nextNr)))
    {
      SuccSmall(nextNr);
      nextNr := Succ(nextNr);
    }

    method MoveToNextNs()
      requires Valid()
      modifies this`lastNs
      ensures Valid() && View() == old(View()).(lastNs := Succ(old(lastNs)))
    {
      SuccSmall(lastNs);
      lastNs := Succ(lastNs);
    }

    /** Undoes MoveToNextNs. */
    method MoveToPreviousNs()
      requires Valid()
      modifies this`lastNs
      ensures Valid() && Succ(lastNs) == old(lastNs)
      ensures View() == old(View()).(lastNs := lastNs)
    {
      lastNs := (lastNs - 1) & SEQ_BITS_MASK;
    }

    method AdvanceNextNs()
      requires Valid()
      modifies this`nextNs
      ensures Valid() && View() == old(View()).(nextNs := Succ(old(nextNs)))
    {
      SuccSmall(nextNs);
      nextNs := Succ(nextNs);
    }

    predicate HasUnconfirmedFrames()
      reads this
      ensures HasUnconfirmedFrames() <==> View().HasUnconfirmed()
    {
      confirmNs != lastNs
    }

    predicate AllFramesAreSent()
      reads this
      ensures AllFramesAreSent() <==> View().AllSent()
    {
      nextNs == lastNs
    }

    predicate TxFull()
      reads this
      ensures TxFull() <==> View().TxFull()
    {
      Succ(lastNs) == confirmNs
    }
  }
}
