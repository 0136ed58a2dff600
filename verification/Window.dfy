/**
 The sliding window of one peer and the shared slot array agree: between the confirmed
 and the last allocated frame there is exactly one occupied slot per frame, holding the
 payload that was sent.
 */
module Window {
  import opened Base
  import opened SeqNum
  import opened FdDefs
  import opened IQueueControl
  import opened FrameQueue

  type Log = seq<seq<byte>>

  /** An I-frame queued for this address. */
  predicate Mine(s: Slot, address: byte) {
    s.Some? && s.value.frameType == IFrame && s.value.header.address == address
  }

  function Ns(s: Slot): byte
    requires s.Some?
  {
    HighSeq(s.value.header.control)
  }

  /** The slot holds the payload of the frame its number denotes in the window from c to l. */
  predicate Holds(s: Slot, c: nat, l: nat, log: Log)
    requires s.Some? && l <= |log|
  {
    var i := IndexFrom(c, Ns(s));
    i < l && s.value.payload == log[i]
  }

  ghost predicate Sound(slots: seq<Slot>, address: byte, c: nat, l: nat, log: Log)
    requires l <= |log|
  {
    forall j :: 0 <= j < |slots| && Mine(slots[j], address) ==> Holds(slots[j], c, l, log)
  }

  ghost predicate NoTwins(slots: seq<Slot>, address: byte) {
    forall j, k | 0 <= j < |slots| && 0 <= k < |slots| && Mine(slots[j], address) && Mine(slots[k], address) ::
      Ns(slots[j]) == Ns(slots[k]) ==> j == k
  }

  ghost predicate Complete(slots: seq<Slot>, address: byte, c: nat, l: nat) {
    forall i: nat {:trigger Seq(i)} :: c <= i < l ==> Has(slots, address, Seq(i))
  }

  ghost predicate Has(slots: seq<Slot>, address: byte, ns: byte) {
    exists j :: 0 <= j < |slots| && Mine(slots[j], address) && Ns(slots[j]) == ns
  }

  /** Frames c to l - 1 of the log are in the slots for this address, each once, and nothing else is. */
  ghost predicate Agrees(slots: seq<Slot>, address: byte, c: nat, l: nat, log: Log) {
    && c <= l <= c + 7 && l <= |log|
    && Sound(slots, address, c, l, log)
    && NoTwins(slots, address)
    && Complete(slots, address, c, l)
  }

  // ----- Allocating, looking up, releasing -----

  lemma IndexInWindow(c: nat, i: nat)
    requires c <= i < c + 8
    ensures IndexFrom(c, Seq(i)) == i
  {
    IndexFromSeq(c, Seq(i));
  }

  /** A queued frame numbered l extends the window by one. */
  lemma AllocateAgrees(slots: seq<Slot>, address: byte, c: nat, l: nat, log: Log, j: nat, f: FrameInfo)
    requires Agrees(slots, address, c, l, log) && l == |log| < c + 7
    requires j < |slots| && slots[j].None?
    requires f.frameType == IFrame && f.header.address == address && HighSeq(f.header.control) == Seq(l)
    ensures Agrees(slots[j := Some(f)], address, c, l + 1, log + [f.payload])
  {
    hide Seq;
    hide IndexFrom;
    hide HighSeq;
    IndexInWindow(c, l);
    forall i: nat | c <= i < l + 1 ensures Has(slots[j := Some(f)], address, Seq(i)) {
      if i < l {
        assert Has(slots, address, Seq(i));
        var k :| 0 <= k < |slots| && Mine(slots[k], address) && Ns(slots[k]) == Seq(i);
        assert Mine(slots[j := Some(f)][k], address);
      } else {
        assert Mine(slots[j := Some(f)][j], address);
      }
    }
  }

  /** Looking a frame of the window up by its number finds its payload. */
  lemma FindAgrees(slots: seq<Slot>, address: byte, c: nat, l: nat, log: Log, ns: byte)
    requires Agrees(slots, address, c, l, log) && ns <= 7
    ensures var r := Find(slots, IFrame, address, ns, 0);
      && (r.Some? <==> IndexFrom(c, ns) < l)
      && (r.Some? ==> slots[r.value].value.payload == log[IndexFrom(c, ns)])
  {
    hide IndexFrom;
    hide HighSeq;
    IndexFromSeq(c, ns);
    var r := Find(slots, IFrame, address, ns, 0);
    if r.Some? {
      assert Mine(slots[r.value], address);
    }
    if IndexFrom(c, ns) < l {
      assert Has(slots, address, Seq(IndexFrom(c, ns)));
      var k :| 0 <= k < |slots| && Mine(slots[k], address) && Ns(slots[k]) == ns;
      assert Matches(slots[k], IFrame, address, ns);
    }
  }

  lemma FreeOneAgrees(slots: seq<Slot>, address: byte, c: nat, l: nat, log: Log)
    requires Agrees(slots, address, c, l, log) && c < l
    ensures Agrees(ReleaseNs(slots, address, Seq(c)), address, c + 1, l, log)
  {
    hide IndexFrom;
    hide HighSeq;
    hide Seq;
    var after := ReleaseNs(slots, address, Seq(c));
    IndexInWindow(c, c);
    FindAgrees(slots, address, c, l, log, Seq(c));
    var gone := Find(slots, IFrame, address, Seq(c), 0).value;
    forall j | 0 <= j < |after| && Mine(after[j], address) ensures Holds(after[j], c + 1, l, log) {
      assert Mine(slots[j], address) && j != gone;
      assert Mine(slots[gone], address) && Ns(slots[j]) != Seq(c);
      IndexMoves(c, Ns(slots[j]));
    }
    forall i: nat | c + 1 <= i < l ensures Has(after, address, Seq(i)) {
      SeqEqual(i, c);
      assert Has(slots, address, Seq(i));
      var k :| 0 <= k < |slots| && Mine(slots[k], address) && Ns(slots[k]) == Seq(i);
      assert Mine(after[k], address);
    }
  }

  /** Away from the window's edge, moving the edge does not change which frame a number denotes. */
  lemma IndexMoves(c: nat, b: byte)
    requires b <= 7 && b != Seq(c)
    ensures IndexFrom(c + 1, b) == IndexFrom(c, b)
  {
    hide IndexFrom;
    hide Seq;
    IndexFromSeq(c, b);
    IndexFromSeq(c + 1, b);
  }

  lemma {:induction false} FreeAllAgrees(slots: seq<Slot>, address: byte, c: nat, a: nat, l: nat, log: Log)
    requires Agrees(slots, address, c, l, log) && c <= a <= l
    ensures Agrees(FreeAllNs(slots, address, Confirmed(Seq(c), Seq(a))), address, a, l, log)
    decreases a - c
  {
    hide Seq;
    hide ReleaseNs;
    hide Agrees;
    WindowBound(slots, address, c, l, log);
    ConfirmedStep(c, a);
    if c < a {
      FreeOneAgrees(slots, address, c, l, log);
      FreeAllAgrees(ReleaseNs(slots, address, Seq(c)), address, c + 1, a, l, log);
    }
  }

  lemma WindowBound(slots: seq<Slot>, address: byte, c: nat, l: nat, log: Log)
    requires Agrees(slots, address, c, l, log)
    ensures c <= l <= c + 7 && l <= |log|
  {}

  lemma ConfirmedStep(c: nat, a: nat)
    requires c <= a < c + 8
    ensures c == a ==> Confirmed(Seq(c), Seq(a)) == []
    ensures c < a ==> Confirmed(Seq(c), Seq(a)) == [Seq(c)] + Confirmed(Seq(c + 1), Seq(a))
  {
    hide Seq;
    SeqEqual(c, a);
    SeqSucc(c);
  }

  // ----- What an acknowledgement does, for every number -----

  lemma {:induction false} FreeAllReleases(slots: seq<Slot>, address: byte, seqs: seq<byte>)
    requires NoTwins(slots, address)
    ensures var after := FreeAllNs(slots, address, seqs);
      forall j :: 0 <= j < |slots| && Mine(slots[j], address) && Ns(slots[j]) in seqs ==> after[j].None?
    decreases |seqs|
  {
    hide HighSeq;
    if seqs != [] {
      var next := ReleaseNs(slots, address, seqs[0]);
      FreeAllReleases(next, address, seqs[1..]);
      FreeAllKeeps(next, address, seqs[1..]);
      forall j | 0 <= j < |slots| && Mine(slots[j], address) && Ns(slots[j]) in seqs
        ensures FreeAllNs(slots, address, seqs)[j].None?
      {
        if Ns(slots[j]) == seqs[0] {
          assert Matches(slots[j], IFrame, address, seqs[0]);
          var g := Find(slots, IFrame, address, seqs[0], 0).value;
          assert Mine(slots[g], address);
          assert next[j].None?;
        } else {
          assert next[j] == slots[j];
        }
      }
    }
  }

  /** Releasing only ever empties slots of this address. */
  lemma {:induction false} FreeAllKeeps(slots: seq<Slot>, address: byte, seqs: seq<byte>)
    ensures var after := FreeAllNs(slots, address, seqs);
      forall j :: 0 <= j < |slots| ==> after[j] == slots[j] || (after[j].None? && Mine(slots[j], address))
    decreases |seqs|
  {
    hide HighSeq;
    if seqs != [] {
      FreeAllKeeps(ReleaseNs(slots, address, seqs[0]), address, seqs[1..]);
    }
  }

  /**
   An acknowledgement does what it should exactly when its number lies in the window:
   then the window moves up to it. A number outside makes the confirm loop run round
   past the last frame, and every queued frame of the peer is released, delivered or not.
   */
  lemma AckIff(slots: seq<Slot>, address: byte, c: nat, l: nat, log: Log, nr: byte)
    requires Agrees(slots, address, c, l, log) && nr <= 7
    ensures var after := FreeAllNs(slots, address, Confirmed(Seq(c), nr));
      var a := IndexFrom(c, nr);
      && (a <= l <==> exists x :: c <= x <= l && Seq(x) == nr)
      && (a <= l ==> Agrees(after, address, a, l, log))
      && (a > l ==> forall j :: 0 <= j < |after| ==> !Mine(after[j], address))
  {
    hide IndexFrom;
    hide HighSeq;
    hide Seq;
    hide FreeAllNs;
    IndexFromSeq(c, nr);
    var a := IndexFrom(c, nr);
    if a <= l {
      FreeAllAgrees(slots, address, c, a, l, log);
    } else {
      var seqs := Confirmed(Seq(c), nr);
      ConfirmedSeq(c, a);
      FreeAllReleases(slots, address, seqs);
      FreeAllKeeps(slots, address, seqs);
      forall j | 0 <= j < |slots| && Mine(slots[j], address) ensures Ns(slots[j]) in seqs {
        IndexFromSeq(c, Ns(slots[j]));
        var i := IndexFrom(c, Ns(slots[j]));
        assert seqs[i - c] == Ns(slots[j]);
      }
    }
  }

  // ----- Counting: the window is as wide as the peer has slots -----

  function CountMine(slots: seq<Slot>, address: byte): nat {
    if slots == [] then 0
    else CountMine(slots[..|slots| - 1], address) + if Mine(slots[|slots| - 1], address) then 1 else 0
  }

  lemma {:induction false} CountRemove(slots: seq<Slot>, address: byte, j: nat)
    requires j < |slots| && Mine(slots[j], address)
    ensures CountMine(slots[j := None], address) + 1 == CountMine(slots, address)
  {
    var n := |slots| - 1;
    if j < n {
      assert slots[j := None][..n] == slots[..n][j := None];
      CountRemove(slots[..n], address, j);
    } else {
      assert slots[j := None][..n] == slots[..n];
    }
  }

  lemma {:induction false} CountNone(slots: seq<Slot>, address: byte)
    requires forall j :: 0 <= j < |slots| ==> !Mine(slots[j], address)
    ensures CountMine(slots, address) == 0
  {
    if slots != [] {
      CountNone(slots[..|slots| - 1], address);
    }
  }

  lemma {:induction false} CountAgrees(slots: seq<Slot>, address: byte, c: nat, l: nat, log: Log)
    requires Agrees(slots, address, c, l, log)
    ensures CountMine(slots, address) == l - c
    decreases l - c
  {
    hide HighSeq;
    if c == l {
      forall j | 0 <= j < |slots| ensures !Mine(slots[j], address) {
        if Mine(slots[j], address) {
          IndexFromSeq(c, Ns(slots[j]));
        }
      }
      CountNone(slots, address);
    } else {
      hide Seq;
      hide IndexFrom;
      IndexInWindow(c, c);
      FindAgrees(slots, address, c, l, log, Seq(c));
      CountRemove(slots, address, Find(slots, IFrame, address, Seq(c), 0).value);
      FreeOneAgrees(slots, address, c, l, log);
      CountAgrees(ReleaseNs(slots, address, Seq(c)), address, c + 1, l, log);
    }
  }

  lemma {:induction false} CountBelow(slots: seq<Slot>, address: byte, j: nat)
    requires j < |slots| && !Mine(slots[j], address)
    ensures CountMine(slots, address) < |slots|
  {
    CountAtMost(slots[..|slots| - 1], address);
    if j < |slots| - 1 {
      CountBelow(slots[..|slots| - 1], address, j);
    }
  }

  lemma {:induction false} CountAtMost(slots: seq<Slot>, address: byte)
    ensures CountMine(slots, address) <= |slots|
  {
    if slots != [] {
      CountAtMost(slots[..|slots| - 1], address);
    }
  }

  /** With at most seven slots, a free slot means the window is not full. */
  lemma RoomInWindow(slots: seq<Slot>, address: byte, c: nat, l: nat, log: Log)
    requires Agrees(slots, address, c, l, log) && |slots| <= 7 && HasFree(slots)
    ensures l < c + 7 && Succ(Seq(l)) != Seq(c)
  {
    hide Agrees;
    WindowBound(slots, address, c, l, log);
    CountAgrees(slots, address, c, l, log);
    var j :| 0 <= j < |slots| && slots[j].None?;
    CountBelow(slots, address, j);
    SeqSucc(l);
    SeqEqual(l + 1, c);
  }

  // ----- Frames of other addresses are not touched -----

  /** Both arrays hold the same frames for an address, in the same places. */
  ghost predicate SameFor(before: seq<Slot>, after: seq<Slot>, address: byte) {
    && |before| == |after|
    && forall j :: 0 <= j < |before| && (Addressed(before[j], address) || Addressed(after[j], address)) ==>
      before[j] == after[j]
  }

  lemma SameForAgrees(before: seq<Slot>, after: seq<Slot>, address: byte, c: nat, l: nat, log: Log)
    requires SameFor(before, after, address) && Agrees(before, address, c, l, log)
    ensures Agrees(after, address, c, l, log)
  {
    hide HighSeq;
    hide IndexFrom;
    hide Seq;
    forall i: nat | c <= i < l ensures Has(after, address, Seq(i)) {
      assert Has(before, address, Seq(i));
      var k :| 0 <= k < |before| && Mine(before[k], address) && Ns(before[k]) == Seq(i);
      assert Addressed(before[k], address) && Mine(after[k], address);
    }
    forall j | 0 <= j < |after| && Mine(after[j], address)
      ensures Mine(before[j], address) && before[j] == after[j]
    {
      assert Addressed(after[j], address);
    }
  }
}
