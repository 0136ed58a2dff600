/**
 Three-bit sequence numbers as the octets the original stores, and the unbounded
 counters they stand for.
 */
module SeqNum {
  import opened Base

  const SEQ_BITS_MASK: byte := 0x07

  /** The sequence number of the n-th frame. */
  function Seq(n: nat): (b: byte)
    ensures b <= 7
  {
    var r := n % 8;
    if r == 0 then 0 else if r == 1 then 1 else if r == 2 then 2 else if r == 3 then 3
    else if r == 4 then 4 else if r == 5 then 5 else if r == 6 then 6 else 7
  }

  function Num(b: byte): (n: nat)
    ensures n <= 7
  {
    if b == 0 then 0 else if b == 1 then 1 else if b == 2 then 2 else if b == 3 then 3
    else if b == 4 then 4 else if b == 5 then 5 else if b == 6 then 6 else 7
  }

  function Succ(b: byte): byte {
    (b + 1) & SEQ_BITS_MASK
  }

  /** How many steps of Succ lead from one number to another. */
  function Gap(from: byte, to: byte): (n: nat)
    ensures n <= 7
  {
    Num((to - from) & SEQ_BITS_MASK)
  }

  lemma SeqNum(n: nat)
    ensures Num(Seq(n)) == n % 8
  {}

  lemma SeqSucc(n: nat)
    ensures Seq(n + 1) == Succ(Seq(n))
  {
    assert (n + 1) % 8 == if n % 8 == 7 then 0 else n % 8 + 1;
  }

  lemma SuccSmall(b: byte)
    ensures Succ(b) <= 7
  {}

  /** Numbers are unambiguous within a window of eight. */
  lemma SeqEqual(m: nat, n: nat)
    ensures Seq(m) == Seq(n) <==> m % 8 == n % 8
    ensures Seq(m) == Seq(n) && m < n + 8 && n < m + 8 ==> m == n
  {
    SeqNum(m);
    SeqNum(n);
  }

  lemma GapStep(from: byte, to: byte)
    requires from <= 7 && to <= 7
    ensures Gap(from, to) == 0 <==> from == to
    ensures from != to ==> Gap(Succ(from), to) + 1 == Gap(from, to)
  {
    var d := (to - from) & SEQ_BITS_MASK;
    assert (to - Succ(from)) & SEQ_BITS_MASK == (d - 1) & SEQ_BITS_MASK;
    assert d <= 7 && (d == 0 <==> from == to);
  }

  lemma {:induction false} GapOfSeq(m: nat, n: nat)
    requires m <= n
    ensures Gap(Seq(m), Seq(n)) == (n - m) % 8
    decreases n - m
  {
    hide Gap;
    hide Seq;
    GapStep(Seq(m), Seq(n));
    SeqEqual(m, n);
    if m < n {
      SeqSucc(m);
      GapOfSeq(m + 1, n);
      if Seq(m) == Seq(n) {
        assert n % 8 == m % 8;
      }
    }
  }

  /** The one frame number at or after base that carries the sequence number b and is less than eight away. */
  function IndexFrom(base: nat, b: byte): nat {
    base + Gap(Seq(base), b)
  }

  lemma IndexFromSeq(base: nat, b: byte)
    requires b <= 7
    ensures base <= IndexFrom(base, b) < base + 8 && Seq(IndexFrom(base, b)) == b
    ensures forall i: nat :: base <= i < base + 8 && Seq(i) == b ==> i == IndexFrom(base, b)
  {
    hide Seq;
    SeqAfterGap(base, b);
    forall i: nat | base <= i < base + 8 && Seq(i) == b
      ensures i == IndexFrom(base, b)
    {
      SeqEqual(i, IndexFrom(base, b));
    }
  }

  lemma {:induction false} SeqAfterGap(base: nat, b: byte)
    requires b <= 7
    ensures Seq(base + Gap(Seq(base), b)) == b
    decreases Gap(Seq(base), b)
  {
    hide Seq;
    hide Gap;
    GapStep(Seq(base), b);
    if Seq(base) != b {
      SeqSucc(base);
      SeqAfterGap(base + 1, b);
    }
  }
}
