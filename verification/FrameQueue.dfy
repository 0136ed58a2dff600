/** The slot array that holds frames until they are sent or acknowledged. */
module FrameQueue {
  import opened Base
  import opened FdDefs

  type Slot = Option<FrameInfo>

  /** Slots and the place where the next search for a free one starts. */
  datatype Queue = Queue(slots: seq<Slot>, lookup: nat)

  predicate Matches(s: Slot, frameType: FrameType, address: byte, arg: byte) {
    && s.Some?
    && s.value.frameType == frameType
    && s.value.header.address == address
    && (frameType == IFrame ==> HighSeq(s.value.header.control) == arg)
  }

  predicate HasFree(slots: seq<Slot>) {
    exists i :: 0 <= i < |slots| && slots[i].None?
  }

  /** The j-th slot a search visits when it starts at lookup. */
  function Rotated(lookup: nat, j: nat, n: nat): (k: nat)
    requires n > 0
    ensures k < n
  {
    (lookup + j) % n
  }

  /** First free slot in rotating order, the first i places of which are already known to be taken. */
  function FindFree(slots: seq<Slot>, lookup: nat, i: nat): (r: Option<nat>)
    requires i <= |slots|
    ensures r.Some? ==> r.value < |slots| && slots[r.value].None?
    decreases |slots| - i
  {
    if i == |slots| then None
    else if slots[Rotated(lookup, i, |slots|)].None? then Some(Rotated(lookup, i, |slots|))
    else FindFree(slots, lookup, i + 1)
  }

  function Allocated(q: Queue, f: FrameInfo): Queue {
    match FindFree(q.slots, q.lookup, 0)
    case None => q
    case Some(i) => Queue(q.slots[i := Some(f)], Rotated(i, 1, |q.slots|))
  }

  /** First match at or after position i. */
  function Find(slots: seq<Slot>, frameType: FrameType, address: byte, arg: byte, i: nat): (r: Option<nat>)
    requires i <= |slots|
    ensures r.Some? ==> i <= r.value < |slots| && Matches(slots[r.value], frameType, address, arg)
    ensures r.Some? ==> forall j :: i <= j < r.value ==> !Matches(slots[j], frameType, address, arg)
    ensures r.None? ==> forall j :: i <= j < |slots| ==> !Matches(slots[j], frameType, address, arg)
    decreases |slots| - i
  {
    if i == |slots| then None
    else if Matches(slots[i], frameType, address, arg) then Some(i)
    else Find(slots, frameType, address, arg, i + 1)
  }

  function ReleaseNs(slots: seq<Slot>, address: byte, ns: byte): (r: seq<Slot>)
    ensures |r| == |slots|
  {
    match Find(slots, IFrame, address, ns, 0)
    case None => slots
    case Some(i) => slots[i := None]
  }

  function FreeAllNs(slots: seq<Slot>, address: byte, seqs: seq<byte>): (r: seq<Slot>)
    ensures |r| == |slots|
    decreases |seqs|
  {
    if seqs == [] then slots
    else FreeAllNs(ReleaseNs(slots, address, seqs[0]), address, seqs[1..])
  }

  predicate Addressed(s: Slot, address: byte) {
    s.Some? && s.value.header.address == address
  }

  function ResetSlots(slots: seq<Slot>, address: byte): (r: seq<Slot>)
    ensures |r| == |slots|
    ensures forall i :: 0 <= i < |slots| ==> r[i] == if Addressed(slots[i], address) then None else slots[i]
  {
    seq(|slots|, i requires 0 <= i < |slots| => if Addressed(slots[i], address) then None else slots[i])
  }

  function Occupied(slots: seq<Slot>): nat {
    if slots == [] then 0
    else Occupied(slots[..|slots| - 1]) + if slots[|slots| - 1].Some? then 1 else 0
  }

  /** First occupied slot at or after position i: the order in which service frames are sent. */
  function FirstOccupied(slots: seq<Slot>, i: nat): (r: Option<nat>)
    requires i <= |slots|
    ensures r.Some? ==> i <= r.value < |slots| && slots[r.value].Some?
    ensures r.Some? ==> forall j :: i <= j < r.value ==> slots[j].None?
    ensures r.None? ==> forall j :: i <= j < |slots| ==> slots[j].None?
    decreases |slots| - i
  {
    if i == |slots| then None
    else if slots[i].Some? then Some(i)
    else FirstOccupied(slots, i + 1)
  }

  lemma {:induction false} FirstIs(slots: seq<Slot>, i: nat, j: nat)
    requires i <= j < |slots| && slots[j].Some? && forall k :: i <= k < j ==> slots[k].None?
    ensures FirstOccupied(slots, i) == Some(j)
    decreases j - i
  {
    if i < j {
      FirstIs(slots, i + 1, j);
    }
  }

  lemma {:induction false} FirstIsNone(slots: seq<Slot>, i: nat)
    requires i <= |slots| && forall j :: 0 <= j < |slots| ==> slots[j].None?
    ensures FirstOccupied(slots, i) == None
    decreases |slots| - i
  {
    if i < |slots| {
      FirstIsNone(slots, i + 1);
    }
  }

  /** The rotating search visits every slot: it fails only on a full queue. */
  lemma {:induction false} FindFreeComplete(slots: seq<Slot>, lookup: nat, i: nat)
    requires i <= |slots| && lookup < |slots|
    requires forall j {:trigger Rotated(lookup, j, |slots|)} :: 0 <= j < i ==> slots[Rotated(lookup, j, |slots|)].Some?
    ensures FindFree(slots, lookup, i).None? <==> !HasFree(slots)
    decreases |slots| - i
  {
    if i == |slots| {
      forall k | 0 <= k < |slots| ensures slots[k].Some? {
        var j := if lookup <= k then k - lookup else k + |slots| - lookup;
        RotatedValue(lookup, j, |slots|);
        assert slots[Rotated(lookup, j, |slots|)].Some?;
      }
    } else if slots[Rotated(lookup, i, |slots|)].Some? {
      FindFreeComplete(slots, lookup, i + 1);
    }
  }

  lemma RotatedValue(lookup: nat, j: nat, n: nat)
    requires lookup < n && j <= n
    ensures Rotated(lookup, j, n) == if lookup + j < n then lookup + j else lookup + j - n
  {}

  lemma {:induction false} OccupiedPut(slots: seq<Slot>, i: nat, f: FrameInfo)
    requires i < |slots| && slots[i].None?
    ensures Occupied(slots[i := Some(f)]) == Occupied(slots) + 1
  {
    var n := |slots| - 1;
    if i == n {
      assert slots[i := Some(f)][..n] == slots[..n];
    } else {
      assert slots[i := Some(f)][..n] == slots[..n][i := Some(f)];
      OccupiedPut(slots[..n], i, f);
    }
  }

  lemma {:induction false} OccupiedTake(slots: seq<Slot>, i: nat)
    requires i < |slots| && slots[i].Some?
    ensures Occupied(slots[i := None]) + 1 == Occupied(slots)
  {
    var n := |slots| - 1;
    if i == n {
      assert slots[i := None][..n] == slots[..n];
    } else {
      assert slots[i := None][..n] == slots[..n][i := None];
      OccupiedTake(slots[..n], i);
    }
  }

  /** There is a free slot exactly when fewer are occupied than there are. */
  lemma {:induction false} OccupiedIff(slots: seq<Slot>)
    ensures Occupied(slots) <= |slots| && (HasFree(slots) <==> Occupied(slots) < |slots|)
  {
    if slots != [] {
      var n := |slots| - 1;
      OccupiedIff(slots[..n]);
      if HasFree(slots[..n]) {
        var i :| 0 <= i < n && slots[..n][i].None?;
        assert slots[i].None?;
      }
      if HasFree(slots) && slots[n].Some? {
        var i :| 0 <= i < |slots| && slots[i].None?;
        assert slots[..n][i].None?;
      }
    }
  }

  lemma {:induction false} OccupiedNone(slots: seq<Slot>)
    requires forall i :: 0 <= i < |slots| ==> slots[i].None?
    ensures Occupied(slots) == 0
  {
    if slots != [] {
      OccupiedNone(slots[..|slots| - 1]);
    }
  }

  class FrameQueue {
    const frames: array<Slot>
    var lookupIndex: nat

    ghost predicate Valid()
      reads this
    {
      frames.Length > 0 ==> lookupIndex < frames.Length
    }

    ghost function View(): (q: Queue)
      reads this, frames
      ensures |q.slots| == frames.Length
    {
      Queue(frames[..], lookupIndex)
    }

    constructor (maxFrames: nat)
      ensures Valid() && fresh(frames) && frames.Length == maxFrames && lookupIndex == 0
      ensures forall i :: 0 <= i < maxFrames ==> View().slots[i] == None
    {
      frames := new Slot[maxFrames](_ => None);
      lookupIndex := 0;
    }

    method Reset()
      requires Valid()
      modifies this, frames
      ensures Valid() && lookupIndex == 0
      ensures forall i :: 0 <= i < frames.Length ==> View().slots[i] == None
    {
      for i := 0 to frames.Length
        invariant forall j :: 0 <= j < i ==> frames[j] == None
      {
        frames[i] := None;
      }
      lookupIndex := 0;
    }

    /** Empties the slots of one address. */
    method ResetFor(address: byte)
      requires Valid()
      modifies frames
      ensures View() == old(View()).(slots := ResetSlots(old(View()).slots, address))
    {
      for i := 0 to frames.Length
        invariant forall j :: 0 <= j < i ==>
          frames[j] == if Addressed(old(frames[j]), address) then None else old(frames[j])
        invariant forall j :: i <= j < frames.Length ==> frames[j] == old(frames[j])
      {
        if frames[i].Some? && frames[i].value.header.address == address {
          frames[i] := None;
        }
      }
    }

    predicate HasFreeSlots()
      reads this, frames
      ensures HasFreeSlots() <==> HasFree(View().slots)
    {
      assert forall i :: 0 <= i < frames.Length ==> View().slots[i] == frames[i];
      exists i :: 0 <= i < frames.Length && frames[i].None?
    }

    /** Stores a frame in the first free slot after the last one used. */
    method Allocate(frameType: FrameType, header: FrameHeader, data: seq<byte>) returns (index: Option<nat>)
      requires Valid()
      modifies this, frames
      ensures Valid()
      ensures index == FindFree(old(View()).slots, old(View()).lookup, 0)
      ensures View() == Allocated(old(View()), FrameInfo(frameType, header, data))
    {
      var len := frames.Length;
      for i := 0 to len
        invariant lookupIndex == old(lookupIndex) && frames[..] == old(frames[..])
        invariant FindFree(old(View()).slots, old(View()).lookup, 0)
          == FindFree(old(View()).slots, old(View()).lookup, i)
      {
        var idx := Rotated(lookupIndex, i, len);
        if frames[idx].None? {
          assert old(View()).slots[idx].None?;
          frames[idx] := Some(FrameInfo(frameType, header, data));
          lookupIndex := Rotated(idx, 1, len);
          return Some(idx);
        }
      }
      return None;
    }

    /** The first frame of this type, address and, for I-frames, number. */
    method GetNext(frameType: FrameType, address: byte, arg: byte) returns (found: Option<(nat, FrameInfo)>)
      ensures var r := Find(View().slots, frameType, address, arg, 0);
        found == if r.None? then None else Some((r.value, View().slots[r.value].value))
    {
      for i := 0 to frames.Length
        invariant Find(View().slots, frameType, address, arg, 0) == Find(View().slots, frameType, address, arg, i)
      {
        assert View().slots[i] == frames[i];
        if frames[i].Some? {
          var frame := frames[i].value;
          if frame.frameType == frameType && frame.header.address == address {
            if frameType == IFrame && HighSeq(frame.header.control) != arg {
              continue;
            }
            return Some((i, frame));
          }
        }
      }
      return None;
    }

    function Get(index: nat): (frame: Slot)
      reads this, frames
      ensures frame == if index < frames.Length then View().slots[index] else None
    {
      if index < frames.Length then frames[index] else None
    }

    method Free(index: nat)
      modifies frames
      ensures View() ==
        if index < frames.Length then old(View()).(slots := old(View()).slots[index := None]) else old(View())
    {
      if index < frames.Length {
        frames[index] := None;
      }
    }

    /** Releases the I-frame with this address and number. */
    method FreeByNs(address: byte, ns: byte)
      modifies frames
      ensures View() == old(View()).(slots := ReleaseNs(old(View()).slots, address, ns))
    {
      for i := 0 to frames.Length
        invariant frames[..] == old(frames[..])
        invariant Find(old(View()).slots, IFrame, address, ns, 0) == Find(old(View()).slots, IFrame, address, ns, i)
      {
        assert old(View()).slots[i] == frames[i];
        if frames[i].Some? {
          var frame := frames[i].value;
          if frame.header.address == address && frame.frameType == IFrame && HighSeq(frame.header.control) == ns {
            frames[i] := None;
            return;
          }
        }
      }
    }

    method Count() returns (n: nat)
      ensures n == Occupied(View().slots)
    {
      n := 0;
      for i := 0 to frames.Length
        invariant n == Occupied(frames[..i])
      {
        assert frames[..i + 1][..i] == frames[..i];
        if frames[i].Some? {
          n := n + 1;
        }
      }
      assert frames[..frames.Length] == frames[..];
    }

    function Capacity(): nat {
      frames.Length
    }
  }
}
