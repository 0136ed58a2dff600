/**
 What the check sequences guarantee. Everything follows from two facts about the
 shift register: it is linear, and every tick can be undone.
 */
module FcsProofs {
  import opened Base
  import opened CrcTables
  import opened Fcs

  // ----- The 16-bit register -----

  lemma Xor16Laws(x: bv16, y: bv16)
    ensures Xor16(x, Xor16(x, y)) == y
    ensures Xor16(x, y) == Xor16(y, x)
  {}

  lemma Xor16Associative(x: bv16, y: bv16, z: bv16)
    ensures Xor16(Xor16(x, y), z) == Xor16(x, Xor16(y, z))
  {}

  lemma Xor16Cancel(x: bv16, y: bv16, b: bv16)
    ensures Xor16(b, x) == Xor16(b, y) <==> x == y
    ensures Xor16(x, b) == Xor16(y, b) <==> x == y
    ensures Xor16(b, x) == y <==> x == Xor16(b, y)
  {
    hide Xor16;
    Xor16Laws(b, x);
    Xor16Laws(b, y);
  }

  lemma Odd16OfXor(x: bv16, y: bv16)
    ensures Odd16(Xor16(x, y)) <==> Odd16(x) != Odd16(y)
  {}

  lemma RawHalf16(x: bv16, y: bv16, z: bv16, h: bv16)
    requires z == x ^ y && h == (x >> 1) ^ (y >> 1)
    ensures z >> 1 == h
  {}

  lemma Half16OfXor(x: bv16, y: bv16)
    ensures Xor16(x, y) >> 1 == Xor16(x >> 1, y >> 1)
  {
    RawHalf16(x, y, Xor16(x, y), Xor16(x >> 1, y >> 1));
  }

  lemma Xor16Shared(x: bv16, y: bv16, p: bv16)
    ensures Xor16(Xor16(x, p), Xor16(y, p)) == Xor16(x, y)
    ensures Xor16(Xor16(x, p), y) == Xor16(Xor16(x, y), p)
    ensures Xor16(x, Xor16(y, p)) == Xor16(Xor16(x, y), p)
  {
    hide Xor16;
    Xor16Associative(x, p, Xor16(y, p));
    Xor16Laws(y, p);
    Xor16Laws(p, y);
    Xor16Associative(x, p, y);
    Xor16Associative(x, y, p);
  }

  lemma Shift16Linear(x: bv16, y: bv16)
    ensures Shift16(Xor16(x, y)) == Xor16(Shift16(x), Shift16(y))
  {
    hide Xor16;
    hide Odd16;
    Odd16OfXor(x, y);
    Half16OfXor(x, y);
    Xor16Shared(x >> 1, y >> 1, 0x8408);
  }

  lemma Nibble16Linear(x: bv16, y: bv16)
    ensures Nibble16(Xor16(x, y)) == Xor16(Nibble16(x), Nibble16(y))
  {
    hide Xor16;
    hide Shift16;
    Shift16Linear(x, y);
    Shift16Linear(Shift16(x), Shift16(y));
    Shift16Linear(Shift16(Shift16(x)), Shift16(Shift16(y)));
    Shift16Linear(Shift16(Shift16(Shift16(x))), Shift16(Shift16(Shift16(y))));
  }

  lemma Octet16Linear(x: bv16, y: bv16)
    ensures Octet16(Xor16(x, y)) == Xor16(Octet16(x), Octet16(y))
  {
    hide Xor16;
    hide Nibble16;
    Nibble16Linear(x, y);
    Nibble16Linear(Nibble16(x), Nibble16(y));
  }

  /** A tick can be undone: the polynomial sets the top bit, which the shift leaves clear. */
  function Unshift16(c: bv16): bv16 {
    if c & 0x8000 == 0x8000 then ((c ^ 0x8408) << 1) | 1 else c << 1
  }

  lemma UnshiftShift16(c: bv16)
    ensures Unshift16(Shift16(c)) == c
  {}

  function Unoctet16(c: bv16): bv16 {
    Unshift16(Unshift16(Unshift16(Unshift16(Unshift16(Unshift16(Unshift16(Unshift16(c))))))))
  }

  lemma UnoctetOctet16(c: bv16)
    ensures Unoctet16(Octet16(c)) == c
  {
    hide Shift16;
    hide Unshift16;
    var d := Nibble16(c);
    UnshiftShift16(c);
    UnshiftShift16(Shift16(c));
    UnshiftShift16(Shift16(Shift16(c)));
    UnshiftShift16(Shift16(Shift16(Shift16(c))));
    UnshiftShift16(d);
    UnshiftShift16(Shift16(d));
    UnshiftShift16(Shift16(Shift16(d)));
    UnshiftShift16(Shift16(Shift16(Shift16(d))));
  }

  lemma Octet16Injective(x: bv16, y: bv16)
    requires Octet16(x) == Octet16(y)
    ensures x == y
  {
    hide Octet16;
    hide Unoctet16;
    UnoctetOctet16(x);
    UnoctetOctet16(y);
  }

  /** With a clear low octet the register only shifts. */
  lemma Octet16High(c: bv16)
    requires c & 0xff == 0
    ensures Octet16(c) == c >> 8
  {}

  lemma SplitLow16(c: bv16, d: byte)
    ensures Xor16(c, d as bv16) == Xor16((c >> 8) << 8, ((c & 0xff) as bv8 ^ d) as bv16)
    ensures ((c >> 8) << 8) & 0xff == 0 && ((c >> 8) << 8) >> 8 == c >> 8
  {}

  /** The table step of the original is eight ticks of the register. */
  lemma TableStep16(c: bv16, d: byte)
    ensures Step16(c, d) == Octet16(Xor16(c, d as bv16))
  {
    hide Xor16;
    hide Octet16;
    hide FcsTab16;
    var i := (c & 0xff) as bv8 ^ d;
    var high := (c >> 8) << 8;
    SplitLow16(c, d);
    Octet16High(high);
    Octet16Linear(high, i as bv16);
    Table16Ticks(i);
    Xor16Laws(c >> 8, FcsTab16(i));
  }

  lemma {:induction false} Serial16Append(c: bv16, m: seq<byte>, s: seq<byte>)
    ensures Serial16(c, m + s) == Serial16(Serial16(c, m), s)
  {
    hide Xor16;
    hide Octet16;
    if s == [] {
      assert m + s == m;
    } else {
      assert (m + s)[..|m + s| - 1] == m + s[..|s| - 1];
      Serial16Append(c, m, s[..|s| - 1]);
    }
  }

  /** Summing one more octet with the table extends the bit-serial run by that octet. */
  lemma Serial16Step(c: bv16, m: seq<byte>, i: nat)
    requires i < |m|
    ensures Serial16(c, m[..i + 1]) == Step16(Serial16(c, m[..i]), m[i])
  {
    hide Xor16;
    hide Octet16;
    hide Step16;
    assert m[..i + 1][..i] == m[..i];
    TableStep16(Serial16(c, m[..i]), m[i]);
  }

  /** Distinct registers stay distinct whatever common octets follow. */
  lemma {:induction false} Serial16Injective(c: bv16, d: bv16, s: seq<byte>)
    requires Serial16(c, s) == Serial16(d, s)
    ensures c == d
  {
    hide Xor16;
    hide Octet16;
    if s != [] {
      var t, b := s[..|s| - 1], s[|s| - 1] as bv16;
      Octet16Injective(Xor16(Serial16(c, t), b), Xor16(Serial16(d, t), b));
      Xor16Cancel(Serial16(c, t), Serial16(d, t), b);
      Serial16Injective(c, d, t);
    }
  }

  // ----- The 32-bit register -----

  lemma Xor32Laws(x: bv32, y: bv32)
    ensures Xor32(x, Xor32(x, y)) == y
    ensures Xor32(x, y) == Xor32(y, x)
  {}

  lemma Xor32Associative(x: bv32, y: bv32, z: bv32)
    ensures Xor32(Xor32(x, y), z) == Xor32(x, Xor32(y, z))
  {}

  lemma Xor32Cancel(x: bv32, y: bv32, b: bv32)
    ensures Xor32(b, x) == Xor32(b, y) <==> x == y
    ensures Xor32(x, b) == Xor32(y, b) <==> x == y
    ensures Xor32(b, x) == y <==> x == Xor32(b, y)
  {
    hide Xor32;
    Xor32Laws(b, x);
    Xor32Laws(b, y);
  }

  lemma Odd32OfXor(x: bv32, y: bv32)
    ensures Odd32(Xor32(x, y)) <==> Odd32(x) != Odd32(y)
  {}

  lemma RawHalf32(x: bv32, y: bv32, z: bv32, h: bv32)
    requires z == x ^ y && h == (x >> 1) ^ (y >> 1)
    ensures z >> 1 == h
  {}

  lemma Half32OfXor(x: bv32, y: bv32)
    ensures Xor32(x, y) >> 1 == Xor32(x >> 1, y >> 1)
  {
    RawHalf32(x, y, Xor32(x, y), Xor32(x >> 1, y >> 1));
  }

  lemma Xor32Shared(x: bv32, y: bv32, p: bv32)
    ensures Xor32(Xor32(x, p), Xor32(y, p)) == Xor32(x, y)
    ensures Xor32(Xor32(x, p), y) == Xor32(Xor32(x, y), p)
    ensures Xor32(x, Xor32(y, p)) == Xor32(Xor32(x, y), p)
  {
    hide Xor32;
    Xor32Associative(x, p, Xor32(y, p));
    Xor32Laws(y, p);
    Xor32Laws(p, y);
    Xor32Associative(x, p, y);
    Xor32Associative(x, y, p);
  }

  lemma Shift32Linear(x: bv32, y: bv32)
    ensures Shift32(Xor32(x, y)) == Xor32(Shift32(x), Shift32(y))
  {
    hide Xor32;
    hide Odd32;
    Odd32OfXor(x, y);
    Half32OfXor(x, y);
    Xor32Shared(x >> 1, y >> 1, 0xedb88320);
  }

  lemma Nibble32Linear(x: bv32, y: bv32)
    ensures Nibble32(Xor32(x, y)) == Xor32(Nibble32(x), Nibble32(y))
  {
    hide Xor32;
    hide Shift32;
    Shift32Linear(x, y);
    Shift32Linear(Shift32(x), Shift32(y));
    Shift32Linear(Shift32(Shift32(x)), Shift32(Shift32(y)));
    Shift32Linear(Shift32(Shift32(Shift32(x))), Shift32(Shift32(Shift32(y))));
  }

  lemma Octet32Linear(x: bv32, y: bv32)
    ensures Octet32(Xor32(x, y)) == Xor32(Octet32(x), Octet32(y))
  {
    hide Xor32;
    hide Nibble32;
    Nibble32Linear(x, y);
    Nibble32Linear(Nibble32(x), Nibble32(y));
  }

  /** A tick can be undone: the polynomial sets the top bit, which the shift leaves clear. */
  function Unshift32(c: bv32): bv32 {
    if c & 0x80000000 == 0x80000000 then ((c ^ 0xedb88320) << 1) | 1 else c << 1
  }

  lemma UnshiftShift32(c: bv32)
    ensures Unshift32(Shift32(c)) == c
  {}

  function Unoctet32(c: bv32): bv32 {
    Unshift32(Unshift32(Unshift32(Unshift32(Unshift32(Unshift32(Unshift32(Unshift32(c))))))))
  }

  lemma UnoctetOctet32(c: bv32)
    ensures Unoctet32(Octet32(c)) == c
  {
    hide Shift32;
    hide Unshift32;
    var d := Nibble32(c);
    UnshiftShift32(c);
    UnshiftShift32(Shift32(c));
    UnshiftShift32(Shift32(Shift32(c)));
    UnshiftShift32(Shift32(Shift32(Shift32(c))));
    UnshiftShift32(d);
    UnshiftShift32(Shift32(d));
    UnshiftShift32(Shift32(Shift32(d)));
    UnshiftShift32(Shift32(Shift32(Shift32(d))));
  }

  lemma Octet32Injective(x: bv32, y: bv32)
    requires Octet32(x) == Octet32(y)
    ensures x == y
  {
    hide Octet32;
    hide Unoctet32;
    UnoctetOctet32(x);
    UnoctetOctet32(y);
  }

  /** With a clear low octet the register only shifts. */
  lemma Octet32High(c: bv32)
    requires c & 0xff == 0
    ensures Octet32(c) == c >> 8
  {}

  lemma SplitLow32(c: bv32, d: byte)
    ensures Xor32(c, d as bv32) == Xor32((c >> 8) << 8, ((c & 0xff) as bv8 ^ d) as bv32)
    ensures ((c >> 8) << 8) & 0xff == 0 && ((c >> 8) << 8) >> 8 == c >> 8
  {}

  /** The table step of the original is eight ticks of the register. */
  lemma TableStep32(c: bv32, d: byte)
    ensures Step32(c, d) == Octet32(Xor32(c, d as bv32))
  {
    hide Xor32;
    hide Octet32;
    hide FcsTab32;
    var i := (c & 0xff) as bv8 ^ d;
    var high := (c >> 8) << 8;
    SplitLow32(c, d);
    Octet32High(high);
    Octet32Linear(high, i as bv32);
    Table32Ticks(i);
    Xor32Laws(c >> 8, FcsTab32(i));
  }

  lemma {:induction false} Serial32Append(c: bv32, m: seq<byte>, s: seq<byte>)
    ensures Serial32(c, m + s) == Serial32(Serial32(c, m), s)
  {
    hide Xor32;
    hide Octet32;
    if s == [] {
      assert m + s == m;
    } else {
      assert (m + s)[..|m + s| - 1] == m + s[..|s| - 1];
      Serial32Append(c, m, s[..|s| - 1]);
    }
  }

  /** Summing one more octet with the table extends the bit-serial run by that octet. */
  lemma Serial32Step(c: bv32, m: seq<byte>, i: nat)
    requires i < |m|
    ensures Serial32(c, m[..i + 1]) == Step32(Serial32(c, m[..i]), m[i])
  {
    hide Xor32;
    hide Octet32;
    hide Step32;
    assert m[..i + 1][..i] == m[..i];
    TableStep32(Serial32(c, m[..i]), m[i]);
  }

  /** Distinct registers stay distinct whatever common octets follow. */
  lemma {:induction false} Serial32Injective(c: bv32, d: bv32, s: seq<byte>)
    requires Serial32(c, s) == Serial32(d, s)
    ensures c == d
  {
    hide Xor32;
    hide Octet32;
    if s != [] {
      var t, b := s[..|s| - 1], s[|s| - 1] as bv32;
      Octet32Injective(Xor32(Serial32(c, t), b), Xor32(Serial32(d, t), b));
      Xor32Cancel(Serial32(c, t), Serial32(d, t), b);
      Serial32Injective(c, d, t);
    }
  }

  // ----- A whole field of octets at once -----

  function Halfword(b: byte, c: byte): bv16 {
    b as bv16 | (c as bv16 << 8)
  }

  lemma XorHalfword(c: bv16, b: byte, d: byte)
    ensures Xor16(c, Halfword(b, d)) == Xor16(Xor16(c, b as bv16), d as bv16 << 8)
  {
    assert Halfword(b, d) == Xor16(b as bv16, d as bv16 << 8);
    hide Xor16;
    hide Halfword;
    Xor16Associative(c, b as bv16, d as bv16 << 8);
  }

  lemma Delay16(d: byte)
    ensures Octet16(d as bv16 << 8) == d as bv16
  {
    assert (d as bv16 << 8) & 0xff == 0 && (d as bv16 << 8) >> 8 == d as bv16;
    Octet16High(d as bv16 << 8);
  }

  /** Two octets enter a 16-bit register as one little-endian halfword. */
  lemma TwoOctets16(c: bv16, b: byte, d: byte)
    ensures Serial16(c, [b, d]) == Octet16(Octet16(Xor16(c, Halfword(b, d))))
  {
    hide Xor16;
    hide Octet16;
    hide Halfword;
    assert [b, d][..1] == [b] && [b][..0] == [];
    assert Serial16(c, [b]) == Octet16(Xor16(c, b as bv16));
    XorHalfword(c, b, d);
    Octet16Linear(Xor16(c, b as bv16), d as bv16 << 8);
    Delay16(d);
  }

  lemma UpDown32(d: bv32)
    requires d <= 0xffffff
    ensures (d << 8) & 0xff == 0 && (d << 8) >> 8 == d
  {}

  lemma High32(d: bv32)
    requires d <= 0xffffff
    ensures Octet32(d << 8) == d
  {
    hide Octet32;
    UpDown32(d);
    Octet32High(d << 8);
  }

  /** An octet that arrives one octet later entered eight places further up. */
  lemma Delay32(x: bv32, d: bv32)
    requires d <= 0xffffff
    ensures Xor32(Octet32(x), d) == Octet32(Xor32(x, d << 8))
  {
    hide Xor32;
    hide Octet32;
    Octet32Linear(x, d << 8);
    High32(d);
  }

  function Up(b: byte, k: nat): (w: bv32)
    requires k <= 3
    ensures k == 0 ==> w <= 0xff
    ensures k <= 1 ==> w <= 0xffff
    ensures k <= 2 ==> w <= 0xffffff
  {
    if k == 0 then b as bv32
    else if k == 1 then b as bv32 << 8
    else if k == 2 then b as bv32 << 16
    else b as bv32 << 24
  }

  lemma UpUp(b: byte)
    ensures Up(b, 0) << 8 == Up(b, 1) && Up(b, 1) << 8 == Up(b, 2) && Up(b, 2) << 8 == Up(b, 3)
  {}

  lemma WordIsXor(b: byte, d: byte, e: byte, f: byte)
    ensures Word4(b, d, e, f) == Xor32(Xor32(Up(b, 0), Up(d, 1)), Xor32(Up(e, 2), Up(f, 3)))
  {}

  lemma XorWord(c: bv32, b: byte, d: byte, e: byte, f: byte)
    ensures Xor32(c, Word4(b, d, e, f)) == Xor32(Xor32(Xor32(Xor32(c, Up(b, 0)), Up(d, 1)), Up(e, 2)), Up(f, 3))
  {
    WordIsXor(b, d, e, f);
    hide Xor32;
    hide Up;
    hide Word4;
    Xor32Associative(c, Xor32(Up(b, 0), Up(d, 1)), Xor32(Up(e, 2), Up(f, 3)));
    Xor32Associative(c, Up(b, 0), Up(d, 1));
    Xor32Associative(Xor32(Xor32(c, Up(b, 0)), Up(d, 1)), Up(e, 2), Up(f, 3));
  }

  lemma FourSteps32(c: bv32, b: byte, d: byte, e: byte, f: byte)
    ensures Serial32(c, [b, d, e, f]) ==
      Octet32(Xor32(Octet32(Xor32(Octet32(Xor32(Octet32(Xor32(c, b as bv32)), d as bv32)), e as bv32)), f as bv32))
  {
    hide Xor32;
    hide Octet32;
    assert [b, d, e, f][..3] == [b, d, e] && [b, d, e][..2] == [b, d] && [b, d][..1] == [b] && [b][..0] == [];
    assert Serial32(c, [b]) == Octet32(Xor32(c, b as bv32));
    assert Serial32(c, [b, d]) == Octet32(Xor32(Serial32(c, [b]), d as bv32));
    assert Serial32(c, [b, d, e]) == Octet32(Xor32(Serial32(c, [b, d]), e as bv32));
  }

  /** Four octets enter a 32-bit register as one little-endian word. */
  lemma FourOctets32(c: bv32, b: byte, d: byte, e: byte, f: byte)
    ensures Serial32(c, [b, d, e, f]) == Octet32(Octet32(Octet32(Octet32(Xor32(c, Word4(b, d, e, f))))))
  {
    assert Up(b, 0) == b as bv32 && Up(d, 0) == d as bv32 && Up(e, 0) == e as bv32 && Up(f, 0) == f as bv32;
    hide Xor32;
    hide Octet32;
    hide Up;
    hide Word4;
    FourSteps32(c, b, d, e, f);
    XorWord(c, b, d, e, f);
    UpUp(d);
    UpUp(e);
    UpUp(f);
    var x1 := Xor32(c, Up(b, 0));
    var x2 := Xor32(x1, Up(d, 1));
    var x3 := Xor32(x2, Up(e, 2));
    Delay32(x1, Up(d, 0));
    Delay32(Octet32(x2), Up(e, 0));
    Delay32(x2, Up(e, 1));
    Delay32(Octet32(Octet32(x3)), Up(f, 0));
    Delay32(Octet32(x3), Up(f, 1));
    Delay32(x3, Up(f, 2));
  }

  // ----- The residues of appendix C -----

  /** The halfword that leaves the good residue behind is the complement of the register, and no other. */
  lemma Residue16(c: bv16, f: seq<byte>)
    requires |f| == 2
    ensures Serial16(c, f) == 0xf0b8 <==> Halfword(f[0], f[1]) == Xor16(c, 0xffff)
  {
    hide Xor16;
    hide Octet16;
    hide Halfword;
    var w := Halfword(f[0], f[1]);
    assert f == [f[0], f[1]];
    TwoOctets16(c, f[0], f[1]);
    Ones16();
    if Serial16(c, f) == 0xf0b8 {
      Octet16Injective(Octet16(Xor16(c, w)), Octet16(0xffff));
      Octet16Injective(Xor16(c, w), 0xffff);
    }
    Xor16Cancel(w, 0xffff, c);
  }

  lemma Ones16()
    ensures Octet16(Octet16(0xffff)) == 0xf0b8
  {}

  lemma Ones32()
    ensures Octet32(Octet32(Octet32(Octet32(0xffffffff)))) == 0xdebb20e3
  {}

  lemma Residue32(c: bv32, f: seq<byte>)
    requires |f| == 4
    ensures Serial32(c, f) == 0xdebb20e3 <==> Word4(f[0], f[1], f[2], f[3]) == Xor32(c, 0xffffffff)
  {
    hide Xor32;
    hide Octet32;
    hide Word4;
    var w := Word4(f[0], f[1], f[2], f[3]);
    assert f == [f[0], f[1], f[2], f[3]];
    FourOctets32(c, f[0], f[1], f[2], f[3]);
    Ones32();
    if Serial32(c, f) == 0xdebb20e3 {
      Octet32Injective(Octet32(Octet32(Octet32(Xor32(c, w)))), Octet32(Octet32(Octet32(0xffffffff))));
      Octet32Injective(Octet32(Octet32(Xor32(c, w))), Octet32(Octet32(0xffffffff)));
      Octet32Injective(Octet32(Xor32(c, w)), Octet32(0xffffffff));
      Octet32Injective(Xor32(c, w), 0xffffffff);
    }
    Xor32Cancel(w, 0xffffffff, c);
  }

  lemma {:induction false} Sum8Append(c: bv8, m: seq<byte>, s: seq<byte>)
    ensures Sum8(c, m + s) == Sum8(Sum8(c, m), s)
  {
    if s == [] {
      assert m + s == m;
    } else {
      assert (m + s)[..|m + s| - 1] == m + s[..|s| - 1];
      Sum8Append(c, m, s[..|s| - 1]);
    }
  }

  lemma {:induction false} Sum8Injective(c: bv8, d: bv8, s: seq<byte>)
    requires Sum8(c, s) == Sum8(d, s)
    ensures c == d
  {
    if s != [] {
      Sum8Injective(c, d, s[..|s| - 1]);
    }
  }

  /** The register after a whole frame, payload and check field together. */
  function Register(t: CrcType, frame: seq<byte>): bv32 {
    match t
    case CrcOff => 0
    case Crc8 => Sum8(0, frame) as bv32
    case Crc16 => Serial16(0xffff, frame) as bv32
    case _ => Serial32(0xffffffff, frame)
  }

  /** The "good" constants of the original's tests, before complementing. */
  function GoodResidue(t: CrcType): bv32 {
    match t
    case CrcOff => 0
    case Crc8 => 0xff
    case Crc16 => 0xf0b8
    case _ => 0xdebb20e3
  }

  lemma ResidueIff8(m: seq<byte>, f: seq<byte>)
    requires |f| == 1
    ensures Register(Crc8, m + f) == GoodResidue(Crc8) <==> f == Field(Crc8, m)
  {
    Sum8Append(0, m, f);
    assert f == [f[0]] && f[..0] == [];
    Complement8(Sum8(0, m), f[0]);
  }

  lemma Register16Iff(frame: seq<byte>)
    ensures Register(Crc16, frame) == GoodResidue(Crc16) <==> Serial16(0xffff, frame) == 0xf0b8
  {
    hide Serial16;
    Cast16(Serial16(0xffff, frame));
  }

  lemma Field16Is(m: seq<byte>)
    ensures Field(Crc16, m) == LeBytes(Xor16(Serial16(0xffff, m), 0xffff) as bv32, 2)
  {
    hide Serial16;
    hide Xor16;
    hide LeBytes;
  }

  lemma Field16Iff(m: seq<byte>, f: seq<byte>)
    requires |f| == 2
    ensures f == Field(Crc16, m) <==> Halfword(f[0], f[1]) == Xor16(Serial16(0xffff, m), 0xffff)
  {
    hide *;
    Field16Is(m);
    HalfwordField(Xor16(Serial16(0xffff, m), 0xffff), f);
  }

  lemma ResidueIff16(m: seq<byte>, f: seq<byte>)
    requires |f| == 2
    ensures Register(Crc16, m + f) == GoodResidue(Crc16) <==> f == Field(Crc16, m)
  {
    hide *;
    Register16Iff(m + f);
    Field16Iff(m, f);
    Serial16Append(0xffff, m, f);
    Residue16(Serial16(0xffff, m), f);
  }

  lemma ResidueIff32(t: CrcType, m: seq<byte>, f: seq<byte>)
    requires |f| == 4 && (t == Crc32 || t == CrcDefault)
    ensures Register(t, m + f) == GoodResidue(t) <==> f == Field(t, m)
  {
    hide Xor16;
    hide Xor32;
    hide Octet16;
    hide Octet32;
    hide Halfword;
    hide Word4;
    hide Serial16;
    hide Sum8;
    var c := Serial32(0xffffffff, m);
    Serial32Append(0xffffffff, m, f);
    Residue32(c, f);
    WordField(Xor32(c, 0xffffffff), f);
  }

  /**
   For every message: appending its own check field drives the register to the good
   constant, and no other field of that size does.
   */
  lemma ResidueIff(t: CrcType, m: seq<byte>, f: seq<byte>)
    requires |f| == FieldSize(t)
    ensures Register(t, m + f) == GoodResidue(t) <==> f == Field(t, m)
  {
    match t
    case CrcOff =>
    case Crc8 => ResidueIff8(m, f);
    case Crc16 => ResidueIff16(m, f);
    case _ => ResidueIff32(t, m, f);
  }

  lemma Complement8(c: bv8, b: byte)
    ensures (c + b) as bv32 == 0xff <==> b == OctetOf((0xff - c) as bv32, 0)
  {}

  lemma Cast16(c: bv16)
    ensures c as bv32 == 0xf0b8 <==> c == 0xf0b8
  {}

  function Low(v: bv16): byte { (v & 0xff) as bv8 }

  function High(v: bv16): byte { (v >> 8) as bv8 }

  lemma OctetsOf16(v: bv16)
    ensures OctetOf(v as bv32, 0) == Low(v) && OctetOf(v as bv32, 1) == High(v)
  {}

  lemma HalfwordOf(v: bv16)
    ensures Halfword(Low(v), High(v)) == v
  {}

  lemma LowHigh(b: byte, c: byte)
    ensures Low(Halfword(b, c)) == b && High(Halfword(b, c)) == c
  {}

  lemma HalfwordOctets(v: bv16, b: byte, c: byte)
    ensures Halfword(b, c) == v <==> b == Low(v) && c == High(v)
  {
    hide Halfword;
    hide Low;
    hide High;
    HalfwordOf(v);
    LowHigh(b, c);
  }

  lemma HalfwordField(v: bv16, f: seq<byte>)
    requires |f| == 2
    ensures Halfword(f[0], f[1]) == v <==> f == LeBytes(v as bv32, 2)
  {
    hide Halfword;
    hide OctetOf;
    hide Low;
    hide High;
    HalfwordOctets(v, f[0], f[1]);
    OctetsOf16(v);
  }

  lemma WordField(v: bv32, f: seq<byte>)
    requires |f| == 4
    ensures Word4(f[0], f[1], f[2], f[3]) == v <==> f == LeBytes(v, 4)
  {
    WordOfOctets(v);
    OctetsOfWord(f[0], f[1], f[2], f[3]);
  }

  // ----- Detection -----

  /** The receiver's test: the last octets, read low first, equal the check value of the rest. */
  predicate Passes(t: CrcType, frame: seq<byte>) {
    var n := FieldSize(t);
    n <= |frame| && ReadLe(frame[|frame| - n..]) == CrcValue(t, frame[..|frame| - n])
  }

  /** The receiver's comparison is the residue test of the standard. */
  lemma PassesIffResidue(t: CrcType, frame: seq<byte>)
    requires FieldSize(t) <= |frame|
    ensures Passes(t, frame) <==> Register(t, frame) == GoodResidue(t)
    ensures Passes(t, frame) <==> frame == frame[..|frame| - FieldSize(t)] + Field(t, frame[..|frame| - FieldSize(t)])
  {
    var k := |frame| - FieldSize(t);
    assert frame == frame[..k] + frame[k..];
    ReadLeIff(t, frame[..k], frame[k..]);
    ResidueIff(t, frame[..k], frame[k..]);
  }

  /** Two frames agree everywhere outside n consecutive octets from k. */
  ghost predicate DifferWithin(u: seq<byte>, v: seq<byte>, k: nat, n: nat) {
    && |u| == |v| && k + n <= |u|
    && u[..k] == v[..k] && u[k + n..] == v[k + n..]
  }

  lemma Burst8(c: bv8, d: seq<byte>, e: seq<byte>)
    requires |d| == |e| == 1 && Sum8(c, d) == Sum8(c, e)
    ensures d == e
  {
    assert d == [d[0]] && e == [e[0]] && d[..0] == [] && e[..0] == [];
    assert c + d[0] == c + e[0];
  }

  lemma RegisterBurst8(pre: seq<byte>, d: seq<byte>, e: seq<byte>, post: seq<byte>)
    requires |d| == |e| == 1 && d != e
    ensures Sum8(0, pre + d + post) != Sum8(0, pre + e + post)
  {
    hide Sum8;
    Sum8Append(0, pre + d, post);
    Sum8Append(0, pre + e, post);
    Sum8Append(0, pre, d);
    Sum8Append(0, pre, e);
    if Sum8(0, pre + d + post) == Sum8(0, pre + e + post) {
      Sum8Injective(Sum8(0, pre + d), Sum8(0, pre + e), post);
      Burst8(Sum8(0, pre), d, e);
    }
  }

  lemma RegisterBurst16(pre: seq<byte>, d: seq<byte>, e: seq<byte>, post: seq<byte>)
    requires |d| == |e| == 2 && d != e
    ensures Serial16(0xffff, pre + d + post) != Serial16(0xffff, pre + e + post)
  {
    hide Serial16;
    var c := Serial16(0xffff, pre);
    Serial16Append(0xffff, pre + d, post);
    Serial16Append(0xffff, pre + e, post);
    Serial16Append(0xffff, pre, d);
    Serial16Append(0xffff, pre, e);
    if Serial16(0xffff, pre + d + post) == Serial16(0xffff, pre + e + post) {
      Serial16Injective(Serial16(c, d), Serial16(c, e), post);
      Burst16(c, d, e);
    }
  }

  lemma RegisterBurst32(pre: seq<byte>, d: seq<byte>, e: seq<byte>, post: seq<byte>)
    requires |d| == |e| == 4 && d != e
    ensures Serial32(0xffffffff, pre + d + post) != Serial32(0xffffffff, pre + e + post)
  {
    hide Serial32;
    var c := Serial32(0xffffffff, pre);
    Serial32Append(0xffffffff, pre + d, post);
    Serial32Append(0xffffffff, pre + e, post);
    Serial32Append(0xffffffff, pre, d);
    Serial32Append(0xffffffff, pre, e);
    if Serial32(0xffffffff, pre + d + post) == Serial32(0xffffffff, pre + e + post) {
      Serial32Injective(Serial32(c, d), Serial32(c, e), post);
      Burst32(c, d, e);
    }
  }

  lemma RegisterBurst(t: CrcType, pre: seq<byte>, d: seq<byte>, e: seq<byte>, post: seq<byte>)
    requires t != CrcOff && |d| == |e| == FieldSize(t) && d != e
    ensures Register(t, pre + d + post) != Register(t, pre + e + post)
  {
    hide Sum8;
    hide Serial16;
    hide Serial32;
    match t
    case Crc8 =>
      RegisterBurst8(pre, d, e, post);
      Distinct8(Sum8(0, pre + d + post), Sum8(0, pre + e + post));
    case Crc16 =>
      RegisterBurst16(pre, d, e, post);
      Distinct16(Serial16(0xffff, pre + d + post), Serial16(0xffff, pre + e + post));
    case _ =>
      RegisterBurst32(pre, d, e, post);
  }

  lemma Distinct8(x: bv8, y: bv8)
    ensures x as bv32 == y as bv32 <==> x == y
  {}

  lemma Distinct16(x: bv16, y: bv16)
    ensures x as bv32 == y as bv32 <==> x == y
  {}

  lemma Burst16(c: bv16, d: seq<byte>, e: seq<byte>)
    requires |d| == |e| == 2 && Serial16(c, d) == Serial16(c, e)
    ensures d == e
  {
    hide Xor16;
    hide Octet16;
    hide Halfword;
    assert d == [d[0], d[1]] && e == [e[0], e[1]];
    TwoOctets16(c, d[0], d[1]);
    TwoOctets16(c, e[0], e[1]);
    var v, w := Halfword(d[0], d[1]), Halfword(e[0], e[1]);
    Octet16Injective(Octet16(Xor16(c, v)), Octet16(Xor16(c, w)));
    Octet16Injective(Xor16(c, v), Xor16(c, w));
    Xor16Cancel(v, w, c);
    HalfwordOctets(v, d[0], d[1]);
    HalfwordOctets(v, e[0], e[1]);
  }

  lemma Burst32(c: bv32, d: seq<byte>, e: seq<byte>)
    requires |d| == |e| == 4 && Serial32(c, d) == Serial32(c, e)
    ensures d == e
  {
    hide Xor32;
    hide Octet32;
    hide Word4;
    assert d == [d[0], d[1], d[2], d[3]] && e == [e[0], e[1], e[2], e[3]];
    FourOctets32(c, d[0], d[1], d[2], d[3]);
    FourOctets32(c, e[0], e[1], e[2], e[3]);
    var v, w := Word4(d[0], d[1], d[2], d[3]), Word4(e[0], e[1], e[2], e[3]);
    Octet32Injective(Octet32(Octet32(Octet32(Xor32(c, v)))), Octet32(Octet32(Octet32(Xor32(c, w)))));
    Octet32Injective(Octet32(Octet32(Xor32(c, v))), Octet32(Octet32(Xor32(c, w))));
    Octet32Injective(Octet32(Xor32(c, v)), Octet32(Xor32(c, w)));
    Octet32Injective(Xor32(c, v), Xor32(c, w));
    Xor32Cancel(v, w, c);
    OctetsOfWord(d[0], d[1], d[2], d[3]);
    OctetsOfWord(e[0], e[1], e[2], e[3]);
  }

  /**
   Burst detection: of two different frames that agree outside as many consecutive
   octets as the check field has, at most one passes, whatever their length and
   wherever the burst lies, the check field included.
   */
  lemma BurstDetected(t: CrcType, u: seq<byte>, v: seq<byte>, k: nat)
    requires t != CrcOff && u != v && DifferWithin(u, v, k, FieldSize(t))
    ensures !(Passes(t, u) && Passes(t, v))
  {
    var n := FieldSize(t);
    var d, e, post := u[k..k + n], v[k..k + n], u[k + n..];
    assert u == u[..k] + d + post && v == u[..k] + e + post;
    RegisterBurst(t, u[..k], d, e, post);
    PassesIffResidue(t, u);
    PassesIffResidue(t, v);
  }

  // ----- The byte sum as a number -----

  function Less(x: byte): byte { x - 1 }

  /** The sum of the octets. */
  function Total(m: seq<byte>): nat {
    if m == [] then 0 else Total(m[..|m| - 1]) + Number(m[|m| - 1])
  }

  lemma PlusZero(x: byte)
    ensures Plus(x, 0) == x && Number(0) == 0 && Number(x) < 256
  {}

  lemma OneLess(y: byte)
    requires y != 0
    ensures Number(Less(y)) + 1 == Number(y)
  {}

  lemma PlusRegroups(x: byte, y: byte)
    ensures Plus(x, y) == Plus(Plus(x, Less(y)), 1)
  {}

  /** Adding octets is adding numbers modulo 256. */
  lemma {:induction false} AddOctets(x: byte, y: byte)
    ensures Number(Plus(x, y)) == (Number(x) + Number(y)) % 256
    decreases Number(y)
  {
    hide *;
    PlusZero(x);
    PlusZero(y);
    if y != 0 {
      var less := Less(y);
      OneLess(y);
      AddOctets(x, less);
      PlusOne(Plus(x, less));
      PlusRegroups(x, y);
    }
  }

  lemma AddModulo(a: nat, b: nat)
    ensures (a % 256 + b) % 256 == (a + b) % 256
  {}

  lemma Sum8Last(m: seq<byte>)
    requires m != []
    ensures Sum8(0, m) == Plus(Sum8(0, m[..|m| - 1]), m[|m| - 1])
  {}

  /** The CRC-8 register holds the sum of the octets modulo 256. */
  lemma {:induction false} Sum8IsTotal(m: seq<byte>)
    ensures Number(Sum8(0, m)) == Total(m) % 256
  {
    hide Number;
    hide Plus;
    hide Sum8;
    var n := |m| - 1;
    if m == [] {
      Sum8None();
    } else {
      Sum8IsTotal(m[..n]);
      Sum8Last(m);
      AddOctets(Sum8(0, m[..n]), m[n]);
      AddModulo(Total(m[..n]), Number(m[n]));
    }
  }

  lemma Sum8None()
    ensures Number(Sum8(0, [])) == 0
  {}

  lemma Complement(c: byte)
    ensures Number(0xff - c) == 255 - Number(c)
  {}

  /** So the CRC-8 of a message is 255 less that. */
  lemma Crc8IsNumber(m: seq<byte>)
    ensures CrcValue(Crc8, m) == (0xff - Sum8(0, m)) as bv32
    ensures Number(0xff - Sum8(0, m)) == 255 - Total(m) % 256
  {
    hide Number;
    hide Sum8;
    Sum8IsTotal(m);
    Complement(Sum8(0, m));
  }
}
