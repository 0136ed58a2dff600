/**
 The two FCS lookup tables of the original, and the proof that each entry is what
 the bit-serial shift register of RFC 1662, appendix C makes of its index.
 */
module CrcTables {

  // ----- FCS-16 -----

  /** Exclusive or, named so that proofs can treat it as a black box. */
  function Xor16(x: bv16, y: bv16): bv16 {
    x ^ y
  }

  predicate Odd16(c: bv16) {
    c & 1 == 1
  }

  /** One tick of the bit-serial FCS-16 register: shift right, and fold the polynomial in when a one drops out. */
  function Shift16(c: bv16): bv16 {
    if Odd16(c) then Xor16(c >> 1, 0x8408) else c >> 1
  }

  function Nibble16(c: bv16): bv16 {
    Shift16(Shift16(Shift16(Shift16(c))))
  }

  /** Eight ticks: what the register does with one octet. */
  function Octet16(c: bv16): bv16 {
    Nibble16(Nibble16(c))
  }

  function Row16x0(i: bv8): bv16 {
    if i == 0x00 then 0x0000 else if i == 0x01 then 0x1189 else
    if i == 0x02 then 0x2312 else if i == 0x03 then 0x329b else
    if i == 0x04 then 0x4624 else if i == 0x05 then 0x57ad else
    if i == 0x06 then 0x6536 else if i == 0x07 then 0x74bf else
    if i == 0x08 then 0x8c48 else if i == 0x09 then 0x9dc1 else
    if i == 0x0a then 0xaf5a else if i == 0x0b then 0xbed3 else
    if i == 0x0c then 0xca6c else if i == 0x0d then 0xdbe5 else if i == 0x0e then 0xe97e else 0xf8f7
  }

  function Row16x1(i: bv8): bv16 {
    if i == 0x10 then 0x1081 else if i == 0x11 then 0x0108 else
    if i == 0x12 then 0x3393 else if i == 0x13 then 0x221a else
    if i == 0x14 then 0x56a5 else if i == 0x15 then 0x472c else
    if i == 0x16 then 0x75b7 else if i == 0x17 then 0x643e else
    if i == 0x18 then 0x9cc9 else if i == 0x19 then 0x8d40 else
    if i == 0x1a then 0xbfdb else if i == 0x1b then 0xae52 else
    if i == 0x1c then 0xdaed else if i == 0x1d then 0xcb64 else if i == 0x1e then 0xf9ff else 0xe876
  }

  function Row16x2(i: bv8): bv16 {
    if i == 0x20 then 0x2102 else if i == 0x21 then 0x308b else
    if i == 0x22 then 0x0210 else if i == 0x23 then 0x1399 else
    if i == 0x24 then 0x6726 else if i == 0x25 then 0x76af else
    if i == 0x26 then 0x4434 else if i == 0x27 then 0x55bd else
    if i == 0x28 then 0xad4a else if i == 0x29 then 0xbcc3 else
    if i == 0x2a then 0x8e58 else if i == 0x2b then 0x9fd1 else
    if i == 0x2c then 0xeb6e else if i == 0x2d then 0xfae7 else if i == 0x2e then 0xc87c else 0xd9f5
  }

  function Row16x3(i: bv8): bv16 {
    if i == 0x30 then 0x3183 else if i == 0x31 then 0x200a else
    if i == 0x32 then 0x1291 else if i == 0x33 then 0x0318 else
    if i == 0x34 then 0x77a7 else if i == 0x35 then 0x662e else
    if i == 0x36 then 0x54b5 else if i == 0x37 then 0x453c else
    if i == 0x38 then 0xbdcb else if i == 0x39 then 0xac42 else
    if i == 0x3a then 0x9ed9 else if i == 0x3b then 0x8f50 else
    if i == 0x3c then 0xfbef else if i == 0x3d then 0xea66 else if i == 0x3e then 0xd8fd else 0xc974
  }

  function Row16x4(i: bv8): bv16 {
    if i == 0x40 then 0x4204 else if i == 0x41 then 0x538d else
    if i == 0x42 then 0x6116 else if i == 0x43 then 0x709f else
    if i == 0x44 then 0x0420 else if i == 0x45 then 0x15a9 else
    if i == 0x46 then 0x2732 else if i == 0x47 then 0x36bb else
    if i == 0x48 then 0xce4c else if i == 0x49 then 0xdfc5 else
    if i == 0x4a then 0xed5e else if i == 0x4b then 0xfcd7 else
    if i == 0x4c then 0x8868 else if i == 0x4d then 0x99e1 else if i == 0x4e then 0xab7a else 0xbaf3
  }

  function Row16x5(i: bv8): bv16 {
    if i == 0x50 then 0x5285 else if i == 0x51 then 0x430c else
    if i == 0x52 then 0x7197 else if i == 0x53 then 0x601e else
    if i == 0x54 then 0x14a1 else if i == 0x55 then 0x0528 else
    if i == 0x56 then 0x37b3 else if i == 0x57 then 0x263a else
    if i == 0x58 then 0xdecd else if i == 0x59 then 0xcf44 else
    if i == 0x5a then 0xfddf else if i == 0x5b then 0xec56 else
    if i == 0x5c then 0x98e9 else if i == 0x5d then 0x8960 else if i == 0x5e then 0xbbfb else 0xaa72
  }

  function Row16x6(i: bv8): bv16 {
    if i == 0x60 then 0x6306 else if i == 0x61 then 0x728f else
    if i == 0x62 then 0x4014 else if i == 0x63 then 0x519d else
    if i == 0x64 then 0x2522 else if i == 0x65 then 0x34ab else
    if i == 0x66 then 0x0630 else if i == 0x67 then 0x17b9 else
    if i == 0x68 then 0xef4e else if i == 0x69 then 0xfec7 else
    if i == 0x6a then 0xcc5c else if i == 0x6b then 0xddd5 else
    if i == 0x6c then 0xa96a else if i == 0x6d then 0xb8e3 else if i == 0x6e then 0x8a78 else 0x9bf1
  }

  function Row16x7(i: bv8): bv16 {
    if i == 0x70 then 0x7387 else if i == 0x71 then 0x620e else
    if i == 0x72 then 0x5095 else if i == 0x73 then 0x411c else
    if i == 0x74 then 0x35a3 else if i == 0x75 then 0x242a else
    if i == 0x76 then 0x16b1 else if i == 0x77 then 0x0738 else
    if i == 0x78 then 0xffcf else if i == 0x79 then 0xee46 else
    if i == 0x7a then 0xdcdd else if i == 0x7b then 0xcd54 else
    if i == 0x7c then 0xb9eb else if i == 0x7d then 0xa862 else if i == 0x7e then 0x9af9 else 0x8b70
  }

  function Row16x8(i: bv8): bv16 {
    if i == 0x80 then 0x8408 else if i == 0x81 then 0x9581 else
    if i == 0x82 then 0xa71a else if i == 0x83 then 0xb693 else
    if i == 0x84 then 0xc22c else if i == 0x85 then 0xd3a5 else
    if i == 0x86 then 0xe13e else if i == 0x87 then 0xf0b7 else
    if i == 0x88 then 0x0840 else if i == 0x89 then 0x19c9 else
    if i == 0x8a then 0x2b52 else if i == 0x8b then 0x3adb else
    if i == 0x8c then 0x4e64 else if i == 0x8d then 0x5fed else if i == 0x8e then 0x6d76 else 0x7cff
  }

  function Row16x9(i: bv8): bv16 {
    if i == 0x90 then 0x9489 else if i == 0x91 then 0x8500 else
    if i == 0x92 then 0xb79b else if i == 0x93 then 0xa612 else
    if i == 0x94 then 0xd2ad else if i == 0x95 then 0xc324 else
    if i == 0x96 then 0xf1bf else if i == 0x97 then 0xe036 else
    if i == 0x98 then 0x18c1 else if i == 0x99 then 0x0948 else
    if i == 0x9a then 0x3bd3 else if i == 0x9b then 0x2a5a else
    if i == 0x9c then 0x5ee5 else if i == 0x9d then 0x4f6c else if i == 0x9e then 0x7df7 else 0x6c7e
  }

  function Row16xA(i: bv8): bv16 {
    if i == 0xa0 then 0xa50a else if i == 0xa1 then 0xb483 else
    if i == 0xa2 then 0x8618 else if i == 0xa3 then 0x9791 else
    if i == 0xa4 then 0xe32e else if i == 0xa5 then 0xf2a7 else
    if i == 0xa6 then 0xc03c else if i == 0xa7 then 0xd1b5 else
    if i == 0xa8 then 0x2942 else if i == 0xa9 then 0x38cb else
    if i == 0xaa then 0x0a50 else if i == 0xab then 0x1bd9 else
    if i == 0xac then 0x6f66 else if i == 0xad then 0x7eef else if i == 0xae then 0x4c74 else 0x5dfd
  }

  function Row16xB(i: bv8): bv16 {
    if i == 0xb0 then 0xb58b else if i == 0xb1 then 0xa402 else
    if i == 0xb2 then 0x9699 else if i == 0xb3 then 0x8710 else
    if i == 0xb4 then 0xf3af else if i == 0xb5 then 0xe226 else
    if i == 0xb6 then 0xd0bd else if i == 0xb7 then 0xc134 else
    if i == 0xb8 then 0x39c3 else if i == 0xb9 then 0x284a else
    if i == 0xba then 0x1ad1 else if i == 0xbb then 0x0b58 else
    if i == 0xbc then 0x7fe7 else if i == 0xbd then 0x6e6e else if i == 0xbe then 0x5cf5 else 0x4d7c
  }

  function Row16xC(i: bv8): bv16 {
    if i == 0xc0 then 0xc60c else if i == 0xc1 then 0xd785 else
    if i == 0xc2 then 0xe51e else if i == 0xc3 then 0xf497 else
    if i == 0xc4 then 0x8028 else if i == 0xc5 then 0x91a1 else
    if i == 0xc6 then 0xa33a else if i == 0xc7 then 0xb2b3 else
    if i == 0xc8 then 0x4a44 else if i == 0xc9 then 0x5bcd else
    if i == 0xca then 0x6956 else if i == 0xcb then 0x78df else
    if i == 0xcc then 0x0c60 else if i == 0xcd then 0x1de9 else if i == 0xce then 0x2f72 else 0x3efb
  }

  function Row16xD(i: bv8): bv16 {
    if i == 0xd0 then 0xd68d else if i == 0xd1 then 0xc704 else
    if i == 0xd2 then 0xf59f else if i == 0xd3 then 0xe416 else
    if i == 0xd4 then 0x90a9 else if i == 0xd5 then 0x8120 else
    if i == 0xd6 then 0xb3bb else if i == 0xd7 then 0xa232 else
    if i == 0xd8 then 0x5ac5 else if i == 0xd9 then 0x4b4c else
    if i == 0xda then 0x79d7 else if i == 0xdb then 0x685e else
    if i == 0xdc then 0x1ce1 else if i == 0xdd then 0x0d68 else if i == 0xde then 0x3ff3 else 0x2e7a
  }

  function Row16xE(i: bv8): bv16 {
    if i == 0xe0 then 0xe70e else if i == 0xe1 then 0xf687 else
    if i == 0xe2 then 0xc41c else if i == 0xe3 then 0xd595 else
    if i == 0xe4 then 0xa12a else if i == 0xe5 then 0xb0a3 else
    if i == 0xe6 then 0x8238 else if i == 0xe7 then 0x93b1 else
    if i == 0xe8 then 0x6b46 else if i == 0xe9 then 0x7acf else
    if i == 0xea then 0x4854 else if i == 0xeb then 0x59dd else
    if i == 0xec then 0x2d62 else if i == 0xed then 0x3ceb else if i == 0xee then 0x0e70 else 0x1ff9
  }

  function Row16xF(i: bv8): bv16 {
    if i == 0xf0 then 0xf78f else if i == 0xf1 then 0xe606 else
    if i == 0xf2 then 0xd49d else if i == 0xf3 then 0xc514 else
    if i == 0xf4 then 0xb1ab else if i == 0xf5 then 0xa022 else
    if i == 0xf6 then 0x92b9 else if i == 0xf7 then 0x8330 else
    if i == 0xf8 then 0x7bc7 else if i == 0xf9 then 0x6a4e else
    if i == 0xfa then 0x58d5 else if i == 0xfb then 0x495c else
    if i == 0xfc then 0x3de3 else if i == 0xfd then 0x2c6a else if i == 0xfe then 0x1ef1 else 0x0f78
  }

  /** The lookup table FCSTAB_16, sixteen entries to a row. */
  function FcsTab16(i: bv8): bv16 {
    if i < 0x10 then Row16x0(i) else
    if i < 0x20 then Row16x1(i) else
    if i < 0x30 then Row16x2(i) else
    if i < 0x40 then Row16x3(i) else
    if i < 0x50 then Row16x4(i) else
    if i < 0x60 then Row16x5(i) else
    if i < 0x70 then Row16x6(i) else
    if i < 0x80 then Row16x7(i) else
    if i < 0x90 then Row16x8(i) else
    if i < 0xa0 then Row16x9(i) else
    if i < 0xb0 then Row16xA(i) else
    if i < 0xc0 then Row16xB(i) else
    if i < 0xd0 then Row16xC(i) else
    if i < 0xe0 then Row16xD(i) else
    if i < 0xf0 then Row16xE(i) else
    Row16xF(i)
  }

  /** What the original does with one octet: one table lookup. */
  function Step16(c: bv16, d: bv8): bv16 {
    Xor16(c >> 8, FcsTab16((c & 0xff) as bv8 ^ d))
  }

  lemma Row16x0Ticks(i: bv8)
    requires i < 0x10
    ensures Row16x0(i) == Octet16(i as bv16)
  {}

  lemma Row16x1Ticks(i: bv8)
    requires 0x10 <= i && i < 0x20
    ensures Row16x1(i) == Octet16(i as bv16)
  {}

  lemma Row16x2Ticks(i: bv8)
    requires 0x20 <= i && i < 0x30
    ensures Row16x2(i) == Octet16(i as bv16)
  {}

  lemma Row16x3Ticks(i: bv8)
    requires 0x30 <= i && i < 0x40
    ensures Row16x3(i) == Octet16(i as bv16)
  {}

  lemma Row16x4Ticks(i: bv8)
    requires 0x40 <= i && i < 0x50
    ensures Row16x4(i) == Octet16(i as bv16)
  {}

  lemma Row16x5Ticks(i: bv8)
    requires 0x50 <= i && i < 0x60
    ensures Row16x5(i) == Octet16(i as bv16)
  {}

  lemma Row16x6Ticks(i: bv8)
    requires 0x60 <= i && i < 0x70
    ensures Row16x6(i) == Octet16(i as bv16)
  {}

  lemma Row16x7Ticks(i: bv8)
    requires 0x70 <= i && i < 0x80
    ensures Row16x7(i) == Octet16(i as bv16)
  {}

  lemma Row16x8Ticks(i: bv8)
    requires 0x80 <= i && i < 0x90
    ensures Row16x8(i) == Octet16(i as bv16)
  {}

  lemma Row16x9Ticks(i: bv8)
    requires 0x90 <= i && i < 0xa0
    ensures Row16x9(i) == Octet16(i as bv16)
  {}

  lemma Row16xATicks(i: bv8)
    requires 0xa0 <= i && i < 0xb0
    ensures Row16xA(i) == Octet16(i as bv16)
  {}

  lemma Row16xBTicks(i: bv8)
    requires 0xb0 <= i && i < 0xc0
    ensures Row16xB(i) == Octet16(i as bv16)
  {}

  lemma Row16xCTicks(i: bv8)
    requires 0xc0 <= i && i < 0xd0
    ensures Row16xC(i) == Octet16(i as bv16)
  {}

  lemma Row16xDTicks(i: bv8)
    requires 0xd0 <= i && i < 0xe0
    ensures Row16xD(i) == Octet16(i as bv16)
  {}

  lemma Row16xETicks(i: bv8)
    requires 0xe0 <= i && i < 0xf0
    ensures Row16xE(i) == Octet16(i as bv16)
  {}

  lemma Row16xFTicks(i: bv8)
    requires 0xf0 <= i
    ensures Row16xF(i) == Octet16(i as bv16)
  {}

  /** Every entry of FCSTAB_16 is its index run through eight ticks of the register. */
  lemma Table16Ticks(i: bv8)
    ensures FcsTab16(i) == Octet16(i as bv16)
  {
    if i < 0x10 { Row16x0Ticks(i); }
    else if i < 0x20 { Row16x1Ticks(i); }
    else if i < 0x30 { Row16x2Ticks(i); }
    else if i < 0x40 { Row16x3Ticks(i); }
    else if i < 0x50 { Row16x4Ticks(i); }
    else if i < 0x60 { Row16x5Ticks(i); }
    else if i < 0x70 { Row16x6Ticks(i); }
    else if i < 0x80 { Row16x7Ticks(i); }
    else if i < 0x90 { Row16x8Ticks(i); }
    else if i < 0xa0 { Row16x9Ticks(i); }
    else if i < 0xb0 { Row16xATicks(i); }
    else if i < 0xc0 { Row16xBTicks(i); }
    else if i < 0xd0 { Row16xCTicks(i); }
    else if i < 0xe0 { Row16xDTicks(i); }
    else if i < 0xf0 { Row16xETicks(i); }
    else { Row16xFTicks(i); }
  }

  // ----- FCS-32 -----

  /** Exclusive or, named so that proofs can treat it as a black box. */
  function Xor32(x: bv32, y: bv32): bv32 {
    x ^ y
  }

  predicate Odd32(c: bv32) {
    c & 1 == 1
  }

  /** One tick of the bit-serial FCS-32 register: shift right, and fold the polynomial in when a one drops out. */
  function Shift32(c: bv32): bv32 {
    if Odd32(c) then Xor32(c >> 1, 0xedb88320) else c >> 1
  }

  function Nibble32(c: bv32): bv32 {
    Shift32(Shift32(Shift32(Shift32(c))))
  }

  /** Eight ticks: what the register does with one octet. */
  function Octet32(c: bv32): bv32 {
    Nibble32(Nibble32(c))
  }

  function Row32x0(i: bv8): bv32 {
    if i == 0x00 then 0x00000000 else if i == 0x01 then 0x77073096 else
    if i == 0x02 then 0xee0e612c else if i == 0x03 then 0x990951ba else
    if i == 0x04 then 0x076dc419 else if i == 0x05 then 0x706af48f else
    if i == 0x06 then 0xe963a535 else if i == 0x07 then 0x9e6495a3 else
    if i == 0x08 then 0x0edb8832 else if i == 0x09 then 0x79dcb8a4 else
    if i == 0x0a then 0xe0d5e91e else if i == 0x0b then 0x97d2d988 else
    if i == 0x0c then 0x09b64c2b else if i == 0x0d then 0x7eb17cbd else if i == 0x0e then 0xe7b82d07 else 0x90bf1d91
  }

  function Row32x1(i: bv8): bv32 {
    if i == 0x10 then 0x1db71064 else if i == 0x11 then 0x6ab020f2 else
    if i == 0x12 then 0xf3b97148 else if i == 0x13 then 0x84be41de else
    if i == 0x14 then 0x1adad47d else if i == 0x15 then 0x6ddde4eb else
    if i == 0x16 then 0xf4d4b551 else if i == 0x17 then 0x83d385c7 else
    if i == 0x18 then 0x136c9856 else if i == 0x19 then 0x646ba8c0 else
    if i == 0x1a then 0xfd62f97a else if i == 0x1b then 0x8a65c9ec else
    if i == 0x1c then 0x14015c4f else if i == 0x1d then 0x63066cd9 else if i == 0x1e then 0xfa0f3d63 else 0x8d080df5
  }

  function Row32x2(i: bv8): bv32 {
    if i == 0x20 then 0x3b6e20c8 else if i == 0x21 then 0x4c69105e else
    if i == 0x22 then 0xd56041e4 else if i == 0x23 then 0xa2677172 else
    if i == 0x24 then 0x3c03e4d1 else if i == 0x25 then 0x4b04d447 else
    if i == 0x26 then 0xd20d85fd else if i == 0x27 then 0xa50ab56b else
    if i == 0x28 then 0x35b5a8fa else if i == 0x29 then 0x42b2986c else
    if i == 0x2a then 0xdbbbc9d6 else if i == 0x2b then 0xacbcf940 else
    if i == 0x2c then 0x32d86ce3 else if i == 0x2d then 0x45df5c75 else if i == 0x2e then 0xdcd60dcf else 0xabd13d59
  }

  function Row32x3(i: bv8): bv32 {
    if i == 0x30 then 0x26d930ac else if i == 0x31 then 0x51de003a else
    if i == 0x32 then 0xc8d75180 else if i == 0x33 then 0xbfd06116 else
    if i == 0x34 then 0x21b4f4b5 else if i == 0x35 then 0x56b3c423 else
    if i == 0x36 then 0xcfba9599 else if i == 0x37 then 0xb8bda50f else
    if i == 0x38 then 0x2802b89e else if i == 0x39 then 0x5f058808 else
    if i == 0x3a then 0xc60cd9b2 else if i == 0x3b then 0xb10be924 else
    if i == 0x3c then 0x2f6f7c87 else if i == 0x3d then 0x58684c11 else if i == 0x3e then 0xc1611dab else 0xb6662d3d
  }

  function Row32x4(i: bv8): bv32 {
    if i == 0x40 then 0x76dc4190 else if i == 0x41 then 0x01db7106 else
    if i == 0x42 then 0x98d220bc else if i == 0x43 then 0xefd5102a else
    if i == 0x44 then 0x71b18589 else if i == 0x45 then 0x06b6b51f else
    if i == 0x46 then 0x9fbfe4a5 else if i == 0x47 then 0xe8b8d433 else
    if i == 0x48 then 0x7807c9a2 else if i == 0x49 then 0x0f00f934 else
    if i == 0x4a then 0x9609a88e else if i == 0x4b then 0xe10e9818 else
    if i == 0x4c then 0x7f6a0dbb else if i == 0x4d then 0x086d3d2d else if i == 0x4e then 0x91646c97 else 0xe6635c01
  }

  function Row32x5(i: bv8): bv32 {
    if i == 0x50 then 0x6b6b51f4 else if i == 0x51 then 0x1c6c6162 else
    if i == 0x52 then 0x856530d8 else if i == 0x53 then 0xf262004e else
    if i == 0x54 then 0x6c0695ed else if i == 0x55 then 0x1b01a57b else
    if i == 0x56 then 0x8208f4c1 else if i == 0x57 then 0xf50fc457 else
    if i == 0x58 then 0x65b0d9c6 else if i == 0x59 then 0x12b7e950 else
    if i == 0x5a then 0x8bbeb8ea else if i == 0x5b then 0xfcb9887c else
    if i == 0x5c then 0x62dd1ddf else if i == 0x5d then 0x15da2d49 else if i == 0x5e then 0x8cd37cf3 else 0xfbd44c65
  }

  function Row32x6(i: bv8): bv32 {
    if i == 0x60 then 0x4db26158 else if i == 0x61 then 0x3ab551ce else
    if i == 0x62 then 0xa3bc0074 else if i == 0x63 then 0xd4bb30e2 else
    if i == 0x64 then 0x4adfa541 else if i == 0x65 then 0x3dd895d7 else
    if i == 0x66 then 0xa4d1c46d else if i == 0x67 then 0xd3d6f4fb else
    if i == 0x68 then 0x4369e96a else if i == 0x69 then 0x346ed9fc else
    if i == 0x6a then 0xad678846 else if i == 0x6b then 0xda60b8d0 else
    if i == 0x6c then 0x44042d73 else if i == 0x6d then 0x33031de5 else if i == 0x6e then 0xaa0a4c5f else 0xdd0d7cc9
  }

  function Row32x7(i: bv8): bv32 {
    if i == 0x70 then 0x5005713c else if i == 0x71 then 0x270241aa else
    if i == 0x72 then 0xbe0b1010 else if i == 0x73 then 0xc90c2086 else
    if i == 0x74 then 0x5768b525 else if i == 0x75 then 0x206f85b3 else
    if i == 0x76 then 0xb966d409 else if i == 0x77 then 0xce61e49f else
    if i == 0x78 then 0x5edef90e else if i == 0x79 then 0x29d9c998 else
    if i == 0x7a then 0xb0d09822 else if i == 0x7b then 0xc7d7a8b4 else
    if i == 0x7c then 0x59b33d17 else if i == 0x7d then 0x2eb40d81 else if i == 0x7e then 0xb7bd5c3b else 0xc0ba6cad
  }

  function Row32x8(i: bv8): bv32 {
    if i == 0x80 then 0xedb88320 else if i == 0x81 then 0x9abfb3b6 else
    if i == 0x82 then 0x03b6e20c else if i == 0x83 then 0x74b1d29a else
    if i == 0x84 then 0xead54739 else if i == 0x85 then 0x9dd277af else
    if i == 0x86 then 0x04db2615 else if i == 0x87 then 0x73dc1683 else
    if i == 0x88 then 0xe3630b12 else if i == 0x89 then 0x94643b84 else
    if i == 0x8a then 0x0d6d6a3e else if i == 0x8b then 0x7a6a5aa8 else
    if i == 0x8c then 0xe40ecf0b else if i == 0x8d then 0x9309ff9d else if i == 0x8e then 0x0a00ae27 else 0x7d079eb1
  }

  function Row32x9(i: bv8): bv32 {
    if i == 0x90 then 0xf00f9344 else if i == 0x91 then 0x8708a3d2 else
    if i == 0x92 then 0x1e01f268 else if i == 0x93 then 0x6906c2fe else
    if i == 0x94 then 0xf762575d else if i == 0x95 then 0x806567cb else
    if i == 0x96 then 0x196c3671 else if i == 0x97 then 0x6e6b06e7 else
    if i == 0x98 then 0xfed41b76 else if i == 0x99 then 0x89d32be0 else
    if i == 0x9a then 0x10da7a5a else if i == 0x9b then 0x67dd4acc else
    if i == 0x9c then 0xf9b9df6f else if i == 0x9d then 0x8ebeeff9 else if i == 0x9e then 0x17b7be43 else 0x60b08ed5
  }

  function Row32xA(i: bv8): bv32 {
    if i == 0xa0 then 0xd6d6a3e8 else if i == 0xa1 then 0xa1d1937e else
    if i == 0xa2 then 0x38d8c2c4 else if i == 0xa3 then 0x4fdff252 else
    if i == 0xa4 then 0xd1bb67f1 else if i == 0xa5 then 0xa6bc5767 else
    if i == 0xa6 then 0x3fb506dd else if i == 0xa7 then 0x48b2364b else
    if i == 0xa8 then 0xd80d2bda else if i == 0xa9 then 0xaf0a1b4c else
    if i == 0xaa then 0x36034af6 else if i == 0xab then 0x41047a60 else
    if i == 0xac then 0xdf60efc3 else if i == 0xad then 0xa867df55 else if i == 0xae then 0x316e8eef else 0x4669be79
  }

  function Row32xB(i: bv8): bv32 {
    if i == 0xb0 then 0xcb61b38c else if i == 0xb1 then 0xbc66831a else
    if i == 0xb2 then 0x256fd2a0 else if i == 0xb3 then 0x5268e236 else
    if i == 0xb4 then 0xcc0c7795 else if i == 0xb5 then 0xbb0b4703 else
    if i == 0xb6 then 0x220216b9 else if i == 0xb7 then 0x5505262f else
    if i == 0xb8 then 0xc5ba3bbe else if i == 0xb9 then 0xb2bd0b28 else
    if i == 0xba then 0x2bb45a92 else if i == 0xbb then 0x5cb36a04 else
    if i == 0xbc then 0xc2d7ffa7 else if i == 0xbd then 0xb5d0cf31 else if i == 0xbe then 0x2cd99e8b else 0x5bdeae1d
  }

  function Row32xC(i: bv8): bv32 {
    if i == 0xc0 then 0x9b64c2b0 else if i == 0xc1 then 0xec63f226 else
    if i == 0xc2 then 0x756aa39c else if i == 0xc3 then 0x026d930a else
    if i == 0xc4 then 0x9c0906a9 else if i == 0xc5 then 0xeb0e363f else
    if i == 0xc6 then 0x72076785 else if i == 0xc7 then 0x05005713 else
    if i == 0xc8 then 0x95bf4a82 else if i == 0xc9 then 0xe2b87a14 else
    if i == 0xca then 0x7bb12bae else if i == 0xcb then 0x0cb61b38 else
    if i == 0xcc then 0x92d28e9b else if i == 0xcd then 0xe5d5be0d else if i == 0xce then 0x7cdcefb7 else 0x0bdbdf21
  }

  function Row32xD(i: bv8): bv32 {
    if i == 0xd0 then 0x86d3d2d4 else if i == 0xd1 then 0xf1d4e242 else
    if i == 0xd2 then 0x68ddb3f8 else if i == 0xd3 then 0x1fda836e else
    if i == 0xd4 then 0x81be16cd else if i == 0xd5 then 0xf6b9265b else
    if i == 0xd6 then 0x6fb077e1 else if i == 0xd7 then 0x18b74777 else
    if i == 0xd8 then 0x88085ae6 else if i == 0xd9 then 0xff0f6a70 else
    if i == 0xda then 0x66063bca else if i == 0xdb then 0x11010b5c else
    if i == 0xdc then 0x8f659eff else if i == 0xdd then 0xf862ae69 else if i == 0xde then 0x616bffd3 else 0x166ccf45
  }

  function Row32xE(i: bv8): bv32 {
    if i == 0xe0 then 0xa00ae278 else if i == 0xe1 then 0xd70dd2ee else
    if i == 0xe2 then 0x4e048354 else if i == 0xe3 then 0x3903b3c2 else
    if i == 0xe4 then 0xa7672661 else if i == 0xe5 then 0xd06016f7 else
    if i == 0xe6 then 0x4969474d else if i == 0xe7 then 0x3e6e77db else
    if i == 0xe8 then 0xaed16a4a else if i == 0xe9 then 0xd9d65adc else
    if i == 0xea then 0x40df0b66 else if i == 0xeb then 0x37d83bf0 else
    if i == 0xec then 0xa9bcae53 else if i == 0xed then 0xdebb9ec5 else if i == 0xee then 0x47b2cf7f else 0x30b5ffe9
  }

  function Row32xF(i: bv8): bv32 {
    if i == 0xf0 then 0xbdbdf21c else if i == 0xf1 then 0xcabac28a else
    if i == 0xf2 then 0x53b39330 else if i == 0xf3 then 0x24b4a3a6 else
    if i == 0xf4 then 0xbad03605 else if i == 0xf5 then 0xcdd70693 else
    if i == 0xf6 then 0x54de5729 else if i == 0xf7 then 0x23d967bf else
    if i == 0xf8 then 0xb3667a2e else if i == 0xf9 then 0xc4614ab8 else
    if i == 0xfa then 0x5d681b02 else if i == 0xfb then 0x2a6f2b94 else
    if i == 0xfc then 0xb40bbe37 else if i == 0xfd then 0xc30c8ea1 else if i == 0xfe then 0x5a05df1b else 0x2d02ef8d
  }

  /** The lookup table FCSTAB_32, sixteen entries to a row. */
  function FcsTab32(i: bv8): bv32 {
    if i < 0x10 then Row32x0(i) else
    if i < 0x20 then Row32x1(i) else
    if i < 0x30 then Row32x2(i) else
    if i < 0x40 then Row32x3(i) else
    if i < 0x50 then Row32x4(i) else
    if i < 0x60 then Row32x5(i) else
    if i < 0x70 then Row32x6(i) else
    if i < 0x80 then Row32x7(i) else
    if i < 0x90 then Row32x8(i) else
    if i < 0xa0 then Row32x9(i) else
    if i < 0xb0 then Row32xA(i) else
    if i < 0xc0 then Row32xB(i) else
    if i < 0xd0 then Row32xC(i) else
    if i < 0xe0 then Row32xD(i) else
    if i < 0xf0 then Row32xE(i) else
    Row32xF(i)
  }

  /** What the original does with one octet: one table lookup. */
  function Step32(c: bv32, d: bv8): bv32 {
    Xor32(FcsTab32((c & 0xff) as bv8 ^ d), c >> 8)
  }

  lemma Row32x0Ticks(i: bv8)
    requires i < 0x10
    ensures Row32x0(i) == Octet32(i as bv32)
  {}

  lemma Row32x1Ticks(i: bv8)
    requires 0x10 <= i && i < 0x20
    ensures Row32x1(i) == Octet32(i as bv32)
  {}

  lemma Row32x2Ticks(i: bv8)
    requires 0x20 <= i && i < 0x30
    ensures Row32x2(i) == Octet32(i as bv32)
  {}

  lemma Row32x3Ticks(i: bv8)
    requires 0x30 <= i && i < 0x40
    ensures Row32x3(i) == Octet32(i as bv32)
  {}

  lemma Row32x4Ticks(i: bv8)
    requires 0x40 <= i && i < 0x50
    ensures Row32x4(i) == Octet32(i as bv32)
  {}

  lemma Row32x5Ticks(i: bv8)
    requires 0x50 <= i && i < 0x60
    ensures Row32x5(i) == Octet32(i as bv32)
  {}

  lemma Row32x6Ticks(i: bv8)
    requires 0x60 <= i && i < 0x70
    ensures Row32x6(i) == Octet32(i as bv32)
  {}

  lemma Row32x7Ticks(i: bv8)
    requires 0x70 <= i && i < 0x80
    ensures Row32x7(i) == Octet32(i as bv32)
  {}

  lemma Row32x8Ticks(i: bv8)
    requires 0x80 <= i && i < 0x90
    ensures Row32x8(i) == Octet32(i as bv32)
  {}

  lemma Row32x9Ticks(i: bv8)
    requires 0x90 <= i && i < 0xa0
    ensures Row32x9(i) == Octet32(i as bv32)
  {}

  lemma Row32xATicks(i: bv8)
    requires 0xa0 <= i && i < 0xb0
    ensures Row32xA(i) == Octet32(i as bv32)
  {}

  lemma Row32xBTicks(i: bv8)
    requires 0xb0 <= i && i < 0xc0
    ensures Row32xB(i) == Octet32(i as bv32)
  {}

  lemma Row32xCTicks(i: bv8)
    requires 0xc0 <= i && i < 0xd0
    ensures Row32xC(i) == Octet32(i as bv32)
  {}

  lemma Row32xDTicks(i: bv8)
    requires 0xd0 <= i && i < 0xe0
    ensures Row32xD(i) == Octet32(i as bv32)
  {}

  lemma Row32xETicks(i: bv8)
    requires 0xe0 <= i && i < 0xf0
    ensures Row32xE(i) == Octet32(i as bv32)
  {}

  lemma Row32xFTicks(i: bv8)
    requires 0xf0 <= i
    ensures Row32xF(i) == Octet32(i as bv32)
  {}

  /** Every entry of FCSTAB_32 is its index run through eight ticks of the register. */
  lemma Table32Ticks(i: bv8)
    ensures FcsTab32(i) == Octet32(i as bv32)
  {
    if i < 0x10 { Row32x0Ticks(i); }
    else if i < 0x20 { Row32x1Ticks(i); }
    else if i < 0x30 { Row32x2Ticks(i); }
    else if i < 0x40 { Row32x3Ticks(i); }
    else if i < 0x50 { Row32x4Ticks(i); }
    else if i < 0x60 { Row32x5Ticks(i); }
    else if i < 0x70 { Row32x6Ticks(i); }
    else if i < 0x80 { Row32x7Ticks(i); }
    else if i < 0x90 { Row32x8Ticks(i); }
    else if i < 0xa0 { Row32x9Ticks(i); }
    else if i < 0xb0 { Row32xATicks(i); }
    else if i < 0xc0 { Row32xBTicks(i); }
    else if i < 0xd0 { Row32xCTicks(i); }
    else if i < 0xe0 { Row32xDTicks(i); }
    else if i < 0xf0 { Row32xETicks(i); }
    else { Row32xFTicks(i); }
  }
}
