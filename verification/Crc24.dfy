/** The OpenPGP checksum of the base-64 armor: the table-driven loop against the bit-by-bit
    definition of section 6.1 of RFC 4880. */
module Crc24 {

  const CRCINIT: bv32 := 0xB704CE
  const CRCPOLY: bv32 := 0x864CFB

  // ---------- the reference: bit by bit, 24 bits wide ----------

  function Xor(a: bv32, b: bv32): bv32 {
    a ^ b
  }

  function Mask(c: bv32): bv32 {
    c & 0x00ffffff
  }

  function Low16(c: bv32): bv32 {
    c & 0xffff
  }

  function Shift8(c: bv32): bv32 {
    c << 8
  }

  function Shift(c: bv32): bv32 {
    c << 1
  }

  /** An octet moved to the top of the 24 bits. */
  function Raise(b: bv8): bv32 {
    b as bv32 << 16
  }

  /** The polynomial with its leading bit, if bit 23 is about to be shifted out. */
  function Top(c: bv32): bv32 {
    if c & 0x800000 != 0 then 0x1864CFB else 0
  }

  /** One bit of RFC 4880: shift, and subtract the polynomial. */
  function Bit(c: bv32): bv32 {
    Xor(Shift(c), Top(c))
  }

  function EightBits(c: bv32): bv32 {
    Bit(Bit(Bit(Bit(Bit(Bit(Bit(Bit(c))))))))
  }

  function OctetStep(c: bv32, b: bv8): bv32 {
    EightBits(Xor(c, Raise(b)))
  }

  function Crc(c: bv32, data: seq<bv8>): bv32 {
    if data == [] then c else OctetStep(Crc(c, data[..|data| - 1]), data[|data| - 1])
  }

  // ---------- the table ----------

  function Row0(i: bv8): bv32 {
    if i == 0 then 0x00000000 else if i == 1 then 0x00864cfb else
    if i == 2 then 0x018ad50d else if i == 3 then 0x010c99f6 else
    if i == 4 then 0x0393e6e1 else if i == 5 then 0x0315aa1a else
    if i == 6 then 0x021933ec else if i == 7 then 0x029f7f17 else
    if i == 8 then 0x07a18139 else if i == 9 then 0x0727cdc2 else
    if i == 10 then 0x062b5434 else if i == 11 then 0x06ad18cf else
    if i == 12 then 0x043267d8 else if i == 13 then 0x04b42b23 else if i == 14 then 0x05b8b2d5 else 0x053efe2e
  }

  function Row1(i: bv8): bv32 {
    if i == 16 then 0x0fc54e89 else if i == 17 then 0x0f430272 else
    if i == 18 then 0x0e4f9b84 else if i == 19 then 0x0ec9d77f else
    if i == 20 then 0x0c56a868 else if i == 21 then 0x0cd0e493 else
    if i == 22 then 0x0ddc7d65 else if i == 23 then 0x0d5a319e else
    if i == 24 then 0x0864cfb0 else if i == 25 then 0x08e2834b else
    if i == 26 then 0x09ee1abd else if i == 27 then 0x09685646 else
    if i == 28 then 0x0bf72951 else if i == 29 then 0x0b7165aa else if i == 30 then 0x0a7dfc5c else 0x0afbb0a7
  }

  function Row2(i: bv8): bv32 {
    if i == 32 then 0x1f0cd1e9 else if i == 33 then 0x1f8a9d12 else
    if i == 34 then 0x1e8604e4 else if i == 35 then 0x1e00481f else
    if i == 36 then 0x1c9f3708 else if i == 37 then 0x1c197bf3 else
    if i == 38 then 0x1d15e205 else if i == 39 then 0x1d93aefe else
    if i == 40 then 0x18ad50d0 else if i == 41 then 0x182b1c2b else
    if i == 42 then 0x192785dd else if i == 43 then 0x19a1c926 else
    if i == 44 then 0x1b3eb631 else if i == 45 then 0x1bb8faca else if i == 46 then 0x1ab4633c else 0x1a322fc7
  }

  function Row3(i: bv8): bv32 {
    if i == 48 then 0x10c99f60 else if i == 49 then 0x104fd39b else
    if i == 50 then 0x11434a6d else if i == 51 then 0x11c50696 else
    if i == 52 then 0x135a7981 else if i == 53 then 0x13dc357a else
    if i == 54 then 0x12d0ac8c else if i == 55 then 0x1256e077 else
    if i == 56 then 0x17681e59 else if i == 57 then 0x17ee52a2 else
    if i == 58 then 0x16e2cb54 else if i == 59 then 0x166487af else
    if i == 60 then 0x14fbf8b8 else if i == 61 then 0x147db443 else if i == 62 then 0x15712db5 else 0x15f7614e
  }

  function Row4(i: bv8): bv32 {
    if i == 64 then 0x3e19a3d2 else if i == 65 then 0x3e9fef29 else
    if i == 66 then 0x3f9376df else if i == 67 then 0x3f153a24 else
    if i == 68 then 0x3d8a4533 else if i == 69 then 0x3d0c09c8 else
    if i == 70 then 0x3c00903e else if i == 71 then 0x3c86dcc5 else
    if i == 72 then 0x39b822eb else if i == 73 then 0x393e6e10 else
    if i == 74 then 0x3832f7e6 else if i == 75 then 0x38b4bb1d else
    if i == 76 then 0x3a2bc40a else if i == 77 then 0x3aad88f1 else if i == 78 then 0x3ba11107 else 0x3b275dfc
  }

  function Row5(i: bv8): bv32 {
    if i == 80 then 0x31dced5b else if i == 81 then 0x315aa1a0 else
    if i == 82 then 0x30563856 else if i == 83 then 0x30d074ad else
    if i == 84 then 0x324f0bba else if i == 85 then 0x32c94741 else
    if i == 86 then 0x33c5deb7 else if i == 87 then 0x3343924c else
    if i == 88 then 0x367d6c62 else if i == 89 then 0x36fb2099 else
    if i == 90 then 0x37f7b96f else if i == 91 then 0x3771f594 else
    if i == 92 then 0x35ee8a83 else if i == 93 then 0x3568c678 else if i == 94 then 0x34645f8e else 0x34e21375
  }

  function Row6(i: bv8): bv32 {
    if i == 96 then 0x2115723b else if i == 97 then 0x21933ec0 else
    if i == 98 then 0x209fa736 else if i == 99 then 0x2019ebcd else
    if i == 100 then 0x228694da else if i == 101 then 0x2200d821 else
    if i == 102 then 0x230c41d7 else if i == 103 then 0x238a0d2c else
    if i == 104 then 0x26b4f302 else if i == 105 then 0x2632bff9 else
    if i == 106 then 0x273e260f else if i == 107 then 0x27b86af4 else
    if i == 108 then 0x252715e3 else if i == 109 then 0x25a15918 else if i == 110 then 0x24adc0ee else 0x242b8c15
  }

  function Row7(i: bv8): bv32 {
    if i == 112 then 0x2ed03cb2 else if i == 113 then 0x2e567049 else
    if i == 114 then 0x2f5ae9bf else if i == 115 then 0x2fdca544 else
    if i == 116 then 0x2d43da53 else if i == 117 then 0x2dc596a8 else
    if i == 118 then 0x2cc90f5e else if i == 119 then 0x2c4f43a5 else
    if i == 120 then 0x2971bd8b else if i == 121 then 0x29f7f170 else
    if i == 122 then 0x28fb6886 else if i == 123 then 0x287d247d else
    if i == 124 then 0x2ae25b6a else if i == 125 then 0x2a641791 else if i == 126 then 0x2b688e67 else 0x2beec29c
  }

  function Row8(i: bv8): bv32 {
    if i == 128 then 0x7c3347a4 else if i == 129 then 0x7cb50b5f else
    if i == 130 then 0x7db992a9 else if i == 131 then 0x7d3fde52 else
    if i == 132 then 0x7fa0a145 else if i == 133 then 0x7f26edbe else
    if i == 134 then 0x7e2a7448 else if i == 135 then 0x7eac38b3 else
    if i == 136 then 0x7b92c69d else if i == 137 then 0x7b148a66 else
    if i == 138 then 0x7a181390 else if i == 139 then 0x7a9e5f6b else
    if i == 140 then 0x7801207c else if i == 141 then 0x78876c87 else if i == 142 then 0x798bf571 else 0x790db98a
  }

  function Row9(i: bv8): bv32 {
    if i == 144 then 0x73f6092d else if i == 145 then 0x737045d6 else
    if i == 146 then 0x727cdc20 else if i == 147 then 0x72fa90db else
    if i == 148 then 0x7065efcc else if i == 149 then 0x70e3a337 else
    if i == 150 then 0x71ef3ac1 else if i == 151 then 0x7169763a else
    if i == 152 then 0x74578814 else if i == 153 then 0x74d1c4ef else
    if i == 154 then 0x75dd5d19 else if i == 155 then 0x755b11e2 else
    if i == 156 then 0x77c46ef5 else if i == 157 then 0x7742220e else if i == 158 then 0x764ebbf8 else 0x76c8f703
  }

  function Row10(i: bv8): bv32 {
    if i == 160 then 0x633f964d else if i == 161 then 0x63b9dab6 else
    if i == 162 then 0x62b54340 else if i == 163 then 0x62330fbb else
    if i == 164 then 0x60ac70ac else if i == 165 then 0x602a3c57 else
    if i == 166 then 0x6126a5a1 else if i == 167 then 0x61a0e95a else
    if i == 168 then 0x649e1774 else if i == 169 then 0x64185b8f else
    if i == 170 then 0x6514c279 else if i == 171 then 0x65928e82 else
    if i == 172 then 0x670df195 else if i == 173 then 0x678bbd6e else if i == 174 then 0x66872498 else 0x66016863
  }

  function Row11(i: bv8): bv32 {
    if i == 176 then 0x6cfad8c4 else if i == 177 then 0x6c7c943f else
    if i == 178 then 0x6d700dc9 else if i == 179 then 0x6df64132 else
    if i == 180 then 0x6f693e25 else if i == 181 then 0x6fef72de else
    if i == 182 then 0x6ee3eb28 else if i == 183 then 0x6e65a7d3 else
    if i == 184 then 0x6b5b59fd else if i == 185 then 0x6bdd1506 else
    if i == 186 then 0x6ad18cf0 else if i == 187 then 0x6a57c00b else
    if i == 188 then 0x68c8bf1c else if i == 189 then 0x684ef3e7 else if i == 190 then 0x69426a11 else 0x69c426ea
  }

  function Row12(i: bv8): bv32 {
    if i == 192 then 0x422ae476 else if i == 193 then 0x42aca88d else
    if i == 194 then 0x43a0317b else if i == 195 then 0x43267d80 else
    if i == 196 then 0x41b90297 else if i == 197 then 0x413f4e6c else
    if i == 198 then 0x4033d79a else if i == 199 then 0x40b59b61 else
    if i == 200 then 0x458b654f else if i == 201 then 0x450d29b4 else
    if i == 202 then 0x4401b042 else if i == 203 then 0x4487fcb9 else
    if i == 204 then 0x461883ae else if i == 205 then 0x469ecf55 else if i == 206 then 0x479256a3 else 0x47141a58
  }

  function Row13(i: bv8): bv32 {
    if i == 208 then 0x4defaaff else if i == 209 then 0x4d69e604 else
    if i == 210 then 0x4c657ff2 else if i == 211 then 0x4ce33309 else
    if i == 212 then 0x4e7c4c1e else if i == 213 then 0x4efa00e5 else
    if i == 214 then 0x4ff69913 else if i == 215 then 0x4f70d5e8 else
    if i == 216 then 0x4a4e2bc6 else if i == 217 then 0x4ac8673d else
    if i == 218 then 0x4bc4fecb else if i == 219 then 0x4b42b230 else
    if i == 220 then 0x49ddcd27 else if i == 221 then 0x495b81dc else if i == 222 then 0x4857182a else 0x48d154d1
  }

  function Row14(i: bv8): bv32 {
    if i == 224 then 0x5d26359f else if i == 225 then 0x5da07964 else
    if i == 226 then 0x5cace092 else if i == 227 then 0x5c2aac69 else
    if i == 228 then 0x5eb5d37e else if i == 229 then 0x5e339f85 else
    if i == 230 then 0x5f3f0673 else if i == 231 then 0x5fb94a88 else
    if i == 232 then 0x5a87b4a6 else if i == 233 then 0x5a01f85d else
    if i == 234 then 0x5b0d61ab else if i == 235 then 0x5b8b2d50 else
    if i == 236 then 0x59145247 else if i == 237 then 0x59921ebc else if i == 238 then 0x589e874a else 0x5818cbb1
  }

  function Row15(i: bv8): bv32 {
    if i == 240 then 0x52e37b16 else if i == 241 then 0x526537ed else
    if i == 242 then 0x5369ae1b else if i == 243 then 0x53efe2e0 else
    if i == 244 then 0x51709df7 else if i == 245 then 0x51f6d10c else
    if i == 246 then 0x50fa48fa else if i == 247 then 0x507c0401 else
    if i == 248 then 0x5542fa2f else if i == 249 then 0x55c4b6d4 else
    if i == 250 then 0x54c82f22 else if i == 251 then 0x544e63d9 else
    if i == 252 then 0x56d11cce else if i == 253 then 0x56575035 else if i == 254 then 0x575bc9c3 else 0x57dd8538
  }

  /** crc_table, entry by entry; entries carry bits above bit 23. */
  function Table(i: bv8): bv32 {
    if i < 16 then Row0(i)
    else if i < 32 then Row1(i)
    else if i < 48 then Row2(i)
    else if i < 64 then Row3(i)
    else if i < 80 then Row4(i)
    else if i < 96 then Row5(i)
    else if i < 112 then Row6(i)
    else if i < 128 then Row7(i)
    else if i < 144 then Row8(i)
    else if i < 160 then Row9(i)
    else if i < 176 then Row10(i)
    else if i < 192 then Row11(i)
    else if i < 208 then Row12(i)
    else if i < 224 then Row13(i)
    else if i < 240 then Row14(i)
    else Row15(i)
  }

  /** The generator given with the table: each entry yields two. */
  function Double(t: bv32, odd: bool): bv32 {
    if (t & 0x00800000 != 0) != odd then (t << 1) ^ CRCPOLY else t << 1
  }

  predicate Generated(j: bv8)
    requires j < 128
  {
    Table(2 * j) == Double(Table(j), false) && Table(2 * j + 1) == Double(Table(j), true)
  }

  lemma Generated0(j: bv8)
    requires 0 <= j < 8
    ensures Generated(j)
  {
    hide Row1, Row2, Row3, Row4, Row5, Row6, Row7, Row8, Row9, Row10, Row11, Row12, Row13, Row14, Row15;
  }

  lemma Generated1(j: bv8)
    requires 8 <= j < 16
    ensures Generated(j)
  {
    hide Row2, Row3, Row4, Row5, Row6, Row7, Row8, Row9, Row10, Row11, Row12, Row13, Row14, Row15;
  }

  lemma Generated2(j: bv8)
    requires 16 <= j < 24
    ensures Generated(j)
  {
    hide Row0, Row3, Row4, Row5, Row6, Row7, Row8, Row9, Row10, Row11, Row12, Row13, Row14, Row15;
  }

  lemma Generated3(j: bv8)
    requires 24 <= j < 32
    ensures Generated(j)
  {
    hide Row0, Row2, Row4, Row5, Row6, Row7, Row8, Row9, Row10, Row11, Row12, Row13, Row14, Row15;
  }

  lemma Generated4(j: bv8)
    requires 32 <= j < 40
    ensures Generated(j)
  {
    hide Row0, Row1, Row3, Row5, Row6, Row7, Row8, Row9, Row10, Row11, Row12, Row13, Row14, Row15;
  }

  lemma Generated5(j: bv8)
    requires 40 <= j < 48
    ensures Generated(j)
  {
    hide Row0, Row1, Row3, Row4, Row6, Row7, Row8, Row9, Row10, Row11, Row12, Row13, Row14, Row15;
  }

  lemma Generated6(j: bv8)
    requires 48 <= j < 56
    ensures Generated(j)
  {
    hide Row0, Row1, Row2, Row4, Row5, Row7, Row8, Row9, Row10, Row11, Row12, Row13, Row14, Row15;
  }

  lemma Generated7(j: bv8)
    requires 56 <= j < 64
    ensures Generated(j)
  {
    hide Row0, Row1, Row2, Row4, Row5, Row6, Row8, Row9, Row10, Row11, Row12, Row13, Row14, Row15;
  }

  lemma Generated8(j: bv8)
    requires 64 <= j < 72
    ensures Generated(j)
  {
    hide Row0, Row1, Row2, Row3, Row5, Row6, Row7, Row9, Row10, Row11, Row12, Row13, Row14, Row15;
  }

  lemma Generated9(j: bv8)
    requires 72 <= j < 80
    ensures Generated(j)
  {
    hide Row0, Row1, Row2, Row3, Row5, Row6, Row7, Row8, Row10, Row11, Row12, Row13, Row14, Row15;
  }

  lemma Generated10(j: bv8)
    requires 80 <= j < 88
    ensures Generated(j)
  {
    hide Row0, Row1, Row2, Row3, Row4, Row6, Row7, Row8, Row9, Row11, Row12, Row13, Row14, Row15;
  }

  lemma Generated11(j: bv8)
    requires 88 <= j < 96
    ensures Generated(j)
  {
    hide Row0, Row1, Row2, Row3, Row4, Row6, Row7, Row8, Row9, Row10, Row12, Row13, Row14, Row15;
  }

  lemma Generated12(j: bv8)
    requires 96 <= j < 104
    ensures Generated(j)
  {
    hide Row0, Row1, Row2, Row3, Row4, Row5, Row7, Row8, Row9, Row10, Row11, Row13, Row14, Row15;
  }

  lemma Generated13(j: bv8)
    requires 104 <= j < 112
    ensures Generated(j)
  {
    hide Row0, Row1, Row2, Row3, Row4, Row5, Row7, Row8, Row9, Row10, Row11, Row12, Row14, Row15;
  }

  lemma Generated14(j: bv8)
    requires 112 <= j < 120
    ensures Generated(j)
  {
    hide Row0, Row1, Row2, Row3, Row4, Row5, Row6, Row8, Row9, Row10, Row11, Row12, Row13, Row15;
  }

  lemma Generated15(j: bv8)
    requires 120 <= j < 128
    ensures Generated(j)
  {
    hide Row0, Row1, Row2, Row3, Row4, Row5, Row6, Row8, Row9, Row10, Row11, Row12, Row13, Row14;
  }

  /** The whole table is the output of its generator. */
  lemma TableIsGenerated(j: bv8)
    requires j < 128
    ensures Generated(j)
  {
    hide Generated;
    if j < 8 {
      Generated0(j);
    } else if j < 16 {
      Generated1(j);
    } else if j < 24 {
      Generated2(j);
    } else if j < 32 {
      Generated3(j);
    } else if j < 40 {
      Generated4(j);
    } else if j < 48 {
      Generated5(j);
    } else if j < 56 {
      Generated6(j);
    } else if j < 64 {
      Generated7(j);
    } else if j < 72 {
      Generated8(j);
    } else if j < 80 {
      Generated9(j);
    } else if j < 88 {
      Generated10(j);
    } else if j < 96 {
      Generated11(j);
    } else if j < 104 {
      Generated12(j);
    } else if j < 112 {
      Generated13(j);
    } else if j < 120 {
      Generated14(j);
    } else if j < 128 {
      Generated15(j);
    }
  }

  // ---------- the bit steps are linear ----------

  lemma XorShift(a: bv32, b: bv32)
    ensures Shift(Xor(a, b)) == Xor(Shift(a), Shift(b))
  {
  }

  lemma XorTop(a: bv32, b: bv32)
    ensures Top(Xor(a, b)) == Xor(Top(a), Top(b))
  {
    TopBit(a);
    TopBit(b);
    TopBit(Xor(a, b));
    TopBitXor(a, b);
    hide Xor;
    XorBits(0x800000);
    XorBits(0x1864CFB);
  }

  lemma TopBit(a: bv32)
    ensures a & 0x800000 == 0 || a & 0x800000 == 0x800000
  {
  }

  lemma TopBitXor(a: bv32, b: bv32)
    ensures Xor(a, b) & 0x800000 == Xor(a & 0x800000, b & 0x800000)
  {
  }

  lemma XorBits(x: bv32)
    ensures Xor(0, 0) == 0 && Xor(0, x) == x && Xor(x, 0) == x && Xor(x, x) == 0
  {
  }

  lemma XorSwap(a: bv32, b: bv32, c: bv32, d: bv32)
    ensures Xor(Xor(a, b), Xor(c, d)) == Xor(Xor(a, c), Xor(b, d))
  {
    XorAssoc(a, b, Xor(c, d));
    XorAssoc(b, c, d);
    XorAssoc(c, b, d);
    XorComm(b, c);
    XorAssoc(a, c, Xor(b, d));
    hide Xor;
  }

  lemma XorAssoc(a: bv32, b: bv32, c: bv32)
    ensures Xor(Xor(a, b), c) == Xor(a, Xor(b, c))
  {
  }

  lemma XorComm(a: bv32, b: bv32)
    ensures Xor(a, b) == Xor(b, a)
  {
  }

  lemma BitLinear(a: bv32, b: bv32)
    ensures Bit(Xor(a, b)) == Xor(Bit(a), Bit(b))
  {
    hide Xor, Shift, Top;
    XorShift(a, b);
    XorTop(a, b);
    XorSwap(Shift(a), Shift(b), Top(a), Top(b));
  }

  lemma TwoLinear(a: bv32, b: bv32)
    ensures Bit(Bit(Xor(a, b))) == Xor(Bit(Bit(a)), Bit(Bit(b)))
  {
    hide Xor, Bit;
    BitLinear(a, b);
    BitLinear(Bit(a), Bit(b));
  }

  lemma EightBitsLinear(a: bv32, b: bv32)
    ensures EightBits(Xor(a, b)) == Xor(EightBits(a), EightBits(b))
  {
    hide Xor, Bit;
    TwoLinear(a, b);
    var a2, b2 := Bit(Bit(a)), Bit(Bit(b));
    TwoLinear(a2, b2);
    var a4, b4 := Bit(Bit(a2)), Bit(Bit(b2));
    TwoLinear(a4, b4);
    TwoLinear(Bit(Bit(a4)), Bit(Bit(b4)));
  }

  /** Bits that stay below bit 23 are only shifted. */
  lemma BitBelow(c: bv32)
    requires c < 0x800000
    ensures Bit(c) == c << 1
  {
    BelowTop(c);
    XorZero(c << 1);
  }

  lemma BelowTop(c: bv32)
    requires c < 0x800000
    ensures c & 0x800000 == 0
  {
  }

  lemma TwoBelow(c: bv32)
    requires c < 0x400000
    ensures Bit(Bit(c)) == c << 2
  {
    ShiftTwo(c);
    BitBelow(c);
    BitBelow(c << 1);
    hide Bit;
  }

  lemma ShiftTwo(c: bv32)
    requires c < 0x400000
    ensures c < 0x800000 && c << 1 < 0x800000 && (c << 1) << 1 == c << 2
  {
  }

  lemma FourBelow(c: bv32)
    requires c < 0x100000
    ensures Bit(Bit(Bit(Bit(c)))) == c << 4
  {
    hide Bit;
    ShiftFour(c);
    TwoBelow(c);
    TwoBelow(c << 2);
  }

  lemma ShiftFour(c: bv32)
    requires c < 0x100000
    ensures c < 0x400000 && c << 2 < 0x400000 && (c << 2) << 2 == c << 4
  {
  }

  lemma LowBitsShift(c: bv32)
    requires c <= 0xffff
    ensures EightBits(c) == c << 8
  {
    hide Bit;
    ShiftEight(c);
    FourBelow(c);
    FourBelow(c << 4);
  }

  lemma ShiftEight(c: bv32)
    requires c <= 0xffff
    ensures c < 0x100000 && c << 4 < 0x100000 && (c << 4) << 4 == c << 8
  {
  }

  /** What the table entry should be: the remainder of the octet moved to the top. */
  function Remainder(i: bv8): bv32 {
    EightBits(Raise(i))
  }

  lemma RemainderDoubles(j: bv8)
    requires j < 128
    ensures Remainder(2 * j) == Bit(Remainder(j))
    ensures Remainder(2 * j + 1) == Xor(Bit(Remainder(j)), CRCPOLY)
  {
    hide Bit, Raise, Xor;
    OctetDoubles(j);
    RemainderOfOne();
    EightBitsLinear(Raise(2 * j), 0x10000);
  }

  lemma OctetDoubles(j: bv8)
    requires j < 128
    ensures Raise(2 * j) == Bit(Raise(j))
    ensures Raise(2 * j + 1) == Xor(Raise(2 * j), 0x10000)
  {
    RaiseBelow(j);
    hide Bit;
    BitBelow(Raise(j));
  }

  lemma RaiseBelow(j: bv8)
    requires j < 128
    ensures Raise(j) < 0x800000
  {
  }

  lemma RemainderOfOne()
    ensures EightBits(0x10000) == CRCPOLY
  {
    hide Bit;
    BitBelow(0x10000);
    BitBelow(0x20000);
    BitBelow(0x40000);
    BitBelow(0x80000);
    BitBelow(0x100000);
    BitBelow(0x200000);
    BitBelow(0x400000);
    BitOfTop();
  }

  lemma BitOfTop()
    ensures Bit(0x800000) == CRCPOLY
  {
  }

  lemma EvenIsBit(t: bv32)
    ensures Mask(Double(t, false)) == Bit(Mask(t))
  {
    MaskKeepsTop(t);
    if t & 0x800000 != 0 {
      MaskOverflow(t);
    } else {
      MaskShift(t);
      XorZero(Mask(t) << 1);
    }
  }

  lemma OddIsBit(t: bv32)
    ensures Mask(Double(t, true)) == Xor(Bit(Mask(t)), CRCPOLY)
  {
    MaskKeepsTop(t);
    if t & 0x800000 != 0 {
      MaskOverflow(t);
    } else {
      MaskShift(t);
      XorZero(Mask(t) << 1);
    }
  }

  lemma XorZero(c: bv32)
    ensures c ^ 0 == c
  {
  }

  lemma MaskKeepsTop(t: bv32)
    ensures Mask(t) & 0x800000 == t & 0x800000
  {
  }

  lemma MaskOverflow(t: bv32)
    requires t & 0x800000 != 0
    ensures Mask((t << 1) ^ CRCPOLY) == (Mask(t) << 1) ^ 0x1864CFB
    ensures Mask(t << 1) == (Mask(t) << 1) ^ 0x1864CFB ^ CRCPOLY
  {
  }

  lemma MaskShift(t: bv32)
    requires t & 0x800000 == 0
    ensures Mask(t << 1) == Mask(t) << 1
    ensures Mask((t << 1) ^ CRCPOLY) == (Mask(t) << 1) ^ CRCPOLY
  {
  }

  /** A table entry is that remainder, up to the bits above bit 23. */
  predicate EntryOk(i: bv8) {
    Mask(Table(i)) == Remainder(i)
  }

  lemma TableIsRemainder(i: bv8)
    ensures EntryOk(i)
  {
    hide EntryOk;
    TableStartsAtZero();
    Shifts(i);
    Descend(i >> 7);
    Descend(i >> 6);
    Descend(i >> 5);
    Descend(i >> 4);
    Descend(i >> 3);
    Descend(i >> 2);
    Descend(i >> 1);
    Descend(i);
  }

  lemma Shifts(i: bv8)
    ensures (i >> 7) >> 1 == 0 && (i >> 6) >> 1 == i >> 7 && (i >> 5) >> 1 == i >> 6
    ensures (i >> 4) >> 1 == i >> 5 && (i >> 3) >> 1 == i >> 4 && (i >> 2) >> 1 == i >> 3
    ensures (i >> 1) >> 1 == i >> 2
  {
  }

  lemma Descend(i: bv8)
    requires EntryOk(i >> 1)
    ensures EntryOk(i)
  {
    Halve(i);
    NextRemainder(i >> 1);
  }

  lemma Halve(i: bv8)
    ensures i >> 1 < 128 && (i == 2 * (i >> 1) || i == 2 * (i >> 1) + 1)
  {
  }

  lemma NextRemainder(j: bv8)
    requires j < 128 && EntryOk(j)
    ensures EntryOk(2 * j) && EntryOk(2 * j + 1)
  {
    hide Table, Bit, Double, Remainder, Xor, Mask;
    TableIsGenerated(j);
    EvenIsBit(Table(j));
    OddIsBit(Table(j));
    RemainderDoubles(j);
  }

  lemma TableStartsAtZero()
    ensures EntryOk(0)
  {
    hide Bit, EightBits;
    LowBitsShift(Raise(0));
  }

  // ---------- the loop ----------

  /** The table index. */
  function Index(c: bv32, b: bv8): bv8 {
    ((c >> 16) & 0xff) as bv8 ^ b
  }

  /** One round of the loop in b64enc_write; the value is not masked in between. */
  function TableStep(c: bv32, b: bv8): bv32 {
    Xor(Shift8(c), Table(Index(c, b)))
  }

  lemma TableStepIsOctetStep(c: bv32, b: bv8)
    ensures Mask(TableStep(c, b)) == OctetStep(Mask(c), b)
  {
    hide EightBits, Table, Index, Raise, Xor, Mask, Low16, Shift8;
    var i := Index(c, b);
    SplitOctet(c, b);
    Low16Shift(c);
    EightBitsLinear(Low16(c), Raise(i));
    TableIsRemainder(i);
    MaskedSum(c, Table(i));
  }

  lemma Low16Shift(c: bv32)
    ensures EightBits(Low16(c)) == Shift8(Low16(c))
  {
    Low16Bound(c);
    hide EightBits, Low16;
    LowBitsShift(Low16(c));
  }

  lemma Low16Bound(c: bv32)
    ensures Low16(c) <= 0xffff
  {
  }

  lemma SplitOctet(c: bv32, b: bv8)
    ensures Xor(Mask(c), Raise(b)) == Xor(Low16(c), Raise(Index(c, b)))
  {
    MaskParts(c);
    RaiseXor(((c >> 16) & 0xff) as bv8, b);
    XorAssoc(Low16(c), Raise(((c >> 16) & 0xff) as bv8), Raise(b));
  }

  lemma MaskParts(c: bv32)
    ensures Mask(c) == Xor(Low16(c), Raise(((c >> 16) & 0xff) as bv8))
  {
  }

  lemma RaiseXor(a: bv8, b: bv8)
    ensures Raise(a ^ b) == Xor(Raise(a), Raise(b))
  {
  }

  lemma MaskedSum(c: bv32, t: bv32)
    ensures Mask(Xor(Shift8(c), t)) == Xor(Shift8(Low16(c)), Mask(t))
  {
  }

  /** Checksums of the pieces chain to the checksum of the whole. */
  lemma {:induction false} CrcAppend(c: bv32, a: seq<bv8>, b: seq<bv8>)
    ensures Crc(c, a + b) == Crc(Crc(c, a), b)
  {
    if b == [] {
      assert a + b == a;
    } else {
      assert (a + b)[..|a + b| - 1] == a + b[..|b| - 1];
      CrcAppend(c, a, b[..|b| - 1]);
    }
  }

  lemma Masked(x: bv32)
    ensures Mask(Mask(x)) == Mask(x)
  {
  }

  /** The checksum part of b64enc_write. */
  method Update(crc: bv32, buffer: seq<bv8>) returns (r: bv32)
    requires Mask(crc) == crc
    ensures r == Crc(crc, buffer) && Mask(r) == r
  {
    hide TableStep, OctetStep, Mask;
    var c := crc;
    for n := 0 to |buffer|
      invariant Mask(c) == Crc(crc, buffer[..n])
    {
      TableStepIsOctetStep(c, buffer[n]);
      assert buffer[..n + 1][..n] == buffer[..n];
      c := TableStep(c, buffer[n]);
    }
    assert buffer[..|buffer|] == buffer;
    r := Mask(c);
    Masked(c);
  }
}
