/** The table of the CRC-64 that hashes keys: 256 entries, each what eight steps of division make of its index. */
module CrcTable {
  import opened Folds
  import opened Xors

  const POLY: bv64 := 0x95ac9329ac4bc9b5

  const ROW_0: seq<bv64> := [
    0x0000000000000000, 0x7ad870c830358979, 0xf5b0e190606b12f2, 0x8f689158505e9b8b,
    0xc038e5739841b68f, 0xbae095bba8743ff6, 0x358804e3f82aa47d, 0x4f50742bc81f2d04,
    0xab28ecb46814fe75, 0xd1f09c7c5821770c, 0x5e980d24087fec87, 0x24407dec384a65fe,
    0x6b1009c7f05548fa, 0x11c8790fc060c183, 0x9ea0e857903e5a08, 0xe478989fa00bd371]

  const ROW_1: seq<bv64> := [
    0x7d08ff3b88be6f81, 0x07d08ff3b88be6f8, 0x88b81eabe8d57d73, 0xf2606e63d8e0f40a,
    0xbd301a4810ffd90e, 0xc7e86a8020ca5077, 0x4880fbd87094cbfc, 0x32588b1040a14285,
    0xd620138fe0aa91f4, 0xacf86347d09f188d, 0x2390f21f80c18306, 0x594882d7b0f40a7f,
    0x1618f6fc78eb277b, 0x6cc0863448deae02, 0xe3a8176c18803589, 0x997067a428b5bcf0]

  const ROW_2: seq<bv64> := [
    0xfa11fe77117cdf02, 0x80c98ebf2149567b, 0x0fa11fe77117cdf0, 0x75796f2f41224489,
    0x3a291b04893d698d, 0x40f16bccb908e0f4, 0xcf99fa94e9567b7f, 0xb5418a5cd963f206,
    0x513912c379682177, 0x2be1620b495da80e, 0xa489f35319033385, 0xde51839b2936bafc,
    0x9101f7b0e12997f8, 0xebd98778d11c1e81, 0x64b116208142850a, 0x1e6966e8b1770c73]

  const ROW_3: seq<bv64> := [
    0x8719014c99c2b083, 0xfdc17184a9f739fa, 0x72a9e0dcf9a9a271, 0x08719014c99c2b08,
    0x4721e43f0183060c, 0x3df994f731b68f75, 0xb29105af61e814fe, 0xc849756751dd9d87,
    0x2c31edf8f1d64ef6, 0x56e99d30c1e3c78f, 0xd9810c6891bd5c04, 0xa3597ca0a188d57d,
    0xec09088b6997f879, 0x96d1784359a27100, 0x19b9e91b09fcea8b, 0x636199d339c963f2]

  const ROW_4: seq<bv64> := [
    0xdf7adabd7a6e2d6f, 0xa5a2aa754a5ba416, 0x2aca3b2d1a053f9d, 0x50124be52a30b6e4,
    0x1f423fcee22f9be0, 0x659a4f06d21a1299, 0xeaf2de5e82448912, 0x902aae96b271006b,
    0x74523609127ad31a, 0x0e8a46c1224f5a63, 0x81e2d7997211c1e8, 0xfb3aa75142244891,
    0xb46ad37a8a3b6595, 0xceb2a3b2ba0eecec, 0x41da32eaea507767, 0x3b024222da65fe1e]

  const ROW_5: seq<bv64> := [
    0xa2722586f2d042ee, 0xd8aa554ec2e5cb97, 0x57c2c41692bb501c, 0x2d1ab4dea28ed965,
    0x624ac0f56a91f461, 0x1892b03d5aa47d18, 0x97fa21650afae693, 0xed2251ad3acf6fea,
    0x095ac9329ac4bc9b, 0x7382b9faaaf135e2, 0xfcea28a2faafae69, 0x8632586aca9a2710,
    0xc9622c4102850a14, 0xb3ba5c8932b0836d, 0x3cd2cdd162ee18e6, 0x460abd1952db919f]

  const ROW_6: seq<bv64> := [
    0x256b24ca6b12f26d, 0x5fb354025b277b14, 0xd0dbc55a0b79e09f, 0xaa03b5923b4c69e6,
    0xe553c1b9f35344e2, 0x9f8bb171c366cd9b, 0x10e3202993385610, 0x6a3b50e1a30ddf69,
    0x8e43c87e03060c18, 0xf49bb8b633338561, 0x7bf329ee636d1eea, 0x012b592653589793,
    0x4e7b2d0d9b47ba97, 0x34a35dc5ab7233ee, 0xbbcbcc9dfb2ca865, 0xc113bc55cb19211c]

  const ROW_7: seq<bv64> := [
    0x5863dbf1e3ac9dec, 0x22bbab39d3991495, 0xadd33a6183c78f1e, 0xd70b4aa9b3f20667,
    0x985b3e827bed2b63, 0xe2834e4a4bd8a21a, 0x6debdf121b863991, 0x1733afda2bb3b0e8,
    0xf34b37458bb86399, 0x8993478dbb8deae0, 0x06fbd6d5ebd3716b, 0x7c23a61ddbe6f812,
    0x3373d23613f9d516, 0x49aba2fe23cc5c6f, 0xc6c333a67392c7e4, 0xbc1b436e43a74e9d]

  const ROW_8: seq<bv64> := [
    0x95ac9329ac4bc9b5, 0xef74e3e19c7e40cc, 0x601c72b9cc20db47, 0x1ac40271fc15523e,
    0x5594765a340a7f3a, 0x2f4c0692043ff643, 0xa02497ca54616dc8, 0xdafce7026454e4b1,
    0x3e847f9dc45f37c0, 0x445c0f55f46abeb9, 0xcb349e0da4342532, 0xb1eceec59401ac4b,
    0xfebc9aee5c1e814f, 0x8464ea266c2b0836, 0x0b0c7b7e3c7593bd, 0x71d40bb60c401ac4]

  const ROW_9: seq<bv64> := [
    0xe8a46c1224f5a634, 0x927c1cda14c02f4d, 0x1d148d82449eb4c6, 0x67ccfd4a74ab3dbf,
    0x289c8961bcb410bb, 0x5244f9a98c8199c2, 0xdd2c68f1dcdf0249, 0xa7f41839ecea8b30,
    0x438c80a64ce15841, 0x3954f06e7cd4d138, 0xb63c61362c8a4ab3, 0xcce411fe1cbfc3ca,
    0x83b465d5d4a0eece, 0xf96c151de49567b7, 0x76048445b4cbfc3c, 0x0cdcf48d84fe7545]

  const ROW_A: seq<bv64> := [
    0x6fbd6d5ebd3716b7, 0x15651d968d029fce, 0x9a0d8ccedd5c0445, 0xe0d5fc06ed698d3c,
    0xaf85882d2576a038, 0xd55df8e515432941, 0x5a3569bd451db2ca, 0x20ed197575283bb3,
    0xc49581ead523e8c2, 0xbe4df122e51661bb, 0x3125607ab548fa30, 0x4bfd10b2857d7349,
    0x04ad64994d625e4d, 0x7e7514517d57d734, 0xf11d85092d094cbf, 0x8bc5f5c11d3cc5c6]

  const ROW_B: seq<bv64> := [
    0x12b5926535897936, 0x686de2ad05bcf04f, 0xe70573f555e26bc4, 0x9ddd033d65d7e2bd,
    0xd28d7716adc8cfb9, 0xa85507de9dfd46c0, 0x273d9686cda3dd4b, 0x5de5e64efd965432,
    0xb99d7ed15d9d8743, 0xc3450e196da80e3a, 0x4c2d9f413df695b1, 0x36f5ef890dc31cc8,
    0x79a59ba2c5dc31cc, 0x037deb6af5e9b8b5, 0x8c157a32a5b7233e, 0xf6cd0afa9582aa47]

  const ROW_C: seq<bv64> := [
    0x4ad64994d625e4da, 0x300e395ce6106da3, 0xbf66a804b64ef628, 0xc5bed8cc867b7f51,
    0x8aeeace74e645255, 0xf036dc2f7e51db2c, 0x7f5e4d772e0f40a7, 0x05863dbf1e3ac9de,
    0xe1fea520be311aaf, 0x9b26d5e88e0493d6, 0x144e44b0de5a085d, 0x6e963478ee6f8124,
    0x21c640532670ac20, 0x5b1e309b16452559, 0xd476a1c3461bbed2, 0xaeaed10b762e37ab]

  const ROW_D: seq<bv64> := [
    0x37deb6af5e9b8b5b, 0x4d06c6676eae0222, 0xc26e573f3ef099a9, 0xb8b627f70ec510d0,
    0xf7e653dcc6da3dd4, 0x8d3e2314f6efb4ad, 0x0256b24ca6b12f26, 0x788ec2849684a65f,
    0x9cf65a1b368f752e, 0xe62e2ad306bafc57, 0x6946bb8b56e467dc, 0x139ecb4366d1eea5,
    0x5ccebf68aecec3a1, 0x2616cfa09efb4ad8, 0xa97e5ef8cea5d153, 0xd3a62e30fe90582a]

  const ROW_E: seq<bv64> := [
    0xb0c7b7e3c7593bd8, 0xca1fc72bf76cb2a1, 0x45775673a732292a, 0x3faf26bb9707a053,
    0x70ff52905f188d57, 0x0a2722586f2d042e, 0x854fb3003f739fa5, 0xff97c3c80f4616dc,
    0x1bef5b57af4dc5ad, 0x61372b9f9f784cd4, 0xee5fbac7cf26d75f, 0x9487ca0fff135e26,
    0xdbd7be24370c7322, 0xa10fceec0739fa5b, 0x2e675fb4576761d0, 0x54bf2f7c6752e8a9]

  const ROW_F: seq<bv64> := [
    0xcdcf48d84fe75459, 0xb71738107fd2dd20, 0x387fa9482f8c46ab, 0x42a7d9801fb9cfd2,
    0x0df7adabd7a6e2d6, 0x772fdd63e7936baf, 0xf8474c3bb7cdf024, 0x829f3cf387f8795d,
    0x66e7a46c27f3aa2c, 0x1c3fd4a417c62355, 0x935745fc4798b8de, 0xe98f353477ad31a7,
    0xa6df411fbfb21ca3, 0xdc0731d78f8795da, 0x536fa08fdfd90e51, 0x29b7d047efec8728]

  /** The row of sixteen entries that a high half of a byte leads to. */
  function RowOf(h: bv8): (r: seq<bv64>)
    ensures |r| == 16
  {
    match h
    case 0 => ROW_0 case 1 => ROW_1 case 2 => ROW_2 case 3 => ROW_3
    case 4 => ROW_4 case 5 => ROW_5 case 6 => ROW_6 case 7 => ROW_7
    case 8 => ROW_8 case 9 => ROW_9 case 10 => ROW_A case 11 => ROW_B
    case 12 => ROW_C case 13 => ROW_D case 14 => ROW_E case _ => ROW_F
  }

  /** The entry of the table for a byte, kept here in rows of sixteen. */
  function TableAt(b: bv8): bv64 {
    RowOf(b >> 4)[(b & 0xf) as int]
  }

  // ---------------------------------------------------------------- division, bit by bit

  /** Multiplies by x and reduces, with the highest power in the lowest bit. */
  function Step(x: bv64): bv64 {
    if x & 1 == 1 then (x >> 1) ^ POLY else x >> 1
  }

  /** Takes a byte into the register. */
  function Byte(c: bv64, b: bv8): bv64 {
    Iter(Step, Xor(c, b as bv64), 8)
  }

  lemma LinearOdd(x: bv64, y: bv64)
    requires x & 1 == 1
    ensures Step(x ^ y) == Step(x) ^ Step(y)
  {
  }

  lemma LinearEven(x: bv64, y: bv64)
    requires x & 1 == 0
    ensures Step(x ^ y) == Step(x) ^ Step(y)
  {
  }

  lemma StepLinear(x: bv64, y: bv64)
    ensures Step(Xor(x, y)) == Xor(Step(x), Step(y))
  {
    if x & 1 == 1 { LinearOdd(x, y); } else if x & 1 == 0 { LinearEven(x, y); }
  }

  lemma IterLinear(x: bv64, y: bv64, n: nat)
    ensures Iter(Step, Xor(x, y), n) == Xor(Iter(Step, x, n), Iter(Step, y, n))
  {
    forall a, b ensures Step(Xor(a, b)) == Xor(Step(a), Step(b)) {
      StepLinear(a, b);
    }
    IterHom(Step, Xor, x, y, n);
  }

  // ---------------------------------------------------------------- the table

  /** As Iter of Step, in a form that is worked out on numbers. */
  function Steps(x: bv64, n: nat): bv64
    decreases n
  {
    if n == 0 then x else Steps(Step(x), n - 1)
  }

  lemma {:induction false} IterSteps(x: bv64, n: nat)
    ensures Steps(x, n) == Iter(Step, x, n)
    decreases n
  {
    if n > 0 { IterSteps(Step(x), n - 1); }
  }

  lemma Low0()
    ensures Steps(0, 8) == 0x0000000000000000
    ensures Steps(1, 8) == 0x7ad870c830358979
    ensures Steps(2, 8) == 0xf5b0e190606b12f2
    ensures Steps(3, 8) == 0x8f689158505e9b8b
  {
  }

  lemma Row0At0()
    ensures ROW_0[0] == Steps(0, 8)
    ensures ROW_0[1] == Steps(1, 8)
    ensures ROW_0[2] == Steps(2, 8)
    ensures ROW_0[3] == Steps(3, 8)
  {
    Low0();
  }

  lemma LowEntry0(l: bv8)
    requires 0 <= l < 4
    ensures l as int < 16 && ROW_0[l as int] == Steps(l as bv64, 8)
  {
    Row0At0();
    if l == 0 {} else if l == 1 {} else if l == 2 {} else if l == 3 {}
  }

  lemma Low4()
    ensures Steps(4, 8) == 0xc038e5739841b68f
    ensures Steps(5, 8) == 0xbae095bba8743ff6
    ensures Steps(6, 8) == 0x358804e3f82aa47d
    ensures Steps(7, 8) == 0x4f50742bc81f2d04
  {
  }

  lemma Row0At4()
    ensures ROW_0[4] == Steps(4, 8)
    ensures ROW_0[5] == Steps(5, 8)
    ensures ROW_0[6] == Steps(6, 8)
    ensures ROW_0[7] == Steps(7, 8)
  {
    Low4();
  }

  lemma LowEntry4(l: bv8)
    requires 4 <= l < 8
    ensures l as int < 16 && ROW_0[l as int] == Steps(l as bv64, 8)
  {
    Row0At4();
    if l == 4 {} else if l == 5 {} else if l == 6 {} else if l == 7 {}
  }

  lemma Low8()
    ensures Steps(8, 8) == 0xab28ecb46814fe75
    ensures Steps(9, 8) == 0xd1f09c7c5821770c
    ensures Steps(10, 8) == 0x5e980d24087fec87
    ensures Steps(11, 8) == 0x24407dec384a65fe
  {
  }

  lemma Row0At8()
    ensures ROW_0[8] == Steps(8, 8)
    ensures ROW_0[9] == Steps(9, 8)
    ensures ROW_0[10] == Steps(10, 8)
    ensures ROW_0[11] == Steps(11, 8)
  {
    Low8();
  }

  lemma LowEntry8(l: bv8)
    requires 8 <= l < 12
    ensures l as int < 16 && ROW_0[l as int] == Steps(l as bv64, 8)
  {
    Row0At8();
    if l == 8 {} else if l == 9 {} else if l == 10 {} else if l == 11 {}
  }

  lemma LowC()
    ensures Steps(12, 8) == 0x6b1009c7f05548fa
    ensures Steps(13, 8) == 0x11c8790fc060c183
    ensures Steps(14, 8) == 0x9ea0e857903e5a08
    ensures Steps(15, 8) == 0xe478989fa00bd371
  {
  }

  lemma Row0AtC()
    ensures ROW_0[12] == Steps(12, 8)
    ensures ROW_0[13] == Steps(13, 8)
    ensures ROW_0[14] == Steps(14, 8)
    ensures ROW_0[15] == Steps(15, 8)
  {
    LowC();
  }

  lemma LowEntryC(l: bv8)
    requires 12 <= l < 16
    ensures l as int < 16 && ROW_0[l as int] == Steps(l as bv64, 8)
  {
    Row0AtC();
    if l == 12 {} else if l == 13 {} else if l == 14 {} else if l == 15 {}
  }

  lemma LowEntry(l: bv8)
    requires l < 16
    ensures l as int < 16 && ROW_0[l as int] == Steps(l as bv64, 8)
  {
    if l < 4 { LowEntry0(l); } else if l < 8 { LowEntry4(l); } else if l < 12 { LowEntry8(l); } else { LowEntryC(l); }
  }

  lemma High0()
    ensures Steps(0x00, 8) == 0x0000000000000000
    ensures Steps(0x10, 8) == 0x7d08ff3b88be6f81
    ensures Steps(0x20, 8) == 0xfa11fe77117cdf02
    ensures Steps(0x30, 8) == 0x8719014c99c2b083
  {
  }

  lemma Row0ToRow3()
    ensures ROW_0[0] == Steps(0x00, 8)
    ensures ROW_1[0] == Steps(0x10, 8)
    ensures ROW_2[0] == Steps(0x20, 8)
    ensures ROW_3[0] == Steps(0x30, 8)
  {
    High0();
  }

  lemma HighEntry0(h: bv8)
    requires 0 <= h < 4
    ensures RowOf(h)[0] == Steps((h as bv64) << 4, 8)
  {
    Row0ToRow3();
    if h == 0 {} else if h == 1 {} else if h == 2 {} else if h == 3 {}
  }

  lemma High4()
    ensures Steps(0x40, 8) == 0xdf7adabd7a6e2d6f
    ensures Steps(0x50, 8) == 0xa2722586f2d042ee
    ensures Steps(0x60, 8) == 0x256b24ca6b12f26d
    ensures Steps(0x70, 8) == 0x5863dbf1e3ac9dec
  {
  }

  lemma Row4ToRow7()
    ensures ROW_4[0] == Steps(0x40, 8)
    ensures ROW_5[0] == Steps(0x50, 8)
    ensures ROW_6[0] == Steps(0x60, 8)
    ensures ROW_7[0] == Steps(0x70, 8)
  {
    High4();
  }

  lemma HighEntry4(h: bv8)
    requires 4 <= h < 8
    ensures RowOf(h)[0] == Steps((h as bv64) << 4, 8)
  {
    Row4ToRow7();
    if h == 4 {} else if h == 5 {} else if h == 6 {} else if h == 7 {}
  }

  lemma High8()
    ensures Steps(0x80, 8) == 0x95ac9329ac4bc9b5
    ensures Steps(0x90, 8) == 0xe8a46c1224f5a634
    ensures Steps(0xA0, 8) == 0x6fbd6d5ebd3716b7
    ensures Steps(0xB0, 8) == 0x12b5926535897936
  {
  }

  lemma Row8ToRowB()
    ensures ROW_8[0] == Steps(0x80, 8)
    ensures ROW_9[0] == Steps(0x90, 8)
    ensures ROW_A[0] == Steps(0xA0, 8)
    ensures ROW_B[0] == Steps(0xB0, 8)
  {
    High8();
  }

  lemma HighEntry8(h: bv8)
    requires 8 <= h < 12
    ensures RowOf(h)[0] == Steps((h as bv64) << 4, 8)
  {
    Row8ToRowB();
    if h == 8 {} else if h == 9 {} else if h == 10 {} else if h == 11 {}
  }

  lemma HighC()
    ensures Steps(0xC0, 8) == 0x4ad64994d625e4da
    ensures Steps(0xD0, 8) == 0x37deb6af5e9b8b5b
    ensures Steps(0xE0, 8) == 0xb0c7b7e3c7593bd8
    ensures Steps(0xF0, 8) == 0xcdcf48d84fe75459
  {
  }

  lemma RowCToRowF()
    ensures ROW_C[0] == Steps(0xC0, 8)
    ensures ROW_D[0] == Steps(0xD0, 8)
    ensures ROW_E[0] == Steps(0xE0, 8)
    ensures ROW_F[0] == Steps(0xF0, 8)
  {
    HighC();
  }

  lemma HighEntryC(h: bv8)
    requires 12 <= h < 16
    ensures RowOf(h)[0] == Steps((h as bv64) << 4, 8)
  {
    RowCToRowF();
    if h == 12 {} else if h == 13 {} else if h == 14 {} else if h == 15 {}
  }

  lemma HighEntry(h: bv8)
    requires h < 16
    ensures RowOf(h)[0] == Steps((h as bv64) << 4, 8)
  {
    if h < 4 { HighEntry0(h); } else if h < 8 { HighEntry4(h); }
    else if h < 12 { HighEntry8(h); } else { HighEntryC(h); }
  }

  /** A row is the first one shifted by its own first entry. */
  ghost predicate Shifted(row: seq<bv64>) {
    |row| == 16 && forall j :: 0 <= j < 16 ==> row[j] == Xor(ROW_0[j], row[0])
  }

  lemma Row0() ensures Shifted(ROW_0) {}
  lemma Row1() ensures Shifted(ROW_1) {}
  lemma Row2() ensures Shifted(ROW_2) {}
  lemma Row3() ensures Shifted(ROW_3) {}
  lemma Row4() ensures Shifted(ROW_4) {}
  lemma Row5() ensures Shifted(ROW_5) {}
  lemma Row6() ensures Shifted(ROW_6) {}
  lemma Row7() ensures Shifted(ROW_7) {}
  lemma Row8() ensures Shifted(ROW_8) {}
  lemma Row9() ensures Shifted(ROW_9) {}
  lemma RowA() ensures Shifted(ROW_A) {}
  lemma RowB() ensures Shifted(ROW_B) {}
  lemma RowC() ensures Shifted(ROW_C) {}
  lemma RowD() ensures Shifted(ROW_D) {}
  lemma RowE() ensures Shifted(ROW_E) {}
  lemma RowF() ensures Shifted(ROW_F) {}

  lemma RowShifted(h: bv8)
    requires h < 16
    ensures Shifted(RowOf(h))
  {
    match h
    case 0 => Row0(); case 1 => Row1(); case 2 => Row2(); case 3 => Row3();
    case 4 => Row4(); case 5 => Row5(); case 6 => Row6(); case 7 => Row7();
    case 8 => Row8(); case 9 => Row9(); case 10 => RowA(); case 11 => RowB();
    case 12 => RowC(); case 13 => RowD(); case 14 => RowE(); case _ => RowF();
  }

  lemma Halves(b: bv8)
    ensures b >> 4 < 16 && b & 0xf < 16
    ensures b as bv64 == ((b & 0xf) as bv64) ^ (((b >> 4) as bv64) << 4)
  {
  }

  lemma Sum(row: seq<bv64>, i: int, lo: bv64, hi: bv64)
    requires Shifted(row) && 0 <= i < 16 && ROW_0[i] == lo && row[0] == hi
    ensures row[i] == Xor(lo, hi)
  {
  }

  lemma EntrySum(h: bv8, l: bv8)
    requires h < 16 && l < 16
    ensures l as int < 16 && RowOf(h)[l as int] == Xor(Steps(l as bv64, 8), Steps((h as bv64) << 4, 8))
  {
    RowShifted(h);
    LowEntry(l);
    HighEntry(h);
    Sum(RowOf(h), l as int, Steps(l as bv64, 8), Steps((h as bv64) << 4, 8));
  }

  /** Each entry of the table is what eight steps make of its index. */
  lemma TableRight(b: bv8)
    ensures TableAt(b) == Iter(Step, b as bv64, 8)
  {
    Halves(b);
    var x, y := (b & 0xf) as bv64, ((b >> 4) as bv64) << 4;
    EntrySum(b >> 4, b & 0xf);
    IterSteps(x, 8);
    IterSteps(y, 8);
    IterLinear(x, y, 8);
  }
}
