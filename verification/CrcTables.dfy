/**
 The lookup tables of the two checksums, row by row of sixteen, and what each entry is:
 the remainder of dividing its index by the generator polynomial, bit by bit.
 */
module CrcTables {
  /** One step of CRC-16 division, most significant bit first: x^16 + x^12 + x^5 + 1. */
  function Step16(c: bv16): bv16 { if c & 0x8000 != 0 then (c << 1) ^ 0x1021 else c << 1 }

  function Eight16(c: bv16): bv16 { Step16(Step16(Step16(Step16(Step16(Step16(Step16(Step16(c)))))))) }

  /** One step of CRC-64 division, least significant bit first (the Jones polynomial, reflected). */
  function Step64(c: bv64): bv64 { if c & 1 != 0 then (c >> 1) ^ 0x95ac9329ac4bc9b5 else c >> 1 }

  function Eight64(c: bv64): bv64 { Step64(Step64(Step64(Step64(Step64(Step64(Step64(Step64(c)))))))) }

  function Pick16(lo: bv8, a0: bv16, a1: bv16, a2: bv16, a3: bv16, a4: bv16, a5: bv16, a6: bv16, a7: bv16,
                  a8: bv16, a9: bv16, a10: bv16, a11: bv16, a12: bv16, a13: bv16, a14: bv16, a15: bv16): bv16
  {
    if lo & 8 == 0 then
      if lo & 4 == 0 then (if lo & 2 == 0 then (if lo & 1 == 0 then a0 else a1) else (if lo & 1 == 0 then a2 else a3))
      else (if lo & 2 == 0 then (if lo & 1 == 0 then a4 else a5) else (if lo & 1 == 0 then a6 else a7))
    else
      if lo & 4 == 0 then (if lo & 2 == 0 then (if lo & 1 == 0 then a8 else a9) else (if lo & 1 == 0 then a10 else a11))
      else (if lo & 2 == 0 then (if lo & 1 == 0 then a12 else a13) else (if lo & 1 == 0 then a14 else a15))
  }

  function Pick64(lo: bv8, a0: bv64, a1: bv64, a2: bv64, a3: bv64, a4: bv64, a5: bv64, a6: bv64, a7: bv64,
                  a8: bv64, a9: bv64, a10: bv64, a11: bv64, a12: bv64, a13: bv64, a14: bv64, a15: bv64): bv64
  {
    if lo & 8 == 0 then
      if lo & 4 == 0 then (if lo & 2 == 0 then (if lo & 1 == 0 then a0 else a1) else (if lo & 1 == 0 then a2 else a3))
      else (if lo & 2 == 0 then (if lo & 1 == 0 then a4 else a5) else (if lo & 1 == 0 then a6 else a7))
    else
      if lo & 4 == 0 then (if lo & 2 == 0 then (if lo & 1 == 0 then a8 else a9) else (if lo & 1 == 0 then a10 else a11))
      else (if lo & 2 == 0 then (if lo & 1 == 0 then a12 else a13) else (if lo & 1 == 0 then a14 else a15))
  }

  function Row16_0(lo: bv8): bv16 {
    Pick16(lo, 0x0000, 0x1021, 0x2042, 0x3063, 0x4084, 0x50a5, 0x60c6, 0x70e7,
               0x8108, 0x9129, 0xa14a, 0xb16b, 0xc18c, 0xd1ad, 0xe1ce, 0xf1ef)
  }

  function Row16_1(lo: bv8): bv16 {
    Pick16(lo, 0x1231, 0x0210, 0x3273, 0x2252, 0x52b5, 0x4294, 0x72f7, 0x62d6,
               0x9339, 0x8318, 0xb37b, 0xa35a, 0xd3bd, 0xc39c, 0xf3ff, 0xe3de)
  }

  function Row16_2(lo: bv8): bv16 {
    Pick16(lo, 0x2462, 0x3443, 0x0420, 0x1401, 0x64e6, 0x74c7, 0x44a4, 0x5485,
               0xa56a, 0xb54b, 0x8528, 0x9509, 0xe5ee, 0xf5cf, 0xc5ac, 0xd58d)
  }

  function Row16_3(lo: bv8): bv16 {
    Pick16(lo, 0x3653, 0x2672, 0x1611, 0x0630, 0x76d7, 0x66f6, 0x5695, 0x46b4,
               0xb75b, 0xa77a, 0x9719, 0x8738, 0xf7df, 0xe7fe, 0xd79d, 0xc7bc)
  }

  function Row16_4(lo: bv8): bv16 {
    Pick16(lo, 0x48c4, 0x58e5, 0x6886, 0x78a7, 0x0840, 0x1861, 0x2802, 0x3823,
               0xc9cc, 0xd9ed, 0xe98e, 0xf9af, 0x8948, 0x9969, 0xa90a, 0xb92b)
  }

  function Row16_5(lo: bv8): bv16 {
    Pick16(lo, 0x5af5, 0x4ad4, 0x7ab7, 0x6a96, 0x1a71, 0x0a50, 0x3a33, 0x2a12,
               0xdbfd, 0xcbdc, 0xfbbf, 0xeb9e, 0x9b79, 0x8b58, 0xbb3b, 0xab1a)
  }

  function Row16_6(lo: bv8): bv16 {
    Pick16(lo, 0x6ca6, 0x7c87, 0x4ce4, 0x5cc5, 0x2c22, 0x3c03, 0x0c60, 0x1c41,
               0xedae, 0xfd8f, 0xcdec, 0xddcd, 0xad2a, 0xbd0b, 0x8d68, 0x9d49)
  }

  function Row16_7(lo: bv8): bv16 {
    Pick16(lo, 0x7e97, 0x6eb6, 0x5ed5, 0x4ef4, 0x3e13, 0x2e32, 0x1e51, 0x0e70,
               0xff9f, 0xefbe, 0xdfdd, 0xcffc, 0xbf1b, 0xaf3a, 0x9f59, 0x8f78)
  }

  function Row16_8(lo: bv8): bv16 {
    Pick16(lo, 0x9188, 0x81a9, 0xb1ca, 0xa1eb, 0xd10c, 0xc12d, 0xf14e, 0xe16f,
               0x1080, 0x00a1, 0x30c2, 0x20e3, 0x5004, 0x4025, 0x7046, 0x6067)
  }

  function Row16_9(lo: bv8): bv16 {
    Pick16(lo, 0x83b9, 0x9398, 0xa3fb, 0xb3da, 0xc33d, 0xd31c, 0xe37f, 0xf35e,
               0x02b1, 0x1290, 0x22f3, 0x32d2, 0x4235, 0x5214, 0x6277, 0x7256)
  }

  function Row16_A(lo: bv8): bv16 {
    Pick16(lo, 0xb5ea, 0xa5cb, 0x95a8, 0x8589, 0xf56e, 0xe54f, 0xd52c, 0xc50d,
               0x34e2, 0x24c3, 0x14a0, 0x0481, 0x7466, 0x6447, 0x5424, 0x4405)
  }

  function Row16_B(lo: bv8): bv16 {
    Pick16(lo, 0xa7db, 0xb7fa, 0x8799, 0x97b8, 0xe75f, 0xf77e, 0xc71d, 0xd73c,
               0x26d3, 0x36f2, 0x0691, 0x16b0, 0x6657, 0x7676, 0x4615, 0x5634)
  }

  function Row16_C(lo: bv8): bv16 {
    Pick16(lo, 0xd94c, 0xc96d, 0xf90e, 0xe92f, 0x99c8, 0x89e9, 0xb98a, 0xa9ab,
               0x5844, 0x4865, 0x7806, 0x6827, 0x18c0, 0x08e1, 0x3882, 0x28a3)
  }

  function Row16_D(lo: bv8): bv16 {
    Pick16(lo, 0xcb7d, 0xdb5c, 0xeb3f, 0xfb1e, 0x8bf9, 0x9bd8, 0xabbb, 0xbb9a,
               0x4a75, 0x5a54, 0x6a37, 0x7a16, 0x0af1, 0x1ad0, 0x2ab3, 0x3a92)
  }

  function Row16_E(lo: bv8): bv16 {
    Pick16(lo, 0xfd2e, 0xed0f, 0xdd6c, 0xcd4d, 0xbdaa, 0xad8b, 0x9de8, 0x8dc9,
               0x7c26, 0x6c07, 0x5c64, 0x4c45, 0x3ca2, 0x2c83, 0x1ce0, 0x0cc1)
  }

  function Row16_F(lo: bv8): bv16 {
    Pick16(lo, 0xef1f, 0xff3e, 0xcf5d, 0xdf7c, 0xaf9b, 0xbfba, 0x8fd9, 0x9ff8,
               0x6e17, 0x7e36, 0x4e55, 0x5e74, 0x2e93, 0x3eb2, 0x0ed1, 0x1ef0)
  }

  function Row64_0(lo: bv8): bv64 {
    Pick64(lo, 0x0000000000000000, 0x7ad870c830358979, 0xf5b0e190606b12f2, 0x8f689158505e9b8b,
               0xc038e5739841b68f, 0xbae095bba8743ff6, 0x358804e3f82aa47d, 0x4f50742bc81f2d04,
               0xab28ecb46814fe75, 0xd1f09c7c5821770c, 0x5e980d24087fec87, 0x24407dec384a65fe,
               0x6b1009c7f05548fa, 0x11c8790fc060c183, 0x9ea0e857903e5a08, 0xe478989fa00bd371)
  }

  function Row64_1(lo: bv8): bv64 {
    Pick64(lo, 0x7d08ff3b88be6f81, 0x07d08ff3b88be6f8, 0x88b81eabe8d57d73, 0xf2606e63d8e0f40a,
               0xbd301a4810ffd90e, 0xc7e86a8020ca5077, 0x4880fbd87094cbfc, 0x32588b1040a14285,
               0xd620138fe0aa91f4, 0xacf86347d09f188d, 0x2390f21f80c18306, 0x594882d7b0f40a7f,
               0x1618f6fc78eb277b, 0x6cc0863448deae02, 0xe3a8176c18803589, 0x997067a428b5bcf0)
  }

  function Row64_2(lo: bv8): bv64 {
    Pick64(lo, 0xfa11fe77117cdf02, 0x80c98ebf2149567b, 0x0fa11fe77117cdf0, 0x75796f2f41224489,
               0x3a291b04893d698d, 0x40f16bccb908e0f4, 0xcf99fa94e9567b7f, 0xb5418a5cd963f206,
               0x513912c379682177, 0x2be1620b495da80e, 0xa489f35319033385, 0xde51839b2936bafc,
               0x9101f7b0e12997f8, 0xebd98778d11c1e81, 0x64b116208142850a, 0x1e6966e8b1770c73)
  }

  function Row64_3(lo: bv8): bv64 {
    Pick64(lo, 0x8719014c99c2b083, 0xfdc17184a9f739fa, 0x72a9e0dcf9a9a271, 0x08719014c99c2b08,
               0x4721e43f0183060c, 0x3df994f731b68f75, 0xb29105af61e814fe, 0xc849756751dd9d87,
               0x2c31edf8f1d64ef6, 0x56e99d30c1e3c78f, 0xd9810c6891bd5c04, 0xa3597ca0a188d57d,
               0xec09088b6997f879, 0x96d1784359a27100, 0x19b9e91b09fcea8b, 0x636199d339c963f2)
  }

  function Row64_4(lo: bv8): bv64 {
    Pick64(lo, 0xdf7adabd7a6e2d6f, 0xa5a2aa754a5ba416, 0x2aca3b2d1a053f9d, 0x50124be52a30b6e4,
               0x1f423fcee22f9be0, 0x659a4f06d21a1299, 0xeaf2de5e82448912, 0x902aae96b271006b,
               0x74523609127ad31a, 0x0e8a46c1224f5a63, 0x81e2d7997211c1e8, 0xfb3aa75142244891,
               0xb46ad37a8a3b6595, 0xceb2a3b2ba0eecec, 0x41da32eaea507767, 0x3b024222da65fe1e)
  }

  function Row64_5(lo: bv8): bv64 {
    Pick64(lo, 0xa2722586f2d042ee, 0xd8aa554ec2e5cb97, 0x57c2c41692bb501c, 0x2d1ab4dea28ed965,
               0x624ac0f56a91f461, 0x1892b03d5aa47d18, 0x97fa21650afae693, 0xed2251ad3acf6fea,
               0x095ac9329ac4bc9b, 0x7382b9faaaf135e2, 0xfcea28a2faafae69, 0x8632586aca9a2710,
               0xc9622c4102850a14, 0xb3ba5c8932b0836d, 0x3cd2cdd162ee18e6, 0x460abd1952db919f)
  }

  function Row64_6(lo: bv8): bv64 {
    Pick64(lo, 0x256b24ca6b12f26d, 0x5fb354025b277b14, 0xd0dbc55a0b79e09f, 0xaa03b5923b4c69e6,
               0xe553c1b9f35344e2, 0x9f8bb171c366cd9b, 0x10e3202993385610, 0x6a3b50e1a30ddf69,
               0x8e43c87e03060c18, 0xf49bb8b633338561, 0x7bf329ee636d1eea, 0x012b592653589793,
               0x4e7b2d0d9b47ba97, 0x34a35dc5ab7233ee, 0xbbcbcc9dfb2ca865, 0xc113bc55cb19211c)
  }

  function Row64_7(lo: bv8): bv64 {
    Pick64(lo, 0x5863dbf1e3ac9dec, 0x22bbab39d3991495, 0xadd33a6183c78f1e, 0xd70b4aa9b3f20667,
               0x985b3e827bed2b63, 0xe2834e4a4bd8a21a, 0x6debdf121b863991, 0x1733afda2bb3b0e8,
               0xf34b37458bb86399, 0x8993478dbb8deae0, 0x06fbd6d5ebd3716b, 0x7c23a61ddbe6f812,
               0x3373d23613f9d516, 0x49aba2fe23cc5c6f, 0xc6c333a67392c7e4, 0xbc1b436e43a74e9d)
  }

  function Row64_8(lo: bv8): bv64 {
    Pick64(lo, 0x95ac9329ac4bc9b5, 0xef74e3e19c7e40cc, 0x601c72b9cc20db47, 0x1ac40271fc15523e,
               0x5594765a340a7f3a, 0x2f4c0692043ff643, 0xa02497ca54616dc8, 0xdafce7026454e4b1,
               0x3e847f9dc45f37c0, 0x445c0f55f46abeb9, 0xcb349e0da4342532, 0xb1eceec59401ac4b,
               0xfebc9aee5c1e814f, 0x8464ea266c2b0836, 0x0b0c7b7e3c7593bd, 0x71d40bb60c401ac4)
  }

  function Row64_9(lo: bv8): bv64 {
    Pick64(lo, 0xe8a46c1224f5a634, 0x927c1cda14c02f4d, 0x1d148d82449eb4c6, 0x67ccfd4a74ab3dbf,
               0x289c8961bcb410bb, 0x5244f9a98c8199c2, 0xdd2c68f1dcdf0249, 0xa7f41839ecea8b30,
               0x438c80a64ce15841, 0x3954f06e7cd4d138, 0xb63c61362c8a4ab3, 0xcce411fe1cbfc3ca,
               0x83b465d5d4a0eece, 0xf96c151de49567b7, 0x76048445b4cbfc3c, 0x0cdcf48d84fe7545)
  }

  function Row64_A(lo: bv8): bv64 {
    Pick64(lo, 0x6fbd6d5ebd3716b7, 0x15651d968d029fce, 0x9a0d8ccedd5c0445, 0xe0d5fc06ed698d3c,
               0xaf85882d2576a038, 0xd55df8e515432941, 0x5a3569bd451db2ca, 0x20ed197575283bb3,
               0xc49581ead523e8c2, 0xbe4df122e51661bb, 0x3125607ab548fa30, 0x4bfd10b2857d7349,
               0x04ad64994d625e4d, 0x7e7514517d57d734, 0xf11d85092d094cbf, 0x8bc5f5c11d3cc5c6)
  }

  function Row64_B(lo: bv8): bv64 {
    Pick64(lo, 0x12b5926535897936, 0x686de2ad05bcf04f, 0xe70573f555e26bc4, 0x9ddd033d65d7e2bd,
               0xd28d7716adc8cfb9, 0xa85507de9dfd46c0, 0x273d9686cda3dd4b, 0x5de5e64efd965432,
               0xb99d7ed15d9d8743, 0xc3450e196da80e3a, 0x4c2d9f413df695b1, 0x36f5ef890dc31cc8,
               0x79a59ba2c5dc31cc, 0x037deb6af5e9b8b5, 0x8c157a32a5b7233e, 0xf6cd0afa9582aa47)
  }

  function Row64_C(lo: bv8): bv64 {
    Pick64(lo, 0x4ad64994d625e4da, 0x300e395ce6106da3, 0xbf66a804b64ef628, 0xc5bed8cc867b7f51,
               0x8aeeace74e645255, 0xf036dc2f7e51db2c, 0x7f5e4d772e0f40a7, 0x05863dbf1e3ac9de,
               0xe1fea520be311aaf, 0x9b26d5e88e0493d6, 0x144e44b0de5a085d, 0x6e963478ee6f8124,
               0x21c640532670ac20, 0x5b1e309b16452559, 0xd476a1c3461bbed2, 0xaeaed10b762e37ab)
  }

  function Row64_D(lo: bv8): bv64 {
    Pick64(lo, 0x37deb6af5e9b8b5b, 0x4d06c6676eae0222, 0xc26e573f3ef099a9, 0xb8b627f70ec510d0,
               0xf7e653dcc6da3dd4, 0x8d3e2314f6efb4ad, 0x0256b24ca6b12f26, 0x788ec2849684a65f,
               0x9cf65a1b368f752e, 0xe62e2ad306bafc57, 0x6946bb8b56e467dc, 0x139ecb4366d1eea5,
               0x5ccebf68aecec3a1, 0x2616cfa09efb4ad8, 0xa97e5ef8cea5d153, 0xd3a62e30fe90582a)
  }

  function Row64_E(lo: bv8): bv64 {
    Pick64(lo, 0xb0c7b7e3c7593bd8, 0xca1fc72bf76cb2a1, 0x45775673a732292a, 0x3faf26bb9707a053,
               0x70ff52905f188d57, 0x0a2722586f2d042e, 0x854fb3003f739fa5, 0xff97c3c80f4616dc,
               0x1bef5b57af4dc5ad, 0x61372b9f9f784cd4, 0xee5fbac7cf26d75f, 0x9487ca0fff135e26,
               0xdbd7be24370c7322, 0xa10fceec0739fa5b, 0x2e675fb4576761d0, 0x54bf2f7c6752e8a9)
  }

  function Row64_F(lo: bv8): bv64 {
    Pick64(lo, 0xcdcf48d84fe75459, 0xb71738107fd2dd20, 0x387fa9482f8c46ab, 0x42a7d9801fb9cfd2,
               0x0df7adabd7a6e2d6, 0x772fdd63e7936baf, 0xf8474c3bb7cdf024, 0x829f3cf387f8795d,
               0x66e7a46c27f3aa2c, 0x1c3fd4a417c62355, 0x935745fc4798b8de, 0xe98f353477ad31a7,
               0xa6df411fbfb21ca3, 0xdc0731d78f8795da, 0x536fa08fdfd90e51, 0x29b7d047efec8728)
  }

  function Table16(i: bv8): bv16 {
    var lo := i & 0x0f;
    if i < 0x10 then Row16_0(lo)
    else if i < 0x20 then Row16_1(lo)
    else if i < 0x30 then Row16_2(lo)
    else if i < 0x40 then Row16_3(lo)
    else if i < 0x50 then Row16_4(lo)
    else if i < 0x60 then Row16_5(lo)
    else if i < 0x70 then Row16_6(lo)
    else if i < 0x80 then Row16_7(lo)
    else if i < 0x90 then Row16_8(lo)
    else if i < 0xa0 then Row16_9(lo)
    else if i < 0xb0 then Row16_A(lo)
    else if i < 0xc0 then Row16_B(lo)
    else if i < 0xd0 then Row16_C(lo)
    else if i < 0xe0 then Row16_D(lo)
    else if i < 0xf0 then Row16_E(lo)
    else Row16_F(lo)
  }

  function Table64(i: bv8): bv64 {
    var lo := i & 0x0f;
    if i < 0x10 then Row64_0(lo)
    else if i < 0x20 then Row64_1(lo)
    else if i < 0x30 then Row64_2(lo)
    else if i < 0x40 then Row64_3(lo)
    else if i < 0x50 then Row64_4(lo)
    else if i < 0x60 then Row64_5(lo)
    else if i < 0x70 then Row64_6(lo)
    else if i < 0x80 then Row64_7(lo)
    else if i < 0x90 then Row64_8(lo)
    else if i < 0xa0 then Row64_9(lo)
    else if i < 0xb0 then Row64_A(lo)
    else if i < 0xc0 then Row64_B(lo)
    else if i < 0xd0 then Row64_C(lo)
    else if i < 0xe0 then Row64_D(lo)
    else if i < 0xf0 then Row64_E(lo)
    else Row64_F(lo)
  }

  lemma Row16Bits0(lo: bv8)
    requires lo < 0x10
    ensures Row16_0(lo) == Eight16(((0x00 | lo) as bv16) << 8)
  {}

  lemma Row16Bits1(lo: bv8)
    requires lo < 0x10
    ensures Row16_1(lo) == Eight16(((0x10 | lo) as bv16) << 8)
  {}

  lemma Row16Bits2(lo: bv8)
    requires lo < 0x10
    ensures Row16_2(lo) == Eight16(((0x20 | lo) as bv16) << 8)
  {}

  lemma Row16Bits3(lo: bv8)
    requires lo < 0x10
    ensures Row16_3(lo) == Eight16(((0x30 | lo) as bv16) << 8)
  {}

  lemma Row16Bits4(lo: bv8)
    requires lo < 0x10
    ensures Row16_4(lo) == Eight16(((0x40 | lo) as bv16) << 8)
  {}

  lemma Row16Bits5(lo: bv8)
    requires lo < 0x10
    ensures Row16_5(lo) == Eight16(((0x50 | lo) as bv16) << 8)
  {}

  lemma Row16Bits6(lo: bv8)
    requires lo < 0x10
    ensures Row16_6(lo) == Eight16(((0x60 | lo) as bv16) << 8)
  {}

  lemma Row16Bits7(lo: bv8)
    requires lo < 0x10
    ensures Row16_7(lo) == Eight16(((0x70 | lo) as bv16) << 8)
  {}

  lemma Row16Bits8(lo: bv8)
    requires lo < 0x10
    ensures Row16_8(lo) == Eight16(((0x80 | lo) as bv16) << 8)
  {}

  lemma Row16Bits9(lo: bv8)
    requires lo < 0x10
    ensures Row16_9(lo) == Eight16(((0x90 | lo) as bv16) << 8)
  {}

  lemma Row16BitsA(lo: bv8)
    requires lo < 0x10
    ensures Row16_A(lo) == Eight16(((0xA0 | lo) as bv16) << 8)
  {}

  lemma Row16BitsB(lo: bv8)
    requires lo < 0x10
    ensures Row16_B(lo) == Eight16(((0xB0 | lo) as bv16) << 8)
  {}

  lemma Row16BitsC(lo: bv8)
    requires lo < 0x10
    ensures Row16_C(lo) == Eight16(((0xC0 | lo) as bv16) << 8)
  {}

  lemma Row16BitsD(lo: bv8)
    requires lo < 0x10
    ensures Row16_D(lo) == Eight16(((0xD0 | lo) as bv16) << 8)
  {}

  lemma Row16BitsE(lo: bv8)
    requires lo < 0x10
    ensures Row16_E(lo) == Eight16(((0xE0 | lo) as bv16) << 8)
  {}

  lemma Row16BitsF(lo: bv8)
    requires lo < 0x10
    ensures Row16_F(lo) == Eight16(((0xF0 | lo) as bv16) << 8)
  {}

  lemma Row64Bits0First(lo: bv8)
    requires lo < 0x04
    ensures Row64_0(lo) == Eight64(lo as bv64)
  {}

  lemma Row64Bits0Low(lo: bv8)
    requires 0x04 <= lo < 0x08
    ensures Row64_0(lo) == Eight64(lo as bv64)
  {}

  lemma Row64Bits0High(lo: bv8)
    requires 0x08 <= lo < 0x10
    ensures Row64_0(lo) == Eight64(lo as bv64)
  {}

  lemma Row64Bits0(lo: bv8)
    requires lo < 0x10
    ensures Row64_0(lo) == Eight64(lo as bv64)
  {
    if lo < 0x04 { Row64Bits0First(lo); } else if lo < 0x08 { Row64Bits0Low(lo); } else { Row64Bits0High(lo); }
  }

  lemma Row64Bits1(lo: bv8)
    requires lo < 0x10
    ensures Row64_1(lo) == Eight64((0x10 | lo) as bv64)
  {}

  lemma Row64Bits2(lo: bv8)
    requires lo < 0x10
    ensures Row64_2(lo) == Eight64((0x20 | lo) as bv64)
  {}

  lemma Row64Bits3(lo: bv8)
    requires lo < 0x10
    ensures Row64_3(lo) == Eight64((0x30 | lo) as bv64)
  {}

  lemma Row64Bits4(lo: bv8)
    requires lo < 0x10
    ensures Row64_4(lo) == Eight64((0x40 | lo) as bv64)
  {}

  lemma Row64Bits5(lo: bv8)
    requires lo < 0x10
    ensures Row64_5(lo) == Eight64((0x50 | lo) as bv64)
  {}

  lemma Row64Bits6(lo: bv8)
    requires lo < 0x10
    ensures Row64_6(lo) == Eight64((0x60 | lo) as bv64)
  {}

  lemma Row64Bits7(lo: bv8)
    requires lo < 0x10
    ensures Row64_7(lo) == Eight64((0x70 | lo) as bv64)
  {}

  lemma Row64Bits8(lo: bv8)
    requires lo < 0x10
    ensures Row64_8(lo) == Eight64((0x80 | lo) as bv64)
  {}

  lemma Row64Bits9(lo: bv8)
    requires lo < 0x10
    ensures Row64_9(lo) == Eight64((0x90 | lo) as bv64)
  {}

  lemma Row64BitsA(lo: bv8)
    requires lo < 0x10
    ensures Row64_A(lo) == Eight64((0xA0 | lo) as bv64)
  {}

  lemma Row64BitsB(lo: bv8)
    requires lo < 0x10
    ensures Row64_B(lo) == Eight64((0xB0 | lo) as bv64)
  {}

  lemma Row64BitsC(lo: bv8)
    requires lo < 0x10
    ensures Row64_C(lo) == Eight64((0xC0 | lo) as bv64)
  {}

  lemma Row64BitsD(lo: bv8)
    requires lo < 0x10
    ensures Row64_D(lo) == Eight64((0xD0 | lo) as bv64)
  {}

  lemma Row64BitsE(lo: bv8)
    requires lo < 0x10
    ensures Row64_E(lo) == Eight64((0xE0 | lo) as bv64)
  {}

  lemma Row64BitsF(lo: bv8)
    requires lo < 0x10
    ensures Row64_F(lo) == Eight64((0xF0 | lo) as bv64)
  {}

  /** Every table entry is the division of its index. */
  lemma Table16Bits(i: bv8)
    ensures Table16(i) == Eight16((i as bv16) << 8)
  {
    var lo := i & 0x0f;
    if i < 0x10 { Row16Bits0(lo); }
    else if i < 0x20 { Row16Bits1(lo); }
    else if i < 0x30 { Row16Bits2(lo); }
    else if i < 0x40 { Row16Bits3(lo); }
    else if i < 0x50 { Row16Bits4(lo); }
    else if i < 0x60 { Row16Bits5(lo); }
    else if i < 0x70 { Row16Bits6(lo); }
    else if i < 0x80 { Row16Bits7(lo); }
    else if i < 0x90 { Row16Bits8(lo); }
    else if i < 0xa0 { Row16Bits9(lo); }
    else if i < 0xb0 { Row16BitsA(lo); }
    else if i < 0xc0 { Row16BitsB(lo); }
    else if i < 0xd0 { Row16BitsC(lo); }
    else if i < 0xe0 { Row16BitsD(lo); }
    else if i < 0xf0 { Row16BitsE(lo); }
    else { Row16BitsF(lo); }
  }

  /** Every table entry is the division of its index. */
  lemma Table64Bits(i: bv8)
    ensures Table64(i) == Eight64(i as bv64)
  {
    var lo := i & 0x0f;
    if i < 0x10 { Row64Bits0(lo); }
    else if i < 0x20 { Row64Bits1(lo); }
    else if i < 0x30 { Row64Bits2(lo); }
    else if i < 0x40 { Row64Bits3(lo); }
    else if i < 0x50 { Row64Bits4(lo); }
    else if i < 0x60 { Row64Bits5(lo); }
    else if i < 0x70 { Row64Bits6(lo); }
    else if i < 0x80 { Row64Bits7(lo); }
    else if i < 0x90 { Row64Bits8(lo); }
    else if i < 0xa0 { Row64Bits9(lo); }
    else if i < 0xb0 { Row64BitsA(lo); }
    else if i < 0xc0 { Row64BitsB(lo); }
    else if i < 0xd0 { Row64BitsC(lo); }
    else if i < 0xe0 { Row64BitsD(lo); }
    else if i < 0xf0 { Row64BitsE(lo); }
    else { Row64BitsF(lo); }
  }
}
