/** The lookup table of src/arch/arm_cortexm/rp2040/boot2/compCrc32.c, row by row, and the proof that
    every entry is eight bit-steps of its index. */
module Crc32Table {

  /** The coefficient that leaves the register on the next shift. */
  predicate Top(s: bv32) {
    s & 0x8000_0000 != 0
  }

  /** One step of the shift register: multiply by x modulo the polynomial 0x04C11DB7. */
  function BitStep(s: bv32): bv32 {
    if Top(s) then (s << 1) ^ 0x04C1_1DB7 else s << 1
  }

  function ByteStep(s: bv32): bv32 {
    BitStep(BitStep(BitStep(BitStep(BitStep(BitStep(BitStep(BitStep(s))))))))
  }

  function Row0(i: bv8): bv32 {
    match i
    case 0x00 => 0x00000000
    case 0x01 => 0x04C11DB7
    case 0x02 => 0x09823B6E
    case 0x03 => 0x0D4326D9
    case 0x04 => 0x130476DC
    case 0x05 => 0x17C56B6B
    case 0x06 => 0x1A864DB2
    case 0x07 => 0x1E475005
    case 0x08 => 0x2608EDB8
    case 0x09 => 0x22C9F00F
    case 0x0A => 0x2F8AD6D6
    case 0x0B => 0x2B4BCB61
    case 0x0C => 0x350C9B64
    case 0x0D => 0x31CD86D3
    case 0x0E => 0x3C8EA00A
    case _ => 0x384FBDBD
  }

  function Row1(i: bv8): bv32 {
    match i
    case 0x10 => 0x4C11DB70
    case 0x11 => 0x48D0C6C7
    case 0x12 => 0x4593E01E
    case 0x13 => 0x4152FDA9
    case 0x14 => 0x5F15ADAC
    case 0x15 => 0x5BD4B01B
    case 0x16 => 0x569796C2
    case 0x17 => 0x52568B75
    case 0x18 => 0x6A1936C8
    case 0x19 => 0x6ED82B7F
    case 0x1A => 0x639B0DA6
    case 0x1B => 0x675A1011
    case 0x1C => 0x791D4014
    case 0x1D => 0x7DDC5DA3
    case 0x1E => 0x709F7B7A
    case _ => 0x745E66CD
  }

  function Row2(i: bv8): bv32 {
    match i
    case 0x20 => 0x9823B6E0
    case 0x21 => 0x9CE2AB57
    case 0x22 => 0x91A18D8E
    case 0x23 => 0x95609039
    case 0x24 => 0x8B27C03C
    case 0x25 => 0x8FE6DD8B
    case 0x26 => 0x82A5FB52
    case 0x27 => 0x8664E6E5
    case 0x28 => 0xBE2B5B58
    case 0x29 => 0xBAEA46EF
    case 0x2A => 0xB7A96036
    case 0x2B => 0xB3687D81
    case 0x2C => 0xAD2F2D84
    case 0x2D => 0xA9EE3033
    case 0x2E => 0xA4AD16EA
    case _ => 0xA06C0B5D
  }

  function Row3(i: bv8): bv32 {
    match i
    case 0x30 => 0xD4326D90
    case 0x31 => 0xD0F37027
    case 0x32 => 0xDDB056FE
    case 0x33 => 0xD9714B49
    case 0x34 => 0xC7361B4C
    case 0x35 => 0xC3F706FB
    case 0x36 => 0xCEB42022
    case 0x37 => 0xCA753D95
    case 0x38 => 0xF23A8028
    case 0x39 => 0xF6FB9D9F
    case 0x3A => 0xFBB8BB46
    case 0x3B => 0xFF79A6F1
    case 0x3C => 0xE13EF6F4
    case 0x3D => 0xE5FFEB43
    case 0x3E => 0xE8BCCD9A
    case _ => 0xEC7DD02D
  }

  function Row4(i: bv8): bv32 {
    match i
    case 0x40 => 0x34867077
    case 0x41 => 0x30476DC0
    case 0x42 => 0x3D044B19
    case 0x43 => 0x39C556AE
    case 0x44 => 0x278206AB
    case 0x45 => 0x23431B1C
    case 0x46 => 0x2E003DC5
    case 0x47 => 0x2AC12072
    case 0x48 => 0x128E9DCF
    case 0x49 => 0x164F8078
    case 0x4A => 0x1B0CA6A1
    case 0x4B => 0x1FCDBB16
    case 0x4C => 0x018AEB13
    case 0x4D => 0x054BF6A4
    case 0x4E => 0x0808D07D
    case _ => 0x0CC9CDCA
  }

  function Row5(i: bv8): bv32 {
    match i
    case 0x50 => 0x7897AB07
    case 0x51 => 0x7C56B6B0
    case 0x52 => 0x71159069
    case 0x53 => 0x75D48DDE
    case 0x54 => 0x6B93DDDB
    case 0x55 => 0x6F52C06C
    case 0x56 => 0x6211E6B5
    case 0x57 => 0x66D0FB02
    case 0x58 => 0x5E9F46BF
    case 0x59 => 0x5A5E5B08
    case 0x5A => 0x571D7DD1
    case 0x5B => 0x53DC6066
    case 0x5C => 0x4D9B3063
    case 0x5D => 0x495A2DD4
    case 0x5E => 0x44190B0D
    case _ => 0x40D816BA
  }

  function Row6(i: bv8): bv32 {
    match i
    case 0x60 => 0xACA5C697
    case 0x61 => 0xA864DB20
    case 0x62 => 0xA527FDF9
    case 0x63 => 0xA1E6E04E
    case 0x64 => 0xBFA1B04B
    case 0x65 => 0xBB60ADFC
    case 0x66 => 0xB6238B25
    case 0x67 => 0xB2E29692
    case 0x68 => 0x8AAD2B2F
    case 0x69 => 0x8E6C3698
    case 0x6A => 0x832F1041
    case 0x6B => 0x87EE0DF6
    case 0x6C => 0x99A95DF3
    case 0x6D => 0x9D684044
    case 0x6E => 0x902B669D
    case _ => 0x94EA7B2A
  }

  function Row7(i: bv8): bv32 {
    match i
    case 0x70 => 0xE0B41DE7
    case 0x71 => 0xE4750050
    case 0x72 => 0xE9362689
    case 0x73 => 0xEDF73B3E
    case 0x74 => 0xF3B06B3B
    case 0x75 => 0xF771768C
    case 0x76 => 0xFA325055
    case 0x77 => 0xFEF34DE2
    case 0x78 => 0xC6BCF05F
    case 0x79 => 0xC27DEDE8
    case 0x7A => 0xCF3ECB31
    case 0x7B => 0xCBFFD686
    case 0x7C => 0xD5B88683
    case 0x7D => 0xD1799B34
    case 0x7E => 0xDC3ABDED
    case _ => 0xD8FBA05A
  }

  function Row8(i: bv8): bv32 {
    match i
    case 0x80 => 0x690CE0EE
    case 0x81 => 0x6DCDFD59
    case 0x82 => 0x608EDB80
    case 0x83 => 0x644FC637
    case 0x84 => 0x7A089632
    case 0x85 => 0x7EC98B85
    case 0x86 => 0x738AAD5C
    case 0x87 => 0x774BB0EB
    case 0x88 => 0x4F040D56
    case 0x89 => 0x4BC510E1
    case 0x8A => 0x46863638
    case 0x8B => 0x42472B8F
    case 0x8C => 0x5C007B8A
    case 0x8D => 0x58C1663D
    case 0x8E => 0x558240E4
    case _ => 0x51435D53
  }

  function Row9(i: bv8): bv32 {
    match i
    case 0x90 => 0x251D3B9E
    case 0x91 => 0x21DC2629
    case 0x92 => 0x2C9F00F0
    case 0x93 => 0x285E1D47
    case 0x94 => 0x36194D42
    case 0x95 => 0x32D850F5
    case 0x96 => 0x3F9B762C
    case 0x97 => 0x3B5A6B9B
    case 0x98 => 0x0315D626
    case 0x99 => 0x07D4CB91
    case 0x9A => 0x0A97ED48
    case 0x9B => 0x0E56F0FF
    case 0x9C => 0x1011A0FA
    case 0x9D => 0x14D0BD4D
    case 0x9E => 0x19939B94
    case _ => 0x1D528623
  }

  function RowA(i: bv8): bv32 {
    match i
    case 0xA0 => 0xF12F560E
    case 0xA1 => 0xF5EE4BB9
    case 0xA2 => 0xF8AD6D60
    case 0xA3 => 0xFC6C70D7
    case 0xA4 => 0xE22B20D2
    case 0xA5 => 0xE6EA3D65
    case 0xA6 => 0xEBA91BBC
    case 0xA7 => 0xEF68060B
    case 0xA8 => 0xD727BBB6
    case 0xA9 => 0xD3E6A601
    case 0xAA => 0xDEA580D8
    case 0xAB => 0xDA649D6F
    case 0xAC => 0xC423CD6A
    case 0xAD => 0xC0E2D0DD
    case 0xAE => 0xCDA1F604
    case _ => 0xC960EBB3
  }

  function RowB(i: bv8): bv32 {
    match i
    case 0xB0 => 0xBD3E8D7E
    case 0xB1 => 0xB9FF90C9
    case 0xB2 => 0xB4BCB610
    case 0xB3 => 0xB07DABA7
    case 0xB4 => 0xAE3AFBA2
    case 0xB5 => 0xAAFBE615
    case 0xB6 => 0xA7B8C0CC
    case 0xB7 => 0xA379DD7B
    case 0xB8 => 0x9B3660C6
    case 0xB9 => 0x9FF77D71
    case 0xBA => 0x92B45BA8
    case 0xBB => 0x9675461F
    case 0xBC => 0x8832161A
    case 0xBD => 0x8CF30BAD
    case 0xBE => 0x81B02D74
    case _ => 0x857130C3
  }

  function RowC(i: bv8): bv32 {
    match i
    case 0xC0 => 0x5D8A9099
    case 0xC1 => 0x594B8D2E
    case 0xC2 => 0x5408ABF7
    case 0xC3 => 0x50C9B640
    case 0xC4 => 0x4E8EE645
    case 0xC5 => 0x4A4FFBF2
    case 0xC6 => 0x470CDD2B
    case 0xC7 => 0x43CDC09C
    case 0xC8 => 0x7B827D21
    case 0xC9 => 0x7F436096
    case 0xCA => 0x7200464F
    case 0xCB => 0x76C15BF8
    case 0xCC => 0x68860BFD
    case 0xCD => 0x6C47164A
    case 0xCE => 0x61043093
    case _ => 0x65C52D24
  }

  function RowD(i: bv8): bv32 {
    match i
    case 0xD0 => 0x119B4BE9
    case 0xD1 => 0x155A565E
    case 0xD2 => 0x18197087
    case 0xD3 => 0x1CD86D30
    case 0xD4 => 0x029F3D35
    case 0xD5 => 0x065E2082
    case 0xD6 => 0x0B1D065B
    case 0xD7 => 0x0FDC1BEC
    case 0xD8 => 0x3793A651
    case 0xD9 => 0x3352BBE6
    case 0xDA => 0x3E119D3F
    case 0xDB => 0x3AD08088
    case 0xDC => 0x2497D08D
    case 0xDD => 0x2056CD3A
    case 0xDE => 0x2D15EBE3
    case _ => 0x29D4F654
  }

  function RowE(i: bv8): bv32 {
    match i
    case 0xE0 => 0xC5A92679
    case 0xE1 => 0xC1683BCE
    case 0xE2 => 0xCC2B1D17
    case 0xE3 => 0xC8EA00A0
    case 0xE4 => 0xD6AD50A5
    case 0xE5 => 0xD26C4D12
    case 0xE6 => 0xDF2F6BCB
    case 0xE7 => 0xDBEE767C
    case 0xE8 => 0xE3A1CBC1
    case 0xE9 => 0xE760D676
    case 0xEA => 0xEA23F0AF
    case 0xEB => 0xEEE2ED18
    case 0xEC => 0xF0A5BD1D
    case 0xED => 0xF464A0AA
    case 0xEE => 0xF9278673
    case _ => 0xFDE69BC4
  }

  function RowF(i: bv8): bv32 {
    match i
    case 0xF0 => 0x89B8FD09
    case 0xF1 => 0x8D79E0BE
    case 0xF2 => 0x803AC667
    case 0xF3 => 0x84FBDBD0
    case 0xF4 => 0x9ABC8BD5
    case 0xF5 => 0x9E7D9662
    case 0xF6 => 0x933EB0BB
    case 0xF7 => 0x97FFAD0C
    case 0xF8 => 0xAFB010B1
    case 0xF9 => 0xAB710D06
    case 0xFA => 0xA6322BDF
    case 0xFB => 0xA2F33668
    case 0xFC => 0xBCB4666D
    case 0xFD => 0xB8757BDA
    case 0xFE => 0xB5365D03
    case _ => 0xB1F740B4
  }

  /** crc32_table[i] */
  function Table(i: bv8): bv32 {
    match i >> 4
    case 0 => Row0(i)
    case 1 => Row1(i)
    case 2 => Row2(i)
    case 3 => Row3(i)
    case 4 => Row4(i)
    case 5 => Row5(i)
    case 6 => Row6(i)
    case 7 => Row7(i)
    case 8 => Row8(i)
    case 9 => Row9(i)
    case 10 => RowA(i)
    case 11 => RowB(i)
    case 12 => RowC(i)
    case 13 => RowD(i)
    case 14 => RowE(i)
    case _ => RowF(i)
  }

  lemma Row0Entry(i: bv8)
    requires i >> 4 == 0
    ensures Row0(i) == ByteStep((i as bv32) << 24)
  {
  }

  lemma Row1Entry(i: bv8)
    requires i >> 4 == 1
    ensures Row1(i) == ByteStep((i as bv32) << 24)
  {
  }

  lemma Row2Entry(i: bv8)
    requires i >> 4 == 2
    ensures Row2(i) == ByteStep((i as bv32) << 24)
  {
  }

  lemma Row3Entry(i: bv8)
    requires i >> 4 == 3
    ensures Row3(i) == ByteStep((i as bv32) << 24)
  {
  }

  lemma Row4Entry(i: bv8)
    requires i >> 4 == 4
    ensures Row4(i) == ByteStep((i as bv32) << 24)
  {
  }

  lemma Row5Entry(i: bv8)
    requires i >> 4 == 5
    ensures Row5(i) == ByteStep((i as bv32) << 24)
  {
  }

  lemma Row6Entry(i: bv8)
    requires i >> 4 == 6
    ensures Row6(i) == ByteStep((i as bv32) << 24)
  {
  }

  lemma Row7Entry(i: bv8)
    requires i >> 4 == 7
    ensures Row7(i) == ByteStep((i as bv32) << 24)
  {
  }

  lemma Row8Entry(i: bv8)
    requires i >> 4 == 8
    ensures Row8(i) == ByteStep((i as bv32) << 24)
  {
  }

  lemma Row9Entry(i: bv8)
    requires i >> 4 == 9
    ensures Row9(i) == ByteStep((i as bv32) << 24)
  {
  }

  lemma RowAEntry(i: bv8)
    requires i >> 4 == 10
    ensures RowA(i) == ByteStep((i as bv32) << 24)
  {
  }

  lemma RowBEntry(i: bv8)
    requires i >> 4 == 11
    ensures RowB(i) == ByteStep((i as bv32) << 24)
  {
  }

  lemma RowCEntry(i: bv8)
    requires i >> 4 == 12
    ensures RowC(i) == ByteStep((i as bv32) << 24)
  {
  }

  lemma RowDEntry(i: bv8)
    requires i >> 4 == 13
    ensures RowD(i) == ByteStep((i as bv32) << 24)
  {
  }

  lemma RowEEntry(i: bv8)
    requires i >> 4 == 14
    ensures RowE(i) == ByteStep((i as bv32) << 24)
  {
  }

  lemma RowFEntry(i: bv8)
    requires i >> 4 == 15
    ensures RowF(i) == ByteStep((i as bv32) << 24)
  {
  }

  lemma TableEntry(i: bv8)
    ensures Table(i) == ByteStep((i as bv32) << 24)
  {
    match i >> 4
    case 0 => Row0Entry(i);
    case 1 => Row1Entry(i);
    case 2 => Row2Entry(i);
    case 3 => Row3Entry(i);
    case 4 => Row4Entry(i);
    case 5 => Row5Entry(i);
    case 6 => Row6Entry(i);
    case 7 => Row7Entry(i);
    case 8 => Row8Entry(i);
    case 9 => Row9Entry(i);
    case 10 => RowAEntry(i);
    case 11 => RowBEntry(i);
    case 12 => RowCEntry(i);
    case 13 => RowDEntry(i);
    case 14 => RowEEntry(i);
    case _ => RowFEntry(i);
  }
}
