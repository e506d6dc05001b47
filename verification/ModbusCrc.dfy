/** The Modbus RTU check sequence: the firmware's table-driven CRC beside the tools' bitwise one. */
module ModbusCrc {
  // Bit-level operations are named so that proofs about whole messages can hide their definitions.

  function Xor(a: bv16, b: bv16): bv16 { a ^ b }

  function Half(c: bv16): bv16 { c >> 1 }

  predicate Even(c: bv16) { c & 1 == 0 }

  function Upper(c: bv16): bv16 { c >> 8 }

  function Lower(c: bv16): bv16 { c & 0xFF }

  /** A data byte is mixed into the low half of the register. */
  function Mix(c: bv16, b: bv8): bv16 { c ^ (b as bv16) }

  /** One step of the bitwise loop. */
  function Bit(c: bv16): bv16 {
    if Even(c) then Half(c) else Xor(Half(c), 0xA001)
  }

  /** n steps. */
  function Steps(c: bv16, n: nat): bv16
    decreases n
  {
    if n == 0 then c else Steps(Bit(c), n - 1)
  }

  /** One byte's worth of steps. */
  function Eight(c: bv16): bv16 { Steps(c, 8) }

  function ByteStep(c: bv16, b: bv8): bv16 { Eight(Mix(c, b)) }

  const START: bv16 := 0xFFFF

  /** The bitwise CRC of data, from register value c on. */
  function Crc(c: bv16, data: seq<bv8>): bv16
    decreases |data|
  {
    if data == [] then c else Crc(ByteStep(c, data[0]), data[1..])
  }

  // ----- the table

  /** Row h of crc16_table, eight entries a row. */
  function Row(h: bv16): (r: seq<bv16>)
    ensures |r| == 8
  {
    if h == 0 then [0x0000, 0xC0C1, 0xC181, 0x0140, 0xC301, 0x03C0, 0x0280, 0xC241] else
    if h == 1 then [0xC601, 0x06C0, 0x0780, 0xC741, 0x0500, 0xC5C1, 0xC481, 0x0440] else
    if h == 2 then [0xCC01, 0x0CC0, 0x0D80, 0xCD41, 0x0F00, 0xCFC1, 0xCE81, 0x0E40] else
    if h == 3 then [0x0A00, 0xCAC1, 0xCB81, 0x0B40, 0xC901, 0x09C0, 0x0880, 0xC841] else
    if h == 4 then [0xD801, 0x18C0, 0x1980, 0xD941, 0x1B00, 0xDBC1, 0xDA81, 0x1A40] else
    if h == 5 then [0x1E00, 0xDEC1, 0xDF81, 0x1F40, 0xDD01, 0x1DC0, 0x1C80, 0xDC41] else
    if h == 6 then [0x1400, 0xD4C1, 0xD581, 0x1540, 0xD701, 0x17C0, 0x1680, 0xD641] else
    if h == 7 then [0xD201, 0x12C0, 0x1380, 0xD341, 0x1100, 0xD1C1, 0xD081, 0x1040] else
    if h == 8 then [0xF001, 0x30C0, 0x3180, 0xF141, 0x3300, 0xF3C1, 0xF281, 0x3240] else
    if h == 9 then [0x3600, 0xF6C1, 0xF781, 0x3740, 0xF501, 0x35C0, 0x3480, 0xF441] else
    if h == 10 then [0x3C00, 0xFCC1, 0xFD81, 0x3D40, 0xFF01, 0x3FC0, 0x3E80, 0xFE41] else
    if h == 11 then [0xFA01, 0x3AC0, 0x3B80, 0xFB41, 0x3900, 0xF9C1, 0xF881, 0x3840] else
    if h == 12 then [0x2800, 0xE8C1, 0xE981, 0x2940, 0xEB01, 0x2BC0, 0x2A80, 0xEA41] else
    if h == 13 then [0xEE01, 0x2EC0, 0x2F80, 0xEF41, 0x2D00, 0xEDC1, 0xEC81, 0x2C40] else
    if h == 14 then [0xE401, 0x24C0, 0x2580, 0xE541, 0x2700, 0xE7C1, 0xE681, 0x2640] else
    if h == 15 then [0x2200, 0xE2C1, 0xE381, 0x2340, 0xE101, 0x21C0, 0x2080, 0xE041] else
    if h == 16 then [0xA001, 0x60C0, 0x6180, 0xA141, 0x6300, 0xA3C1, 0xA281, 0x6240] else
    if h == 17 then [0x6600, 0xA6C1, 0xA781, 0x6740, 0xA501, 0x65C0, 0x6480, 0xA441] else
    if h == 18 then [0x6C00, 0xACC1, 0xAD81, 0x6D40, 0xAF01, 0x6FC0, 0x6E80, 0xAE41] else
    if h == 19 then [0xAA01, 0x6AC0, 0x6B80, 0xAB41, 0x6900, 0xA9C1, 0xA881, 0x6840] else
    if h == 20 then [0x7800, 0xB8C1, 0xB981, 0x7940, 0xBB01, 0x7BC0, 0x7A80, 0xBA41] else
    if h == 21 then [0xBE01, 0x7EC0, 0x7F80, 0xBF41, 0x7D00, 0xBDC1, 0xBC81, 0x7C40] else
    if h == 22 then [0xB401, 0x74C0, 0x7580, 0xB541, 0x7700, 0xB7C1, 0xB681, 0x7640] else
    if h == 23 then [0x7200, 0xB2C1, 0xB381, 0x7340, 0xB101, 0x71C0, 0x7080, 0xB041] else
    if h == 24 then [0x5000, 0x90C1, 0x9181, 0x5140, 0x9301, 0x53C0, 0x5280, 0x9241] else
    if h == 25 then [0x9601, 0x56C0, 0x5780, 0x9741, 0x5500, 0x95C1, 0x9481, 0x5440] else
    if h == 26 then [0x9C01, 0x5CC0, 0x5D80, 0x9D41, 0x5F00, 0x9FC1, 0x9E81, 0x5E40] else
    if h == 27 then [0x5A00, 0x9AC1, 0x9B81, 0x5B40, 0x9901, 0x59C0, 0x5880, 0x9841] else
    if h == 28 then [0x8801, 0x48C0, 0x4980, 0x8941, 0x4B00, 0x8BC1, 0x8A81, 0x4A40] else
    if h == 29 then [0x4E00, 0x8EC1, 0x8F81, 0x4F40, 0x8D01, 0x4DC0, 0x4C80, 0x8C41] else
    if h == 30 then [0x4400, 0x84C1, 0x8581, 0x4540, 0x8701, 0x47C0, 0x4680, 0x8641] else
    [0x8201, 0x42C0, 0x4380, 0x8341, 0x4100, 0x81C1, 0x8081, 0x4040]
  }

  function Table(b: bv16): bv16 { Row(b >> 3)[(b & 7) as int] }

  /** A step written out in words. */
  function Written(c: bv16): bv16 { if c & 1 == 1 then (c >> 1) ^ 0xA001 else c >> 1 }

  function Unrolled(c: bv16): bv16 {
    Written(Written(Written(Written(Written(Written(Written(Written(c))))))))
  }

  lemma BitWritten(c: bv16)
    ensures Bit(c) == Written(c)
  {
  }

  lemma FourWritten(c: bv16, n: nat)
    ensures Steps(c, n + 4) == Steps(Written(Written(Written(Written(c)))), n)
  {
    hide Bit, Written;
    var c1 := Written(c);
    var c2 := Written(c1);
    var c3 := Written(c2);
    BitWritten(c);
    BitWritten(c1);
    BitWritten(c2);
    BitWritten(c3);
    assert Steps(c, n + 4) == Steps(c1, n + 3) == Steps(c2, n + 2);
    assert Steps(c2, n + 2) == Steps(c3, n + 1);
  }

  lemma EightUnrolled(c: bv16)
    ensures Eight(c) == Unrolled(c)
  {
    hide Bit, Written;
    FourWritten(c, 4);
    FourWritten(Written(Written(Written(Written(c)))), 0);
  }

  lemma TableFirst(b: bv16)
    requires b < 0x40
    ensures Table(b) == Unrolled(b)
  {
  }

  lemma TableSecond(b: bv16)
    requires 0x40 <= b < 0x80
    ensures Table(b) == Unrolled(b)
  {
  }

  lemma TableThird(b: bv16)
    requires 0x80 <= b < 0xC0
    ensures Table(b) == Unrolled(b)
  {
  }

  lemma TableFourth(b: bv16)
    requires 0xC0 <= b < 0xE0
    ensures Table(b) == Unrolled(b)
  {
    if b < 0xD0 { assert Row(b >> 3) == if b < 0xC8 then Row(24) else Row(25); }
    else { assert Row(b >> 3) == if b < 0xD8 then Row(26) else Row(27); }
  }

  lemma TableLast(b: bv16)
    requires 0xE0 <= b < 0x100
    ensures Table(b) == Unrolled(b)
  {
  }

  /** Every one of the 256 entries is eight bitwise steps of its index. */
  lemma TableRight(b: bv16)
    requires b < 0x100
    ensures Table(b) == Eight(b)
  {
    hide Table, Unrolled, Eight;
    EightUnrolled(b);
    if b < 0x40 { TableFirst(b); } else if b < 0x80 { TableSecond(b); }
    else if b < 0xC0 { TableThird(b); } else if b < 0xE0 { TableFourth(b); } else { TableLast(b); }
  }

  // ----- algebra of the step

  /** A part h of the register whose lowest bit is clear is merely shifted. */
  lemma BitHigh(h: bv16, l: bv16)
    requires Even(h)
    ensures Bit(Xor(h, l)) == Xor(Half(h), Bit(l))
  {
    hide Xor, Half, Even;
    XorWords(h, l);
    XorAssociates(Half(h), Half(l), 0xA001);
  }

  lemma XorWords(h: bv16, l: bv16)
    requires Even(h)
    ensures Even(Xor(h, l)) == Even(l) && Half(Xor(h, l)) == Xor(Half(h), Half(l))
  {
  }

  lemma XorAssociates(x: bv16, y: bv16, z: bv16)
    ensures Xor(Xor(x, y), z) == Xor(x, Xor(y, z))
  {
  }

  function Shift(h: bv16, n: nat): bv16
    decreases n
  {
    if n == 0 then h else Shift(Half(h), n - 1)
  }

  predicate LowClear(h: bv16, n: nat)
    decreases n
  {
    n == 0 || (Even(h) && LowClear(Half(h), n - 1))
  }

  lemma {:induction false} StepsHigh(h: bv16, l: bv16, n: nat)
    requires LowClear(h, n)
    ensures Steps(Xor(h, l), n) == Xor(Shift(h, n), Steps(l, n))
    decreases n
  {
    hide Bit, Xor, Half, Even;
    if n > 0 {
      BitHigh(h, l);
      StepsHigh(Half(h), Bit(l), n - 1);
    }
  }

  function Quarter(h: bv16): bv16 { h >> 2 }

  predicate Fours(h: bv16) { h & 3 == 0 }

  lemma Quartered(h: bv16, n: nat)
    requires Fours(h) && LowClear(Quarter(h), n)
    ensures LowClear(h, n + 2) && Shift(h, n + 2) == Shift(Quarter(h), n)
  {
    hide Half, Even, Quarter, Fours;
    TwoBits(h);
    assert LowClear(Half(h), n + 1);
  }

  lemma TwoBits(h: bv16)
    requires Fours(h)
    ensures Even(h) && Even(Half(h)) && Half(Half(h)) == Quarter(h)
  {
  }

  lemma HighByte(h: bv16)
    requires Lower(h) == 0
    ensures LowClear(h, 8) && Shift(h, 8) == Upper(h)
  {
    hide Upper, Lower, Half, Even, Quarter, Fours;
    LowBits(h);
    var q := Quarter(h);
    var r := Quarter(q);
    Quartered(Quarter(r), 0);
    Quartered(r, 2);
    Quartered(q, 4);
    Quartered(h, 6);
  }

  lemma LowBits(h: bv16)
    requires Lower(h) == 0
    ensures Fours(h) && Fours(Quarter(h)) && Fours(Quarter(Quarter(h))) && Fours(Quarter(Quarter(Quarter(h))))
    ensures Quarter(Quarter(Quarter(Quarter(h)))) == Upper(h)
  {
  }

  /** A byte's worth of steps shifts the high byte down and replaces the low byte by its table entry. */
  lemma EightSplits(c: bv16)
    ensures Eight(c) == Xor(Upper(c), Eight(Lower(c)))
  {
    var h := c & 0xFF00;
    Halves(c);
    hide Steps, Bit, Shift, LowClear, Upper, Lower, Xor;
    HighByte(h);
    StepsHigh(h, Lower(c), 8);
  }

  lemma Halves(c: bv16)
    ensures c == Xor(c & 0xFF00, Lower(c)) && Lower(c & 0xFF00) == 0 && Upper(c & 0xFF00) == Upper(c)
    ensures Lower(c) < 0x100
  {
  }

  lemma BitInjective(a: bv16, b: bv16)
    requires Bit(a) == Bit(b)
    ensures a == b
  {
  }

  /** Steps lose nothing. */
  lemma {:induction false} StepsInjective(a: bv16, b: bv16, n: nat)
    requires Steps(a, n) == Steps(b, n)
    ensures a == b
    decreases n
  {
    hide Bit;
    if n > 0 {
      StepsInjective(Bit(a), Bit(b), n - 1);
      BitInjective(a, b);
    }
  }

  lemma {:induction false} StepsZero(n: nat)
    ensures Steps(0, n) == 0
  {
    if n > 0 { StepsZero(n - 1); }
  }

  /** The high byte of a table entry tells its index. */
  lemma UpperTells(u: bv16, v: bv16)
    requires u < 0x100 && v < 0x100 && Upper(Eight(u)) == Upper(Eight(v))
    ensures u == v
  {
    hide Eight, Unrolled, Upper;
    EightUnrolled(u);
    EightUnrolled(v);
    UnrolledTells(u, v);
  }

  lemma UnrolledTells(u: bv16, v: bv16)
    requires u < 0x100 && v < 0x100 && Upper(Unrolled(u)) == Upper(Unrolled(v))
    ensures u == v
  {
  }

  // ----- the two implementations compute the same function

  /** One round of the table-driven loop. */
  function Lookup(c: bv16, b: bv8): bv16 { Xor(Upper(c), Table(Lower(Mix(c, b)))) }

  lemma LookupRight(c: bv16, b: bv8)
    ensures Lookup(c, b) == ByteStep(c, b)
  {
    hide Mix, Xor, Upper, Lower, Table, Eight;
    MixParts(c, b);
    TableRight(Lower(Mix(c, b)));
    EightSplits(Mix(c, b));
  }

  lemma MixParts(c: bv16, b: bv8)
    ensures Upper(Mix(c, b)) == Upper(c) && Lower(Mix(c, b)) < 0x100
  {
  }

  lemma {:induction false} CrcSnoc(c: bv16, data: seq<bv8>, b: bv8)
    ensures Crc(c, data + [b]) == ByteStep(Crc(c, data), b)
    decreases |data|
  {
    hide ByteStep;
    if data == [] {
      assert [] + [b] == [b] && [b][1..] == [];
    } else {
      assert (data + [b])[1..] == data[1..] + [b];
      CrcSnoc(ByteStep(c, data[0]), data[1..], b);
    }
  }

  /** modbus_crc16 */
  method ModbusCrc16(data: seq<bv8>) returns (crc: bv16)
    ensures crc == Crc(START, data)
  {
    hide Lookup, ByteStep;
    crc := START;
    var i := 0;
    while i < |data|
      invariant i <= |data| && crc == Crc(START, data[..i])
    {
      LookupRight(crc, data[i]);
      CrcSnoc(START, data[..i], data[i]);
      assert data[..i + 1] == data[..i] + [data[i]];
      crc := Lookup(crc, data[i]);
      i := i + 1;
    }
    assert data[..i] == data;
  }

  /** calculateModbusCRC */
  method CalculateModbusCrc(data: seq<bv8>) returns (crc: bv16)
    ensures crc == Crc(START, data)
  {
    hide Bit, Mix;
    crc := START;
    var i := 0;
    while i < |data|
      invariant i <= |data| && crc == Crc(START, data[..i])
    {
      CrcSnoc(START, data[..i], data[i]);
      assert data[..i + 1] == data[..i] + [data[i]];
      crc := Mix(crc, data[i]);
      ghost var mixed := crc;
      var j := 0;
      while j < 8
        invariant j <= 8 && Steps(crc, 8 - j) == Eight(mixed)
      {
        crc := Bit(crc);
        j := j + 1;
      }
      i := i + 1;
    }
    assert data[..i] == data;
  }

  lemma Next(c: bv16, b: bv8, d: bv16)
    requires Lookup(c, b) == d
    ensures ByteStep(c, b) == d
  {
    LookupRight(c, b);
  }

  /** The check value of CRC-16/MODBUS: the digits 1 to 9 give 0x4B37. It fixes the start value and the polynomial. */
  lemma CheckValue()
    ensures Crc(0xFFFF, [0x31, 0x32, 0x33, 0x34, 0x35, 0x36, 0x37, 0x38, 0x39]) == 0x4B37 && START == 0xFFFF
  {
    CheckFirst();
    CheckMiddle();
    CheckLast();
    hide ByteStep;
    var s: seq<bv8> := [0x31, 0x32, 0x33, 0x34, 0x35, 0x36, 0x37, 0x38, 0x39];
    assert s[..1] == [] + [0x31] && s[..2] == s[..1] + [0x32] && s[..3] == s[..2] + [0x33] && s[..4] == s[..3] + [0x34];
    assert s[..5] == s[..4] + [0x35] && s[..6] == s[..5] + [0x36] && s[..7] == s[..6] + [0x37] && s[..8] == s[..7] + [0x38];
    assert s == s[..8] + [0x39];
    CrcSnoc(0xFFFF, [], 0x31);
    CrcSnoc(0xFFFF, s[..1], 0x32);
    CrcSnoc(0xFFFF, s[..2], 0x33);
    CrcSnoc(0xFFFF, s[..3], 0x34);
    CrcSnoc(0xFFFF, s[..4], 0x35);
    CrcSnoc(0xFFFF, s[..5], 0x36);
    CrcSnoc(0xFFFF, s[..6], 0x37);
    CrcSnoc(0xFFFF, s[..7], 0x38);
    CrcSnoc(0xFFFF, s[..8], 0x39);
  }

  lemma CheckFirst()
    ensures ByteStep(0xFFFF, 0x31) == 0x947E && ByteStep(0x947E, 0x32) == 0xF595 && ByteStep(0xF595, 0x33) == 0x7A75
  {
    hide ByteStep;
    Next(0xFFFF, 0x31, 0x947E);
    Next(0x947E, 0x32, 0xF595);
    Next(0xF595, 0x33, 0x7A75);
  }

  lemma CheckMiddle()
    ensures ByteStep(0x7A75, 0x34) == 0x30BA && ByteStep(0x30BA, 0x35) == 0xA471 && ByteStep(0xA471, 0x36) == 0x32E4
  {
    hide ByteStep;
    Next(0x7A75, 0x34, 0x30BA);
    Next(0x30BA, 0x35, 0xA471);
    Next(0xA471, 0x36, 0x32E4);
  }

  lemma CheckLast()
    ensures ByteStep(0x32E4, 0x37) == 0x9D73 && ByteStep(0x9D73, 0x38) == 0x37DD && ByteStep(0x37DD, 0x39) == 0x4B37
  {
    hide ByteStep;
    Next(0x32E4, 0x37, 0x9D73);
    Next(0x9D73, 0x38, 0x37DD);
    Next(0x37DD, 0x39, 0x4B37);
  }

  // ----- what the check detects

  function Low(c: bv16): bv8 { (c & 0xFF) as bv8 }

  function High(c: bv16): bv8 { (c >> 8) as bv8 }

  lemma MixInjective(a: bv16, b: bv16, d: bv8)
    requires Mix(a, d) == Mix(b, d)
    ensures a == b
  {
  }

  lemma {:induction false} CrcInjective(a: bv16, b: bv16, data: seq<bv8>)
    requires Crc(a, data) == Crc(b, data)
    ensures a == b
    decreases |data|
  {
    hide Mix, Steps;
    if data != [] {
      CrcInjective(ByteStep(a, data[0]), ByteStep(b, data[0]), data[1..]);
      StepsInjective(Mix(a, data[0]), Mix(b, data[0]), 8);
      MixInjective(a, b, data[0]);
    }
  }

  /** Two different pairs of bytes never take one register to the same register. */
  lemma PairDetected(c: bv16, a1: bv8, a2: bv8, b1: bv8, b2: bv8)
    requires ByteStep(ByteStep(c, a1), a2) == ByteStep(ByteStep(c, b1), b2)
    ensures a1 == b1 && a2 == b2
  {
    hide Mix, Xor, Upper, Lower, Steps;
    var u, v := Mix(c, a1), Mix(c, b1);
    var x, y := Eight(u), Eight(v);
    StepsInjective(Mix(x, a2), Mix(y, b2), 8);
    MixParts(x, a2);
    MixParts(y, b2);
    UpperOfByteStep(c, a1);
    UpperOfByteStep(c, b1);
    MixParts(c, a1);
    MixParts(c, b1);
    UpperTells(Lower(u), Lower(v));
    SameLower(c, a1, b1);
    MixSame(x, a2, b2);
  }

  lemma UpperOfByteStep(c: bv16, b: bv8)
    ensures Upper(ByteStep(c, b)) == Upper(Eight(Lower(Mix(c, b))))
  {
    hide Mix, Xor, Upper, Lower, Eight;
    EightSplits(Mix(c, b));
    UpperOfXor(Mix(c, b), Eight(Lower(Mix(c, b))));
  }

  lemma UpperOfXor(u: bv16, e: bv16)
    ensures Upper(Xor(Upper(u), e)) == Upper(e)
  {
  }

  lemma SameLower(c: bv16, a: bv8, b: bv8)
    requires Lower(Mix(c, a)) == Lower(Mix(c, b))
    ensures a == b
  {
  }

  lemma MixSame(x: bv16, a: bv8, b: bv8)
    requires Mix(x, a) == Mix(x, b)
    ensures a == b
  {
  }

  /** The CRC itself, low byte first, takes its register to 0. */
  lemma OwnBytes(c: bv16)
    ensures ByteStep(ByteStep(c, Low(c)), High(c)) == 0
  {
    hide Mix, Xor, Upper, Lower, Low, High, Steps;
    StepsZero(8);
    Cancels(c);
    EightSplits(Mix(c, Low(c)));
    MixParts(c, Low(c));
  }

  lemma Cancels(c: bv16)
    ensures Lower(Mix(c, Low(c))) == 0 && Mix(Upper(c), High(c)) == 0 && Xor(Upper(c), 0) == Upper(c)
  {
  }

  /** The last two bytes of a frame leave residue 0 exactly when they are the CRC, low byte first. */
  lemma ResidueZero(data: seq<bv8>, x: bv8, y: bv8)
    ensures Crc(START, data + [x, y]) == 0 <==> x == Low(Crc(START, data)) && y == High(Crc(START, data))
  {
    hide ByteStep, Low, High, Crc;
    var c := Crc(START, data);
    assert data + [x, y] == (data + [x]) + [y];
    CrcSnoc(START, data, x);
    CrcSnoc(START, data + [x], y);
    OwnBytes(c);
    if ByteStep(ByteStep(c, x), y) == 0 {
      PairDetected(c, x, y, Low(c), High(c));
    }
  }

  lemma CrcTwo(c: bv16, x: bv8, y: bv8, rest: seq<bv8>)
    ensures Crc(c, [x, y] + rest) == Crc(ByteStep(ByteStep(c, x), y), rest)
  {
    hide ByteStep;
    assert ([x, y] + rest)[1..] == [y] + rest && ([y] + rest)[1..] == rest;
  }

  /** Two messages of equal length that differ only within bytes i and i+1 have different CRCs. */
  lemma {:induction false} AdjacentErrorsDetected(c: bv16, m: seq<bv8>, n: seq<bv8>, i: nat)
    requires |m| == |n| && i < |m| && m != n
    requires forall k :: 0 <= k < |m| && k != i && k != i + 1 ==> m[k] == n[k]
    ensures Crc(c, m) != Crc(c, n)
    decreases |m|
  {
    hide ByteStep;
    if i > 0 {
      assert m[0] == n[0] && m == [m[0]] + m[1..] && n == [n[0]] + n[1..];
      AdjacentErrorsDetected(ByteStep(c, m[0]), m[1..], n[1..], i - 1);
    } else if |m| == 1 {
      assert m == [m[0]] && n == [n[0]] && m[1..] == n[1..] == [];
      if ByteStep(c, m[0]) == ByteStep(c, n[0]) { OneDetected(c, m[0], n[0]); }
    } else {
      var s := m[2..];
      assert n[2..] == s && m == [m[0], m[1]] + s && n == [n[0], n[1]] + s;
      PairFirst(c, m[0], m[1], n[0], n[1], s);
    }
  }

  lemma OneDetected(c: bv16, a: bv8, b: bv8)
    requires ByteStep(c, a) == ByteStep(c, b)
    ensures a == b
  {
    hide Mix, Steps;
    StepsInjective(Mix(c, a), Mix(c, b), 8);
    MixSame(c, a, b);
  }

  lemma PairFirst(c: bv16, a1: bv8, a2: bv8, b1: bv8, b2: bv8, s: seq<bv8>)
    requires a1 != b1 || a2 != b2
    ensures Crc(c, [a1, a2] + s) != Crc(c, [b1, b2] + s)
  {
    hide ByteStep, Crc;
    CrcTwo(c, a1, a2, s);
    CrcTwo(c, b1, b2, s);
    if Crc(c, [a1, a2] + s) == Crc(c, [b1, b2] + s) {
      CrcInjective(ByteStep(ByteStep(c, a1), a2), ByteStep(ByteStep(c, b1), b2), s);
      PairDetected(c, a1, a2, b1, b2);
    }
  }

  /** buildModbusRTUFrame: the frame a receiver checks to residue 0. */
  method BuildRtuFrame(address: bv8, functionCode: bv8, data: seq<bv8>) returns (frame: array<bv8>)
    ensures fresh(frame) && frame.Length == 4 + |data|
    ensures frame[..2 + |data|] == [address, functionCode] + data
    ensures Crc(START, frame[..]) == 0
  {
    frame := new bv8[4 + |data|](_ => 0);
    frame[0] := address;
    frame[1] := functionCode;
    forall k | 0 <= k < |data| { frame[2 + k] := data[k]; }
    ghost var body := [address, functionCode] + data;
    assert frame[..2 + |data|] == body;
    var crc := CalculateModbusCrc(frame[..2 + |data|]);
    frame[2 + |data|] := Low(crc);
    frame[3 + |data|] := High(crc);
    assert frame[..] == body + [Low(crc), High(crc)];
    ResidueZero(body, Low(crc), High(crc));
  }
}
