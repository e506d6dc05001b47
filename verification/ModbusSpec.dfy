/** Bits packed in bytes, and the plain register-and-coil map a Modbus server stands for. */
module ModbusSpec {
  import Arith
  import opened Common

  type Word = w: int | 0 <= w < 65536

  function WordOf(hi: Byte, lo: Byte): Word { 256 * hi + lo }

  function Hi(w: Word): Byte { w / 256 }

  function Lo(w: Word): Byte { w % 256 }

  // ----- bits of a byte

  function Pow2(k: nat): (p: nat)
    ensures p >= 1
  {
    if k == 0 then 1 else 2 * Pow2(k - 1)
  }

  /** b & (1 << k) is not zero */
  predicate Bit(b: nat, k: nat)
    decreases k
  {
    if k == 0 then b % 2 == 1 else Bit(b / 2, k - 1)
  }

  /** b | (1 << k) */
  function SetBit(b: nat, k: nat): nat { if Bit(b, k) then b else b + Pow2(k) }

  /** b & ~(1 << k) */
  function ClearBit(b: nat, k: nat): nat {
    if Bit(b, k) then BitAtLeast(b, k); b - Pow2(k) else b
  }

  lemma {:induction false} BitAtLeast(b: nat, k: nat)
    requires Bit(b, k)
    ensures b >= Pow2(k)
    decreases k
  {
    if k > 0 { BitAtLeast(b / 2, k - 1); }
  }

  lemma {:induction false} AddBit(b: nat, k: nat, j: nat)
    requires !Bit(b, k)
    ensures Bit(b + Pow2(k), j) == (j == k || Bit(b, j))
    decreases k
  {
    if k > 0 {
      assert (b + Pow2(k)) / 2 == b / 2 + Pow2(k - 1);
      if j > 0 { AddBit(b / 2, k - 1, j - 1); }
    }
  }

  lemma {:induction false} DropBit(b: nat, k: nat, j: nat)
    requires Bit(b, k)
    ensures b >= Pow2(k) && Bit(b - Pow2(k), j) == (j != k && Bit(b, j))
    decreases k
  {
    BitAtLeast(b, k);
    if k > 0 {
      BitAtLeast(b / 2, k - 1);
      assert (b - Pow2(k)) / 2 == b / 2 - Pow2(k - 1);
      if j > 0 { DropBit(b / 2, k - 1, j - 1); }
    }
  }

  /** Setting or clearing one bit changes no other. */
  lemma OneBitChanges(b: nat, k: nat, j: nat)
    ensures Bit(SetBit(b, k), j) == (j == k || Bit(b, j))
    ensures Bit(ClearBit(b, k), j) == (j != k && Bit(b, j))
  {
    if Bit(b, k) { DropBit(b, k, j); } else { AddBit(b, k, j); }
  }

  lemma {:induction false} SetBound(b: nat, k: nat, n: nat)
    requires b < Pow2(n) && k < n && !Bit(b, k)
    ensures b + Pow2(k) < Pow2(n)
    decreases k
  {
    if k == 0 {
      EvenBelow(b, Pow2(n - 1));
    } else {
      var q := Pow2(n - 1);
      assert b / 2 < q;
      SetBound(b / 2, k - 1, n - 1);
      Doubled(b, Pow2(k - 1), q);
    }
  }

  lemma EvenBelow(b: nat, q: nat)
    requires b % 2 == 0 && b < 2 * q
    ensures b + 1 < 2 * q
  {
  }

  lemma Doubled(b: nat, p: nat, q: nat)
    requires b / 2 + p < q
    ensures b + 2 * p < 2 * q
  {
  }

  lemma Pow2Eight()
    ensures Pow2(8) == 256
  {
    assert Pow2(4) == 16 by { assert Pow2(2) == 4; }
    assert Pow2(6) == 64 && Pow2(8) == 4 * Pow2(6);
  }

  function SetInByte(b: Byte, k: nat): Byte
    requires k < 8
  {
    Pow2Eight();
    if Bit(b, k) then b else SetBound(b, k, 8); SetBit(b, k)
  }

  function ClearInByte(b: Byte, k: nat): Byte { ClearBit(b, k) }

  // ----- packing

  /** The byte whose bit k is bits[k], low bit first; bits beyond are 0. */
  function ByteOf(bits: seq<bool>): nat {
    if bits == [] then 0 else (if bits[0] then 1 else 0) + 2 * ByteOf(bits[1..])
  }

  lemma {:induction false} ByteBound(bits: seq<bool>)
    ensures ByteOf(bits) < Pow2(|bits|)
  {
    if bits != [] { ByteBound(bits[1..]); }
  }

  lemma {:induction false} ByteBit(bits: seq<bool>, k: nat)
    ensures Bit(ByteOf(bits), k) == (k < |bits| && bits[k])
  {
    if bits == [] {
      ZeroBit(k);
    } else {
      ByteHalves(bits);
      if k > 0 { ByteBit(bits[1..], k - 1); }
    }
  }

  lemma ByteHalves(bits: seq<bool>)
    requires bits != []
    ensures ByteOf(bits) / 2 == ByteOf(bits[1..]) && (ByteOf(bits) % 2 == 1) == bits[0]
  {
  }

  lemma {:induction false} ZeroBit(k: nat)
    ensures !Bit(0, k)
  {
    if k > 0 { ZeroBit(k - 1); }
  }

  lemma {:induction false} ByteSnoc(bits: seq<bool>, x: bool)
    ensures ByteOf(bits + [x]) == if x then SetBit(ByteOf(bits), |bits|) else ByteOf(bits)
  {
    ByteBit(bits, |bits|);
    if bits == [] {
      assert [] + [x] == [x] && [x][1..] == [];
    } else {
      ByteBit(bits[1..], |bits| - 1);
      assert (bits + [x])[1..] == bits[1..] + [x];
      ByteSnoc(bits[1..], x);
    }
  }

  function Min(a: int, b: int): int { if a < b then a else b }

  function PackedByte(bits: seq<bool>, i: nat): Byte
    requires 8 * i < |bits|
  {
    var part := bits[8 * i..Min(8 * i + 8, |bits|)];
    PartBound(part);
    ByteOf(part)
  }

  lemma PartBound(part: seq<bool>)
    requires |part| <= 8
    ensures ByteOf(part) < 256
  {
    ByteBound(part);
    Pow2Eight();
    Pow2Grows(|part|, 8);
  }

  lemma {:induction false} Pow2Grows(m: nat, n: nat)
    requires m <= n
    ensures Pow2(m) <= Pow2(n)
    decreases n - m
  {
    if m < n { Pow2Grows(m + 1, n); }
  }

  /** Eight bits a byte, low bit first, the last byte padded with zeros. */
  function Pack(bits: seq<bool>): seq<Byte> {
    seq((|bits| + 7) / 8, i requires 0 <= i < (|bits| + 7) / 8 => PackedByte(bits, i))
  }

  /** The first n bits held in data. */
  function BitsOf(data: seq<Byte>, n: nat): (r: seq<bool>)
    requires n <= 8 * |data|
    ensures |r| == n
  {
    seq(n, i requires 0 <= i < n => Bit(data[i / 8], i % 8))
  }

  /** Bit k of packed byte i is item 8i + k, and every padding bit is 0. */
  lemma PackedBit(bits: seq<bool>, i: nat, k: nat)
    requires 8 * i < |bits| && k < 8
    ensures |Pack(bits)| > i
    ensures Bit(Pack(bits)[i], k) == (8 * i + k < |bits| && bits[8 * i + k])
  {
    ByteBit(bits[8 * i..Min(8 * i + 8, |bits|)], k);
  }

  lemma PackRoundTrip(bits: seq<bool>)
    ensures |bits| <= 8 * |Pack(bits)| && BitsOf(Pack(bits), |bits|) == bits
  {
    forall i | 0 <= i < |bits|
      ensures Bit(Pack(bits)[i / 8], i % 8) == bits[i]
    {
      PackedBit(bits, i / 8, i % 8);
    }
  }

  /** Registers travel high byte first. */
  function Pairs(words: seq<Word>): (r: seq<Byte>)
    ensures |r| == 2 * |words|
  {
    if words == [] then [] else [Hi(words[0]), Lo(words[0])] + Pairs(words[1..])
  }

  lemma {:induction false} PairsSnoc(words: seq<Word>, w: Word)
    ensures Pairs(words + [w]) == Pairs(words) + [Hi(w), Lo(w)]
  {
    if words == [] {
      assert [] + [w] == [w] && [w][1..] == [];
    } else {
      assert (words + [w])[1..] == words[1..] + [w];
      PairsSnoc(words[1..], w);
    }
  }

  /** Register i held in data. */
  function WordAt(data: seq<Byte>, i: nat): Word
    requires 2 * i + 1 < |data|
  {
    WordOf(data[2 * i], data[2 * i + 1])
  }

  /** The first n registers held in data. */
  function WordsOf(data: seq<Byte>, n: nat): (r: seq<Word>)
    requires 2 * n <= |data|
    ensures |r| == n
  {
    seq(n, i requires 0 <= i < n => WordAt(data, i))
  }

  lemma {:induction false} PairsAt(words: seq<Word>, i: nat)
    requires i < |words|
    ensures Pairs(words)[2 * i] == Hi(words[i]) && Pairs(words)[2 * i + 1] == Lo(words[i])
  {
    if i > 0 { PairsAt(words[1..], i - 1); }
  }

  lemma PairWord(words: seq<Word>, i: nat)
    requires i < |words|
    ensures WordAt(Pairs(words), i) == words[i]
  {
    PairsAt(words, i);
    var w := words[i];
    assert w == 256 * (w / 256) + w % 256;
  }

  lemma PairsRoundTrip(words: seq<Word>)
    ensures WordsOf(Pairs(words), |words|) == words
  {
    hide WordAt, Pairs;
    forall i | 0 <= i < |words|
      ensures WordAt(Pairs(words), i) == words[i]
    {
      PairWord(words, i);
    }
  }

  // ----- the plain map

  /** What a client of the server sees: four tables. */
  datatype Bank = Bank(coils: seq<bool>, discrete: seq<bool>, holding: seq<Word>, inputs: seq<Word>)

  const READ_COILS: Byte := 1
  const READ_DISCRETE: Byte := 2
  const READ_HOLDING: Byte := 3
  const READ_INPUTS: Byte := 4
  const WRITE_COIL: Byte := 5
  const WRITE_REGISTER: Byte := 6
  const WRITE_COILS: Byte := 15
  const WRITE_REGISTERS: Byte := 16

  function Addr(pdu: seq<Byte>): Word
    requires |pdu| >= 5
  {
    WordOf(pdu[1], pdu[2])
  }

  /** The quantity, or the value of a single write. */
  function Quantity(pdu: seq<Byte>): Word
    requires |pdu| >= 5
  {
    WordOf(pdu[3], pdu[4])
  }

  predicate Known(fc: Byte) { 1 <= fc <= 6 || fc == WRITE_COILS || fc == WRITE_REGISTERS }

  /** What the server takes for granted of a request: its bytes are there, its quantity within the standard. */
  predicate WellFormed(pdu: seq<Byte>) {
    && |pdu| >= 1
    && (Known(pdu[0]) ==> |pdu| >= 5)
    && (pdu[0] in {READ_COILS, READ_DISCRETE} ==> Quantity(pdu) <= 2000)
    && (pdu[0] in {READ_HOLDING, READ_INPUTS} ==> Quantity(pdu) <= 125)
    && (pdu[0] == WRITE_COILS ==> Quantity(pdu) <= 1968 && |pdu| >= 6 + (Quantity(pdu) + 7) / 8)
    && (pdu[0] == WRITE_REGISTERS ==> Quantity(pdu) <= 123 && |pdu| >= 6 + 2 * Quantity(pdu))
  }

  datatype Outcome = Outcome(bank: Bank, reply: seq<Byte>)

  /** fc | 0x80 */
  function Flagged(fc: Byte): Byte { if fc < 128 then fc + 128 else fc }

  function Refuse(m: Bank, fc: Byte, code: Byte): Outcome { Outcome(m, [Flagged(fc), code]) }

  function BitsReply(fc: Byte, bits: seq<bool>): seq<Byte>
    requires |bits| <= 2000
  {
    [fc, (|bits| + 7) / 8] + Pack(bits)
  }

  function WordsReply(fc: Byte, words: seq<Word>): seq<Byte>
    requires |words| <= 125
  {
    [fc, 2 * |words|] + Pairs(words)
  }

  /** s with vals written from position a on. */
  function WriteAt<T>(s: seq<T>, a: nat, vals: seq<T>): (r: seq<T>)
    requires a + |vals| <= |s|
    ensures |r| == |s|
    ensures r[a..a + |vals|] == vals
    ensures forall i :: 0 <= i < |s| && !(a <= i < a + |vals|) ==> r[i] == s[i]
  {
    s[..a] + vals + s[a + |vals|..]
  }

  function ServeBits(m: Bank, pdu: seq<Byte>, table: seq<bool>): Outcome
    requires |pdu| >= 5 && Quantity(pdu) <= 2000
  {
    var a, n := Addr(pdu), Quantity(pdu);
    if a + n > |table| then Refuse(m, pdu[0], 2) else Outcome(m, BitsReply(pdu[0], table[a..a + n]))
  }

  function ServeWords(m: Bank, pdu: seq<Byte>, table: seq<Word>): Outcome
    requires |pdu| >= 5 && Quantity(pdu) <= 125
  {
    var a, n := Addr(pdu), Quantity(pdu);
    if a + n > |table| then Refuse(m, pdu[0], 2) else Outcome(m, WordsReply(pdu[0], table[a..a + n]))
  }

  function ServeWriteCoil(m: Bank, pdu: seq<Byte>): Outcome
    requires |pdu| >= 5
  {
    var a, v := Addr(pdu), Quantity(pdu);
    if a >= |m.coils| then Refuse(m, pdu[0], 2)
    else if v == 0xFF00 || v == 0 then Outcome(m.(coils := m.coils[a := v == 0xFF00]), pdu[..5])
    else Refuse(m, pdu[0], 3)
  }

  function ServeWriteRegister(m: Bank, pdu: seq<Byte>): Outcome
    requires |pdu| >= 5
  {
    var a := Addr(pdu);
    if a >= |m.holding| then Refuse(m, pdu[0], 2)
    else Outcome(m.(holding := m.holding[a := Quantity(pdu)]), pdu[..5])
  }

  function ServeWriteCoils(m: Bank, pdu: seq<Byte>): Outcome
    requires |pdu| >= 5 && |pdu| >= 6 + (Quantity(pdu) + 7) / 8
  {
    var a, n := Addr(pdu), Quantity(pdu);
    if a + n > |m.coils| then Refuse(m, pdu[0], 2)
    else Outcome(m.(coils := WriteAt(m.coils, a, BitsOf(pdu[6..], n))), pdu[..5])
  }

  function ServeWriteRegisters(m: Bank, pdu: seq<Byte>): Outcome
    requires |pdu| >= 5 && |pdu| >= 6 + 2 * Quantity(pdu)
  {
    var a, n := Addr(pdu), Quantity(pdu);
    if a + n > |m.holding| then Refuse(m, pdu[0], 2)
    else Outcome(m.(holding := WriteAt(m.holding, a, WordsOf(pdu[6..], n))), pdu[..5])
  }

  /** One request against the plain map. */
  function Serve(m: Bank, pdu: seq<Byte>): Outcome
    requires WellFormed(pdu)
  {
    var fc := pdu[0];
    if fc == READ_COILS then ServeBits(m, pdu, m.coils)
    else if fc == READ_DISCRETE then ServeBits(m, pdu, m.discrete)
    else if fc == READ_HOLDING then ServeWords(m, pdu, m.holding)
    else if fc == READ_INPUTS then ServeWords(m, pdu, m.inputs)
    else if fc == WRITE_COIL then ServeWriteCoil(m, pdu)
    else if fc == WRITE_REGISTER then ServeWriteRegister(m, pdu)
    else if fc == WRITE_COILS then ServeWriteCoils(m, pdu)
    else if fc == WRITE_REGISTERS then ServeWriteRegisters(m, pdu)
    else Refuse(m, fc, 1)
  }

  // ----- what the service promises

  function TableSize(m: Bank, fc: Byte): nat {
    if fc == READ_DISCRETE then |m.discrete|
    else if fc == READ_INPUTS then |m.inputs|
    else if fc in {READ_COILS, WRITE_COIL, WRITE_COILS} then |m.coils|
    else |m.holding|
  }

  /** How many items a request touches. */
  function Span(pdu: seq<Byte>): nat
    requires |pdu| >= 5
  {
    if pdu[0] == WRITE_COIL || pdu[0] == WRITE_REGISTER then 1 else Quantity(pdu)
  }

  /** The exception code a request deserves, 0 if none: sections 6 and 7 of the MODBUS Application Protocol. */
  function ExceptionCode(m: Bank, pdu: seq<Byte>): Byte
    requires WellFormed(pdu)
  {
    if !Known(pdu[0]) then 1
    else if Addr(pdu) + Span(pdu) > TableSize(m, pdu[0]) then 2
    else if pdu[0] == WRITE_COIL && Quantity(pdu) !in {0, 0xFF00} then 3
    else 0
  }

  /** A reply is an exception exactly when the request deserves one, says which, and changes nothing. */
  lemma ExceptionExactly(m: Bank, pdu: seq<Byte>)
    requires WellFormed(pdu)
    ensures var o, code := Serve(m, pdu), ExceptionCode(m, pdu);
            if code != 0 then o.bank == m && o.reply == [Flagged(pdu[0]), code]
            else |o.reply| >= 2 && o.reply[0] == pdu[0] < 128
  {
  }

  predicate CoilAddressed(pdu: seq<Byte>, i: int) {
    |pdu| >= 5 && pdu[0] in {WRITE_COIL, WRITE_COILS} && Addr(pdu) <= i < Addr(pdu) + Span(pdu)
  }

  predicate RegisterAddressed(pdu: seq<Byte>, i: int) {
    |pdu| >= 5 && pdu[0] in {WRITE_REGISTER, WRITE_REGISTERS} && Addr(pdu) <= i < Addr(pdu) + Span(pdu)
  }

  /** No request changes anything it does not address; inputs never change. */
  lemma OnlyAddressedChanges(m: Bank, pdu: seq<Byte>)
    requires WellFormed(pdu)
    ensures var after := Serve(m, pdu).bank;
            && |after.coils| == |m.coils| && |after.holding| == |m.holding|
            && after.discrete == m.discrete && after.inputs == m.inputs
            && (forall i :: 0 <= i < |m.coils| && !CoilAddressed(pdu, i) ==> after.coils[i] == m.coils[i])
            && (forall i :: 0 <= i < |m.holding| && !RegisterAddressed(pdu, i) ==> after.holding[i] == m.holding[i])
  {
  }

  function Header(fc: Byte, a: Word, n: Word): seq<Byte> { [fc, Hi(a), Lo(a), Hi(n), Lo(n)] }

  lemma HeaderParts(fc: Byte, a: Word, n: Word, rest: seq<Byte>)
    ensures Addr(Header(fc, a, n) + rest) == a && Quantity(Header(fc, a, n) + rest) == n
  {
  }

  /** The write request for coils bits from address a on. */
  function WriteCoilsRequest(a: Word, bits: seq<bool>): seq<Byte>
    requires |bits| <= 1968
  {
    Header(WRITE_COILS, a, |bits|) + [(|bits| + 7) / 8] + Pack(bits)
  }

  function WriteRegistersRequest(a: Word, words: seq<Word>): seq<Byte>
    requires |words| <= 123
  {
    Header(WRITE_REGISTERS, a, |words|) + [2 * |words|] + Pairs(words)
  }

  lemma RequestParts(fc: Byte, a: Word, n: Word, count: Byte, body: seq<Byte>)
    ensures var w := Header(fc, a, n) + [count] + body;
            |w| == 6 + |body| && w[0] == fc && Addr(w) == a && Quantity(w) == n && w[6..] == body
  {
    assert Header(fc, a, n) + [count] + body == Header(fc, a, n) + ([count] + body);
    HeaderParts(fc, a, n, [count] + body);
  }

  lemma PackLength(bits: seq<bool>)
    ensures |Pack(bits)| == (|bits| + 7) / 8
  {
  }

  lemma WriteCoilsServed(m: Bank, a: Word, bits: seq<bool>)
    requires |bits| <= 1968 && a + |bits| <= |m.coils|
    ensures var w := WriteCoilsRequest(a, bits);
            && WellFormed(w) && Serve(m, w) == Outcome(m.(coils := WriteAt(m.coils, a, bits)), w[..5])
  {
    hide Header, Pack, WordOf, BitsOf;
    RequestParts(WRITE_COILS, a, |bits|, (|bits| + 7) / 8, Pack(bits));
    PackLength(bits);
    PackRoundTrip(bits);
  }

  /** Coils written in one request and read in another come back packed, at any address, padding bits zero. */
  lemma CoilsReadBack(m: Bank, a: Word, bits: seq<bool>)
    requires |bits| <= 1968 && a + |bits| <= |m.coils|
    ensures WellFormed(WriteCoilsRequest(a, bits)) && WellFormed(Header(READ_COILS, a, |bits|))
    ensures Serve(Serve(m, WriteCoilsRequest(a, bits)).bank, Header(READ_COILS, a, |bits|)).reply
            == BitsReply(READ_COILS, bits)
    ensures forall i, k :: 0 <= i < |Pack(bits)| && 0 <= k < 8 ==>
              Bit(Pack(bits)[i], k) == (8 * i + k < |bits| && bits[8 * i + k])
  {
    WriteCoilsServed(m, a, bits);
    ReadParts(READ_COILS, a, |bits|);
    forall i, k | 0 <= i < |Pack(bits)| && 0 <= k < 8
      ensures Bit(Pack(bits)[i], k) == (8 * i + k < |bits| && bits[8 * i + k])
    {
      PackedBit(bits, i, k);
    }
  }

  lemma ReadParts(fc: Byte, a: Word, n: Word)
    ensures Addr(Header(fc, a, n)) == a && Quantity(Header(fc, a, n)) == n
  {
    assert Header(fc, a, n) + [] == Header(fc, a, n);
    HeaderParts(fc, a, n, []);
  }

  lemma WriteRegistersServed(m: Bank, a: Word, words: seq<Word>)
    requires |words| <= 123 && a + |words| <= |m.holding|
    ensures var w := WriteRegistersRequest(a, words);
            && WellFormed(w) && Serve(m, w) == Outcome(m.(holding := WriteAt(m.holding, a, words)), w[..5])
  {
    hide Header, Pairs, WordOf, WordsOf;
    RequestParts(WRITE_REGISTERS, a, |words|, 2 * |words|, Pairs(words));
    PairsRoundTrip(words);
  }

  /** Registers written in one request and read in another come back unchanged. */
  lemma RegistersReadBack(m: Bank, a: Word, words: seq<Word>)
    requires |words| <= 123 && a + |words| <= |m.holding|
    ensures WellFormed(WriteRegistersRequest(a, words)) && WellFormed(Header(READ_HOLDING, a, |words|))
    ensures var r := Serve(Serve(m, WriteRegistersRequest(a, words)).bank, Header(READ_HOLDING, a, |words|)).reply;
            |r| == 2 + 2 * |words| && r[0] == READ_HOLDING && WordsOf(r[2..], |words|) == words
  {
    WriteRegistersServed(m, a, words);
    ReadParts(READ_HOLDING, a, |words|);
    PairsRoundTrip(words);
    assert WordsReply(READ_HOLDING, words)[2..] == Pairs(words);
  }

  // ----- runs of requests

  function After(m: Bank, run: seq<seq<Byte>>): Bank
    requires forall r :: r in run ==> WellFormed(r)
    decreases |run|
  {
    if run == [] then m else After(Serve(m, run[0]).bank, run[1..])
  }

  /** The coils of [a, a + n) are the same. */
  predicate CoilsKept(m: Bank, after: Bank, a: nat, n: nat) {
    && |after.coils| == |m.coils|
    && (forall i :: a <= i < a + n && i < |m.coils| ==> after.coils[i] == m.coils[i])
  }

  predicate Spares(run: seq<seq<Byte>>, a: nat, n: nat) {
    forall r, i :: r in run && a <= i < a + n ==> !CoilAddressed(r, i)
  }

  lemma {:induction false} SparedCoilsKeep(m: Bank, run: seq<seq<Byte>>, a: nat, n: nat)
    requires (forall r :: r in run ==> WellFormed(r)) && Spares(run, a, n)
    ensures CoilsKept(m, After(m, run), a, n)
    decreases |run|
  {
    hide Serve, CoilAddressed;
    if run != [] {
      OnlyAddressedChanges(m, run[0]);
      SparedCoilsKeep(Serve(m, run[0]).bank, run[1..], a, n);
    }
  }

  /** Coils written stay readable as written through any run of requests that writes none of them. */
  lemma CoilsReadBackLater(m: Bank, a: Word, bits: seq<bool>, run: seq<seq<Byte>>)
    requires |bits| <= 1968 && a + |bits| <= |m.coils|
    requires (forall r :: r in run ==> WellFormed(r)) && Spares(run, a, |bits|)
    ensures WellFormed(WriteCoilsRequest(a, bits)) && WellFormed(Header(READ_COILS, a, |bits|))
    ensures Serve(After(Serve(m, WriteCoilsRequest(a, bits)).bank, run), Header(READ_COILS, a, |bits|)).reply
            == BitsReply(READ_COILS, bits)
  {
    hide CoilAddressed, Pack, WordOf;
    WriteCoilsServed(m, a, bits);
    var m1 := Serve(m, WriteCoilsRequest(a, bits)).bank;
    SparedCoilsKeep(m1, run, a, |bits|);
    ReadParts(READ_COILS, a, |bits|);
    var m2 := After(m1, run);
    assert m2.coils[a..a + |bits|] == m1.coils[a..a + |bits|];
  }

  /** The registers of [a, a + n) are the same. */
  predicate RegistersKept(m: Bank, after: Bank, a: nat, n: nat) {
    && |after.holding| == |m.holding|
    && (forall i :: a <= i < a + n && i < |m.holding| ==> after.holding[i] == m.holding[i])
  }

  predicate SparesRegisters(run: seq<seq<Byte>>, a: nat, n: nat) {
    forall r, i :: r in run && a <= i < a + n ==> !RegisterAddressed(r, i)
  }

  lemma {:induction false} SparedRegistersKeep(m: Bank, run: seq<seq<Byte>>, a: nat, n: nat)
    requires (forall r :: r in run ==> WellFormed(r)) && SparesRegisters(run, a, n)
    ensures RegistersKept(m, After(m, run), a, n)
    decreases |run|
  {
    hide Serve, RegisterAddressed;
    if run != [] {
      OnlyAddressedChanges(m, run[0]);
      SparedRegistersKeep(Serve(m, run[0]).bank, run[1..], a, n);
    }
  }

  /** Registers written stay readable as written through any run of requests that writes none of them. */
  lemma RegistersReadBackLater(m: Bank, a: Word, words: seq<Word>, run: seq<seq<Byte>>)
    requires |words| <= 123 && a + |words| <= |m.holding|
    requires (forall r :: r in run ==> WellFormed(r)) && SparesRegisters(run, a, |words|)
    ensures WellFormed(WriteRegistersRequest(a, words)) && WellFormed(Header(READ_HOLDING, a, |words|))
    ensures Serve(After(Serve(m, WriteRegistersRequest(a, words)).bank, run), Header(READ_HOLDING, a, |words|)).reply
            == WordsReply(READ_HOLDING, words)
  {
    hide RegisterAddressed, Pairs, WordOf;
    WriteRegistersServed(m, a, words);
    var m1 := Serve(m, WriteRegistersRequest(a, words)).bank;
    SparedRegistersKeep(m1, run, a, |words|);
    ReadParts(READ_HOLDING, a, |words|);
    var m2 := After(m1, run);
    assert m2.holding[a..a + |words|] == m1.holding[a..a + |words|];
  }

  // ----- the single writes and the other tables, byte by byte

  /** The request to switch coil a on or off, and the one to set register a to v (sections 6.5 and 6.6). */
  function WriteCoilRequest(a: Word, on: bool): seq<Byte> { [5, a / 256, a % 256, if on then 0xFF else 0, 0] }

  function WriteRegisterRequest(a: Word, v: Word): seq<Byte> { [6, a / 256, a % 256, v / 256, v % 256] }

  lemma FiveBytes(fc: Byte, a: Word, v: Word)
    ensures var w := [fc, a / 256, a % 256, v / 256, v % 256];
            Addr(w) == a && Quantity(w) == v && w[..5] == w && w == Header(fc, a, v)
  {
  }

  /** A single coil write stores what the multiple write of that one coil stores, and echoes the request. */
  lemma SingleCoil(m: Bank, a: Word, on: bool)
    requires a < |m.coils|
    ensures var w := WriteCoilRequest(a, on);
            && WellFormed(w) && WellFormed(WriteCoilsRequest(a, [on]))
            && Serve(m, w).reply == w && Serve(m, w).bank == Serve(m, WriteCoilsRequest(a, [on])).bank
  {
    hide WordOf, Pack, WriteCoilsRequest;
    FiveBytes(5, a, if on then 0xFF00 else 0);
    WriteCoilsServed(m, a, [on]);
    OneWritten(m.coils, a, on);
  }

  lemma OneWritten<T>(s: seq<T>, a: nat, x: T)
    requires a < |s|
    ensures WriteAt(s, a, [x]) == s[a := x]
  {
  }

  lemma SingleRegister(m: Bank, a: Word, v: Word)
    requires a < |m.holding|
    ensures var w := WriteRegisterRequest(a, v);
            && WellFormed(w) && WellFormed(WriteRegistersRequest(a, [v]))
            && Serve(m, w).reply == w && Serve(m, w).bank == Serve(m, WriteRegistersRequest(a, [v])).bank
  {
    hide WordOf, Pairs, WriteRegistersRequest;
    FiveBytes(6, a, v);
    WriteRegistersServed(m, a, [v]);
    OneWritten(m.holding, a, v);
  }

  /** A write that is carried out is answered by its own first five bytes. */
  lemma WritesEcho(m: Bank, pdu: seq<Byte>)
    requires WellFormed(pdu) && ExceptionCode(m, pdu) == 0 && pdu[0] in {5, 6, 15, 16}
    ensures Serve(m, pdu).reply == pdu[..5]
  {
  }

  /** The multiple writes, byte by byte (sections 6.11 and 6.12). */
  lemma MultipleWriteBytes(a: Word, bits: seq<bool>, words: seq<Word>)
    requires |bits| <= 1968 && |words| <= 123
    ensures WriteCoilsRequest(a, bits)
            == [15, a / 256, a % 256, |bits| / 256, |bits| % 256, (|bits| + 7) / 8] + Pack(bits)
    ensures WriteRegistersRequest(a, words)
            == [16, a / 256, a % 256, |words| / 256, |words| % 256, 2 * |words|] + Pairs(words)
  {
    SixBytes(15, a, |bits|, (|bits| + 7) / 8);
    SixBytes(16, a, |words|, 2 * |words|);
    hide Pack, Pairs, Header;
  }

  lemma SixBytes(fc: Byte, a: Word, n: Word, count: Byte)
    ensures Header(fc, a, n) + [count] == [fc, a / 256, a % 256, n / 256, n % 256, count]
  {
  }

  lemma OneBit(on: bool)
    ensures Pack([on]) == [if on then 1 else 0] && BitsReply(1, [on]) == [1, 1, if on then 1 else 0]
  {
    assert [on][0..1] == [on] && [on][1..] == [];
    assert ByteOf([on]) == if on then 1 else 0;
  }

  /** A coil written singly reads back as written, on the wire, through any run of requests that spares it. */
  lemma SingleCoilReadBack(m: Bank, a: Word, on: bool, run: seq<seq<Byte>>)
    requires a < |m.coils| && (forall r :: r in run ==> WellFormed(r)) && Spares(run, a, 1)
    ensures var w, read := WriteCoilRequest(a, on), [1, a / 256, a % 256, 0, 1];
            && WellFormed(w) && WellFormed(read)
            && Serve(After(Serve(m, w).bank, run), read).reply == [1, 1, if on then 1 else 0]
  {
    hide Serve, After, WellFormed, CoilAddressed, Header, WriteCoilsRequest, BitsReply, Addr, Quantity;
    SingleCoil(m, a, on);
    CoilsReadBackLater(m, a, [on], run);
    FiveBytes(1, a, 1);
    OneBit(on);
  }

  /** So does a register. */
  lemma SingleRegisterReadBack(m: Bank, a: Word, v: Word, run: seq<seq<Byte>>)
    requires a < |m.holding| && (forall r :: r in run ==> WellFormed(r)) && SparesRegisters(run, a, 1)
    ensures var w, read := WriteRegisterRequest(a, v), [3, a / 256, a % 256, 0, 1];
            && WellFormed(w) && WellFormed(read)
            && Serve(After(Serve(m, w).bank, run), read).reply == [3, 2, v / 256, v % 256]
  {
    hide Serve, After, WellFormed, RegisterAddressed, Header, WriteRegistersRequest, WordsReply, Addr, Quantity;
    SingleRegister(m, a, v);
    RegistersReadBackLater(m, a, [v], run);
    FiveBytes(3, a, 1);
    OneWord(v);
  }

  lemma OneWord(v: Word)
    ensures WordsReply(3, [v]) == [3, 2, v / 256, v % 256]
  {
    assert Pairs([v]) == [Hi(v), Lo(v)] + Pairs([v][1..]) && [v][1..] == [];
  }

  /** The table a read request is about. */
  function BitTable(m: Bank, fc: Byte): seq<bool> { if fc == 1 then m.coils else m.discrete }
  function WordTable(m: Bank, fc: Byte): seq<Word> { if fc == 3 then m.holding else m.inputs }

  /** Functions 1 and 2: the reply is the function, the number of bytes that follow, and exactly the addressed coils or
      discrete inputs, packed; functions 3 and 4 the same with registers. */
  lemma ReadsExactly(m: Bank, fc: Byte, a: Word, n: Word)
    requires 1 <= fc <= 4 && n <= (if fc <= 2 then 2000 else 125)
    requires a + n <= if fc <= 2 then |BitTable(m, fc)| else |WordTable(m, fc)|
    ensures var read := [fc, a / 256, a % 256, n / 256, n % 256];
            && WellFormed(read) && var r := Serve(m, read).reply;
            && |r| >= 2 && r[0] == fc && r[1] == |r| - 2 && Serve(m, read).bank == m
            && if fc <= 2 then |r| == 2 + (n + 7) / 8 && BitsOf(r[2..], n) == BitTable(m, fc)[a..a + n]
               else |r| == 2 + 2 * n && WordsOf(r[2..], n) == WordTable(m, fc)[a..a + n]
  {
    hide WordOf, Pack, Pairs, Bit;
    FiveBytes(fc, a, n);
    if fc <= 2 {
      var bits := BitTable(m, fc)[a..a + n];
      PackLength(bits);
      PackRoundTrip(bits);
      assert BitsReply(fc, bits)[2..] == Pack(bits);
    } else {
      var words := WordTable(m, fc)[a..a + n];
      PairsRoundTrip(words);
      assert WordsReply(fc, words)[2..] == Pairs(words);
    }
  }

  /** Bit k of a byte is the one worth 2^k, and an exception reply carries the function with its top bit set. */
  lemma {:induction false} BitIs(b: nat, k: nat)
    ensures Bit(b, k) <==> b / Pow2(k) % 2 == 1
    decreases k
  {
    if k > 0 {
      BitIs(b / 2, k - 1);
      Halved(b, Pow2(k - 1));
    }
  }

  lemma Halved(b: nat, p: nat)
    requires p >= 1
    ensures b / (2 * p) == b / 2 / p
  {
    var q, r := b / (2 * p), b % (2 * p);
    assert b == 2 * p * q + r && 2 * p * q == 2 * (p * q);
    assert b / 2 == p * q + r / 2;
    Quotient(b / 2, p, q, r / 2);
  }

  lemma Quotient(x: int, m: int, q: int, r: int)
    requires m > 0 && x == m * q + r && 0 <= r < m
    ensures x / m == q
  {
    Arith.ModIs(x, m, q, r);
  }

  lemma FlaggedIs(fc: Byte)
    ensures Flagged(fc) % 128 == fc % 128 && Flagged(fc) >= 128
  {
  }
}
