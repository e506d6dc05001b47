/** The Modbus server over its packed tables, and the client functions that talk to it. */
module ModbusServer {
  import Arith
  import opened Common
  import opened ModbusSpec

  /** modbus_data_t: the application's tables; coils and discrete inputs eight to a byte. */
  class DataModel {
    const coils: array<Byte>
    const coilsCount: Word
    const discrete: array<Byte>
    const discreteCount: Word
    const holding: array<Word>
    const inputs: array<Word>

    constructor (coils: array<Byte>, coilsCount: Word, discrete: array<Byte>, discreteCount: Word,
                 holding: array<Word>, inputs: array<Word>)
      ensures this.coils == coils && this.coilsCount == coilsCount
      ensures this.discrete == discrete && this.discreteCount == discreteCount
      ensures this.holding == holding && this.inputs == inputs
    {
      this.coils, this.coilsCount := coils, coilsCount;
      this.discrete, this.discreteCount := discrete, discreteCount;
      this.holding, this.inputs := holding, inputs;
    }

    ghost predicate Valid() {
      && coilsCount <= 8 * coils.Length && discreteCount <= 8 * discrete.Length
      && holding.Length < 65536 && inputs.Length < 65536
      && coils != discrete && holding != inputs
    }

    /** The plain map the tables stand for. */
    ghost function Contents(): Bank
      reads coils, discrete, holding, inputs
      requires Valid()
    {
      Bank(BitsOf(coils[..], coilsCount), BitsOf(discrete[..], discreteCount), holding[..], inputs[..])
    }

    /** table[a / 8] |= 1 << (a % 8), or &= ~ of it */
    static method PutBit(table: array<Byte>, ghost size: nat, a: nat, v: bool)
      requires a < size <= 8 * table.Length
      modifies table
      ensures BitsOf(table[..], size) == old(BitsOf(table[..], size))[a := v]
    {
      ghost var was := table[..];
      if v {
        table[a / 8] := SetInByte(table[a / 8], a % 8);
      } else {
        table[a / 8] := ClearInByte(table[a / 8], a % 8);
      }
      PutBitFacts(was, table[..], size, a, v);
    }

    /** One packed byte of a reply: items first to first + 7 of the n asked for, from address a on. */
    static method PackOne(table: array<Byte>, ghost size: nat, a: nat, n: nat, first: nat) returns (b: Byte)
      requires first < n && a + n <= size <= 8 * table.Length && first % 8 == 0
      ensures b == PackedByte(BitsOf(table[..], size)[a..a + n], first / 8)
    {
      hide ByteOf, PackedByte, SetInByte, Bit;
      ghost var bits := BitsOf(table[..], size)[a..a + n];
      PackedIs(bits, first);
      assert bits[first..first] == [];
      ByteNone();
      b := 0;
      var bit := 0;
      while bit < 8 && first + bit < n
        invariant bit <= 8 && first + bit <= n
        invariant b == ByteOf(bits[first..first + bit])
      {
        var at := a + first + bit;
        ByteNext(bits[first..first + bit], bits[first + bit]);
        assert bits[first..first + bit + 1] == bits[first..first + bit] + [bits[first + bit]];
        assert bits[first + bit] == Bit(table[at / 8], at % 8);
        if Bit(table[at / 8], at % 8) {
          b := SetInByte(b, bit);
        }
        bit := bit + 1;
      }
    }

    /** The reply to a read of coils or discrete inputs. */
    static method ReadBits(fc: Byte, table: array<Byte>, ghost size: nat, a: nat, n: nat) returns (reply: seq<Byte>)
      requires n <= 2000 && a + n <= size <= 8 * table.Length
      ensures reply == BitsReply(fc, BitsOf(table[..], size)[a..a + n])
    {
      hide BitsOf, Pack;
      ghost var bits := BitsOf(table[..], size)[a..a + n];
      ghost var packed := Pack(bits);
      PackShape(bits);
      var byteCount: Byte := (n + 7) / 8 % 256;
      var out := new Byte[2 + byteCount];
      out[0] := fc;
      out[1] := byteCount;
      var i := 0;
      while i < byteCount
        invariant i <= byteCount
        invariant out[..2 + i] == [fc, byteCount] + packed[..i]
        modifies out
      {
        var b := PackOne(table, size, a, n, 8 * i);
        out[2 + i] := b;
        assert packed[..i + 1] == packed[..i] + [b];
        assert out[..2 + (i + 1)] == out[..2 + i] + [b];
        i := i + 1;
      }
      assert packed[..byteCount] == packed;
      reply := out[..];
    }

    static method PutPair(out: array<Byte>, at: nat, hi: Byte, lo: Byte)
      requires at + 2 <= out.Length
      modifies out
      ensures out[..at + 2] == old(out[..at]) + [hi, lo]
    {
      out[at] := hi;
      out[at + 1] := lo;
    }

    /** Registers laid out from position at on, high byte first. */
    static method PutWords(out: array<Byte>, at: nat, words: seq<Word>)
      requires at + 2 * |words| <= out.Length
      modifies out
      ensures out[..at + 2 * |words|] == old(out[..at]) + Pairs(words)
    {
      hide Pairs, Hi, Lo;
      PairsNone();
      ghost var head := out[..at];
      var i := 0;
      assert words[..0] == [];
      while i < |words|
        invariant i <= |words|
        invariant out[..at + 2 * i] == head + Pairs(words[..i])
      {
        PairsSnoc(words[..i], words[i]);
        assert words[..i + 1] == words[..i] + [words[i]];
        PutPair(out, at + i * 2, Hi(words[i]), Lo(words[i]));
        i := i + 1;
      }
      assert words[..|words|] == words;
    }

    static method ReadWords(fc: Byte, table: array<Word>, a: nat, n: nat) returns (reply: seq<Byte>)
      requires n <= 125 && a + n <= table.Length
      ensures reply == WordsReply(fc, table[a..a + n])
    {
      var byteCount: Byte := 2 * n % 256;
      var out := new Byte[2 + byteCount];
      out[0] := fc;
      out[1] := byteCount;
      assert out[..2] == [fc, byteCount];
      PutWords(out, 2, table[a..a + n]);
      reply := out[..];
    }

    static method WriteBits(table: array<Byte>, ghost size: nat, a: nat, n: nat, data: seq<Byte>)
      requires a + n <= size <= 8 * table.Length && n <= 8 * |data|
      modifies table
      ensures BitsOf(table[..], size) == WriteAt(old(BitsOf(table[..], size)), a, BitsOf(data, n))
    {
      ghost var was := BitsOf(table[..], size);
      ghost var bits := BitsOf(data, n);
      var i := 0;
      assert was == WriteAt(was, a, bits[..0]);
      while i < n
        invariant i <= n
        invariant BitsOf(table[..], size) == WriteAt(was, a, bits[..i])
      {
        PutBit(table, size, a + i, Bit(data[i / 8], i % 8));
        WriteNext(was, a, bits, i);
        i := i + 1;
      }
      assert bits[..n] == bits;
    }

    static method WriteWords(table: array<Word>, a: nat, n: nat, data: seq<Byte>)
      requires a + n <= table.Length && 2 * n <= |data|
      modifies table
      ensures table[..] == WriteAt(old(table[..]), a, WordsOf(data, n))
    {
      ghost var was := table[..];
      ghost var words := WordsOf(data, n);
      assert forall k :: 0 <= k < n ==> words[k] == WordOf(data[k * 2], data[k * 2 + 1]);
      hide WriteAt, WordsOf, WordOf;
      WriteNone(was, a, words);
      var i := 0;
      while i < n
        invariant i <= n
        invariant table[..] == WriteAt(was, a, words[..i])
      {
        ghost var before := table[..];
        table[a + i] := WordOf(data[i * 2], data[i * 2 + 1]);
        assert table[..] == before[a + i := words[i]];
        WriteNext(was, a, words, i);
        i := i + 1;
      }
      assert words[..n] == words;
    }
  }

  lemma PutBitFacts(was: seq<Byte>, now: seq<Byte>, size: nat, a: nat, v: bool)
    requires a < size <= 8 * |was|
    requires now == was[a / 8 := if v then SetInByte(was[a / 8], a % 8) else ClearInByte(was[a / 8], a % 8)]
    ensures BitsOf(now, size) == BitsOf(was, size)[a := v]
  {
    hide Bit, SetBit, ClearBit;
    forall j | 0 <= j < size
      ensures Bit(now[j / 8], j % 8) == if j == a then v else Bit(was[j / 8], j % 8)
    {
      OneBitChanges(was[a / 8], a % 8, j % 8);
    }
  }

  lemma PackShape(bits: seq<bool>)
    ensures |Pack(bits)| == (|bits| + 7) / 8
    ensures forall i :: 0 <= i < |Pack(bits)| ==> Pack(bits)[i] == PackedByte(bits, i)
  {
  }

  lemma ByteNone()
    ensures ByteOf([]) == 0
  {
  }

  lemma PackedIs(bits: seq<bool>, first: nat)
    requires first < |bits| && first % 8 == 0
    ensures PackedByte(bits, first / 8) == ByteOf(bits[first..if |bits| < first + 8 then |bits| else first + 8])
  {
  }

  lemma ByteNext(bits: seq<bool>, x: bool)
    requires |bits| < 8 && ByteOf(bits) < 256
    ensures ByteOf(bits + [x]) == if x then SetInByte(ByteOf(bits), |bits|) else ByteOf(bits)
  {
    ByteSnoc(bits, x);
  }

  lemma PairsNone()
    ensures Pairs([]) == []
  {
  }

  lemma WriteNone<T>(s: seq<T>, a: nat, vals: seq<T>)
    requires a <= |s|
    ensures WriteAt(s, a, vals[..0]) == s
  {
  }

  lemma WriteNext<T>(s: seq<T>, a: nat, vals: seq<T>, i: nat)
    requires i < |vals| && a + |vals| <= |s|
    ensures WriteAt(s, a, vals[..i])[a + i := vals[i]] == WriteAt(s, a, vals[..i + 1])
  {
    assert vals[..i + 1] == vals[..i] + [vals[i]];
  }

  // ----- the server

  const MBAP_LEN := 7

  /** A PDU under its MBAP header: transaction, protocol 0, length of unit and PDU, unit. */
  function Wire(transaction: seq<Byte>, unit: Byte, pdu: seq<Byte>): (adu: seq<Byte>)
    requires |transaction| == 2 && |pdu| < 65535
    ensures |adu| == MBAP_LEN + |pdu| && adu[..2] == transaction && adu[6] == unit && adu[MBAP_LEN..] == pdu
  {
    transaction + [0, 0, Hi(|pdu| + 1), Lo(|pdu| + 1), unit] + pdu
  }

  /** The seven bytes of the header one by one (section 3.1.3 of the MODBUS Messaging Implementation Guide V1.0b). */
  lemma WireFields(transaction: seq<Byte>, unit: Byte, pdu: seq<Byte>)
    requires |transaction| == 2 && |pdu| < 65535
    ensures var adu := Wire(transaction, unit, pdu);
            && |adu| == 7 + |pdu| && adu[0] == transaction[0] && adu[1] == transaction[1] && adu[2] == adu[3] == 0
            && 256 * (adu[4] as int) + (adu[5] as int) == |pdu| + 1 && adu[6] == unit && adu[7..] == pdu
  {
  }

  lemma ReplyShort(m: Bank, pdu: seq<Byte>)
    requires WellFormed(pdu)
    ensures 2 <= |Serve(m, pdu).reply| <= 252
  {
  }

  /** Counters are 32 bits wide and wrap. */
  function Count(c: int): int { (c + 1) % 0x1_0000_0000 }

  lemma Counted(c: int, d: int)
    ensures Count((c + d) % 0x1_0000_0000) == (Count(c) + d) % 0x1_0000_0000
    ensures Count((c + d) % 0x1_0000_0000) == (c + Count(d)) % 0x1_0000_0000
  {
    Arith.ModAdd(c + d, 1, 0x1_0000_0000);
    Arith.ModAdd(c + 1, d, 0x1_0000_0000);
    Arith.ModAdd(d + 1, c, 0x1_0000_0000);
  }

  /** modbus_server_t */
  class Server {
    const slave: Byte
    const data: DataModel
    var requests: int
    var responses: int
    var errors: int
    var exceptions: int

    constructor (slave: Byte, data: DataModel)
      requires data.Valid()
      ensures Valid() && this.slave == slave && this.data == data && requests == exceptions == 0
    {
      this.slave, this.data := slave, data;
      requests, responses, errors, exceptions := 0, 0, 0, 0;
    }

    /** Every request was answered or counted as an error. */
    ghost predicate Valid()
      reads this
    {
      data.Valid() && requests == (responses + errors) % 0x1_0000_0000
    }

    /** Builds the reply; memory says whether the one buffer allocation succeeds. */
    method Dispatch(pdu: seq<Byte>, memory: bool) returns (reply: Option<seq<Byte>>, refused: bool)
      requires data.Valid() && WellFormed(pdu)
      modifies data.coils, data.holding
      ensures data.Contents() == Serve(old(data.Contents()), pdu).bank
      ensures reply == if memory then Some(Serve(old(data.Contents()), pdu).reply) else None
      ensures refused <==> ExceptionCode(old(data.Contents()), pdu) != 0
    {
      var fc := pdu[0];
      reply := None;
      if fc == READ_COILS || fc == READ_DISCRETE {
        reply, refused := DispatchReadBits(pdu, memory);
      } else if fc == READ_HOLDING || fc == READ_INPUTS {
        reply, refused := DispatchReadWords(pdu, memory);
      } else if fc == WRITE_COIL {
        reply, refused := DispatchWriteCoil(pdu, memory);
      } else if fc == WRITE_REGISTER {
        reply, refused := DispatchWriteRegister(pdu, memory);
      } else if fc == WRITE_COILS {
        reply, refused := DispatchWriteCoils(pdu, memory);
      } else if fc == WRITE_REGISTERS {
        reply, refused := DispatchWriteRegisters(pdu, memory);
      } else {
        reply := BuildException(fc, 1, memory);
        refused := true;
      }
    }

    static method BuildException(fc: Byte, code: Byte, memory: bool) returns (reply: Option<seq<Byte>>)
      ensures reply == if memory then Some([Flagged(fc), code]) else None
    {
      reply := if memory then Some([Flagged(fc), code]) else None;
    }

    method DispatchReadBits(pdu: seq<Byte>, memory: bool) returns (reply: Option<seq<Byte>>, refused: bool)
      requires data.Valid() && WellFormed(pdu) && pdu[0] in {READ_COILS, READ_DISCRETE}
      ensures reply == if memory then Some(Serve(data.Contents(), pdu).reply) else None
      ensures refused <==> ExceptionCode(data.Contents(), pdu) != 0
    {
      hide BitsOf, Pack;
      var a, n := Addr(pdu), Quantity(pdu);
      var table, size: nat := data.coils, data.coilsCount;
      if pdu[0] == READ_DISCRETE {
        table, size := data.discrete, data.discreteCount;
      }
      refused := a + n > size;
      reply := None;
      if refused {
        reply := BuildException(pdu[0], 2, memory);
      } else if memory {
        var out := DataModel.ReadBits(pdu[0], table, size, a, n);
        reply := Some(out);
      }
    }

    method DispatchReadWords(pdu: seq<Byte>, memory: bool) returns (reply: Option<seq<Byte>>, refused: bool)
      requires data.Valid() && WellFormed(pdu) && pdu[0] in {READ_HOLDING, READ_INPUTS}
      ensures reply == if memory then Some(Serve(data.Contents(), pdu).reply) else None
      ensures refused <==> ExceptionCode(data.Contents(), pdu) != 0
    {
      hide BitsOf, Pairs;
      var a, n := Addr(pdu), Quantity(pdu);
      var table := data.holding;
      if pdu[0] == READ_INPUTS {
        table := data.inputs;
      }
      refused := a + n > table.Length;
      reply := None;
      if refused {
        reply := BuildException(pdu[0], 2, memory);
      } else if memory {
        var out := DataModel.ReadWords(pdu[0], table, a, n);
        assert table[..][a..a + n] == table[a..a + n];
        reply := Some(out);
      }
    }

    method DispatchWriteCoil(pdu: seq<Byte>, memory: bool) returns (reply: Option<seq<Byte>>, refused: bool)
      requires data.Valid() && WellFormed(pdu) && pdu[0] == WRITE_COIL
      modifies data.coils
      ensures data.Contents() == Serve(old(data.Contents()), pdu).bank
      ensures reply == if memory then Some(Serve(old(data.Contents()), pdu).reply) else None
      ensures refused <==> ExceptionCode(old(data.Contents()), pdu) != 0
    {
      hide BitsOf;
      var a, v := Addr(pdu), Quantity(pdu);
      refused := true;
      reply := None;
      if a >= data.coilsCount {
        reply := BuildException(pdu[0], 2, memory);
        return;
      }
      if v == 0xFF00 {
        DataModel.PutBit(data.coils, data.coilsCount, a, true);
      } else if v == 0 {
        DataModel.PutBit(data.coils, data.coilsCount, a, false);
      } else {
        reply := BuildException(pdu[0], 3, memory);
        return;
      }
      refused := false;
      reply := if memory then Some(pdu[..5]) else None;
    }

    method DispatchWriteRegister(pdu: seq<Byte>, memory: bool) returns (reply: Option<seq<Byte>>, refused: bool)
      requires data.Valid() && WellFormed(pdu) && pdu[0] == WRITE_REGISTER
      modifies data.holding
      ensures data.Contents() == Serve(old(data.Contents()), pdu).bank
      ensures reply == if memory then Some(Serve(old(data.Contents()), pdu).reply) else None
      ensures refused <==> ExceptionCode(old(data.Contents()), pdu) != 0
    {
      hide BitsOf;
      var a, v := Addr(pdu), Quantity(pdu);
      refused := a >= data.holding.Length;
      reply := None;
      if refused {
        reply := BuildException(pdu[0], 2, memory);
      } else {
        data.holding[a] := v;
        reply := if memory then Some(pdu[..5]) else None;
      }
    }

    method DispatchWriteCoils(pdu: seq<Byte>, memory: bool) returns (reply: Option<seq<Byte>>, refused: bool)
      requires data.Valid() && WellFormed(pdu) && pdu[0] == WRITE_COILS
      modifies data.coils
      ensures data.Contents() == Serve(old(data.Contents()), pdu).bank
      ensures reply == if memory then Some(Serve(old(data.Contents()), pdu).reply) else None
      ensures refused <==> ExceptionCode(old(data.Contents()), pdu) != 0
    {
      hide BitsOf;
      var a, n := Addr(pdu), Quantity(pdu);
      refused := a + n > data.coilsCount;
      reply := None;
      if refused {
        reply := BuildException(pdu[0], 2, memory);
      } else {
        DataModel.WriteBits(data.coils, data.coilsCount, a, n, pdu[6..]);
        reply := if memory then Some(pdu[..5]) else None;
      }
    }

    method DispatchWriteRegisters(pdu: seq<Byte>, memory: bool) returns (reply: Option<seq<Byte>>, refused: bool)
      requires data.Valid() && WellFormed(pdu) && pdu[0] == WRITE_REGISTERS
      modifies data.holding
      ensures data.Contents() == Serve(old(data.Contents()), pdu).bank
      ensures reply == if memory then Some(Serve(old(data.Contents()), pdu).reply) else None
      ensures refused <==> ExceptionCode(old(data.Contents()), pdu) != 0
    {
      hide BitsOf, WordsOf;
      var a, n := Addr(pdu), Quantity(pdu);
      refused := a + n > data.holding.Length;
      reply := None;
      if refused {
        reply := BuildException(pdu[0], 2, memory);
      } else {
        DataModel.WriteWords(data.holding, a, n, pdu[6..]);
        reply := if memory then Some(pdu[..5]) else None;
      }
    }

    /** modbus_process_request: refines Serve; a failed allocation loses the reply, never the effect. */
    method ProcessRequest(pdu: seq<Byte>, memory: bool) returns (reply: Option<seq<Byte>>)
      requires Valid() && WellFormed(pdu)
      modifies `requests, `responses, `errors, `exceptions, data.coils, data.holding
      ensures Valid() && data.Contents() == Serve(old(data.Contents()), pdu).bank
      ensures reply == if memory then Some(Serve(old(data.Contents()), pdu).reply) else None
      ensures requests == Count(old(requests))
      ensures responses == if memory then Count(old(responses)) else old(responses)
      ensures errors == if memory then old(errors) else Count(old(errors))
      ensures exceptions == if ExceptionCode(old(data.Contents()), pdu) != 0 then Count(old(exceptions)) else old(exceptions)
    {
      Counted(responses, errors);
      requests := Count(requests);
      var refused;
      reply, refused := Dispatch(pdu, memory);
      if refused {
        exceptions := Count(exceptions);
      }
      if reply.Some? {
        responses := Count(responses);
      } else {
        errors := Count(errors);
      }
    }

    /** Whether modbus_server_poll takes up an ADU. */
    predicate Accepts(adu: seq<Byte>) { |adu| >= MBAP_LEN + 1 && (adu[6] == slave || adu[6] == 0) }

    /** modbus_server_poll, from the received ADU to the sent one. */
    method Poll(adu: seq<Byte>, memory: bool) returns (reply: Option<seq<Byte>>)
      requires Valid() && (Accepts(adu) ==> WellFormed(adu[MBAP_LEN..]))
      modifies `requests, `responses, `errors, `exceptions, data.coils, data.holding
      ensures Valid()
      ensures !Accepts(adu) ==> reply == None && data.Contents() == old(data.Contents()) && requests == old(requests)
      ensures Accepts(adu) ==> requests == Count(old(requests))
      ensures Accepts(adu) ==> if memory then responses == Count(old(responses)) else errors == Count(old(errors))
      ensures Accepts(adu) ==> data.Contents() == Serve(old(data.Contents()), adu[MBAP_LEN..]).bank
      ensures Accepts(adu) ==> |Serve(old(data.Contents()), adu[MBAP_LEN..]).reply| <= 252
      ensures Accepts(adu) ==> reply == if memory then
                Some(Wire(adu[..2], slave, Serve(old(data.Contents()), adu[MBAP_LEN..]).reply)) else None
    {
      reply := None;
      if |adu| < MBAP_LEN + 1 {
        return;
      }
      if adu[6] != slave && adu[6] != 0 {
        return;
      }
      ReplyShort(data.Contents(), adu[MBAP_LEN..]);
      var response := ProcessRequest(adu[MBAP_LEN..], memory);
      if response.Some? {
        reply := Some(Wire(adu[..2], slave, response.value));
      }
    }
  }

  // ----- the client

  datatype Status = Ok | NoMemory | Timeout | Error

  /** What the surroundings of one exchange allow: the allocations at either end, and the send. */
  datatype Luck = Luck(bodyMemory: bool, requestMemory: bool, sent: bool, replyMemory: bool)

  lemma ReadRequest(unit: Byte, a: Word, n: Word)
    requires n <= 125
    ensures WellFormed(Header(READ_HOLDING, a, n))
    ensures [READ_HOLDING] + [Hi(a), Lo(a), Hi(n), Lo(n)] == Header(READ_HOLDING, a, n)
  {
    ReadParts(READ_HOLDING, a, n);
  }

  function RequestHead(transaction: Word, length: Word, unit: Byte, fc: Byte): seq<Byte> {
    [Hi(transaction), Lo(transaction), 0, 0, Hi(length), Lo(length), unit, fc]
  }

  lemma RequestWire(t: Word, unit: Byte, fc: Byte, body: seq<Byte>)
    requires |body| < 65534
    ensures RequestHead(t, |body| + 2, unit, fc) + body == Wire([Hi(t), Lo(t)], unit, [fc] + body)
  {
    hide Hi, Lo;
  }

  /** modbus_client_t */
  class Client {
    var transactionId: Word

    constructor ()
      ensures transactionId == 0
    {
      transactionId := 0;
    }

    static method PutHeader(buf: array<Byte>, transaction: Word, length: Word, unit: Byte, fc: Byte)
      requires buf.Length >= MBAP_LEN + 1
      modifies buf
      ensures buf[..MBAP_LEN + 1] == RequestHead(transaction, length, unit, fc)
    {
      hide Hi, Lo;
      buf[0], buf[1] := Hi(transaction), Lo(transaction);
      buf[2], buf[3] := 0, 0;
      buf[4], buf[5] := Hi(length), Lo(length);
      buf[6], buf[7] := unit, fc;
    }

    static method PutBody(buf: array<Byte>, at: nat, body: seq<Byte>)
      requires at + |body| <= buf.Length
      modifies buf
      ensures buf[..at + |body|] == old(buf[..at]) + body
    {
      ghost var head := buf[..at];
      var i := 0;
      while i < |body|
        invariant i <= |body| && buf[..at + i] == head + body[..i]
      {
        buf[at + i] := body[i];
        i := i + 1;
      }
    }

    /** modbus_build_request: the PDU under a header with the next transaction number. */
    method BuildRequest(unit: Byte, fc: Byte, body: seq<Byte>, memory: bool) returns (adu: Option<seq<Byte>>)
      requires |body| < 65534
      modifies this
      ensures adu == if memory then
                Some(Wire([Hi(old(transactionId)), Lo(old(transactionId))], unit, [fc] + body)) else None
      ensures transactionId == if memory then (old(transactionId) + 1) % 65536 else old(transactionId)
    {
      if !memory {
        return None;
      }
      var buf := new Byte[MBAP_LEN + 1 + |body|];
      PutHeader(buf, transactionId, |body| + 2, unit, fc);
      PutBody(buf, MBAP_LEN + 1, body);
      RequestWire(transactionId, unit, fc, body);
      assert buf[..] == RequestHead(transactionId, |body| + 2, unit, fc) + body;
      transactionId := (transactionId + 1) % 65536;
      adu := Some(buf[..]);
    }

    /** The body of a write of several registers. */
    static method WriteBody(a: Word, values: seq<Word>) returns (body: seq<Byte>)
      requires |values| <= 123
      ensures [WRITE_REGISTERS] + body == WriteRegistersRequest(a, values)
    {
      hide Pairs, Hi, Lo;
      var req := new Byte[5 + 2 * |values|];
      ghost var head := [Hi(a), Lo(a), Hi(|values|), Lo(|values|), 2 * |values|];
      req[0], req[1] := Hi(a), Lo(a);
      req[2], req[3] := Hi(|values|), Lo(|values|);
      req[4] := 2 * |values| % 256;
      assert req[..5] == head;
      DataModel.PutWords(req, 5, values);
      body := req[..];
      assert [WRITE_REGISTERS] + (head + Pairs(values)) == WriteRegistersRequest(a, values);
    }

    /** modbus_write_multiple_registers, its peer answering at once. */
    method WriteMultipleRegisters(server: Server, unit: Byte, a: Word, values: seq<Word>, luck: Luck)
      returns (status: Status)
      requires server.Valid() && |values| <= 123
      modifies this, server`requests, server`responses, server`errors, server`exceptions
      modifies server.data.coils, server.data.holding
      ensures server.Valid()
      ensures var was, now := old(server.data.Contents()), server.data.Contents();
              var fits := a + |values| <= |was.holding|;
              && (status == Ok ==> fits)
              && (status == Error && luck.sent ==> !fits)
              && (now == was || (fits && now == was.(holding := WriteAt(was.holding, a, values))))
              && (status == Ok ==> fits && now == was.(holding := WriteAt(was.holding, a, values)))
              && (status == Error || status == NoMemory ==> now == was)
              && (status == Ok <==> fits && luck == Luck(true, true, true, true) && unit in {0, server.slave})
    {
      if !luck.bodyMemory {
        return NoMemory;
      }
      var body := WriteBody(a, values);
      var req := BuildRequest(unit, WRITE_REGISTERS, body, luck.requestMemory);
      if req.None? {
        return NoMemory;
      }
      if !luck.sent {
        return Error;
      }
      ghost var was := server.data.Contents();
      WriteAnswered(was, a, values);
      var resp := server.Poll(req.value, luck.replyMemory);
      if resp.None? {
        return Timeout;
      }
      status := if resp.value[MBAP_LEN] >= 128 then Error else Ok;
    }

    /** modbus_read_holding_registers, its peer answering at once. */
    method ReadHoldingRegisters(server: Server, unit: Byte, a: Word, count: Word, result: array<Word>, luck: Luck)
      returns (status: Status)
      requires server.Valid() && count <= 125 && count <= result.Length
      requires result != server.data.holding && result != server.data.inputs
      modifies this, result, server`requests, server`responses, server`errors, server`exceptions
      modifies server.data.coils, server.data.holding
      ensures server.Valid() && server.data.Contents() == old(server.data.Contents())
      ensures status == Ok <==> a + count <= |server.data.Contents().holding| && unit in {0, server.slave}
                                && luck.requestMemory && luck.sent && luck.replyMemory
      ensures status == Ok ==> result[..count] == server.data.Contents().holding[a..a + count]
      ensures result[count..] == old(result[count..])
      ensures status != Ok ==> result[..] == old(result[..])
    {
      var req := BuildRequest(unit, READ_HOLDING, [Hi(a), Lo(a), Hi(count), Lo(count)], luck.requestMemory);
      if req.None? {
        return NoMemory;
      }
      if !luck.sent {
        return Error;
      }
      ReadRequest(unit, a, count);
      ReadAnswered(server.data.Contents(), a, count);
      var resp := server.Poll(req.value, luck.replyMemory);
      if resp.None? {
        return Timeout;
      }
      var data := resp.value[MBAP_LEN..];
      if data[0] >= 128 {
        return Error;
      }
      DecodeInto(data[2..], count, result);
      status := Ok;
    }

    static method DecodeInto(data: seq<Byte>, count: Word, result: array<Word>)
      requires 2 * count <= |data| && count <= result.Length
      modifies result
      ensures result[..count] == WordsOf(data, count)
      ensures result[count..] == old(result[count..])
    {
      var i := 0;
      while i < count
        invariant i <= count
        invariant forall k :: 0 <= k < i ==> result[k] == WordAt(data, k)
        invariant result[count..] == old(result[count..])
      {
        result[i] := WordOf(data[i * 2], data[i * 2 + 1]);
        i := i + 1;
      }
    }
  }

  lemma WriteAnswered(m: Bank, a: Word, values: seq<Word>)
    requires |values| <= 123
    ensures var w := WriteRegistersRequest(a, values);
            && WellFormed(w)
            && (if a + |values| <= |m.holding|
                then Serve(m, w).bank == m.(holding := WriteAt(m.holding, a, values)) && Serve(m, w).reply[0] == WRITE_REGISTERS
                else Serve(m, w) == Refuse(m, WRITE_REGISTERS, 2))
  {
    hide Header, Pairs, WordOf, WordsOf;
    RequestParts(WRITE_REGISTERS, a, |values|, 2 * |values|, Pairs(values));
    if a + |values| <= |m.holding| { WriteRegistersServed(m, a, values); }
  }

  lemma ReadAnswered(m: Bank, a: Word, n: Word)
    requires n <= 125
    ensures var r := Header(READ_HOLDING, a, n);
            && WellFormed(r) && Serve(m, r).bank == m
            && (if a + n <= |m.holding|
                then var reply := Serve(m, r).reply;
                     |reply| == 2 + 2 * n && reply[0] == READ_HOLDING && WordsOf(reply[2..], n) == m.holding[a..a + n]
                else Serve(m, r) == Refuse(m, READ_HOLDING, 2))
  {
    hide WordOf, WordsOf, Pairs, Header;
    ReadParts(READ_HOLDING, a, n);
    HeaderShape(READ_HOLDING, a, n);
    if a + n <= |m.holding| {
      var words := m.holding[a..a + n];
      PairsRoundTrip(words);
      assert WordsReply(READ_HOLDING, words)[2..] == Pairs(words);
    }
  }

  lemma HeaderShape(fc: Byte, a: Word, n: Word)
    ensures |Header(fc, a, n)| == 5 && Header(fc, a, n)[0] == fc
  {
  }
}
