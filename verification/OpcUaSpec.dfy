/** The OPC UA binary encoding of node ids and variants, as byte sequences. */
module OpcUaSpec {
  import Arith
  import opened Common

  type U16 = n: int | 0 <= n < 0x1_0000
  type U32 = n: int | 0 <= n < 0x1_0000_0000
  type U64 = n: int | 0 <= n < 0x1_0000_0000_0000_0000
  type I8 = n: int | -0x80 <= n < 0x80
  type I16 = n: int | -0x8000 <= n < 0x8000
  type I32 = n: int | -0x8000_0000 <= n < 0x8000_0000
  type I64 = n: int | -0x8000_0000_0000_0000 <= n < 0x8000_0000_0000_0000

  /** Guid and ByteString ids exist as types; the encoder has no case for them. */
  datatype NodeId = Numeric(ns: U16, id: U32) | Text(ns: U16, text: seq<Byte>) | Unsupported(ns: U16, kind: Byte)

  /** Floating-point values are their bit patterns. A type without payload is Bare. */
  datatype Variant =
    | Boolean(b: bool) | SByteV(i8: I8) | ByteV(u8: Byte) | Int16(i16: I16) | UInt16(u16: U16)
    | Int32(i32: I32) | UInt32(u32: U32) | Int64(i64: I64) | UInt64(u64: U64)
    | Float(bits: U32) | Double(wide: U64) | Str(text: Option<seq<Byte>>) | Node(node: NodeId) | Bare(kind: Byte)

  // ----- numbers, low byte first

  function Put16(n: U16): seq<Byte> { [n % 256, n / 256] }

  function Put32(n: U32): seq<Byte> { Put16(n % 0x1_0000) + Put16(n / 0x1_0000) }

  function Put64(n: U64): seq<Byte> { Put32(n % 0x1_0000_0000) + Put32(n / 0x1_0000_0000) }

  function Get16(s: seq<Byte>): U16
    requires |s| >= 2
  {
    (s[0] as int) + 256 * (s[1] as int)
  }

  function Get32(s: seq<Byte>): U32
    requires |s| >= 4
  {
    Get16(s) + 0x1_0000 * Get16(s[2..])
  }

  function Get64(s: seq<Byte>): U64
    requires |s| >= 8
  {
    Get32(s) + 0x1_0000_0000 * Get32(s[4..])
  }

  lemma Got16(n: U16, rest: seq<Byte>)
    ensures |Put16(n)| == 2 && Get16(Put16(n) + rest) == n && (Put16(n) + rest)[2..] == rest
  {
  }

  lemma Got32(n: U32, rest: seq<Byte>)
    ensures |Put32(n)| == 4 && Get32(Put32(n) + rest) == n && (Put32(n) + rest)[4..] == rest
  {
    hide Get16, Put16;
    var lo, hi := n % 0x1_0000, n / 0x1_0000;
    assert Put32(n) + rest == Put16(lo) + (Put16(hi) + rest);
    Got16(lo, Put16(hi) + rest);
    Got16(hi, rest);
  }

  lemma Got64(n: U64, rest: seq<Byte>)
    ensures |Put64(n)| == 8 && Get64(Put64(n) + rest) == n && (Put64(n) + rest)[8..] == rest
  {
    hide Get32, Put32;
    var lo, hi := n % 0x1_0000_0000, n / 0x1_0000_0000;
    assert Put64(n) + rest == Put32(lo) + (Put32(hi) + rest);
    Got32(lo, Put32(hi) + rest);
    Got32(hi, rest);
  }

  /** Two's complement in a word of m values. */
  function Wrap(n: int, m: int): int { if n < 0 then n + m else n }

  function Unwrap(u: int, m: int): int { if u >= m / 2 then u - m else u }

  lemma Unwrapped(n: int, m: int)
    requires m > 0 && m % 2 == 0 && -(m / 2) <= n < m / 2
    ensures 0 <= Wrap(n, m) < m && Unwrap(Wrap(n, m), m) == n
  {
  }

  // ----- strings

  /** The bytes before the first NUL. */
  function UpToNul(s: seq<Byte>): (r: seq<Byte>)
    ensures r <= s && 0 !in r
    ensures r == s <==> 0 !in s
  {
    if s == [] || s[0] == 0 then [] else [s[0]] + UpToNul(s[1..])
  }

  const NULL_LENGTH: U32 := 0xFFFF_FFFF

  function PutString(t: Option<seq<Byte>>): seq<Byte>
    requires t.Some? ==> |UpToNul(t.value)| < NULL_LENGTH
  {
    if t.None? then Put32(NULL_LENGTH) else Put32(|UpToNul(t.value)|) + UpToNul(t.value)
  }

  /** What a decoder yields: a value and the bytes after it; Short if the bytes run out; Skipped if it
      passes over a form it has no case for, leaving the caller's value as it was. */
  datatype Parse<T> = Short | Skipped(rest: seq<Byte>) | Parsed(value: T, rest: seq<Byte>)

  function GetString(s: seq<Byte>): Parse<Option<seq<Byte>>> {
    if |s| < 4 then Short
    else
      var n := Get32(s);
      if n == NULL_LENGTH then Parsed(None, s[4..])
      else if |s| < 4 + n then Short
      else Parsed(Some(s[4..4 + n]), s[4 + n..])
  }

  lemma StringRoundTrip(t: Option<seq<Byte>>, rest: seq<Byte>)
    requires t.Some? ==> |UpToNul(t.value)| < NULL_LENGTH
    ensures GetString(PutString(t) + rest) == Parsed(if t.None? then None else Some(UpToNul(t.value)), rest)
  {
    hide Get32, Put32;
    if t.None? {
      Got32(NULL_LENGTH, rest);
    } else {
      var u := UpToNul(t.value);
      assert PutString(t) + rest == Put32(|u|) + (u + rest);
      Got32(|u|, u + rest);
      var s := PutString(t) + rest;
      assert s[4..] == u + rest && s[4..4 + |u|] == u && s[4 + |u|..] == rest;
    }
  }

  // ----- node ids

  /** The two-byte, four-byte and full forms of a numeric id, and the text form. */
  function PutNode(id: NodeId): seq<Byte>
    requires id.Text? ==> |id.text| < 0x1_0000
  {
    match id
    case Numeric(ns, n) =>
      if ns == 0 && n < 256 then [0, n]
      else if ns < 256 && n < 0x1_0000 then [1, ns] + Put16(n)
      else [2] + Put16(ns) + Put32(n)
    case Text(ns, text) => [3] + Put16(ns) + Put32(|text|) + text
    case Unsupported(_, _) => []
  }

  function GetNode(s: seq<Byte>): Parse<NodeId> {
    if s == [] then Short
    else
      var form := s[0] % 16;
      if form == 0 then
        if |s| < 2 then Short else Parsed(Numeric(0, s[1]), s[2..])
      else if form == 1 then
        if |s| < 4 then Short else Parsed(Numeric(s[1], Get16(s[2..])), s[4..])
      else if form == 2 then
        if |s| < 7 then Short else Parsed(Numeric(Get16(s[1..]), Get32(s[3..])), s[7..])
      else if form == 3 then GetTextNode(s)
      else Skipped(s[1..])
  }

  /** The length field is 32 bits on the wire and 16 in memory. */
  function GetTextNode(s: seq<Byte>): Parse<NodeId>
    requires s != []
  {
    if |s| < 7 then Short
    else
      var n := Get32(s[3..]) % 0x1_0000;
      if |s| < 7 + n then Short
      else Parsed(Text(Get16(s[1..]), s[7..7 + n]), s[7 + n..])
  }

  lemma NumericRoundTrip(ns: U16, n: U32, rest: seq<Byte>)
    ensures GetNode(PutNode(Numeric(ns, n)) + rest) == Parsed(Numeric(ns, n), rest)
  {
    hide Get16, Put16, Get32, Put32;
    var s := PutNode(Numeric(ns, n)) + rest;
    if ns == 0 && n < 256 {
      assert s == [0, n] + rest && s[2..] == rest;
    } else if ns < 256 && n < 0x1_0000 {
      Got16(n, rest);
      assert s[2..] == Put16(n) + rest;
      assert s[4..] == rest;
    } else {
      Got16(ns, Put32(n) + rest);
      Got32(n, rest);
      assert s[1..] == Put16(ns) + (Put32(n) + rest);
      assert s[3..] == Put32(n) + rest;
      assert s[7..] == rest;
    }
  }

  lemma TextRoundTrip(ns: U16, text: seq<Byte>, rest: seq<Byte>)
    requires |text| < 0x1_0000
    ensures GetNode(PutNode(Text(ns, text)) + rest) == Parsed(Text(ns, text), rest)
  {
    hide Put16, Put32, GetNode;
    TextDecoded(ns, |text|, text, rest);
  }

  /** Of a text id's length only the low 16 bits count. */
  lemma TextDecoded(ns: U16, n: U32, text: seq<Byte>, rest: seq<Byte>)
    requires |text| == n % 0x1_0000
    ensures GetNode([3] + Put16(ns) + Put32(n) + text + rest) == Parsed(Text(ns, text), rest)
  {
    hide Get16, Put16, Get32, Put32;
    var s := [3] + Put16(ns) + Put32(n) + text + rest;
    Got16(ns, Put32(n) + (text + rest));
    Got32(n, text + rest);
    assert s[1..] == Put16(ns) + (Put32(n) + (text + rest));
    assert s[3..] == Put32(n) + (text + rest);
    assert s[7..] == text + rest;
    assert s[7..7 + |text|] == text && s[7 + |text|..] == rest;
  }

  /** Whatever bytes decode to a numeric id, the encoder's own form of it is no longer than they are. */
  lemma ShortestForm(s: seq<Byte>, ns: U16, n: U32, rest: seq<Byte>)
    requires GetNode(s) == Parsed(Numeric(ns, n), rest)
    ensures |PutNode(Numeric(ns, n))| <= |s| - |rest|
  {
    hide Get32;
    Put32Length(n);
  }

  lemma Put32Length(n: U32)
    ensures |Put32(n)| == 4
  {
  }

  // ----- variants

  function TypeCode(v: Variant): Byte {
    match v
    case Boolean(_) => 1
    case SByteV(_) => 2
    case ByteV(_) => 3
    case Int16(_) => 4
    case UInt16(_) => 5
    case Int32(_) => 6
    case UInt32(_) => 7
    case Int64(_) => 8
    case UInt64(_) => 9
    case Float(_) => 10
    case Double(_) => 11
    case Str(_) => 12
    case Node(_) => 17
    case Bare(kind) => kind
  }

  /** The C types' own bounds. */
  predicate Fits(v: Variant) {
    && (v.Str? && v.text.Some? ==> |UpToNul(v.text.value)| < NULL_LENGTH)
    && (v.Node? && v.node.Text? ==> |v.node.text| < 0x1_0000)
    && (v.Bare? ==> !(1 <= v.kind <= 12) && v.kind != 17)
  }

  function Payload(v: Variant): seq<Byte>
    requires Fits(v)
  {
    match v
    case Boolean(b) => [if b then 1 else 0]
    case SByteV(n) => Unwrapped(n, 0x100); [Wrap(n, 0x100)]
    case ByteV(n) => [n]
    case Int16(n) => Unwrapped(n, 0x1_0000); Put16(Wrap(n, 0x1_0000))
    case UInt16(n) => Put16(n)
    case Int32(n) => Unwrapped(n, 0x1_0000_0000); Put32(Wrap(n, 0x1_0000_0000))
    case UInt32(n) => Put32(n)
    case Int64(n) => Unwrapped(n, 0x1_0000_0000_0000_0000); Put64(Wrap(n, 0x1_0000_0000_0000_0000))
    case UInt64(n) => Put64(n)
    case Float(n) => Put32(n)
    case Double(n) => Put64(n)
    case Str(t) => PutString(t)
    case Node(id) => PutNode(id)
    case Bare(_) => []
  }

  /** opcua_encode_variant */
  function Encode(v: Variant): seq<Byte>
    requires Fits(v)
  {
    [TypeCode(v)] + Payload(v)
  }

  function GetNumber(kind: Byte, s: seq<Byte>): Parse<Variant>
    requires 1 <= kind <= 11
  {
    if kind <= 3 then
      if |s| < 1 then Short
      else Parsed(if kind == 1 then Boolean(s[0] != 0)
                  else if kind == 2 then SByteV(Unwrap(s[0], 0x100)) else ByteV(s[0]), s[1..])
    else if kind <= 5 then
      if |s| < 2 then Short
      else Parsed(if kind == 4 then Int16(Unwrap(Get16(s), 0x1_0000)) else UInt16(Get16(s)), s[2..])
    else if kind in {6, 7, 10} then
      if |s| < 4 then Short
      else Parsed(if kind == 6 then Int32(Unwrap(Get32(s), 0x1_0000_0000))
                  else if kind == 7 then UInt32(Get32(s)) else Float(Get32(s)), s[4..])
    else
      if |s| < 8 then Short
      else Parsed(if kind == 8 then Int64(Unwrap(Get64(s), 0x1_0000_0000_0000_0000))
                  else if kind == 9 then UInt64(Get64(s)) else Double(Get64(s)), s[8..])
  }

  /** opcua_decode_variant */
  function Decode(s: seq<Byte>): Parse<Variant> {
    if s == [] then Short
    else if 1 <= s[0] <= 11 then GetNumber(s[0], s[1..])
    else if s[0] == 12 then
      match GetString(s[1..])
      case Short => Short
      case Skipped(rest) => Skipped(rest)
      case Parsed(t, rest) => Parsed(Str(t), rest)
    else if s[0] == 17 then
      match GetNode(s[1..])
      case Short => Short
      case Skipped(rest) => Skipped(rest)
      case Parsed(id, rest) => Parsed(Node(id), rest)
    else Parsed(Bare(s[0]), s[1..])
  }

  /** What survives: text up to its first NUL, and the two kinds of node id that have an encoding. */
  predicate Faithful(v: Variant) {
    && (v.Str? && v.text.Some? ==> 0 !in v.text.value)
    && (v.Node? ==> !v.node.Unsupported?)
  }

  lemma NumberRoundTrip(v: Variant, rest: seq<Byte>)
    requires Fits(v) && 1 <= TypeCode(v) <= 11
    ensures GetNumber(TypeCode(v), Payload(v) + rest) == Parsed(v, rest)
  {
    hide Get16, Put16, Get32, Put32, Get64, Put64, Wrap, Unwrap;
    match v
    case Boolean(b) =>
    case SByteV(n) => Unwrapped(n, 0x100);
    case ByteV(n) =>
    case Int16(n) => Unwrapped(n, 0x1_0000); Got16(Wrap(n, 0x1_0000), rest);
    case UInt16(n) => Got16(n, rest);
    case Int32(n) => Unwrapped(n, 0x1_0000_0000); Got32(Wrap(n, 0x1_0000_0000), rest);
    case UInt32(n) => Got32(n, rest);
    case Int64(n) => Unwrapped(n, 0x1_0000_0000_0000_0000); Got64(Wrap(n, 0x1_0000_0000_0000_0000), rest);
    case UInt64(n) => Got64(n, rest);
    case Float(n) => Got32(n, rest);
    case Double(n) => Got64(n, rest);
  }

  /** Any faithful value decodes to itself and leaves exactly the bytes that followed it. */
  lemma RoundTrip(v: Variant, rest: seq<Byte>)
    requires Fits(v) && Faithful(v)
    ensures Decode(Encode(v) + rest) == Parsed(v, rest)
  {
    hide GetNumber, Payload, GetString, GetNode;
    var s := Encode(v) + rest;
    assert s[0] == TypeCode(v) && s[1..] == Payload(v) + rest;
    PayloadOf(v);
    if 1 <= TypeCode(v) <= 11 {
      NumberRoundTrip(v, rest);
    } else if v.Str? {
      StringRoundTrip(v.text, rest);
    } else if v.Node? {
      if v.node.Numeric? { NumericRoundTrip(v.node.ns, v.node.id, rest); }
      else { TextRoundTrip(v.node.ns, v.node.text, rest); }
    } else {
      assert Payload(v) + rest == rest;
    }
  }

  lemma PayloadOf(v: Variant)
    requires Fits(v)
    ensures v.Str? ==> Payload(v) == PutString(v.text)
    ensures v.Node? ==> Payload(v) == PutNode(v.node)
    ensures v.Bare? ==> Payload(v) == []
  {
    hide Put16, Put32, Put64, PutString, PutNode, Wrap, UpToNul;
  }

  /** The round trip holds for exactly the faithful values. */
  lemma RoundTripExactly(v: Variant)
    requires Fits(v)
    ensures Faithful(v) <==> Decode(Encode(v)) == Parsed(v, [])
  {
    if Faithful(v) {
      hide Encode, Decode;
      RoundTrip(v, []);
      assert Encode(v) + [] == Encode(v);
    } else if v.Str? {
      hide Encode, Decode;
      TextCut(v);
    } else {
      hide Encode, Decode;
      NodeLost(v);
    }
  }

  lemma TextCut(v: Variant)
    requires Fits(v) && v.Str? && !Faithful(v)
    ensures Decode(Encode(v)) != Parsed(v, [])
  {
    hide Payload, PutString, GetString;
    PayloadOf(v);
    assert Encode(v)[1..] == PutString(v.text) + [];
    StringRoundTrip(v.text, []);
  }

  lemma NodeLost(v: Variant)
    requires Fits(v) && v.Node? && !Faithful(v)
    ensures Decode(Encode(v)) != Parsed(v, [])
  {
    hide Payload;
    PayloadOf(v);
    assert Encode(v) == [17];
  }

  /** Encodings are prefix-free: two faithful values with a common continuation are the same value. */
  lemma PrefixFree(v: Variant, w: Variant, r: seq<Byte>, t: seq<Byte>)
    requires Fits(v) && Faithful(v) && Fits(w) && Faithful(w)
    requires Encode(v) + r == Encode(w) + t
    ensures v == w && r == t
  {
    RoundTrip(v, r);
    RoundTrip(w, t);
  }

  function EncodeAll(vs: seq<Variant>): seq<Byte>
    requires forall v :: v in vs ==> Fits(v)
  {
    if vs == [] then [] else Encode(vs[0]) + EncodeAll(vs[1..])
  }

  function DecodeAll(s: seq<Byte>, n: nat): Parse<seq<Variant>>
    decreases n
  {
    if n == 0 then Parsed([], s)
    else
      match Decode(s)
      case Short => Short
      case Skipped(rest) => Skipped(rest)
      case Parsed(v, rest) =>
        match DecodeAll(rest, n - 1)
        case Short => Short
        case Skipped(end) => Skipped(end)
        case Parsed(vs, end) => Parsed([v] + vs, end)
  }

  lemma EncodeSplit(vs: seq<Variant>, rest: seq<Byte>)
    requires forall v :: v in vs ==> Fits(v)
    ensures if vs == [] then EncodeAll(vs) + rest == rest
            else EncodeAll(vs) + rest == Encode(vs[0]) + (EncodeAll(vs[1..]) + rest)
  {
    hide Encode, Fits;
  }

  /** A run of values written one after another is read back one after another. */
  lemma {:induction false} StreamRoundTrip(vs: seq<Variant>, rest: seq<Byte>)
    requires forall v :: v in vs ==> Fits(v) && Faithful(v)
    ensures DecodeAll(EncodeAll(vs) + rest, |vs|) == Parsed(vs, rest)
    decreases |vs|
  {
    hide Encode, Decode, Fits, Faithful, EncodeAll;
    EncodeSplit(vs, rest);
    if vs != [] {
      var more := EncodeAll(vs[1..]) + rest;
      RoundTrip(vs[0], more);
      StreamRoundTrip(vs[1..], rest);
      DecodeOneMore(Encode(vs[0]) + more, vs[0], more, vs[1..], rest);
      assert vs == [vs[0]] + vs[1..];
    }
  }

  lemma DecodeOneMore(s: seq<Byte>, v: Variant, more: seq<Byte>, vs: seq<Variant>, rest: seq<Byte>)
    requires Decode(s) == Parsed(v, more) && DecodeAll(more, |vs|) == Parsed(vs, rest)
    ensures DecodeAll(s, 1 + |vs|) == Parsed([v] + vs, rest)
  {
    hide Decode;
  }

  // ----- the bytes themselves

  /** The k low bytes of n, the lowest first. */
  function Little(n: nat, k: nat): seq<Byte>
    decreases k
  {
    if k == 0 then [] else [n % 256] + Little(n / 256, k - 1)
  }

  lemma PutsLittle(n: U64)
    ensures n < 0x1_0000 ==> Put16(n) == Little(n, 2)
    ensures n < 0x1_0000_0000 ==> Put32(n) == Little(n, 4)
    ensures Put64(n) == Little(n, 8)
  {
    hide Little, Put16, Put32, Put64;
    if n < 0x1_0000 { Little2(n); }
    if n < 0x1_0000_0000 { Little4(n); }
    Little8(n);
  }

  lemma Little8(n: U64)
    ensures Put64(n) == Little(n, 8)
  {
    hide Little, Put32, Power256;
    Little4(n % 0x1_0000_0000);
    Little4(n / 0x1_0000_0000);
    Powers();
    LittleSplit(n, 4, 4, 0x1_0000_0000);
  }

  lemma Little2(n: U16)
    ensures Put16(n) == Little(n, 2)
  {
    assert Little(n / 256, 1) == [n / 256 % 256] + Little(n / 256 / 256, 0);
  }

  lemma Little4(n: U32)
    ensures Put32(n) == Little(n, 4)
  {
    hide Little, Put16;
    Little2(n % 0x1_0000);
    Little2(n / 0x1_0000);
    Powers();
    LittleSplit(n, 2, 2, 0x1_0000);
  }

  function Power256(k: nat): (p: nat)
    ensures p >= 1
  {
    if k == 0 then 1 else 256 * Power256(k - 1)
  }

  lemma Powers()
    ensures Power256(1) == 256 && Power256(2) == 0x1_0000 && Power256(4) == 0x1_0000_0000
    ensures Power256(8) == 0x1_0000_0000_0000_0000
  {
    assert Power256(2) == 256 * Power256(1);
    assert Power256(3) == 256 * Power256(2);
    assert Power256(5) == 256 * Power256(4) && Power256(6) == 256 * Power256(5);
    assert Power256(7) == 256 * Power256(6);
  }

  /** The low k bytes, then the rest. */
  lemma {:induction false} LittleSplit(n: nat, k: nat, m: nat, p: nat)
    requires p == Power256(k) && p >= 1
    ensures n / p >= 0 && Little(n, k + m) == Little(n % p, k) + Little(n / p, m)
    decreases k
  {
    if k > 0 {
      var q := Power256(k - 1);
      LittleSplit(n / 256, k - 1, m, q);
      Split256(n, q);
    }
  }

  lemma Split256(n: nat, p: nat)
    requires p >= 1
    ensures n % (256 * p) % 256 == n % 256 && n % (256 * p) / 256 == n / 256 % p && n / (256 * p) == n / 256 / p
  {
    var q, r := n / 256 / p, n / 256 % p;
    var x := 256 * r + n % 256;
    assert n / 256 == p * q + r && n == 256 * (n / 256) + n % 256;
    assert 256 * (p * q + r) == 256 * p * q + 256 * r;
    Arith.ModIs(n, 256 * p, q, x);
    Arith.ModIs(x, 256, r, n % 256);
  }

  /** A numeric id in the shortest of its three forms, and a text id (section 5.2.2.9 of OPC 10000-6). */
  lemma NodeBytes(id: NodeId)
    requires !id.Unsupported? && (id.Text? ==> |id.text| < 0x1_0000)
    ensures PutNode(id) ==
            if id.Text? then [3] + Little(id.ns, 2) + Little(|id.text|, 4) + id.text
            else if id.ns == 0 && id.id < 256 then [0, id.id]
            else if id.ns < 256 && id.id < 0x1_0000 then [1, id.ns] + Little(id.id, 2)
            else [2] + Little(id.ns, 2) + Little(id.id, 4)
  {
    hide Little, Put16, Put32, Put64;
    PutsLittle(id.ns);
    if id.Text? { PutsLittle(|id.text|); } else { PutsLittle(id.id); }
  }

  /** A value as its type's number in the standard and, for a number, how many bytes carry it modulo their range; 0 bytes for
      the other types. */
  function Layout(v: Variant): (Byte, nat, int) {
    match v
    case Boolean(b) => (1, 1, if b then 1 else 0)
    case SByteV(n) => (2, 1, n)
    case ByteV(n) => (3, 1, n)
    case Int16(n) => (4, 2, n)
    case UInt16(n) => (5, 2, n)
    case Int32(n) => (6, 4, n)
    case UInt32(n) => (7, 4, n)
    case Int64(n) => (8, 8, n)
    case UInt64(n) => (9, 8, n)
    case Float(n) => (10, 4, n)
    case Double(n) => (11, 8, n)
    case Str(_) => (12, 0, 0)
    case Node(_) => (17, 0, 0)
    case Bare(kind) => (kind, 0, 0)
  }

  /** What goes on the wire (sections 5.1.2 and 5.2.2 of OPC 10000-6): the type's number, then the number's bytes, lowest
      first and negative ones in two's complement; a string's length in four bytes and its bytes, a null string as length
      -1; a node id. */
  lemma WireForm(v: Variant)
    requires Fits(v)
    ensures var (kind, size, n) := Layout(v);
            Encode(v) == [kind] +
              (if v.Str? then
                 if v.text.None? then [255, 255, 255, 255]
                 else Little(|UpToNul(v.text.value)|, 4) + UpToNul(v.text.value)
               else if v.Node? then PutNode(v.node)
               else Little(if n < 0 then n + Power256(size) else n, size))
  {
    hide Little, Put16, Put32, Put64, PutNode, UpToNul;
    if v.Str? {
      StringBytes(v.text);
    } else if !v.Node? {
      NumberBytes(v);
    }
  }

  lemma StringBytes(t: Option<seq<Byte>>)
    requires t.Some? ==> |UpToNul(t.value)| < NULL_LENGTH
    ensures PutString(t) == if t.None? then [255, 255, 255, 255] else Little(|UpToNul(t.value)|, 4) + UpToNul(t.value)
  {
    if t.Some? {
      hide Little, Put32;
      PutsLittle(|UpToNul(t.value)|);
    }
  }

  lemma NumberBytes(v: Variant)
    requires Fits(v) && !v.Str? && !v.Node?
    ensures var (kind, size, n) := Layout(v);
            (n < 0 ==> n + Power256(size) >= 0) && Payload(v) == Little(if n < 0 then n + Power256(size) else n, size)
  {
    hide Little, Power256, Put16, Put32, Put64;
    Powers();
    match v
    case Boolean(b) => LowByte(if b then 1 else 0);
    case SByteV(n) => LowByte(Wrap(n, 0x100));
    case ByteV(n) => LowByte(n);
    case Int16(n) => Little2(Wrap(n, 0x1_0000));
    case UInt16(n) => Little2(n);
    case Int32(n) => Little4(Wrap(n, 0x1_0000_0000));
    case UInt32(n) => Little4(n);
    case Int64(n) => Little8(Wrap(n, 0x1_0000_0000_0000_0000));
    case UInt64(n) => Little8(n);
    case Float(n) => Little4(n);
    case Double(n) => Little8(n);
    case Bare(_) => NoBytes();
  }

  lemma LowByte(b: Byte)
    ensures Little(b, 1) == [b]
  {
    assert Little(b / 256, 0) == [];
  }

  lemma NoBytes()
    ensures Little(0, 0) == []
  {
  }

  /** What the decoder also takes: any byte but 0 as true, and a node id whatever the upper half of its first byte says. */
  lemma AlsoDecoded(b: Byte, rest: seq<Byte>)
    ensures Decode([1, b] + rest) == Parsed(Boolean(b != 0), rest)
    ensures GetNode([b] + rest) == if b % 16 > 3 then Skipped(rest) else GetNode([b % 16] + rest)
  {
    assert ([1, b] + rest)[1..] == [b] + rest && ([b] + rest)[1..] == rest && ([b % 16] + rest)[1..] == rest;
    if b % 16 <= 3 { SameForm([b] + rest, [b % 16] + rest); }
  }

  lemma SameForm(s: seq<Byte>, t: seq<Byte>)
    requires s != [] && t != [] && s[1..] == t[1..] && s[0] % 16 == t[0] % 16 <= 3
    ensures GetNode(s) == GetNode(t)
  {
    hide Get16, Get32;
    assert |s| == |t|;
    forall k: nat | 1 <= k <= |s| ensures s[k..] == t[k..] { assert s[k..] == s[1..][k - 1..] && t[k..] == t[1..][k - 1..]; }
    if |s| >= 2 { assert s[1] == s[1..][0] && t[1] == t[1..][0]; }
    if s[0] % 16 == 3 && |s| >= 7 { TextSame(s, t); }
  }

  lemma TextSame(s: seq<Byte>, t: seq<Byte>)
    requires |s| == |t| >= 7 && s[1..] == t[1..] && s[3..] == t[3..] && s[7..] == t[7..]
    ensures GetTextNode(s) == GetTextNode(t)
  {
    hide Get16, Get32;
    var n := Get32(s[3..]) % 0x1_0000;
    if |s| >= 7 + n {
      assert s[7..7 + n] == s[7..][..n] && t[7..7 + n] == t[7..][..n];
      assert s[7 + n..] == s[7..][n..] && t[7 + n..] == t[7..][n..];
    }
  }
}
