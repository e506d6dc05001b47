/** The OPC UA codec over a byte buffer with an advancing position. */
module OpcUa {
  import opened Common
  import opened OpcUaSpec

  /** Exactly bytes were written, from pos on. */
  twostate predicate Wrote(buf: array<Byte>, pos: nat, end: nat, bytes: seq<Byte>)
    reads buf
  {
    && end == pos + |bytes| <= buf.Length
    && buf[..end] == old(buf[..pos]) + bytes
    && buf[end..] == old(buf[end..])
  }

  method WriteU8(buf: array<Byte>, pos: nat, val: Byte) returns (end: nat)
    requires pos < buf.Length
    modifies buf
    ensures Wrote(buf, pos, end, [val])
  {
    buf[pos] := val;
    end := pos + 1;
  }

  method WriteU16(buf: array<Byte>, pos: nat, val: U16) returns (end: nat)
    requires pos + 2 <= buf.Length
    modifies buf
    ensures Wrote(buf, pos, end, Put16(val))
  {
    buf[pos] := val % 256;
    buf[pos + 1] := val / 256 % 256;
    end := pos + 2;
  }

  lemma Bytes32(n: U32)
    ensures Put32(n) == [n % 256, n / 256 % 256, n / 0x1_0000 % 256, n / 0x100_0000 % 256]
  {
    var lo, hi := n % 0x1_0000, n / 0x1_0000;
    assert lo % 256 == n % 256 && lo / 256 == n / 256 % 256;
    assert hi / 256 == n / 0x100_0000 == n / 0x100_0000 % 256;
  }

  method WriteU32(buf: array<Byte>, pos: nat, val: U32) returns (end: nat)
    requires pos + 4 <= buf.Length
    modifies buf
    ensures Wrote(buf, pos, end, Put32(val))
  {
    hide Put32;
    Bytes32(val);
    buf[pos] := val % 256;
    buf[pos + 1] := val / 256 % 256;
    buf[pos + 2] := val / 0x1_0000 % 256;
    buf[pos + 3] := val / 0x100_0000 % 256;
    end := pos + 4;
  }

  method WriteU64(buf: array<Byte>, pos: nat, val: U64) returns (end: nat)
    requires pos + 8 <= buf.Length
    modifies buf
    ensures Wrote(buf, pos, end, Put64(val))
  {
    hide Put32;
    Lengths(val % 0x1_0000_0000);
    Lengths(val / 0x1_0000_0000);
    end := WriteU32(buf, pos, val % 0x1_0000_0000);
    end := WriteU32(buf, end, val / 0x1_0000_0000);
  }

  lemma Lengths(n: U32)
    ensures |Put32(n)| == 4
  {
  }

  method ReadU8(buf: array<Byte>, pos: nat) returns (val: Byte, end: nat)
    requires pos < buf.Length
    ensures val == buf[pos] && end == pos + 1
  {
    val, end := buf[pos], pos + 1;
  }

  method ReadU16(buf: array<Byte>, pos: nat) returns (val: U16, end: nat)
    requires pos + 2 <= buf.Length
    ensures val == Get16(buf[pos..]) && end == pos + 2
  {
    val := (buf[pos] as int) + 256 * (buf[pos + 1] as int);
    end := pos + 2;
  }

  method ReadU32(buf: array<Byte>, pos: nat) returns (val: U32, end: nat)
    requires pos + 4 <= buf.Length
    ensures val == Get32(buf[pos..]) && end == pos + 4
  {
    val := (buf[pos] as int) + 256 * (buf[pos + 1] as int)
      + 0x1_0000 * (buf[pos + 2] as int) + 0x100_0000 * (buf[pos + 3] as int);
    end := pos + 4;
  }

  method ReadU64(buf: array<Byte>, pos: nat) returns (val: U64, end: nat)
    requires pos + 8 <= buf.Length
    ensures val == Get64(buf[pos..]) && end == pos + 8
  {
    hide Get32;
    var low: int, high: int;
    low, end := ReadU32(buf, pos);
    high, end := ReadU32(buf, end);
    assert buf[pos..][4..] == buf[pos + 4..];
    val := low + 0x1_0000_0000 * high;
  }

  /** opcua_encode_string; str is memory holding a terminated string, or NULL. */
  method EncodeString(buf: array<Byte>, pos: nat, str: Option<seq<Byte>>) returns (end: nat)
    requires str.Some? ==> 0 in str.value && |UpToNul(str.value)| < NULL_LENGTH
    requires pos + |PutString(str)| <= buf.Length
    modifies buf
    ensures Wrote(buf, pos, end, PutString(str))
  {
    hide Put32, UpToNul;
    if str.None? {
      Lengths(NULL_LENGTH);
      end := WriteU32(buf, pos, NULL_LENGTH);
      return;
    }
    var len := StringLength(str.value);
    Lengths(len);
    end := WriteU32(buf, pos, len);
    end := CopyBytes(buf, end, str.value, len);
  }

  method StringLength(s: seq<Byte>) returns (len: nat)
    requires 0 in s
    ensures len == |UpToNul(s)|
  {
    Terminated(s);
    len := 0;
    while s[len] != 0
      invariant len <= |UpToNul(s)|
      decreases |UpToNul(s)| - len
    {
      len := len + 1;
    }
  }

  method CopyBytes(buf: array<Byte>, pos: nat, src: seq<Byte>, len: nat) returns (end: nat)
    requires len <= |src| && pos + len <= buf.Length
    modifies buf
    ensures Wrote(buf, pos, end, src[..len])
  {
    ghost var was := buf[..];
    var i := 0;
    while i < len
      invariant i <= len
      invariant buf[..pos + i] == was[..pos] + src[..i]
      invariant buf[pos + i..] == was[pos + i..]
    {
      buf[pos + i] := src[i];
      i := i + 1;
    }
    end := pos + len;
  }

  lemma {:induction false} Terminated(s: seq<Byte>)
    requires 0 in s
    ensures |UpToNul(s)| < |s| && s[|UpToNul(s)|] == 0
    ensures forall k :: 0 <= k < |UpToNul(s)| ==> s[k] == UpToNul(s)[k] != 0
  {
    if s[0] != 0 { Terminated(s[1..]); }
    assert UpToNul(s) <= s && 0 !in UpToNul(s);
  }

  /** opcua_decode_string, on a buffer that holds the whole string. */
  method DecodeString(buf: array<Byte>, pos: nat) returns (str: Option<seq<Byte>>, end: nat)
    requires pos <= buf.Length && !GetString(buf[pos..]).Short?
    ensures pos <= end <= buf.Length && GetString(buf[pos..]) == Parsed(str, buf[end..])
  {
    hide Get32;
    ghost var s := buf[pos..];
    var slen;
    slen, end := ReadU32(buf, pos);
    assert buf[pos..][4..] == buf[end..];
    if slen == 0xFFFF_FFFF {
      return None, end;
    }
    str := Some(buf[end..end + slen]);
    end := end + slen;
    assert s[4..4 + slen] == buf[pos + 4..end] && s[4 + slen..] == buf[end..];
  }

  /** opcua_encode_nodeid */
  method EncodeNodeId(buf: array<Byte>, pos: nat, id: NodeId) returns (end: nat)
    requires id.Text? ==> |id.text| < 0x1_0000
    requires pos + |PutNode(id)| <= buf.Length
    modifies buf
    ensures Wrote(buf, pos, end, PutNode(id))
  {
    end := pos;
    if id.Numeric? {
      if id.ns == 0 && id.id < 256 {
        end := WriteU8(buf, end, 0);
        end := WriteU8(buf, end, id.id);
      } else if id.ns < 256 && id.id < 65536 {
        end := EncodeFourByte(buf, end, id.ns, id.id);
      } else {
        end := EncodeFull(buf, end, 2, id.ns, id.id);
      }
    } else if id.Text? {
      end := EncodeText(buf, end, id.ns, id.text);
    }
  }

  method EncodeFourByte(buf: array<Byte>, pos: nat, ns: Byte, n: U16) returns (end: nat)
    requires pos + 4 <= buf.Length
    modifies buf
    ensures Wrote(buf, pos, end, [1, ns] + Put16(n))
  {
    hide Put16;
    Lengths16(n);
    end := WriteU8(buf, pos, 1);
    end := WriteU8(buf, end, ns);
    end := WriteU16(buf, end, n);
    assert buf[..end] == old(buf[..pos]) + ([1, ns] + Put16(n));
  }

  method EncodeFull(buf: array<Byte>, pos: nat, form: Byte, ns: U16, n: U32) returns (end: nat)
    requires pos + 7 <= buf.Length
    modifies buf
    ensures Wrote(buf, pos, end, [form] + Put16(ns) + Put32(n))
  {
    hide Put16, Put32;
    Lengths16(ns);
    Lengths(n);
    end := WriteU8(buf, pos, form);
    end := WriteU16(buf, end, ns);
    end := WriteU32(buf, end, n);
    assert buf[..end] == old(buf[..pos]) + ([form] + Put16(ns) + Put32(n));
  }

  method EncodeText(buf: array<Byte>, pos: nat, ns: U16, text: seq<Byte>) returns (end: nat)
    requires |text| < 0x1_0000 && pos + 7 + |text| <= buf.Length
    modifies buf
    ensures Wrote(buf, pos, end, [3] + Put16(ns) + Put32(|text|) + text)
  {
    hide Put16, Put32;
    Lengths16(ns);
    Lengths(|text|);
    end := EncodeFull(buf, pos, 3, ns, |text|);
    end := CopyBytes(buf, end, text, |text|);
    assert text[..|text|] == text;
    assert buf[..end] == old(buf[..pos]) + ([3] + Put16(ns) + Put32(|text|) + text);
  }

  lemma Lengths16(n: U16)
    ensures |Put16(n)| == 2
  {
  }

  /** opcua_decode_nodeid; id is the caller's, kept when the form is not one of the four. */
  method DecodeNodeId(buf: array<Byte>, pos: nat, id: NodeId) returns (r: NodeId, end: nat)
    requires pos <= buf.Length && !GetNode(buf[pos..]).Short?
    ensures pos <= end <= buf.Length
    ensures GetNode(buf[pos..]) == Parsed(r, buf[end..]) || (GetNode(buf[pos..]) == Skipped(buf[end..]) && r == id)
  {
    hide Get16, Get32;
    ghost var s := buf[pos..];
    var encoding;
    encoding, end := ReadU8(buf, pos);
    r := id;
    if encoding % 16 == 0 {
      var n;
      n, end := ReadU8(buf, end);
      r := Numeric(0, n);
    } else if encoding % 16 == 1 {
      var ns, n;
      ns, end := ReadU8(buf, end);
      n, end := ReadU16(buf, end);
      assert s[2..] == buf[pos + 2..];
      r := Numeric(ns, n);
    } else if encoding % 16 == 2 {
      var ns, n;
      ns, end := ReadU16(buf, end);
      n, end := ReadU32(buf, end);
      assert s[1..] == buf[pos + 1..] && s[3..] == buf[pos + 3..];
      r := Numeric(ns, n);
    } else if encoding % 16 == 3 {
      r, end := DecodeTextNode(buf, pos);
    }
    assert s[end - pos..] == buf[end..];
  }

  method DecodeTextNode(buf: array<Byte>, pos: nat) returns (r: NodeId, end: nat)
    requires pos < buf.Length && !GetTextNode(buf[pos..]).Short?
    ensures pos <= end <= buf.Length && GetTextNode(buf[pos..]) == Parsed(r, buf[end..])
  {
    hide Get16, Get32;
    ghost var s := buf[pos..];
    assert s[1..] == buf[pos + 1..] && s[3..] == buf[pos + 3..];
    var ns, len;
    ns, end := ReadU16(buf, pos + 1);
    len, end := ReadU32(buf, end);
    len := len % 0x1_0000;
    r := Text(ns, buf[end..end + len]);
    end := end + len;
    assert s[7 + len..] == buf[end..] && s[7..7 + len] == buf[pos + 7..pos + 7 + len];
  }

  method EncodeNumber(buf: array<Byte>, pos: nat, v: Variant) returns (end: nat)
    requires Fits(v) && 1 <= TypeCode(v) <= 11 && pos + |Payload(v)| <= buf.Length
    modifies buf
    ensures Wrote(buf, pos, end, Payload(v))
  {
    hide Put16, Put32, Put64, Wrap;
    NumberFacts(v);
    match v {
      case Boolean(b) => end := WriteU8(buf, pos, if b then 1 else 0);
      case SByteV(n) => end := WriteU8(buf, pos, Wrap(n, 0x100));
      case ByteV(n) => end := WriteU8(buf, pos, n);
      case Int16(n) => end := WriteU16(buf, pos, Wrap(n, 0x1_0000));
      case UInt16(n) => end := WriteU16(buf, pos, n);
      case Int32(n) => end := WriteU32(buf, pos, Wrap(n, 0x1_0000_0000));
      case UInt32(n) => end := WriteU32(buf, pos, n);
      case Int64(n) => end := WriteU64(buf, pos, Wrap(n, 0x1_0000_0000_0000_0000));
      case UInt64(n) => end := WriteU64(buf, pos, n);
      case Float(n) => end := WriteU32(buf, pos, n);
      case Double(n) => end := WriteU64(buf, pos, n);
    }
  }

  /** Sizes and ranges of the numeric payloads. */
  lemma NumberFacts(v: Variant)
    requires Fits(v) && 1 <= TypeCode(v) <= 11
    ensures |Payload(v)| == if TypeCode(v) <= 3 then 1 else if TypeCode(v) <= 5 then 2
                            else if TypeCode(v) in {6, 7, 10} then 4 else 8
    ensures v.SByteV? ==> 0 <= Wrap(v.i8, 0x100) < 0x100
    ensures v.Int16? ==> 0 <= Wrap(v.i16, 0x1_0000) < 0x1_0000
    ensures v.Int32? ==> 0 <= Wrap(v.i32, 0x1_0000_0000) < 0x1_0000_0000
    ensures v.Int64? ==> 0 <= Wrap(v.i64, 0x1_0000_0000_0000_0000) < 0x1_0000_0000_0000_0000
  {
  }

  lemma TerminatorAdded(s: seq<Byte>)
    ensures UpToNul(s + [0]) == UpToNul(s)
  {
    if s != [] && s[0] != 0 {
      assert (s + [0])[1..] == s[1..] + [0];
      TerminatorAdded(s[1..]);
    }
  }

  /** opcua_encode_variant; text lies in memory with its terminator after it. */
  method EncodeVariant(buf: array<Byte>, pos: nat, v: Variant) returns (end: nat)
    requires Fits(v) && pos + |Encode(v)| <= buf.Length
    modifies buf
    ensures Wrote(buf, pos, end, Encode(v))
  {
    hide Payload, PutString, PutNode;
    PayloadOf(v);
    end := WriteU8(buf, pos, TypeCode(v));
    ghost var mid := buf[..];
    if 1 <= TypeCode(v) <= 11 {
      end := EncodeNumber(buf, end, v);
    } else if v.Str? {
      end := EncodeCString(buf, end, v.text);
    } else if v.Node? {
      end := EncodeNodeId(buf, end, v.node);
    }
    assert buf[..end] == old(buf[..pos]) + ([TypeCode(v)] + Payload(v));
  }

  method EncodeCString(buf: array<Byte>, pos: nat, text: Option<seq<Byte>>) returns (end: nat)
    requires text.Some? ==> |UpToNul(text.value)| < NULL_LENGTH
    requires pos + |PutString(text)| <= buf.Length
    modifies buf
    ensures Wrote(buf, pos, end, PutString(text))
  {
    if text.None? {
      end := EncodeString(buf, pos, None);
    } else {
      TerminatorAdded(text.value);
      end := EncodeString(buf, pos, Some(text.value + [0]));
    }
  }

  /** opcua_decode_variant, on a buffer that holds the whole value. */
  method DecodeVariant(buf: array<Byte>, pos: nat, node: NodeId) returns (v: Variant, end: nat)
    requires pos <= buf.Length && !Decode(buf[pos..]).Short?
    ensures pos <= end <= buf.Length
    ensures Decode(buf[pos..]) == Parsed(v, buf[end..]) || (Decode(buf[pos..]) == Skipped(buf[end..]) && v == Node(node))
  {
    hide GetNumber, GetString, GetNode;
    ghost var s := buf[pos..];
    var kind;
    kind, end := ReadU8(buf, pos);
    assert s[1..] == buf[end..];
    if 1 <= kind <= 11 {
      v, end := DecodeNumber(buf, end, kind);
    } else if kind == 12 {
      var t;
      t, end := DecodeString(buf, end);
      v := Str(t);
    } else if kind == 17 {
      var id;
      id, end := DecodeNodeId(buf, end, node);
      v := Node(id);
    } else {
      v := Bare(kind);
    }
  }

  method DecodeNumber(buf: array<Byte>, pos: nat, kind: Byte) returns (v: Variant, end: nat)
    requires 1 <= kind <= 11 && pos <= buf.Length && !GetNumber(kind, buf[pos..]).Short?
    ensures pos <= end <= buf.Length && GetNumber(kind, buf[pos..]) == Parsed(v, buf[end..])
  {
    hide Get16, Get32, Get64, Unwrap;
    ghost var s := buf[pos..];
    Ranges();
    if kind <= 3 {
      var b;
      b, end := ReadU8(buf, pos);
      v := if kind == 1 then Boolean(b != 0) else if kind == 2 then SByteV(Unwrap(b, 0x100)) else ByteV(b);
    } else if kind <= 5 {
      var n;
      n, end := ReadU16(buf, pos);
      v := if kind == 4 then Int16(Unwrap(n, 0x1_0000)) else UInt16(n);
    } else if kind == 6 || kind == 7 || kind == 10 {
      var n;
      n, end := ReadU32(buf, pos);
      v := if kind == 6 then Int32(Unwrap(n, 0x1_0000_0000)) else if kind == 7 then UInt32(n) else Float(n);
    } else {
      var n;
      n, end := ReadU64(buf, pos);
      v := if kind == 8 then Int64(Unwrap(n, 0x1_0000_0000_0000_0000)) else if kind == 9 then UInt64(n) else Double(n);
    }
    assert s[end - pos..] == buf[end..];
  }

  lemma Ranges()
    ensures forall b: Byte :: -0x80 <= Unwrap(b, 0x100) < 0x80
    ensures forall n: U16 :: -0x8000 <= Unwrap(n, 0x1_0000) < 0x8000
    ensures forall n: U32 :: -0x8000_0000 <= Unwrap(n, 0x1_0000_0000) < 0x8000_0000
    ensures forall n: U64 :: -0x8000_0000_0000_0000 <= Unwrap(n, 0x1_0000_0000_0000_0000) < 0x8000_0000_0000_0000
  {
  }
}
