/** The Internet checksum as the IP layer computes and checks it. */
module Checksum {
  import Arith
  import opened Common

  type U16 = n: int | 0 <= n < 0x1_0000
  type U32 = n: int | 0 <= n < 0x1_0000_0000

  // ----- byte order

  /** htons, and ntohs */
  function Htons(h: U16): U16 { h % 256 * 256 + h / 256 }

  /** htonl, and ntohl */
  function Htonl(h: U32): U32 {
    h % 256 * 0x100_0000 + h / 256 % 256 * 0x1_0000 + h / 0x1_0000 % 256 * 256 + h / 0x100_0000
  }

  lemma HtonsTwice(h: U16)
    ensures Htons(Htons(h)) == h
  {
    var lo, hi := h % 256, h / 256;
    Arith.ModIs(Htons(h), 256, lo, hi);
  }

  function Quad(a: Byte, b: Byte, c: Byte, d: Byte): U32 { 0x100_0000 * a + 0x1_0000 * b + 256 * c + d }

  lemma QuadParts(a: Byte, b: Byte, c: Byte, d: Byte)
    ensures var h := Quad(a, b, c, d);
            h % 256 == d && h / 256 % 256 == c && h / 0x1_0000 % 256 == b && h / 0x100_0000 == a
  {
    var h: int, p: int, q: int := Quad(a, b, c, d), 256 * (a as int) + b, 0x1_0000 * (a as int) + 256 * (b as int) + c;
    Arith.ModIs(h, 256, q, d);
    Arith.ModIs(q, 256, p, c);
    Arith.ModIs(h, 0x1_0000, p, 256 * (c as int) + d);
    Arith.ModIs(p, 256, a, b);
    Arith.ModIs(h, 0x100_0000, a, 0x1_0000 * (b as int) + 256 * (c as int) + d);
  }

  lemma HtonlTwice(h: U32)
    ensures Htonl(Htonl(h)) == h
  {
    var a, b, c, d := h / 0x100_0000, h / 0x1_0000 % 256, h / 256 % 256, h % 256;
    Quartered(h);
    SwapQuad(a, b, c, d);
    SwapQuad(d, c, b, a);
  }

  lemma Quartered(h: U32)
    ensures h == Quad(h / 0x100_0000, h / 0x1_0000 % 256, h / 256 % 256, h % 256)
  {
    assert h == 256 * (h / 256) + h % 256;
    assert h / 256 == 256 * (h / 0x1_0000) + h / 256 % 256;
  }

  lemma SwapQuad(a: Byte, b: Byte, c: Byte, d: Byte)
    ensures Htonl(Quad(a, b, c, d)) == Quad(d, c, b, a)
  {
    hide Quad;
    QuadParts(a, b, c, d);
    QuadIs(d, c, b, a);
  }

  lemma QuadIs(a: Byte, b: Byte, c: Byte, d: Byte)
    ensures Quad(a, b, c, d) == 0x100_0000 * a + 0x1_0000 * b + 256 * c + d
  {
  }

  // ----- sums of words

  /** The 16-bit word at bytes lo, hi of memory, on a little-endian processor. */
  function Word(lo: Byte, hi: Byte): U16 { 256 * hi + lo }

  /** The sum of the words of data; a last odd byte counts as a low byte. */
  function WordSum(data: seq<Byte>): nat
    decreases |data|
  {
    if |data| == 0 then 0
    else if |data| == 1 then data[0]
    else Word(data[0], data[1]) + WordSum(data[2..])
  }

  /** The one's complement sum: s reduced modulo 65535, with 65535 rather than 0 for its nonzero multiples. */
  function Norm(s: nat): U16 { if s == 0 then 0 else 1 + (s - 1) % 65535 }

  function Fold(s: nat): nat { s % 0x1_0000 + s / 0x1_0000 }

  lemma NormIs(s: nat, r: int)
    requires 0 <= r <= 65535 && (s - r) % 65535 == 0 && (r == 0 <==> s == 0)
    ensures Norm(s) == r
  {
  }

  lemma NormFacts(s: nat)
    ensures (s - Norm(s)) % 65535 == 0 && Norm(s) <= s && (Norm(s) == 0 <==> s == 0)
  {
  }

  lemma NormSmall(s: nat)
    requires s < 0x1_0000
    ensures Norm(s) == s
  {
  }

  /** One round of folding keeps the one's complement sum and makes the number smaller. */
  lemma FoldKeeps(s: nat)
    requires s >= 0x1_0000
    ensures Norm(Fold(s)) == Norm(s) && Fold(s) < s
  {
    var q := s / 0x1_0000;
    assert s - Fold(s) == 65535 * q;
    NormFacts(Fold(s));
    NormIs(s, Norm(Fold(s)));
  }

  /** From 32 bits, two rounds always suffice. */
  lemma TwoRounds(s: U32)
    ensures Fold(s) < 0x2_0000 - 1
    ensures Fold(Fold(s)) < 0x1_0000
  {
  }

  /** Up to 131074 bytes the 32-bit accumulator cannot overflow. */
  lemma {:induction false} SumBound(data: seq<Byte>)
    ensures WordSum(data) <= 65535 * ((|data| + 1) / 2)
    decreases |data|
  {
    if |data| >= 2 { SumBound(data[2..]); }
  }

  lemma {:induction false} FullSum(n: nat)
    ensures WordSum(seq(2 * n, _ => 255)) == 65535 * n
  {
    if n > 0 {
      var data: seq<Byte> := seq(2 * n, _ => 255);
      assert data[2..] == seq(2 * (n - 1), _ => 255);
      FullSum(n - 1);
    }
  }

  /** The accumulator is safe for every content of a length exactly when the length is at most 131074. */
  lemma NoOverflow(n: nat)
    ensures n <= 131074 <==> forall data: seq<Byte> :: |data| == n ==> WordSum(data) < 0x1_0000_0000
  {
    if n <= 131074 {
      forall data: seq<Byte> | |data| == n ensures WordSum(data) < 0x1_0000_0000 { SumBound(data); }
    } else {
      var data: seq<Byte> := seq(2 * (n / 2), _ => 255) + (if n % 2 == 1 then [255] else []);
      FullSum(n / 2);
      SumConcat(seq(2 * (n / 2), _ => 255), if n % 2 == 1 then [255] else []);
      assert |data| == n && WordSum(data) >= 0x1_0000_0000;
    }
  }

  lemma {:induction false} SumConcat(a: seq<Byte>, b: seq<Byte>)
    requires |a| % 2 == 0
    ensures WordSum(a + b) == WordSum(a) + WordSum(b)
    decreases |a|
  {
    if a == [] {
      assert a + b == b;
    } else {
      assert (a + b)[2..] == a[2..] + b;
      SumConcat(a[2..], b);
    }
  }

  // ----- the checksum

  /** The checksum of the first |data| bytes: the complement of the 32-bit sum, folded. */
  function Checksum(data: seq<Byte>): U16 { 65535 - Norm(WordSum(data) % 0x1_0000_0000) }

  /** The accumulating loop of inet_checksum, in a 32-bit word. */
  method SumWords(data: array<Byte>, length: nat) returns (sum: U32)
    requires length <= data.Length
    ensures sum == WordSum(data[..length]) % 0x1_0000_0000
  {
    hide WordSum, Word;
    Empties();
    ghost var all := data[..length];
    sum := 0;
    var len := length;
    var ptr := 0;
    assert all[..0] == [];
    while len > 1
      invariant ptr + len == length && ptr % 2 == 0
      invariant sum == WordSum(all[..ptr]) % 0x1_0000_0000
      decreases len
    {
      SumNext(all, ptr);
      AddWrap(WordSum(all[..ptr]), Word(data[ptr], data[ptr + 1]));
      sum := (sum + Word(data[ptr], data[ptr + 1])) % 0x1_0000_0000;
      ptr := ptr + 2;
      len := len - 2;
    }
    if len == 1 {
      SumConcat(all[..ptr], [data[ptr]]);
      OddByte(data[ptr]);
      assert all == all[..ptr] + [data[ptr]];
      AddWrap(WordSum(all[..ptr]), data[ptr]);
      sum := (sum + data[ptr]) % 0x1_0000_0000;
    } else {
      assert all[..ptr] == all;
    }
  }

  lemma AddWrap(x: nat, y: nat)
    ensures (x % 0x1_0000_0000 + y) % 0x1_0000_0000 == (x + y) % 0x1_0000_0000
  {
  }

  lemma Empties()
    ensures WordSum([]) == 0
  {
  }

  lemma OddByte(b: Byte)
    ensures WordSum([b]) == b
  {
  }

  /** The folding loop of inet_checksum. */
  method FoldDown(total: U32) returns (sum: U16, ghost rounds: nat)
    ensures sum == Norm(total) && rounds <= 2
  {
    hide Norm;
    var acc: int := total;
    rounds := 0;
    TwoRounds(total);
    while acc / 0x1_0000 != 0
      invariant acc >= 0 && Norm(acc) == Norm(total) && rounds <= 2
      invariant acc == if rounds == 0 then total else if rounds == 1 then Fold(total) else Fold(Fold(total))
      decreases acc
    {
      FoldKeeps(acc);
      acc := acc % 0x1_0000 + acc / 0x1_0000;
      rounds := rounds + 1;
    }
    NormSmall(acc);
    sum := acc;
  }

  /** inet_checksum, and how often it folds */
  method InetChecksum(data: array<Byte>, length: nat) returns (c: U16, ghost rounds: nat)
    requires length <= data.Length
    ensures c == Checksum(data[..length]) && rounds <= 2
  {
    var total := SumWords(data, length);
    var sum;
    sum, rounds := FoldDown(total);
    c := 65535 - sum;
  }

  lemma SumNext(data: seq<Byte>, i: nat)
    requires i + 1 < |data| && i % 2 == 0
    ensures WordSum(data[..i + 2]) == WordSum(data[..i]) + Word(data[i], data[i + 1])
  {
    assert data[..i + 2] == data[..i] + [data[i], data[i + 1]];
    SumConcat(data[..i], [data[i], data[i + 1]]);
    assert [data[i], data[i + 1]][2..] == [];
  }

  // ----- what the check detects

  /** data with the word at even position k replaced by w. */
  function PutWord(data: seq<Byte>, k: nat, w: U16): seq<Byte>
    requires k + 1 < |data|
  {
    data[k := w % 256][k + 1 := w / 256]
  }

  lemma PutWordSum(data: seq<Byte>, k: nat, w: U16)
    requires k + 1 < |data| && k % 2 == 0
    ensures WordSum(PutWord(data, k, w)) + Word(data[k], data[k + 1]) == WordSum(data) + w
  {
    hide WordSum, Word;
    var lo: Byte, hi: Byte := w % 256, w / 256;
    ReplaceWord(data, k, lo, hi);
    WordBack(w);
  }

  lemma ReplaceWord(data: seq<Byte>, k: nat, lo: Byte, hi: Byte)
    requires k + 1 < |data| && k % 2 == 0
    ensures WordSum(data[k := lo][k + 1 := hi]) + Word(data[k], data[k + 1]) == WordSum(data) + Word(lo, hi)
  {
    hide WordSum, Word;
    var a, b := data[..k], data[k + 2..];
    SumAround(a, data[k], data[k + 1], b);
    SumAround(a, lo, hi, b);
    assert data == a + [data[k], data[k + 1]] + b;
    assert data[k := lo][k + 1 := hi] == a + [lo, hi] + b;
  }

  lemma SumAround(a: seq<Byte>, lo: Byte, hi: Byte, b: seq<Byte>)
    requires |a| % 2 == 0
    ensures WordSum(a + [lo, hi] + b) == WordSum(a) + Word(lo, hi) + WordSum(b)
  {
    SumConcat(a, [lo, hi] + b);
    assert a + [lo, hi] + b == a + ([lo, hi] + b);
    assert ([lo, hi] + b)[2..] == b;
  }

  lemma WordBack(w: U16)
    ensures Word(w % 256, w / 256) == w
  {
  }

  /** Congruence modulo 65535. */
  predicate Same(a: int, b: int) { (a - b) % 65535 == 0 }

  lemma SameRules(a: int, b: int, c: int)
    ensures Same(a, b) == Same(b, a)
    ensures Same(a, b) ==> Same(a, c) == Same(b, c)
    ensures Same(a + c, b + c) == Same(a, b)
  {
  }

  /** The checksum of a sum that fits is 0 exactly when the sum is a nonzero multiple of 65535. */
  lemma ZeroExactly(data: seq<Byte>)
    requires |data| <= 131074
    ensures WordSum(data) % 0x1_0000_0000 == WordSum(data)
    ensures Checksum(data) == 0 <==> Same(WordSum(data), 0) && WordSum(data) > 0
  {
    hide WordSum;
    var s := WordSum(data);
    SumBound(data);
    assert s < 0x1_0000_0000;
    NormFull(s);
  }

  lemma NormFull(s: nat)
    ensures Norm(s) == 65535 <==> s % 65535 == 0 && s > 0
  {
  }

  /** Storing the checksum of data whose checksum field is 0 makes the check yield 0. */
  lemma StoredChecksumVerifies(data: seq<Byte>, k: nat)
    requires k + 1 < |data| <= 131074 && k % 2 == 0 && data[k] == data[k + 1] == 0
    ensures Checksum(PutWord(data, k, Checksum(data))) == 0
  {
    hide WordSum, PutWord, Norm, Word;
    var s, c := WordSum(data), Checksum(data);
    ZeroExactly(data);
    PutWordLength(data, k, c);
    ZeroExactly(PutWord(data, k, c));
    PutWordSum(data, k, c);
    ZeroWord();
    Completed(s);
  }

  lemma Completed(s: nat)
    ensures Same(s + (65535 - Norm(s)), 0) && s + (65535 - Norm(s)) > 0
  {
    NormFacts(s);
    assert s + (65535 - Norm(s)) == (s - Norm(s)) + 65535;
  }

  lemma ZeroWord()
    ensures Word(0, 0) == 0
  {
  }

  lemma PutWordLength(data: seq<Byte>, k: nat, w: U16)
    requires k + 1 < |data|
    ensures |PutWord(data, k, w)| == |data|
  {
  }

  /** A header that checks to 0 still does after one word changes exactly when the new word is congruent to the
      old one modulo 65535 and the sum has not become 0. */
  lemma OneWordDetected(data: seq<Byte>, k: nat, w: U16)
    requires k + 1 < |data| <= 131074 && k % 2 == 0 && Checksum(data) == 0
    ensures var changed := PutWord(data, k, w);
            Checksum(changed) == 0 <==> Same(w, Word(data[k], data[k + 1])) && WordSum(changed) > 0
  {
    hide WordSum, PutWord, Word, Same;
    var was := Word(data[k], data[k + 1]);
    var s, t := WordSum(data), WordSum(PutWord(data, k, w));
    PutWordLength(data, k, w);
    ZeroExactly(data);
    ZeroExactly(PutWord(data, k, w));
    PutWordSum(data, k, w);
    SameRules(t, 0, was);
    SameRules(s, 0, w);
    SameRules(t + was, w, was);
  }

  // ----- independence of byte order

  /** The sum of the words read in network order. */
  function NetworkSum(data: seq<Byte>): nat
    decreases |data|
  {
    if |data| == 0 then 0
    else if |data| == 1 then Word(0, data[0])
    else Word(data[1], data[0]) + NetworkSum(data[2..])
  }

  lemma {:induction false} SumsCorrespond(data: seq<Byte>)
    ensures Same(256 * WordSum(data), NetworkSum(data))
    ensures WordSum(data) == 0 <==> NetworkSum(data) == 0
    decreases |data|
  {
    if |data| >= 2 {
      SumsCorrespond(data[2..]);
      Swapped(data[0], data[1]);
      SameAdd(256 * WordSum(data[2..]), NetworkSum(data[2..]), 256 * Word(data[0], data[1]), Word(data[1], data[0]));
    }
  }

  lemma Swapped(lo: Byte, hi: Byte)
    ensures Same(256 * Word(lo, hi), Word(hi, lo))
  {
    assert 256 * Word(lo, hi) - Word(hi, lo) == 65535 * hi;
  }

  lemma SameAdd(a: int, b: int, c: int, d: int)
    requires Same(a, b) && Same(c, d)
    ensures Same(a + c, b + d)
  {
  }

  lemma SwapWord(n: U16)
    ensures Same(256 * n, Htons(n))
    ensures n == 0 <==> Htons(n) == 0
    ensures Htons(65535 - n) == 65535 - Htons(n)
  {
    var lo, hi := n % 256, n / 256;
    assert 256 * n - Htons(n) == 65535 * hi;
  }

  lemma Times256(a: int, b: int)
    requires Same(a, b)
    ensures Same(256 * a, 256 * b)
  {
    assert 256 * a - 256 * b == 256 * (a - b);
  }

  /** Section 2 (B) of RFC 1071: summing in the processor's byte order and storing in that order puts the same
      bytes in memory as summing in network order and storing in network order. */
  lemma ByteOrderIndependent(data: seq<Byte>)
    requires |data| <= 131074
    ensures Htons(Checksum(data)) == 65535 - Norm(NetworkSum(data))
  {
    hide WordSum, NetworkSum, Htons;
    var s, t := WordSum(data), NetworkSum(data);
    ZeroExactly(data);
    SumsCorrespond(data);
    SwapWord(Norm(s));
    NormSwaps(s, t);
  }

  lemma NormSwaps(s: nat, t: nat)
    requires Same(256 * s, t) && (s == 0 <==> t == 0)
    ensures Norm(t) == Htons(Norm(s))
  {
    hide Norm, Htons, Same;
    var r: int := Norm(s);
    NormSame(s);
    SwapWord(r);
    Times256(s, r);
    SameRules(256 * s, t, 256 * r);
    SameRules(256 * r, t, Htons(r));
    NormBySame(t, Htons(r));
  }

  lemma NormSame(s: nat)
    ensures Same(s, Norm(s)) && (Norm(s) == 0 <==> s == 0)
  {
    NormFacts(s);
  }

  lemma NormBySame(s: nat, r: U16)
    requires Same(s, r) && (r == 0 <==> s == 0)
    ensures Norm(s) == r
  {
    NormIs(s, r);
  }

  // ----- the IPv4 header

  const HEADER_LEN := 20
  const CHECKSUM_AT := 10

  /** What ip_output puts in a header; the rest is constant. */
  datatype Fields = Fields(len: U16, id: U16, proto: Byte, src: U32, dst: U32)

  /** Section 3.1 of RFC 791: every field in network order, the checksum still 0. */
  function Blank(h: Fields): seq<Byte> {
    [0x45, 0, h.len / 256, h.len % 256, h.id / 256, h.id % 256, 0, 0, 64, h.proto, 0, 0] + Address(h.src) + Address(h.dst)
  }

  function Address(ip: U32): seq<Byte> {
    [ip / 0x100_0000, ip / 0x1_0000 % 256, ip / 256 % 256, ip % 256]
  }

  method Store16(mem: array<Byte>, at: nat, w: U16)
    requires at + 2 <= mem.Length
    modifies mem
    ensures mem[..] == old(mem[..])[at := w % 256][at + 1 := w / 256]
  {
    mem[at], mem[at + 1] := w % 256, w / 256;
  }

  method Store32(mem: array<Byte>, at: nat, w: U32)
    requires at + 4 <= mem.Length
    modifies mem
    ensures mem[..] == old(mem[..])[at := w % 256][at + 1 := w / 256 % 256][at + 2 := w / 0x1_0000 % 256][at + 3 := w / 0x100_0000]
  {
    mem[at], mem[at + 1] := w % 256, w / 256 % 256;
    mem[at + 2], mem[at + 3] := w / 0x1_0000 % 256, w / 0x100_0000;
  }

  lemma HtonsBytes(h: U16)
    ensures Htons(h) % 256 == h / 256 && Htons(h) / 256 == h % 256
  {
  }

  lemma HtonlBytes(h: U32)
    ensures var w := Htonl(h);
            [w % 256, w / 256 % 256, w / 0x1_0000 % 256, w / 0x100_0000] == Address(h)
  {
    hide Quad;
    Quartered(h);
    SwapQuad(h / 0x100_0000, h / 0x1_0000 % 256, h / 256 % 256, h % 256);
    QuadParts(h % 256, h / 256 % 256, h / 0x1_0000 % 256, h / 0x100_0000);
  }

  /** The IP layer's own state is the identification of the next packet. */
  class IpLayer {
    var ipId: U16

    constructor ()
      ensures ipId == 0
    {
      ipId := 0;
    }

    /** The header part of ip_output: the fields in network order under a checksum that the receiver verifies. */
    method BuildHeader(ip: array<Byte>, len: U16, proto: Byte, src: U32, dst: U32)
      requires ip.Length == HEADER_LEN
      modifies this, ip
      ensures var h := Fields(len, old(ipId), proto, src, dst);
              ip[..] == PutWord(Blank(h), CHECKSUM_AT, Checksum(Blank(h)))
      ensures Checksum(ip[..]) == 0
      ensures ipId == (old(ipId) + 1) % 0x1_0000
    {
      var h := Fields(len, ipId, proto, src, dst);
      FillFields(ip, h);
      ipId := (ipId + 1) % 0x1_0000;
      assert ip[..HEADER_LEN] == ip[..];
      var c, _ := InetChecksum(ip, HEADER_LEN);
      Store16(ip, CHECKSUM_AT, c);
      StoredChecksumVerifies(Blank(h), CHECKSUM_AT);
    }

    static method FillFields(ip: array<Byte>, h: Fields)
      requires ip.Length == HEADER_LEN
      modifies ip
      ensures ip[..] == Blank(h)
    {
      HtonsBytes(h.len);
      HtonsBytes(h.id);
      ip[0], ip[1] := 0x45, 0;
      Store16(ip, 2, Htons(h.len));
      Store16(ip, 4, Htons(h.id));
      Store16(ip, 6, 0);
      ip[8], ip[9] := 64, h.proto;
      Store16(ip, CHECKSUM_AT, 0);
      assert ip[..12] == [0x45, 0, h.len / 256, h.len % 256, h.id / 256, h.id % 256, 0, 0, 64, h.proto, 0, 0];
      Store32(ip, 12, Htonl(h.src));
      HtonlBytes(h.src);
      Store32(ip, 16, Htonl(h.dst));
      HtonlBytes(h.dst);
    }

    /** The checksum test of ip_input, on a header of the length its first byte gives. */
    static method VerifyHeader(ip: array<Byte>) returns (ok: bool)
      requires ip.Length >= HEADER_LEN && HeaderLength(ip[0]) <= ip.Length
      ensures ok <==> Checksum(ip[..HeaderLength(ip[0])]) == 0
    {
      var c, _ := InetChecksum(ip, HeaderLength(ip[0]));
      ok := c == 0;
    }
  }

  /** IP_HDR_LEN */
  function HeaderLength(verIhl: Byte): nat { verIhl % 16 * 4 }

  /** The low half of the first byte counts the header's words. */
  lemma HeaderLengthIs(version: nat, words: nat)
    requires version < 16 && words < 16
    ensures HeaderLength(16 * version + words) == 4 * words
  {
  }

  /** A built header passes the receiver's check, whatever its fields. */
  lemma BuiltHeaderAccepted(h: Fields)
    ensures var sent := PutWord(Blank(h), CHECKSUM_AT, Checksum(Blank(h)));
            |sent| == HEADER_LEN == HeaderLength(sent[0]) && Checksum(sent[..HEADER_LEN]) == 0
  {
    hide WordSum, Word, Same, Norm;
    var blank := Blank(h);
    StoredChecksumVerifies(blank, CHECKSUM_AT);
    var sent := PutWord(blank, CHECKSUM_AT, Checksum(blank));
    assert sent[..HEADER_LEN] == sent;
  }

  /** Changing one word of a built header, other than the first, goes unnoticed exactly when 0 and 65535 are exchanged. */
  lemma HeaderDamage(h: Fields, k: nat, w: U16)
    requires k % 2 == 0 && k + 1 < HEADER_LEN
    ensures var sent := PutWord(Blank(h), CHECKSUM_AT, Checksum(Blank(h)));
            |sent| == HEADER_LEN && (k >= 2 ==>
              (var was := Word(sent[k], sent[k + 1]);
               Checksum(PutWord(sent, k, w)) == 0 <==> w == was || (w == 0 && was == 65535) || (w == 65535 && was == 0)))
  {
    hide WordSum, Word, Same, Norm;
    var blank := Blank(h);
    StoredChecksumVerifies(blank, CHECKSUM_AT);
    var sent := PutWord(blank, CHECKSUM_AT, Checksum(blank));
    if k >= 2 {
      OneWordDetected(sent, k, w);
      Nonzero(PutWord(sent, k, w));
      SameWords(w, Word(sent[k], sent[k + 1]));
    }
  }

  lemma SameWords(v: U16, w: U16)
    ensures Same(v, w) <==> v == w || (v == 0 && w == 65535) || (v == 65535 && w == 0)
  {
  }

  lemma Nonzero(data: seq<Byte>)
    requires |data| >= 2 && data[0] == 0x45
    ensures WordSum(data) > 0
  {
  }

  // ----- the header's fields

  /** The k bytes at position at as one number, the first byte the highest. */
  function Field(data: seq<Byte>, at: nat, k: nat): nat
    requires at + k <= |data|
  {
    if k == 0 then 0 else 256 * Field(data, at, k - 1) + data[at + k - 1]
  }

  /** Where section 3.1 of RFC 791 puts every field: version 4 and five words of header, no type of service, length,
      identification, no fragmentation, time to live 64, protocol, source and destination; only the checksum is not 0
      besides. */
  lemma HeaderFields(h: Fields)
    ensures var sent := PutWord(Blank(h), CHECKSUM_AT, Checksum(Blank(h)));
            && |sent| == 20
            && Field(sent, 0, 1) == 0x45 && Field(sent, 1, 1) == 0 && Field(sent, 2, 2) == h.len && Field(sent, 4, 2) == h.id
            && Field(sent, 6, 2) == 0 && Field(sent, 8, 1) == 64 && Field(sent, 9, 1) == h.proto
            && Field(sent, 12, 4) == h.src && Field(sent, 16, 4) == h.dst
  {
    hide Checksum;
    var sent := PutWord(Blank(h), CHECKSUM_AT, Checksum(Blank(h)));
    OneByte(sent, 0);
    OneByte(sent, 1);
    OneByte(sent, 8);
    OneByte(sent, 9);
    TwoBytes(sent, 2, h.len);
    TwoBytes(sent, 4, h.id);
    TwoBytes(sent, 6, 0);
    FourBytes(sent, 12, h.src);
    FourBytes(sent, 16, h.dst);
  }

  lemma OneByte(data: seq<Byte>, at: nat)
    requires at < |data|
    ensures Field(data, at, 1) == data[at]
  {
    assert Field(data, at, 0) == 0;
  }

  lemma TwoBytes(data: seq<Byte>, at: nat, w: U16)
    requires at + 2 <= |data| && data[at] == w / 256 && data[at + 1] == w % 256
    ensures Field(data, at, 2) == w
  {
    OneByte(data, at);
  }

  lemma FourBytes(data: seq<Byte>, at: nat, w: U32)
    requires at + 4 <= |data| && data[at..at + 4] == Address(w)
    ensures Field(data, at, 4) == w
  {
    hide Quad;
    OneByte(data, at);
    var a, b, c, d := w / 0x100_0000, w / 0x1_0000 % 256, w / 256 % 256, w % 256;
    assert data[at..at + 4][0] == a && data[at..at + 4][1] == b && data[at..at + 4][2] == c && data[at..at + 4][3] == d;
    assert Field(data, at, 2) == 256 * a + b;
    assert Field(data, at, 3) == 256 * Field(data, at, 2) + c;
    assert Field(data, at, 4) == 256 * Field(data, at, 3) + d;
    Quartered(w);
    QuadIs(a, b, c, d);
  }
}
