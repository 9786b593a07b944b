/** The LDAP BER reader and writer of backend/internal/auth/ldap.go: tag-length-value elements with
    definite lengths (section 8.1.3 of X.690, section 5.1 of RFC 4511) and the bind response. */
module Ber {
  type byte = x: int | 0 <= x < 256

  datatype Error = Truncated | BadLength | TruncatedValue | WrongTag | EmptyCode

  datatype Result<+T> = Ok(value: T) | Err(error: Error) {
    predicate IsFailure() { Err? }
    function PropagateFailure<U>(): Result<U> requires Err? { Err(error) }
    function Extract(): T requires Ok? { value }
  }

  datatype Elem = Elem(tag: byte, val: seq<byte>, rest: seq<byte>)

  /** Base-256 digits, most significant first, none for zero. */
  function BigEndian(n: nat): seq<byte> {
    if n == 0 then [] else BigEndian(n / 256) + [n % 256]
  }

  function FromBigEndian(s: seq<byte>): nat {
    if s == [] then 0 else FromBigEndian(s[..|s| - 1]) * 256 + s[|s| - 1]
  }

  /** The element with this tag and content: short form below 128, otherwise the long form, whose
      first length octet has its high bit set. */
  function Tlv(tag: byte, content: seq<byte>): seq<byte> {
    if |content| < 0x80 then [tag, |content|] + content
    else
      var l := BigEndian(|content|);
      [tag, 0x80 + |l| % 0x80] + l + content
  }

  /** An INTEGER element holding the unsigned magnitude; a negative number gets no content octets. */
  function BerInt(n: int): seq<byte> {
    if n == 0 then [0x02, 0x01, 0x00]
    else
      var b := if n > 0 then BigEndian(n) else [];
      [0x02, |b| % 256] + b
  }

  function ReadTlv(b: seq<byte>): Result<Elem> {
    if |b| < 2 then Err(Truncated)
    else if b[1] < 0x80 then Split(b, 2, b[1])
    else
      var num := b[1] - 0x80;
      if num > 4 || |b| < 2 + num then Err(BadLength)
      else Split(b, 2 + num, FromBigEndian(b[2..2 + num]))
  }

  function Split(b: seq<byte>, off: nat, len: nat): Result<Elem>
    requires 2 <= off <= |b|
  {
    if |b| < off + len then Err(TruncatedValue)
    else Ok(Elem(b[0], b[off..off + len], b[off + len..]))
  }

  lemma MoveDigit(n: nat, acc: seq<byte>)
    requires n > 0
    ensures BigEndian(n) + acc == BigEndian(n / 256) + ([n % 256] + acc)
  {
  }

  method WriteTlv(tag: byte, content: seq<byte>) returns (r: seq<byte>)
    ensures r == Tlv(tag, content)
  {
    var l := |content|;
    if l < 0x80 {
      return [tag, l] + content;
    }
    var lengthBytes := Digits(l);
    r := [tag, 0x80 + |lengthBytes| % 0x80] + lengthBytes + content;
  }

  /** The digit loop that the writers of lengths and of integers share. */
  method Digits(n: int) returns (b: seq<byte>)
    ensures b == if n > 0 then BigEndian(n) else []
  {
    b := [];
    var v := n;
    while v > 0
      invariant n > 0 ==> v >= 0 && BigEndian(v) + b == BigEndian(n)
      invariant n <= 0 ==> v <= 0 && b == []
    {
      MoveDigit(v, b);
      b := [v % 256] + b;
      v := v / 256;
    }
    assert [] + b == b;
  }

  method WriteInt(n: int) returns (r: seq<byte>)
    ensures r == BerInt(n)
  {
    if n == 0 {
      return [0x02, 0x01, 0x00];
    }
    var b := Digits(n);
    r := [0x02, |b| % 256] + b;
  }

  lemma NoDigits()
    ensures FromBigEndian([]) == 0
  {
  }

  lemma OneMoreDigit(s: seq<byte>, d: byte)
    ensures FromBigEndian(s + [d]) == FromBigEndian(s) * 256 + d
  {
    assert (s + [d])[..|s|] == s;
  }

  method ParseTlv(b: seq<byte>) returns (r: Result<Elem>)
    ensures r == ReadTlv(b)
  {
    hide FromBigEndian;
    if |b| < 2 {
      return Err(Truncated);
    }
    var l: int, off := b[1], 2;
    if l >= 0x80 {
      var num := l - 0x80;
      if num > 4 || |b| < off + num {
        return Err(BadLength);
      }
      l := 0;
      NoDigits();
      assert b[2..2] == [];
      for i := 0 to num
        invariant l == FromBigEndian(b[2..2 + i])
      {
        OneMoreDigit(b[2..2 + i], b[off + i]);
        assert b[2..2 + (i + 1)] == b[2..2 + i] + [b[off + i]];
        l := l * 256 + b[off + i];
      }
      off := off + num;
    }
    if |b| < off + l {
      return Err(TruncatedValue);
    }
    return Ok(Elem(b[0], b[off..off + l], b[off + l..]));
  }

  /** The result code of a bind response: the first content octet of the ENUMERATED that opens it. */
  function ParseBindResult(data: seq<byte>): Result<byte> {
    var msg :- ReadTlv(data);
    var id :- ReadTlv(msg.val);
    var resp :- ReadTlv(id.rest);
    if resp.tag != 0x61 then Err(WrongTag)
    else
      var rc :- ReadTlv(resp.val);
      if rc.tag != 0x0a then Err(WrongTag)
      else if rc.val == [] then Err(EmptyCode)
      else Ok(rc.val[0])
  }

  // ---- the length octets ----

  lemma {:induction false} BigEndianRoundTrip(n: nat)
    ensures FromBigEndian(BigEndian(n)) == n
  {
    if n > 0 {
      BigEndianRoundTrip(n / 256);
      assert (BigEndian(n / 256) + [n % 256])[..|BigEndian(n)| - 1] == BigEndian(n / 256);
    }
  }

  function Pow256(k: nat): (p: nat)
    ensures p >= 1
  {
    if k == 0 then 1 else 256 * Pow256(k - 1)
  }

  lemma {:induction false} BigEndianLength(n: nat, k: nat)
    ensures |BigEndian(n)| <= k <==> n < Pow256(k)
    decreases k
  {
    if k > 0 && n > 0 {
      BigEndianLength(n / 256, k - 1);
      var p := Pow256(k - 1);
      assert n == n / 256 * 256 + n % 256;
      assert n / 256 < p <==> n < 256 * p;
    }
  }

  lemma Lengths(n: nat)
    ensures |BigEndian(n)| <= 4 <==> n < 0x1_0000_0000
    ensures n < 0x8000_0000_0000_0000 ==> |BigEndian(n)| <= 8
    ensures n >= 1 <==> BigEndian(n) != []
  {
    BigEndianLength(n, 4);
    BigEndianLength(n, 8);
    BigEndianLength(n, 0);
    assert Pow256(2) == 0x1_0000 && Pow256(4) == 0x1_0000_0000;
    assert Pow256(6) == 0x1_0000_0000_0000 && Pow256(8) == 0x1_0000_0000_0000_0000;
  }

  // ---- round trips ----

  /** Any long form with at most four length octets, minimal or not, reads back. */
  lemma LongFormReads(tag: byte, ls: seq<byte>, val: seq<byte>, rest: seq<byte>)
    requires |ls| <= 4 && FromBigEndian(ls) == |val|
    ensures ReadTlv([tag, 0x80 + |ls|] + ls + val + rest) == Ok(Elem(tag, val, rest))
  {
    hide FromBigEndian;
    var h := [tag, 0x80 + |ls|] + ls;
    var b := h + val + rest;
    assert b[1] == 0x80 + |ls|;
    assert b[2..2 + |ls|] == ls;
    SplitJoined(b, h, val, rest);
  }

  lemma SplitJoined(b: seq<byte>, h: seq<byte>, val: seq<byte>, rest: seq<byte>)
    requires |h| >= 2 && b == h + val + rest
    ensures Split(b, |h|, |val|) == Ok(Elem(b[0], val, rest))
  {
    assert b[|h|..|h| + |val|] == val;
    assert b[|h| + |val|..] == rest;
  }

  lemma ShortFormReads(tag: byte, val: seq<byte>, rest: seq<byte>)
    requires |val| < 0x80
    ensures ReadTlv(Tlv(tag, val) + rest) == Ok(Elem(tag, val, rest))
  {
    hide BigEndian, FromBigEndian;
    SplitJoined([tag, |val|] + val + rest, [tag, |val|], val, rest);
  }

  lemma TooManyOctets(tag: byte, ls: seq<byte>, val: seq<byte>, rest: seq<byte>)
    requires 4 < |ls| < 0x80
    ensures ReadTlv([tag, 0x80 + |ls|] + ls + val + rest) == Err(BadLength)
  {
    hide FromBigEndian;
  }

  lemma WrittenLong(tag: byte, content: seq<byte>, rest: seq<byte>)
    requires 0x80 <= |content| < 0x8000_0000_0000_0000
    ensures var ls := BigEndian(|content|);
            && |ls| <= 8 && FromBigEndian(ls) == |content|
            && Tlv(tag, content) + rest == [tag, 0x80 + |ls|] + ls + content + rest
            && (|ls| <= 4 <==> |content| < 0x1_0000_0000)
  {
    Lengths(|content|);
    BigEndianRoundTrip(|content|);
    hide BigEndian, FromBigEndian;
  }

  /** What the writer writes the reader reads back, whatever follows it, exactly for contents
      shorter than 2^32 octets; a longer one is refused for its length. */
  lemma TlvRoundTrip(tag: byte, content: seq<byte>, rest: seq<byte>)
    requires |content| < 0x8000_0000_0000_0000
    ensures ReadTlv(Tlv(tag, content) + rest)
         == if |content| < 0x1_0000_0000 then Ok(Elem(tag, content, rest)) else Err(BadLength)
  {
    hide Tlv, ReadTlv, BigEndian, FromBigEndian;
    if |content| < 0x80 {
      ShortFormReads(tag, content, rest);
    } else {
      WrittenLong(tag, content, rest);
      var ls := BigEndian(|content|);
      if |content| < 0x1_0000_0000 {
        LongFormReads(tag, ls, content, rest);
      } else {
        TooManyOctets(tag, ls, content, rest);
      }
    }
  }

  /** On success the reader has split its input into a header of 2 to 6 octets, the value and a
      strictly shorter rest. The method above stays within the input on every input. */
  lemma ReadSplits(b: seq<byte>)
    requires ReadTlv(b).Ok?
    ensures var e := ReadTlv(b).value;
            && |e.rest| < |b| && e.tag == b[0]
            && exists h | 2 <= |h| <= 6 :: b == h + e.val + e.rest
  {
    var e := ReadTlv(b).value;
    var off := if b[1] < 0x80 then 2 else 2 + (b[1] - 0x80);
    hide FromBigEndian;
    var h := b[..off];
    assert 2 <= |h| <= 6 && b == h + e.val + e.rest;
  }

  /** No written element is a proper prefix of another: a stream of elements splits in one way. */
  lemma TlvIsPrefixFree(tag: byte, c: seq<byte>, r: seq<byte>, tag': byte, c': seq<byte>, r': seq<byte>)
    requires |c| < 0x1_0000_0000 && |c'| < 0x1_0000_0000
    requires Tlv(tag, c) + r == Tlv(tag', c') + r'
    ensures tag == tag' && c == c' && r == r'
  {
    TlvRoundTrip(tag, c, r);
    TlvRoundTrip(tag', c', r');
  }

  function IntOctets(n: int): seq<byte> {
    if n > 0 then BigEndian(n) else if n == 0 then [0] else []
  }

  lemma BerIntIsTlv(n: int)
    requires n < 0x8000_0000_0000_0000
    ensures |IntOctets(n)| <= 8 && BerInt(n) == Tlv(0x02, IntOctets(n))
  {
    if n > 0 {
      Lengths(n);
    }
    hide BigEndian;
  }

  lemma IntOctetsRead(n: nat)
    ensures FromBigEndian(IntOctets(n)) == n
  {
    BigEndianRoundTrip(n);
  }

  lemma BerIntReads(n: int, rest: seq<byte>)
    requires n < 0x8000_0000_0000_0000
    ensures ReadTlv(BerInt(n) + rest).Ok? && ReadTlv(BerInt(n) + rest).value.rest == rest
    ensures n >= 0 ==> FromBigEndian(ReadTlv(BerInt(n) + rest).value.val) == n
  {
    BerIntIsTlv(n);
    TlvRoundTrip(0x02, IntOctets(n), rest);
    if n >= 0 {
      IntOctetsRead(n);
    }
    hide BerInt, IntOctets, Tlv, ReadTlv, FromBigEndian;
  }

  /** The content octets of a non-negative ENUMERATED, as an unsigned magnitude. */
  function EnumOctets(code: nat): seq<byte> {
    if code == 0 then [0] else BigEndian(code)
  }

  function BindResponse(id: int, code: nat, t1: seq<byte>, t2: seq<byte>, t3: seq<byte>): seq<byte> {
    Tlv(0x30, BerInt(id) + (Tlv(0x61, Tlv(0x0a, EnumOctets(code)) + t1) + t2)) + t3
  }

  lemma TlvLonger(tag: byte, c: seq<byte>)
    ensures |Tlv(tag, c)| > |c|
  {
  }

  /** For a bind response with any message id and any trailing elements at each level, the parser
      returns a code, and it is the encoded one exactly when that fits one octet. */
  lemma BindResultRoundTrip(id: int, code: nat, t1: seq<byte>, t2: seq<byte>, t3: seq<byte>)
    requires id < 0x8000_0000_0000_0000
    requires |BindResponse(id, code, t1, t2, [])| < 0x1_0000_0000
    ensures ParseBindResult(BindResponse(id, code, t1, t2, t3)) == Ok(EnumOctets(code)[0])
    ensures ParseBindResult(BindResponse(id, code, t1, t2, t3)) == Ok(code) <==> code < 256
  {
    Lengths(code);
    var octets := EnumOctets(code);
    var rc := Tlv(0x0a, octets);
    var resp := Tlv(0x61, rc + t1);
    var body := BerInt(id) + (resp + t2);
    TlvLonger(0x0a, octets);
    TlvLonger(0x61, rc + t1);
    TlvLonger(0x30, body);
    TlvRoundTrip(0x30, body, t3);
    BerIntReads(id, resp + t2);
    TlvRoundTrip(0x61, rc + t1, t2);
    TlvRoundTrip(0x0a, octets, t1);
    if 0 < code < 256 {
      assert BigEndian(code / 256) == [];
    }
  }

  /** The first octet of a length weighs most. */
  lemma {:induction false} FirstWeighsMost(d: byte, s: seq<byte>)
    ensures FromBigEndian([d] + s) == d * Pow256(|s|) + FromBigEndian(s)
    decreases |s|
  {
    if s == [] {
      assert [d] + s == [] + [d];
      OneMoreDigit([], d);
    } else {
      var n := |s| - 1;
      FirstWeighsMost(d, s[..n]);
      assert s == s[..n] + [s[n]] && [d] + s == [d] + s[..n] + [s[n]];
      OneMoreDigit([d] + s[..n], s[n]);
      OneMoreDigit(s[..n], s[n]);
      assert Pow256(|s|) == 256 * Pow256(n);
      hide FromBigEndian, Pow256;
      Regroup(d, Pow256(n), FromBigEndian(s[..n]), s[n]);
    }
  }

  lemma Regroup(d: int, p: int, f: int, x: int)
    ensures (d * p + f) * 256 + x == d * (256 * p) + (f * 256 + x)
  {
  }
}
