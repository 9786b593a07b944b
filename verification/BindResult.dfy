/** When the LDAP client of backend/internal/auth/ldap.go takes octets for a bind response, stated on the
    octets (sections 4.1.1 and 4.2.2 of RFC 4511). */
module BindResult {
  import opened Ber

  // ---- what is read, exactly ----

  /** The octets are an element: its tag, its length in the short form or in a long form of at most four
      octets, its content, and whatever follows. */
  ghost predicate IsElement(b: seq<byte>, e: Elem) {
    || (|e.val| < 0x80 && b == [e.tag, |e.val|] + e.val + e.rest)
    || (exists ls: seq<byte> | |ls| <= 4 && FromBigEndian(ls) == |e.val| :: b == [e.tag, 0x80 + |ls|] + ls + e.val + e.rest)
  }

  lemma ReadsExactly(b: seq<byte>, e: Elem)
    ensures ReadTlv(b) == Ok(e) <==> IsElement(b, e)
  {
    if ReadTlv(b) == Ok(e) {
      ReadIsElement(b);
    }
    if IsElement(b, e) {
      if |e.val| < 0x80 && b == [e.tag, |e.val|] + e.val + e.rest {
        SplitJoined(b, [e.tag, |e.val|], e.val, e.rest);
      } else {
        var ls :| |ls| <= 4 && FromBigEndian(ls) == |e.val| && b == [e.tag, 0x80 + |ls|] + ls + e.val + e.rest;
        LongFormReads(e.tag, ls, e.val, e.rest);
      }
    }
  }

  lemma ReadIsElement(b: seq<byte>)
    requires ReadTlv(b).Ok?
    ensures IsElement(b, ReadTlv(b).value)
  {
    var e := ReadTlv(b).value;
    if b[1] < 0x80 {
      assert b == [e.tag, |e.val|] + e.val + e.rest;
    } else {
      LongFormIsElement(b, e, b[2..2 + (b[1] - 0x80)]);
    }
  }

  lemma LongFormIsElement(b: seq<byte>, e: Elem, ls: seq<byte>)
    requires |b| >= 2 && 0x80 <= b[1] <= 0x84 && |b| >= 2 + (b[1] - 0x80) && ls == b[2..2 + (b[1] - 0x80)]
    requires Split(b, 2 + |ls|, FromBigEndian(ls)) == Ok(e)
    ensures IsElement(b, e)
  {
    hide FromBigEndian;
    var off := 2 + |ls|;
    HeaderParts(b, ls);
    Parts(b, off, |e.val|);
    assert b == [e.tag, 0x80 + |ls|] + ls + e.val + e.rest;
  }

  lemma HeaderParts(b: seq<byte>, ls: seq<byte>)
    requires |b| >= 2 && 0x80 <= b[1] && |b| >= 2 + (b[1] - 0x80) && ls == b[2..2 + (b[1] - 0x80)]
    ensures b[..2 + |ls|] == [b[0], 0x80 + |ls|] + ls
  {
  }

  lemma Parts(b: seq<byte>, off: nat, len: nat)
    requires off + len <= |b|
    ensures b == b[..off] + b[off..off + len] + b[off + len..]
  {
  }

  /** The elements of a bind response: a message with an identifier, then the response with application tag
      1, which opens with the ENUMERATED `code`. */
  ghost predicate IsBindResponse(data: seq<byte>, msg: Elem, id: Elem, resp: Elem, code: Elem) {
    && IsElement(data, msg) && IsElement(msg.val, id) && IsElement(id.rest, resp) && IsElement(resp.val, code)
    && resp.tag == 0x61 && code.tag == 0x0a
  }

  /** The parser answers with a code exactly if the octets are a bind response whose ENUMERATED has content
      and that is the first octet of it. Anything else, such as a response of another operation, is an error. */
  lemma BindResultExactly(data: seq<byte>, c: byte)
    ensures ParseBindResult(data) == Ok(c)
            <==> exists msg, id, resp, code ::
                   IsBindResponse(data, msg, id, resp, code) && code.val != [] && code.val[0] == c
  {
    hide ReadTlv, IsElement;
    if ParseBindResult(data) == Ok(c) {
      var msg := ReadTlv(data).value;
      var id := ReadTlv(msg.val).value;
      var resp := ReadTlv(id.rest).value;
      var code := ReadTlv(resp.val).value;
      ReadsExactly(data, msg);
      ReadsExactly(msg.val, id);
      ReadsExactly(id.rest, resp);
      ReadsExactly(resp.val, code);
      assert IsBindResponse(data, msg, id, resp, code);
    }
    if msg, id, resp, code :| IsBindResponse(data, msg, id, resp, code) && code.val != [] && code.val[0] == c {
      ReadsExactly(data, msg);
      ReadsExactly(msg.val, id);
      ReadsExactly(id.rest, resp);
      ReadsExactly(resp.val, code);
    }
  }
}
