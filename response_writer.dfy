/** Response serialisation (src/response.c): an HTTP/1.1 status line and
    three header fields, formatted into a 1024-byte buffer, written to the
    client socket, followed by `body_len` bytes of body. */
module ResponseWriter {
  import opened CStrings
  import opened Decimal
  import opened Sera

  /** `sizeof(header)`: `snprintf` keeps at most 1023 characters. */
  const HeaderSize: nat := 1024

  /** The client connection: the bytes written to it so far, in order, and
      whether its descriptor has been closed. */
  class Socket {
    var output: seq<char>
    var closed: bool

    constructor ()
      ensures output == [] && !closed
    {
      output, closed := [], false;
    }

    /** `write(fd, buf, n)`: the first `n` bytes of `buf` go out. */
    method Write(buf: seq<char>, n: nat)
      requires n <= |buf|
      modifies this`output
      ensures output == old(output) + buf[..n]
    {
      output := output + buf[..n];
    }

    /** `close(fd)`. */
    method Close()
      modifies this`closed
      ensures closed
    {
      closed := true;
    }
  }

  /** The text the format string of `send_http_response` describes: the
      status line (section 4 of RFC 9112) with the reason phrase `OK` for
      every status, then `Content-Type`, `Content-Length` (section 8.6 of
      RFC 9110) and `Connection: close` (section 9.6 of RFC 9112), then the
      empty line that ends the header section. */
  function HeaderText(status: int, contentType: string, bodyLen: nat): string {
    Version + (IntToString(status) + (StatusEnd + (contentType +
    (TypeEnd + (NatToString(bodyLen) + HeaderEnd)))))
  }

  /** What `snprintf` leaves in `header[1024]`. */
  function Header(res: Response): (h: string)
    ensures |h| < HeaderSize
  {
    Truncate(HeaderText(res.status, res.contentType, res.bodyLen), HeaderSize - 1)
  }

  /** Every byte `send_http_response` writes: the header first, then exactly
      `body_len` bytes of the body. */
  function Wire(res: Response): (w: string)
    requires res.bodyLen <= |res.body|
    ensures |w| == |Header(res)| + res.bodyLen
    ensures w[..|Header(res)|] == Header(res) && w[|Header(res)|..] == res.body[..res.bodyLen]
  {
    Header(res) + res.body[..res.bodyLen]
  }

  /** `send_http_response`: two writes, `strlen(header)` bytes of header and
      `body_len` bytes of body. */
  method SendHttpResponse(sock: Socket, res: Response)
    requires res.bodyLen <= |res.body| && NoNul(res.contentType)
    modifies sock`output
    ensures sock.output == old(sock.output) + Wire(res)
  {
    var header := Header(res);
    sock.Write(header, |header|);
    sock.Write(res.body, res.bodyLen);
  }

  /** The blocks `free_http_response` hands to `free`, in order. */
  datatype Block = BodyBlock | RecordBlock

  /** `free_http_response`: nothing for NULL; otherwise the body, then the
      record itself. */
  function FreeResponse(res: Option<Response>): (freed: seq<Block>)
    ensures res.None? <==> freed == []
    ensures res.Some? ==> freed[|freed| - 1] == RecordBlock && BodyBlock in freed
  {
    if res.None? then [] else [BodyBlock, RecordBlock]
  }

  // ---------------------------------------------------------------------
  // Reading the bytes back, as a client would

  const Version: string := "HTTP/1.1 "
  const StatusEnd: string := " OK\r\nContent-Type: "
  const TypeEnd: string := "\r\nContent-Length: "
  const HeaderEnd: string := "\r\nConnection: close\r\n\r\n"

  /** One field of the header: the text of `s` up to the first `stop`,
      which must begin the literal `next`; also gives what follows `next`. */
  function ReadField(s: string, stop: char, next: string): (r: Option<(string, string)>)
    ensures r.Some? ==> |r.value.1| <= |s|
  {
    match IndexOf(s, stop)
    case None => None
    case Some(i) =>
      if StartsWith(s[i..], next) then Some((s[..i], s[i + |next|..])) else None
  }

  /** The three fields of a header after `HTTP/1.1 `, and what follows. */
  function ReadFields(a: string): (r: Option<(string, string, string, string)>)
    ensures r.Some? ==> |r.value.3| <= |a|
  {
    match ReadField(a, ' ', StatusEnd)
    case None => None
    case Some((statusText, c)) =>
      match ReadField(c, '\r', TypeEnd)
      case None => None
      case Some((contentType, e)) =>
        match ReadField(e, '\r', HeaderEnd)
        case None => None
        case Some((lenText, rest)) => Some((statusText, contentType, lenText, rest))
  }

  /** Read the header at the start of `w`: status, content type, content
      length and the number of characters the header takes. */
  function ParseHead(w: string): Option<(int, string, nat, nat)> {
    if !StartsWith(w, Version) then None else HeadOf(ReadFields(w[|Version|..]), |w|)
  }

  /** The values the fields of a header of `total` characters denote. */
  function HeadOf(fields: Option<(string, string, string, string)>, total: nat): Option<(int, string, nat, nat)>
    requires fields.Some? ==> |fields.value.3| <= total
  {
    match fields
    case None => None
    case Some((statusText, contentType, lenText, rest)) =>
      match (ParseInt(statusText), ParseNat(lenText))
      case (Some(status), Some(len)) => Some((status, contentType, len, total - |rest|))
      case _ => None
  }

  /** A field printed without its stop character reads back whole. */
  lemma ReadFieldOf(x: string, stop: char, next: string, rest: string)
    requires forall i :: 0 <= i < |x| ==> x[i] != stop
    requires |next| > 0 && next[0] == stop
    ensures ReadField(x + (next + rest), stop, next) == Some((x, rest))
  {
    var s := x + (next + rest);
    IndexOfAfter(x, next + rest, stop);
    assert s[..|x|] == x && s[|x|..] == next + rest;
    assert s[|x| + |next|..] == rest;
  }

  /** A client's reading of a whole response: the header, then as many
      bytes of body as `Content-Length` announces, and nothing more. */
  function ReadResponse(w: string): Option<Response> {
    match ParseHead(w)
    case None => None
    case Some((status, contentType, len, headLen)) =>
      if headLen <= |w| && |w| - headLen == len then
        Some(Response(status, contentType, w[headLen..], len))
      else None
  }

  predicate NoCR(s: string) {
    forall i :: 0 <= i < |s| ==> s[i] != '\r'
  }

  predicate NoSpace(s: string) {
    forall i :: 0 <= i < |s| ==> s[i] != ' '
  }

  /** `a` holds the three field texts, each followed by its separator,
      and none holding its own stop character. */
  predicate Printed(a: string, st: string, contentType: string, n: string, body: string) {
    NoSpace(st) && NoCR(contentType) && NoCR(n) &&
    a == st + (StatusEnd + (contentType + (TypeEnd + (n + (HeaderEnd + body)))))
  }

  /** Three fields printed without their stop characters read back whole. */
  lemma ReadFieldsOf(a: string, st: string, contentType: string, n: string, body: string)
    requires Printed(a, st, contentType, n, body)
    ensures ReadFields(a) == Some((st, contentType, n, body))
  {
    var e := n + (HeaderEnd + body);
    var c := contentType + (TypeEnd + e);
    ReadFieldOf(st, ' ', StatusEnd, c);
    ReadFieldOf(contentType, '\r', TypeEnd, e);
    ReadFieldOf(n, '\r', HeaderEnd, body);
  }

  /** A header is read field by field from what follows `HTTP/1.1 `. */
  lemma ParseHeadAfterVersion(w: string, a: string)
    requires w == Version + a
    ensures ParseHead(w) == HeadOf(ReadFields(a), |w|)
  {
    AfterPrefix(Version, a);
  }

  /** Fields whose texts denote numbers give the header those numbers. */
  lemma HeadOfNumbers(fields: Option<(string, string, string, string)>, total: nat,
                      st: string, contentType: string, n: string, body: string, status: int, len: nat)
    requires fields == Some((st, contentType, n, body)) && |body| <= total
    requires ParseInt(st) == Some(status) && ParseNat(n) == Some(len)
    ensures HeadOf(fields, total) == Some((status, contentType, len, total - |body|))
  {
  }

  /** A header whose fields read back as a status text, a content type and
      a length text reads back as the values those texts denote. */
  lemma ParseHeadOfFields(w: string, a: string, st: string, contentType: string, n: string, body: string,
                          status: int, len: nat)
    requires w == Version + a
    requires ReadFields(a) == Some((st, contentType, n, body))
    requires ParseInt(st) == Some(status) && ParseNat(n) == Some(len)
    ensures ParseHead(w) == Some((status, contentType, len, |w| - |body|))
  {
    ParseHeadAfterVersion(w, a);
    HeadOfNumbers(ReadFields(a), |w|, st, contentType, n, body, status, len);
  }

  /** A header printed from field texts without their stop characters reads
      back as the values those texts denote. */
  lemma ParseHeadOfParts(w: string, a: string, st: string, contentType: string, n: string, body: string,
                         status: int, len: nat)
    requires Printed(a, st, contentType, n, body) && w == Version + a
    requires ParseInt(st) == Some(status) && ParseNat(n) == Some(len)
    ensures ParseHead(w) == Some((status, contentType, len, |w| - |body|))
  {
    ReadFieldsOf(a, st, contentType, n, body);
    ParseHeadOfFields(w, a, st, contentType, n, body, status, len);
  }

  /** The printed numbers hold no separator and read back as themselves. */
  lemma NumberFields(status: int, bodyLen: nat)
    ensures NoSpace(IntToString(status)) && ParseInt(IntToString(status)) == Some(status)
    ensures NoCR(NatToString(bodyLen)) && ParseNat(NatToString(bodyLen)) == Some(bodyLen)
  {
    var st := IntToString(status);
    if status < 0 {
      assert forall i :: 1 <= i < |st| ==> st[i] == st[1..][i - 1];
    }
    ParseIntIntToString(status);
    ParseNatNatToString(bodyLen);
  }

  /** The header followed by a body, regrouped field by field. */
  lemma HeaderThenBody(status: int, contentType: string, bodyLen: nat, body: string)
    ensures HeaderText(status, contentType, bodyLen) + body ==
            Version + (IntToString(status) + (StatusEnd + (contentType + (TypeEnd +
            (NatToString(bodyLen) + (HeaderEnd + body))))))
  {
  }

  /** The printed header reads back as the status, content type and
      length it was printed from, and ends where the body begins. */
  lemma ParseHeadText(status: int, contentType: string, bodyLen: nat, body: string)
    requires NoCR(contentType)
    ensures var h := HeaderText(status, contentType, bodyLen);
            ParseHead(h + body) == Some((status, contentType, bodyLen, |h|))
  {
    var h := HeaderText(status, contentType, bodyLen);
    NumberFields(status, bodyLen);
    HeaderThenBody(status, contentType, bodyLen, body);
    var st, n := IntToString(status), NatToString(bodyLen);
    var a := st + (StatusEnd + (contentType + (TypeEnd + (n + (HeaderEnd + body)))));
    ParseHeadOfParts(h + body, a, st, contentType, n, body, status, bodyLen);
    assert |h + body| - |body| == |h|;
  }

  /** What the server writes is read back by a client as the response it
      sent, with `Content-Length` equal to `body_len` and exactly `body_len`
      bytes of body, provided the header was not truncated and the content
      type holds no carriage return. */
  lemma ReadWire(res: Response)
    requires res.bodyLen <= |res.body| && NoCR(res.contentType)
    requires |HeaderText(res.status, res.contentType, res.bodyLen)| < HeaderSize
    ensures ReadResponse(Wire(res)) ==
              Some(Response(res.status, res.contentType, res.body[..res.bodyLen], res.bodyLen))
  {
    var h := HeaderText(res.status, res.contentType, res.bodyLen);
    ParseHeadText(res.status, res.contentType, res.bodyLen, res.body[..res.bodyLen]);
    assert Wire(res) == h + res.body[..res.bodyLen];
    assert Wire(res)[|h|..] == res.body[..res.bodyLen];
  }

  /** The header is cut only for long content types: a 32-bit status, a
      64-bit length and a content type of at most 923 characters leave it
      whole (69 fixed characters, at most 11 for the status and 20 for the
      length). */
  lemma HeaderNotTruncated(status: int, contentType: string, bodyLen: nat)
    requires -0x8000_0000 <= status < 0x8000_0000
    requires bodyLen < 0x1_0000_0000_0000_0000
    requires |contentType| <= 923
    ensures |HeaderText(status, contentType, bodyLen)| < HeaderSize
  {
    assert Pow10(10) == 10_000_000_000;
    assert Pow10(20) == 100_000_000_000_000_000_000;
    if status < 0 {
      NatToStringLength(-status, 10);
    } else {
      NatToStringLength(status, 10);
    }
    NatToStringLength(bodyLen, 20);
  }

  /** A well-formed response whose header fits reads back exactly as it
      was built. */
  lemma ReadWireWhole(res: Response)
    requires WellFormed(res) && NoCR(res.contentType)
    requires -0x8000_0000 <= res.status < 0x8000_0000 && res.bodyLen < 0x1_0000_0000_0000_0000
    requires |res.contentType| <= 923
    ensures ReadResponse(Wire(res)) == Some(res)
  {
    HeaderNotTruncated(res.status, res.contentType, res.bodyLen);
    ReadWire(res);
    assert res.body[..res.bodyLen] == res.body;
  }
}
