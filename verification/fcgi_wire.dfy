/** The FastCGI record layer: byte layout of headers, bodies and whole records
    (sections 3.3, 5.1 and 5.5 of the FastCGI Specification 1.0). */
module FcgiWire {
  import opened Common

  type Byte = b: int | 0 <= b < 256
  type Bytes = seq<Byte>

  const VERSION_1: Byte := 1
  const HEADER_LEN: nat := 8
  const MAX_LENGTH: nat := 0xffff

  const BEGIN_REQUEST: Byte := 1
  const END_REQUEST: Byte := 3
  const PARAMS: Byte := 4
  const STDIN: Byte := 5
  const STDOUT: Byte := 6
  const STDERR: Byte := 7
  const DATA: Byte := 8
  const GET_VALUES: Byte := 9
  const GET_VALUES_RESULT: Byte := 10
  const UNKNOWN_TYPE: Byte := 11

  const NULL_REQUEST_ID: nat := 0

  const RESPONDER: nat := 1
  const AUTHORIZER: nat := 2
  const FILTER: nat := 3

  const REQUEST_COMPLETE: Byte := 0
  const CANT_MPX_CONN: Byte := 1

  const UNSUPPORTED_VERSION: int := -2
  const PROTOCOL_ERROR: int := -3
  const PARAMS_ERROR: int := -4
  const CALL_SEQ_ERROR: int := -5

  function Zeros(n: nat): (z: Bytes)
    ensures |z| == n
  {
    seq(n, _ => 0)
  }

  /** The smallest multiple of 8 that is at least n. */
  function AlignInt8(n: nat): (r: nat)
    ensures r % 8 == 0 && n <= r < n + 8
  {
    (n + 7) / 8 * 8
  }

  /** The two assertions at the top of MakeHeader. */
  predicate HeaderFits(contentLength: int, paddingLength: int) {
    0 <= contentLength <= MAX_LENGTH && 0 <= paddingLength <= 0xff
  }

  function MakeHeader(kind: Byte, requestId: int, contentLength: int, paddingLength: int): (h: Bytes)
    ensures |h| == HEADER_LEN
  {
    [VERSION_1, kind,
     requestId / 256 % 256, requestId % 256,
     contentLength / 256 % 256, contentLength % 256,
     paddingLength % 256, 0]
  }

  function HeaderRequestId(h: Bytes): (id: nat)
    requires |h| == HEADER_LEN
  {
    (h[2] as int) * 256 + h[3]
  }

  function HeaderContentLength(h: Bytes): (n: nat)
    requires |h| == HEADER_LEN
  {
    (h[4] as int) * 256 + h[5]
  }

  /** Body of FCGI_END_REQUEST. The shifts of a negative appStatus are arithmetic, so
      Euclidean division by 256 gives the same bytes. */
  function MakeEndRequestBody(appStatus: int, protocolStatus: Byte): (b: Bytes)
    ensures |b| == 8
  {
    [appStatus / 0x1000000 % 256, appStatus / 0x10000 % 256, appStatus / 0x100 % 256, appStatus % 256,
     protocolStatus, 0, 0, 0]
  }

  function MakeUnknownTypeBody(kind: Byte): (b: Bytes)
    ensures |b| == 8
  {
    [kind, 0, 0, 0, 0, 0, 0, 0]
  }

  /** One record on the wire. */
  datatype Rec = Rec(kind: Byte, id: int, content: Bytes, pad: Bytes)
  {
    predicate Encodable() {
      0 <= id < 65536 && HeaderFits(|content|, |pad|)
    }

    function Encode(): (bs: Bytes)
      ensures |bs| == HEADER_LEN + |content| + |pad|
    {
      MakeHeader(kind, id, |content|, |pad|) + content + pad
    }
  }

  predicate AllEncodable(rs: seq<Rec>) {
    forall i :: 0 <= i < |rs| ==> rs[i].Encodable()
  }

  /** The records in order, with rest behind them. */
  function Serialize(rs: seq<Rec>, rest: Bytes): Bytes {
    if rs == [] then rest else rs[0].Encode() + Serialize(rs[1..], rest)
  }

  /** The 16-bit fields written by MakeHeader read back unchanged, and stand in the header high byte first. */
  lemma HeaderRoundTrip(kind: Byte, id: int, contentLength: int, paddingLength: int)
    requires 0 <= id < 65536 && HeaderFits(contentLength, paddingLength)
    ensures
      var h := MakeHeader(kind, id, contentLength, paddingLength);
      && h[0] == VERSION_1
      && h[1] == kind
      && HeaderRequestId(h) == id
      && HeaderContentLength(h) == contentLength
      && (h[2] as int) * 0x100 + h[3] == id
      && (h[4] as int) * 0x100 + h[5] == contentLength
      && h[6] == paddingLength && h[7] == 0
  {
    assert id / 256 % 256 == id / 256;
    assert contentLength / 256 % 256 == contentLength / 256;
  }

  /** A 32-bit two's-complement exit status can be read back from its four bytes; behind it stands the protocol
      status. */
  lemma EndRequestStatusRoundTrip(appStatus: int, protocolStatus: Byte)
    requires -0x8000_0000 <= appStatus < 0x8000_0000
    ensures
      var b := MakeEndRequestBody(appStatus, protocolStatus);
      var u := (b[0] as int) * 0x1000000 + (b[1] as int) * 0x10000 + (b[2] as int) * 0x100 + b[3];
      appStatus == (if u < 0x8000_0000 then u else u - 0x1_0000_0000) && b[4..] == [protocolStatus, 0, 0, 0]
  {
    var b3, b2, b1 := appStatus / 0x1000000, appStatus / 0x10000, appStatus / 0x100;
    assert b2 / 256 == b3;
    assert b1 / 256 == b2;
    assert -128 <= b3 < 128;
  }

  lemma {:induction false} SerializeAppend(a: seq<Rec>, b: seq<Rec>, rest: Bytes)
    ensures Serialize(a + b, rest) == Serialize(a, Serialize(b, rest))
  {
    if a == [] {
      assert a + b == b;
    } else {
      SerializeAppend(a[1..], b, rest);
      assert (a + b)[0] == a[0] && (a + b)[1..] == a[1..] + b;
    }
  }

  lemma {:induction false} SerializeRest(rs: seq<Rec>, rest: Bytes)
    ensures Serialize(rs, rest) == Serialize(rs, []) + rest
  {
    if rs == [] {
      assert [] + rest == rest;
    } else {
      SerializeRest(rs[1..], rest);
      ConcatAssoc(rs[0].Encode(), Serialize(rs[1..], []), rest);
    }
  }

  lemma SerializeOne(r: Rec, rest: Bytes)
    ensures Serialize([r], rest) == r.Encode() + rest
  {
    assert [r][1..] == [];
    assert Serialize([r][1..], rest) == rest;
  }
}
