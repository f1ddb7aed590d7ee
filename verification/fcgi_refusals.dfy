/** Connections on which no request is accepted, on values. */
module FcgiRefusals {
  import opened FcgiWire
  import opened FcgiParams
  import opened FcgiReaderSpec
  import opened FcgiFill
  import opened FcgiDemux
  import opened FcgiAcceptSpec

  // ---------- a request with a whole stream of parameters ----------

  /** What a web server sends to open a request and for its parameters, whatever the role and whatever the stream
      carries. */
  datatype Opened = Opened(front: seq<Rec>, id: int, role: int, keep: bool, reserved: Bytes, params: seq<Rec>,
                           rest: Bytes)
  {
    predicate Proper() {
      && AllQueries(front) && 0 < id < 65536 && 0 <= role < 65536 && |reserved| == 5
      && Undisturbed(params, PARAMS, id)
    }

    function Stream(): Bytes {
      Contents(params, PARAMS, id)
    }

    function Request(): Bytes
      requires Proper()
    {
      BeginRecordOf(id, role, keep, reserved, []).Encode() + Serialize(StreamOf(params, PARAMS, id), rest)
    }

    function Wire(): Bytes
      requires Proper()
    {
      Serialize(front, Request())
    }

    function Replies(): nat {
      |Answers(front, 0, false)| + |Answers(params, id, false)|
    }
  }

  ghost predicate IsEncoding(bs: Bytes) {
    exists ps :: AllPairsEncodable(ps) && bs == EncodePairs(ps, [])
  }

  lemma ParsesIfEncoding(bs: Bytes)
    ensures ParseParams(bs).ok <==> IsEncoding(bs)
  {
    hide ParseParams, EncodePairs;
    if ParseParams(bs).ok {
      var ps := AcceptedIsEncoding(bs);
    }
    if ps :| AllPairsEncodable(ps) && bs == EncodePairs(ps, []) {
      DecodeInvertsEncode(ps);
    }
  }

  /** The request is accepted if and only if its role is one of the three and its parameters are whole pairs. Defined
      behaviour ends if and only if the role is one of the three and the pairs declare a size beyond an int. Otherwise
      the request is rejected. */
  lemma AcceptedExactly(o: Opened, r: Reader)
    requires o.Proper() && Fresh(r) && r.p == o.Wire() && o.Replies() <= r.room
    ensures Attempted(r).Accepted? <==> RESPONDER <= o.role <= FILTER && IsEncoding(o.Stream())
    ensures Attempted(r).Died? <==> RESPONDER <= o.role <= FILTER && ReachesTooLarge(o.Stream())
    ensures Attempted(r).Rejected? <==>
              RESPONDER <= o.role <= FILTER ==> !IsEncoding(o.Stream()) && !ReachesTooLarge(o.Stream())
  {
    hide Drain, Answers, Contents, Undisturbed, ParseParams, Advance, IsEncoding, ReachesTooLarge, Serialize;
    ParsesIfEncoding(o.Stream());
    DefinedUnlessTooLarge(o.Stream());
    QueriesPassed(r, o.front, o.Request());
    OpenedThenParams(o, Emit(r, Answers(o.front, 0, false)).(p := o.Request()));
  }

  lemma OpenedThenParams(o: Opened, r: Reader)
    requires o.Proper() && Fresh(r) && r.p == o.Request() && |Answers(o.params, o.id, false)| <= r.room
    ensures Advance(r).begun && !Advance(r).aborted && Advance(r).role == o.role
    ensures
      var (bs, fin) := Drain(SetReaderType(Advance(r), PARAMS));
      bs == o.Stream() && !fin.aborted
  {
    hide Drain, Answers, Contents, Undisturbed, Advance, Serialize;
    var front := Serialize(StreamOf(o.params, PARAMS, o.id), o.rest);
    BeginTaken(r, o.id, o.role, o.keep, o.reserved, [], front);
    assert [] + front == front;
    StreamThenNext(SetReaderType(Advance(r), PARAMS), o.params, STDIN, o.rest);
  }

  // ---------- connections that are refused ----------

  /** A connection on which no request is accepted: its parameters end inside a pair, its role is unknown, it ends
      inside its first record behind queries, or its first record is of another version. */
  datatype Refused =
    | CutPair(request: Opened, whole: seq<Pair>, cut: Pair, at: nat)
    | OtherRole(front: seq<Rec>, id: int, role: int, keep: bool, reserved: Bytes, pad: Bytes, rest: Bytes)
    | EndsEarly(front: seq<Rec>, id: int, role: int, keep: bool, reserved: Bytes, pad: Bytes, at: nat)
    | OtherVersion(front: seq<Rec>, version: Byte, rest: Bytes)
  {
    predicate Proper() {
      match this
      case CutPair(request, whole, cut, at) =>
        && request.Proper() && AllPairsEncodable(whole) && cut.Encodable() && 0 < at < |cut.Encode()|
        && request.Stream() == EncodePairs(whole, cut.Encode()[..at])
      case OtherRole(front, id, role, _, reserved, pad, _) =>
        && AllQueries(front) && 0 < id < 65536 && 0 <= role < 65536 && role != 1 && role != 2 && role != 3
        && |reserved| == 5 && |pad| <= 0xff
      case EndsEarly(front, id, role, _, reserved, pad, at) =>
        && AllQueries(front) && 0 < id < 65536 && 0 <= role < 65536 && |reserved| == 5 && |pad| <= 0xff && at < 16
      case OtherVersion(front, version, _) => AllQueries(front) && version != 1
    }

    function Queries(): seq<Rec> {
      match this
      case CutPair(request, _, _, _) => request.front
      case OtherRole(front, _, _, _, _, _, _) => front
      case EndsEarly(front, _, _, _, _, _, _) => front
      case OtherVersion(front, _, _) => front
    }

    function Behind(): Bytes
      requires Proper()
    {
      match this
      case CutPair(request, _, _, _) => request.Request()
      case OtherRole(_, id, role, keep, reserved, pad, rest) =>
        BeginRecordOf(id, role, keep, reserved, pad).Encode() + rest
      case EndsEarly(_, id, role, keep, reserved, pad, at) =>
        BeginRecordOf(id, role, keep, reserved, pad).Encode()[..at]
      case OtherVersion(_, version, rest) => [version] + rest
    }

    function Wire(): Bytes
      requires Proper()
    {
      Serialize(Queries(), Behind())
    }

    function Replies(): nat {
      if CutPair? then request.Replies() else |Answers(Queries(), 0, false)|
    }
  }

  lemma CutPairRejected(b: Refused, r: Reader)
    requires b.CutPair? && b.Proper() && Fresh(r) && r.p == b.Wire() && b.Replies() <= r.room
    ensures Attempted(r).Rejected?
  {
    hide ParseParams, EncodePairs, ReachesTooLarge, IsEncoding, Attempted, Opened.Proper, Serialize, Contents,
         Answers;
    AcceptedExactly(b.request, r);
    TruncatedPairFails(b.whole, b.cut, b.at);
    ParsesIfEncoding(b.request.Stream());
    DefinedUnlessTooLarge(b.request.Stream());
  }

  lemma OtherRoleRejected(r: Reader, b: Refused)
    requires b.OtherRole? && b.Proper() && Fresh(r) && r.p == b.Behind()
    ensures Attempted(r).Rejected?
  {
    hide Advance, Drain, ParseParams;
    BeginTaken(r, b.id, b.role, b.keep, b.reserved, b.pad, b.rest);
  }

  /** The connection ends inside the record that would open a request. */
  lemma EndsEarlyRejected(r: Reader, b: Refused)
    requires b.EndsEarly? && b.Proper() && Fresh(r) && r.p == b.Behind()
    ensures Attempted(r).Rejected?
  {
    hide Drain, ParseParams;
    var rec := BeginRecordOf(b.id, b.role, b.keep, b.reserved, b.pad);
    if b.at >= HEADER_LEN {
      hide Advance;
      CutInBody(r, rec, b.at - HEADER_LEN);
    }
  }

  lemma CutInBody(r: Reader, rec: Rec, n: nat)
    requires Fresh(r) && rec.Encodable() && rec.kind == BEGIN_REQUEST && rec.id != 0 && |rec.content| == 8 && n < 8
    requires r.p == rec.Encode()[..HEADER_LEN + n]
    ensures !Advance(r).begun && !Advance(r).aborted
  {
    hide MakeHeader, HeaderContentLength, HeaderRequestId, Finish, PastContent, Advance, FromBoundary;
    var h, b := HeaderOf(rec), r.(p := rec.content[..n]);
    assert r.p == h + rec.content[..n];
    assert WithHeader(h, b) == r;
    HeaderRoundTrip(rec.kind, rec.id, |rec.content|, |rec.pad|);
    HeaderComplete(h, b);
    BetweenRecords(r);
  }

  lemma OtherVersionRejected(r: Reader, b: Refused)
    requires b.OtherVersion? && b.Proper() && Fresh(r) && r.p == b.Behind()
    ensures Attempted(r).Rejected?
  {
    hide Drain, ParseParams;
    if |r.p| >= HEADER_LEN {
      hide Finish, PastContent, Advance, FromBoundary;
      var h, c := r.p[..HEADER_LEN], r.(p := r.p[HEADER_LEN..]);
      assert WithHeader(h, c) == r;
      HeaderComplete(h, c);
      BetweenRecords(r);
    }
  }

  /** A query at the very end of a connection. */
  lemma QueryAtEnd(r: Reader, rec: Rec)
    requires Fresh(r) && Query(rec) && rec.Encodable() && r.p == rec.Encode() && |Answer(rec, false)| <= r.room
    ensures !Advance(r).begun && !Advance(r).aborted
  {
    DefinedUnlessTooLarge(rec.content);
    hide HeaderOf, OnHeader, Finish, Advance, PastContent, ParseParams, ReplyFits, ValuesReply, FromBoundary;
    var h, after := HeaderOf(rec), rec.content + rec.pad + [];
    var b := r.(p := after);
    EncodeSplit(rec, []);
    assert rec.Encode() + [] == rec.Encode();
    assert WithHeader(h, b) == r;
    hide WithHeader;
    HeaderComplete(h, b);
    BetweenRecords(r);
    ValuesHeader(b, rec, []);
    if rec.pad != [] {
      var s := ManagementEffect(b, rec, []).r;
      NothingLeft(s);
    }
  }

  lemma NothingLeft(r: Reader)
    requires Between(r) && r.p == []
    ensures Advance(r) == Starve(r)
  {
  }

  /** Queries and nothing behind them: the last is answered only if it is padded. */
  lemma OnlyQueries(r: Reader, front: seq<Rec>)
    requires Fresh(r) && AllQueries(front) && r.p == Serialize(front, []) && |Answers(front, 0, false)| <= r.room
    ensures !Advance(r).begun && !Advance(r).aborted
  {
    hide Answer, Advance, Query;
    if front == [] {
      NothingLeft(r);
    } else {
      var last, before := front[|front| - 1], front[..|front| - 1];
      assert front == before + [last];
      SerializeAppend(before, [last], []);
      SerializeOne(last, []);
      assert last.Encode() + [] == last.Encode();
      AnswersOfQueries(before, last);
      QueriesPassed(r, before, last.Encode());
      QueryAtEnd(Emit(r, Answers(before, 0, false)).(p := last.Encode()), last);
    }
  }

  lemma {:induction false} AnswersOfQueries(front: seq<Rec>, last: Rec)
    requires AllQueries(front)
    ensures |Answers(front + [last], 0, false)| == |Answers(front, 0, false)| + |Answer(last, false)|
    decreases |front|
  {
    hide Answer, Query;
    if front == [] {
      assert [last][1..] == [] && [] + [last] == [last];
      assert Answers([last][1..], 0, SkipAfter(last, 0, false)) == [];
    } else {
      QueryLeavesNoSkip(front[0]);
      AnswersOfQueries(front[1..], last);
      assert (front + [last])[1..] == front[1..] + [last];
    }
  }

  lemma RejectedBehindQueries(b: Refused, r: Reader)
    requires b.Proper() && !b.CutPair? && b.Behind() != [] && Fresh(r) && r.p == b.Behind()
    ensures Attempted(r).Rejected?
  {
    hide Attempted, Refused.Proper, Refused.Behind;
    match b {
      case OtherRole(_, _, _, _, _, _, _) => OtherRoleRejected(r, b);
      case EndsEarly(_, _, _, _, _, _, _) => EndsEarlyRejected(r, b);
      case OtherVersion(_, _, _) => OtherVersionRejected(r, b);
    }
  }

  /** Every such connection is rejected. */
  lemma RefusedIsRejected(b: Refused, r: Reader)
    requires b.Proper() && Fresh(r) && r.p == b.Wire() && b.Replies() <= r.room
    ensures Attempted(r).Rejected?
  {
    hide Advance, Drain, ParseParams, Refused.Behind, Serialize, Answers, Opened.Proper;
    if b.CutPair? {
      CutPairRejected(b, r);
    } else if b.Behind() == [] {
      OnlyQueries(r, b.Queries());
    } else {
      QueriesPassed(r, b.Queries(), b.Behind());
      RejectedBehindQueries(b, Emit(r, Answers(b.Queries(), 0, false)).(p := b.Behind()));
    }
  }
}
