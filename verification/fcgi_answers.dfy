/** What the library answers to management records and to a second request on the connection, in the terms of the
    FastCGI Specification 1.0 (sections 4.1, 4.2 and 5.5) rather than of the functions that build it. */
module FcgiAnswers {
  import opened Common
  import opened FcgiWire
  import opened FcgiParams
  import opened FcgiReaderSpec
  import opened FcgiDemux

  /** The bytes of a string of ASCII characters. */
  function Ascii(s: string): (bs: Bytes)
    requires forall i :: 0 <= i < |s| ==> s[i] as int < 128
    ensures |bs| == |s|
  {
    seq(|s|, i requires 0 <= i < |s| => s[i] as int)
  }

  // ---------- the variables ----------

  lemma VariableNames()
    ensures MAX_CONNS == Ascii("FCGI_MAX_CONNS")
    ensures MAX_REQS == Ascii("FCGI_MAX_REQS")
    ensures MPXS_CONNS == Ascii("FCGI_MPXS_CONNS")
  {
  }

  /** What a peer may read of one variable: the value 1 for the first two, 0 for the third, nothing for others. */
  function Readable(name: Bytes): seq<Bytes> {
    if name == Ascii("FCGI_MAX_CONNS") then [Ascii("FCGI_MAX_CONNS=1")]
    else if name == Ascii("FCGI_MAX_REQS") then [Ascii("FCGI_MAX_REQS=1")]
    else if name == Ascii("FCGI_MPXS_CONNS") then [Ascii("FCGI_MPXS_CONNS=0")]
    else []
  }

  /** What a peer may read of the variables it asks for, in that order. */
  function AllReadable(names: seq<Bytes>): seq<Bytes> {
    if names == [] then [] else Readable(names[0]) + AllReadable(names[1..])
  }

  function NamesIn(entries: seq<Bytes>): seq<Bytes> {
    if entries == [] then [] else [NameOf(entries[0])] + NamesIn(entries[1..])
  }

  function NamesAsked(ps: seq<Pair>): seq<Bytes> {
    if ps == [] then [] else [ps[0].name] + NamesAsked(ps[1..])
  }

  /** The name of an entry goes up to its first '='. */
  lemma {:induction false} NameEndsAtEquals(entry: Bytes)
    ensures
      var n := NameOf(entry);
      n <= entry && EQUALS !in n && (|n| < |entry| ==> entry[|n|] == EQUALS)
  {
    if entry != [] && entry[0] != EQUALS {
      NameEndsAtEquals(entry[1..]);
    }
  }

  /** One answer is a name-value pair, or there is none. */
  lemma AnswerIsPair(entry: Bytes) returns (ps: seq<Pair>)
    ensures AllPairsEncodable(ps) && |ps| <= 1 && Entries(ps) == Readable(NameOf(entry))
    ensures AnswerTo(entry) == if ps == [] then [] else ps[0].Encode()
  {
    VariableNames();
    var name := NameOf(entry);
    match KnownValue(name) {
      case None => ps := [];
      case Some(v) =>
        var p := Pair(name, [v], false, false);
        ps := [p];
        assert Entries(ps[1..]) == [] && Entries(ps) == [p.Entry()];
        assert p.Encode() == [|name|, 1] + name + [v];
        EntryReadable(name, v);
    }
  }

  lemma EntryReadable(name: Bytes, v: Byte)
    requires KnownValue(name) == Some(v)
    ensures Readable(name) == [MakeEntry(name, [v])]
  {
    VariableNames();
    if name == MAX_CONNS {
      assert MakeEntry(name, [v]) == Ascii("FCGI_MAX_CONNS=1");
    } else if name == MAX_REQS {
      assert MakeEntry(name, [v]) == Ascii("FCGI_MAX_REQS=1");
    } else {
      assert MakeEntry(name, [v]) == Ascii("FCGI_MPXS_CONNS=0");
    }
  }

  /** The body of the answer decodes, to exactly one pair for every known variable that was asked for, in that order:
      its own name with the value of the library. */
  lemma {:induction false} AnswerDecodes(entries: seq<Bytes>)
    ensures ParseParams(ValuesBody(entries)) == Parsed(AllReadable(NamesIn(entries)), true)
  {
    hide AnswerTo, ParseParams, Readable, NameOf;
    if entries == [] {
      NothingToParse();
    } else {
      AnswerDecodes(entries[1..]);
      var ps := AnswerIsPair(entries[0]);
      var rest := ValuesBody(entries[1..]);
      if ps == [] {
        assert [] + rest == rest;
      } else {
        ParseOnePair(ps[0], rest);
        assert ps == [ps[0]] && Entries(ps) == [ps[0].Entry()];
      }
      assert NamesIn(entries)[0] == NameOf(entries[0]) && NamesIn(entries)[1..] == NamesIn(entries[1..]);
    }
  }

  lemma NothingToParse()
    ensures ParseParams([]) == Parsed([], true)
  {
  }

  lemma {:induction false} NamesArrive(ps: seq<Pair>)
    requires forall i :: 0 <= i < |ps| ==> EQUALS !in ps[i].name
    ensures NamesIn(Entries(ps)) == NamesAsked(ps)
  {
    hide NameOf;
    if ps != [] {
      NamesArrive(ps[1..]);
      NameBeforeEquals(ps[0].name, ps[0].value);
      assert Entries(ps)[0] == ps[0].Entry() && Entries(ps)[1..] == Entries(ps[1..]);
    }
  }

  /** A record that answers a question for variables. */
  predicate Answering(reply: Rec, names: seq<Bytes>) {
    && reply.kind == GET_VALUES_RESULT && reply.id == NULL_REQUEST_ID
    && ParseParams(reply.content) == Parsed(AllReadable(names), true)
    && |reply.pad| < 8 && |reply.Encode()| % 8 == 0 && reply.Encodable()
  }

  /** What is sent is one such record. */
  lemma ReplyAnswers(entries: seq<Bytes>) returns (reply: Rec)
    requires ReplyFits(entries)
    ensures ValuesReply(entries) == reply.Encode() && Answering(reply, NamesIn(entries))
    ensures reply.content == ValuesBody(entries) && reply.pad == Zeros(AlignInt8(|reply.content|) - |reply.content|)
  {
    hide ValuesBody, ParseParams, AllReadable;
    AnswerDecodes(entries);
    var body := ValuesBody(entries);
    reply := Rec(GET_VALUES_RESULT, NULL_REQUEST_ID, body, Zeros(AlignInt8(|body|) - |body|));
  }

  /** On the wire behind a query there is one record that answers the question the peer asked, by the names it sent. */
  lemma QueryAnsweredOnWire(r: Reader, rec: Rec, ps: seq<Pair>, rest: Bytes) returns (reply: Rec)
    requires Idle(r) && !r.skip && Query(rec) && rec.Encodable() && r.p == rec.Encode() + rest
    requires rec.pad + rest != [] && |ValuesReply(ParseParams(rec.content).entries)| <= r.room
    requires AllPairsEncodable(ps) && rec.content == EncodePairs(ps, [])
    requires forall i :: 0 <= i < |ps| ==> EQUALS !in ps[i].name
    ensures Answering(reply, NamesAsked(ps))
    ensures var e := RecordEffect(r, rec, rest);
            && e.Delivers? && e.data == [] && e.r.p == rest && e.r.out == r.out + reply.Encode()
            && Drain(r) == Drain(e.r)
  {
    hide Drain, ParseParams, ValuesReply, ReplyFits, Answering;
    DecodeInvertsEncode(ps);
    NamesArrive(ps);
    reply := ReplyAnswers(Entries(ps));
    DefinedUnlessTooLarge(rec.content);
    OneRecord(r, rec, rest);
    var s := RecordEffect(r, rec, rest).r;
    assert [] + Drain(s).0 == Drain(s).0;
  }

  /** In front of a request too: all answers to a list of queries are such records, in order. */
  lemma {:induction false} QueriesAnswered(front: seq<Rec>) returns (replies: seq<Rec>)
    requires forall i :: 0 <= i < |front| ==> Query(front[i])
    ensures |replies| == |front| && Answers(front, 0, false) == Serialize(replies, [])
    ensures forall i :: 0 <= i < |front| ==> Answering(replies[i], NamesIn(ParseParams(front[i].content).entries))
    decreases |front|
  {
    hide ParseParams, ValuesReply, ReplyFits, Answering;
    if front == [] {
      replies := [];
    } else {
      var reply := ReplyAnswers(ParseParams(front[0].content).entries);
      var more := QueriesAnswered(front[1..]);
      replies := [reply] + more;
      assert replies[1..] == more;
    }
  }

  // ---------- other answers ----------

  /** A management record of an unknown type is answered with its type, and a second BEGIN_REQUEST with the end of
      that request, which could not be multiplexed. */
  lemma OtherAnswers(rec: Rec, pending: bool)
    requires rec.Encodable() && (rec.kind == BEGIN_REQUEST || OddManagement(rec))
    ensures rec.kind != BEGIN_REQUEST ==>
              Answer(rec, pending) == [1, 11, 0, 0, 0, 8, 0, 0] + [rec.kind, 0, 0, 0, 0, 0, 0, 0]
    ensures rec.kind == BEGIN_REQUEST ==>
              Answer(rec, pending) == [1, 3, rec.id / 256, rec.id % 256, 0, 8, 0, 0] + [0, 0, 0, 0, 1, 0, 0, 0]
  {
    assert rec.id / 256 % 256 == rec.id / 256;
  }
}
