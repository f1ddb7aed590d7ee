/** Both directions of the connection of one request: while its writers send, its reader answers the records it meets,
    on the same wire. */
module FcgiExchange {
  import opened Common
  import opened FcgiWire
  import FcgiParams
  import R = FcgiReaderSpec
  import A = FcgiAnswers
  import D = FcgiDemux
  import opened FcgiWriterSpec
  import opened FcgiSession

  /** A call on a writer or of FCGX_SetExitStatus, or the reader, in some read, meets a record. */
  datatype Event = Calls(op: Op) | Meets(rec: Rec)

  /** pending: the reader's skip. failed: an answer was not accepted by the connection. */
  datatype Exchange = Exchange(st: Session, pending: bool, failed: bool)
  {
    predicate Failed() {
      failed || st.out.errno != 0 || st.err.errno != 0
    }
  }

  /** write_it_all: as much as the connection accepts. */
  function Send(s: Shared, bs: Bytes): Shared {
    if |bs| <= s.room then s.(out := s.out + bs, room := s.room - |bs|)
    else s.(out := s.out + bs[..s.room], room := 0)
  }

  function Next(x: Exchange, e: Event): Exchange {
    match e
    case Calls(op) => x.(st := Step(x.st, op))
    case Meets(rec) =>
      var answer := D.Answer(rec, x.pending);
      Exchange(x.st.(s := Send(x.st.s, answer)), D.SkipAfter(rec, x.st.s.requestId, x.pending),
               x.failed || |answer| > x.st.s.room)
  }

  function NextAll(x: Exchange, es: seq<Event>): Exchange
    decreases |es|
  {
    if es == [] then x else NextAll(Next(x, es[0]), es[1..])
  }

  /** This is what a reader on the connection does with a lawful record behind which there is a byte. */
  lemma ReaderAnswers(r: R.Reader, x: Exchange, rec: Rec, rest: Bytes)
    requires D.Idle(r) && D.Lawful(rec, r.kind, r.requestId) && r.kind != BEGIN_REQUEST && r.requestId != 0
    requires rest != [] && r.requestId == x.st.s.requestId && r.skip == x.pending
    requires r.out == x.st.s.out && r.room == x.st.s.room && |D.Answer(rec, r.skip)| <= r.room
    ensures
      var effect, next := D.RecordEffect(r, rec, rest), Next(x, Meets(rec));
      && effect.Delivers? && D.Idle(effect.r) && effect.r.skip == next.pending && next.failed == x.failed
      && effect.r.out == next.st.s.out && effect.r.room == next.st.s.room
  {
    D.LawfulStep(r, rec, rest);
    hide D.Answer, D.RecordEffect;
  }

  // ---------- the records on the wire ----------

  /** The records with which the reader answers one. */
  function AnswerTo(rec: Rec, pending: bool): seq<Rec> {
    if rec.kind == BEGIN_REQUEST then [Rec(END_REQUEST, rec.id, MakeEndRequestBody(0, CANT_MPX_CONN), [])]
    else if rec.id != NULL_REQUEST_ID then []
    else if rec.kind == GET_VALUES then
      var body := R.ValuesBody(if pending then [] else FcgiParams.ParseParams(rec.content).entries);
      [Rec(GET_VALUES_RESULT, NULL_REQUEST_ID, body, Zeros(AlignInt8(|body|) - |body|))]
    else [Rec(UNKNOWN_TYPE, NULL_REQUEST_ID, MakeUnknownTypeBody(rec.kind), [])]
  }

  lemma AnswerIsRecords(rec: Rec, pending: bool)
    ensures Serialize(AnswerTo(rec, pending), []) == D.Answer(rec, pending)
  {
    hide MakeHeader, R.ValuesBody, FcgiParams.ParseParams, MakeEndRequestBody, MakeUnknownTypeBody;
    var rs := AnswerTo(rec, pending);
    if rs != [] {
      assert rs[1..] == [];
      assert Serialize(rs[1..], []) == [];
      assert rs[0].Encode() + [] == rs[0].Encode();
    }
  }

  /** What answers a query decodes, by the names that were asked for. */
  lemma QueryAnswer(rec: Rec)
    requires D.Query(rec)
    ensures |AnswerTo(rec, false)| == 1
    ensures A.Answering(AnswerTo(rec, false)[0], A.NamesIn(FcgiParams.ParseParams(rec.content).entries))
  {
    hide FcgiParams.ParseParams, R.ValuesBody, R.ReplyFits, A.NamesIn, A.AllReadable, Rec.Encode;
    var reply := A.ReplyAnswers(FcgiParams.ParseParams(rec.content).entries);
    assert reply == AnswerTo(rec, false)[0];
  }

  /** A record on the wire, and which side of the library sent it. */
  datatype Item = Written(rec: Rec) | Answered(rec: Rec)

  function All(items: seq<Item>): seq<Rec> {
    if items == [] then [] else [items[0].rec] + All(items[1..])
  }

  function WrittenIn(items: seq<Item>): seq<Rec> {
    if items == [] then [] else (if items[0].Written? then [items[0].rec] else []) + WrittenIn(items[1..])
  }

  function AnsweredIn(items: seq<Item>): seq<Rec> {
    if items == [] then [] else (if items[0].Answered? then [items[0].rec] else []) + AnsweredIn(items[1..])
  }

  function Items(rs: seq<Rec>, written: bool): seq<Item> {
    if rs == [] then [] else [if written then Written(rs[0]) else Answered(rs[0])] + Items(rs[1..], written)
  }

  lemma {:induction false} ItemsMean(rs: seq<Rec>, written: bool)
    ensures
      var items := Items(rs, written);
      && All(items) == rs && WrittenIn(items) == (if written then rs else [])
      && AnsweredIn(items) == if written then [] else rs
  {
    if rs != [] {
      ItemsMean(rs[1..], written);
      assert Items(rs, written)[1..] == Items(rs[1..], written);
    }
  }

  lemma {:induction false} ItemsAppend(a: seq<Item>, b: seq<Item>)
    ensures All(a + b) == All(a) + All(b) && WrittenIn(a + b) == WrittenIn(a) + WrittenIn(b)
    ensures AnsweredIn(a + b) == AnsweredIn(a) + AnsweredIn(b)
  {
    if a == [] {
      assert a + b == b;
    } else {
      ItemsAppend(a[1..], b);
      assert (a + b)[0] == a[0] && (a + b)[1..] == a[1..] + b;
      ConcatAssoc([a[0].rec], All(a[1..]), All(b));
      ConcatAssoc(if a[0].Written? then [a[0].rec] else [], WrittenIn(a[1..]), WrittenIn(b));
      ConcatAssoc(if a[0].Answered? then [a[0].rec] else [], AnsweredIn(a[1..]), AnsweredIn(b));
    }
  }

  /** The records one event puts on the wire. */
  function EventItems(x: Exchange, e: Event): seq<Item> {
    match e
    case Calls(op) => Items(StepRecords(x.st, op), true)
    case Meets(rec) => Items(AnswerTo(rec, x.pending), false)
  }

  function AllItems(x: Exchange, es: seq<Event>, items: seq<Item>): seq<Item>
    decreases |es|
  {
    if es == [] then items else AllItems(Next(x, es[0]), es[1..], items + EventItems(x, es[0]))
  }

  function WriterTrace(x: Exchange, es: seq<Event>, tr: Trace): Trace
    decreases |es|
  {
    if es == [] then tr
    else WriterTrace(Next(x, es[0]), es[1..], if es[0].Calls? then StepTrace(x.st, es[0].op, tr) else tr)
  }

  /** The answers to what was met, in order. */
  function AllAnswers(x: Exchange, es: seq<Event>, answers: seq<Rec>): seq<Rec>
    decreases |es|
  {
    if es == [] then answers
    else
      AllAnswers(Next(x, es[0]), es[1..],
                 answers + if es[0].Meets? then AnswerTo(es[0].rec, x.pending) else [])
  }

  // ---------- the promise ----------

  /** The wire carries whole records, those of the writers with their promise, and those of the reader. */
  predicate ExchangeInv(x: Exchange, tr: Trace, items: seq<Item>, base: Bytes) {
    && StreamsInv(x.st, tr) && WrittenIn(items) == tr.recs
    && x.st.s.out == base + Serialize(All(items), [])
  }

  /** The writers do not notice an answer. */
  lemma AnswerKeepsStreams(st: Session, tr: Trace, s: Shared)
    requires StreamsInv(st, tr) && s == st.s.(out := s.out, room := s.room)
    ensures StreamsInv(st.(s := s), tr)
  {
    hide StreamInv, EndShape;
    OtherStream(st.out, st.s, s, OfKind(tr.recs, STDOUT), tr.putOut);
    OtherStream(st.err, st.s, s, OfKind(tr.recs, STDERR), tr.putErr);
  }

  lemma EventKeeps(x: Exchange, e: Event, tr: Trace, items: seq<Item>, base: Bytes)
    requires ExchangeInv(x, tr, items, base) && !Next(x, e).Failed()
    ensures
      ExchangeInv(Next(x, e), if e.Calls? then StepTrace(x.st, e.op, tr) else tr, items + EventItems(x, e), base)
    ensures AnsweredIn(items + EventItems(x, e)) ==
              AnsweredIn(items) + if e.Meets? then AnswerTo(e.rec, x.pending) else []
    ensures Next(x, e).st.s.requestId == x.st.s.requestId
  {
    hide StreamsInv, Step, StepRecords, AnswerTo, D.Answer, D.SkipAfter;
    ItemsAppend(items, EventItems(x, e));
    match e {
      case Calls(op) =>
        ItemsMean(StepRecords(x.st, op), true);
        StepStreams(x.st, op, tr);
        OutputGrows(base, All(items), StepRecords(x.st, op));
      case Meets(rec) =>
        ItemsMean(AnswerTo(rec, x.pending), false);
        AnswerIsRecords(rec, x.pending);
        AnswerKeepsStreams(x.st, tr, Next(x, e).st.s);
        OutputGrows(base, All(items), AnswerTo(rec, x.pending));
        assert WrittenIn(items) + [] == WrittenIn(items);
    }
  }

  lemma FailedStays(x: Exchange, e: Event)
    requires x.Failed()
    ensures Next(x, e).Failed()
  {
    hide Apply;
    match e {
      case Calls(op) =>
        match op {
          case OnOut(call) => if x.st.out.errno != 0 { CallKeepsError(x.st.out, x.st.s, call); }
          case OnErr(call) => if x.st.err.errno != 0 { CallKeepsError(x.st.err, x.st.s, call); }
          case SetExitStatus(_) =>
        }
      case Meets(_) =>
    }
  }

  lemma {:induction false} FailedToTheEnd(x: Exchange, es: seq<Event>)
    requires x.Failed()
    ensures NextAll(x, es).Failed()
    decreases |es|
  {
    hide Next;
    if es != [] {
      FailedStays(x, es[0]);
      FailedToTheEnd(Next(x, es[0]), es[1..]);
    }
  }

  lemma {:induction false} ExchangeKeeps(x: Exchange, es: seq<Event>, tr: Trace, items: seq<Item>, base: Bytes)
    requires ExchangeInv(x, tr, items, base) && !NextAll(x, es).Failed()
    ensures ExchangeInv(NextAll(x, es), WriterTrace(x, es, tr), AllItems(x, es, items), base)
    ensures AnsweredIn(AllItems(x, es, items)) == AllAnswers(x, es, AnsweredIn(items))
    ensures NextAll(x, es).st.s.requestId == x.st.s.requestId
    decreases |es|
  {
    hide ExchangeInv, Next, EventItems, StepTrace, AnswerTo, AnsweredIn;
    if es != [] {
      if Next(x, es[0]).Failed() {
        FailedToTheEnd(Next(x, es[0]), es[1..]);
        assert false;
      }
      EventKeeps(x, es[0], tr, items, base);
      ExchangeKeeps(Next(x, es[0]), es[1..], if es[0].Calls? then StepTrace(x.st, es[0].op, tr) else tr,
                    items + EventItems(x, es[0]), base);
    }
  }

  // ---------- the end of the request ----------

  function Ends(rs: seq<Rec>, id: int): nat {
    if rs == [] then 0 else (if rs[0].kind == END_REQUEST && rs[0].id == id then 1 else 0) + Ends(rs[1..], id)
  }

  /** How often the peer tried to begin the request again. */
  function Begins(es: seq<Event>, id: int): nat {
    if es == [] then 0
    else (if es[0].Meets? && es[0].rec.kind == BEGIN_REQUEST && es[0].rec.id == id then 1 else 0) + Begins(es[1..], id)
  }

  lemma {:induction false} EndsAppend(a: seq<Rec>, b: seq<Rec>, id: int)
    ensures Ends(a + b, id) == Ends(a, id) + Ends(b, id)
  {
    if a == [] {
      assert a + b == b;
    } else {
      EndsAppend(a[1..], b, id);
      assert (a + b)[0] == a[0] && (a + b)[1..] == a[1..] + b;
    }
  }

  lemma {:induction false} EndsByItem(items: seq<Item>, id: int)
    ensures Ends(All(items), id) == Ends(WrittenIn(items), id) + Ends(AnsweredIn(items), id)
  {
    if items != [] {
      EndsByItem(items[1..], id);
      EndsAppend(if items[0].Written? then [items[0].rec] else [], WrittenIn(items[1..]), id);
      EndsAppend(if items[0].Answered? then [items[0].rec] else [], AnsweredIn(items[1..]), id);
      EndsOne(items[0].rec, id);
    }
  }

  lemma EndsOne(rec: Rec, id: int)
    ensures Ends([rec], id) == if rec.kind == END_REQUEST && rec.id == id then 1 else 0
  {
    assert [rec][1..] == [];
  }

  lemma {:induction false} NoEnds(rs: seq<Rec>, id: int)
    requires forall i :: 0 <= i < |rs| ==> rs[i].kind == STDOUT || rs[i].kind == STDERR
    ensures Ends(rs, id) == 0
  {
    if rs != [] {
      NoEnds(rs[1..], id);
    }
  }

  /** The writers end the request once, with the last of them. */
  lemma WrittenEnds(rs: seq<Rec>, id: int, status: int, ended: bool)
    requires EndShape(rs, id, status, ended)
    ensures Ends(rs, id) == if ended then 1 else 0
  {
    if ended {
      var n := |rs| - 1;
      NoEnds(rs[..n], id);
      EndsAppend(rs[..n], [rs[n]], id);
      EndsOne(rs[n], id);
      assert rs == rs[..n] + [rs[n]];
    } else {
      NoEnds(rs, id);
    }
  }

  lemma {:induction false} AnsweredEnds(x: Exchange, es: seq<Event>, answers: seq<Rec>, id: int)
    ensures Ends(AllAnswers(x, es, answers), id) == Ends(answers, id) + Begins(es, id)
    decreases |es|
  {
    hide Next;
    if es != [] {
      var more := if es[0].Meets? then AnswerTo(es[0].rec, x.pending) else [];
      EndsAppend(answers, more, id);
      if |more| == 1 {
        EndsOne(more[0], id);
        assert more == [more[0]];
      }
      AnsweredEnds(Next(x, es[0]), es[1..], answers + more, id);
    }
  }

  /** Every interleaving of calls on the two writers of a request with records its reader meets, as long as no write
      fails: at every moment the wire holds whole records, those of the writers with the promise of the session, and
      one answer for each record met that has one, in order. END_REQUEST is on the wire for the request once for the
      close of its last writer, and once for each attempt of the peer to begin it again; so, when both writers are
      closed, exactly once if and only if there was no such attempt. */
  lemma EveryExchange(outSize: nat, errSize: nat, s: Shared, pending: bool, es: seq<Event>)
    requires outSize % 8 == 0 && 24 <= outSize <= MAX_LENGTH + 1 && errSize % 8 == 0 && 24 <= errSize <= MAX_LENGTH + 1
    requires 0 <= s.requestId < 65536 && s.writeErrno != 0
    ensures
      var start := Exchange(Start(outSize, errSize, s), pending, false);
      var end := NextAll(start, es);
      var items := AllItems(start, es, []);
      !end.Failed() ==>
        && ExchangeInv(end, WriterTrace(start, es, Trace([], [], [], 0)), items, s.out)
        && AnsweredIn(items) == AllAnswers(start, es, [])
        && Ends(All(items), s.requestId) == (if OpenCount(end.st) == 0 then 1 else 0) + Begins(es, s.requestId)
        && (OpenCount(end.st) == 0 ==> (Ends(All(items), s.requestId) == 1 <==> Begins(es, s.requestId) == 0))
  {
    var start := Exchange(Start(outSize, errSize, s), pending, false);
    var tr := Trace([], [], [], 0);
    var items := AllItems(start, es, []);
    if !NextAll(start, es).Failed() {
      StartKeeps(outSize, errSize, s, pending);
      hide ExchangeInv, NextAll, WriterTrace, AllItems, AllAnswers, Start, Ends, Begins;
      ExchangeKeeps(start, es, tr, [], s.out);
      EndsAfter(NextAll(start, es), WriterTrace(start, es, tr), items, s.out);
      EndsByItem(items, s.requestId);
      AnsweredEnds(start, es, [], s.requestId);
      NoEnds([], s.requestId);
    }
  }

  lemma StartKeeps(outSize: nat, errSize: nat, s: Shared, pending: bool)
    requires outSize % 8 == 0 && 24 <= outSize <= MAX_LENGTH + 1 && errSize % 8 == 0 && 24 <= errSize <= MAX_LENGTH + 1
    requires 0 <= s.requestId < 65536 && s.writeErrno != 0
    ensures
      ExchangeInv(Exchange(Start(outSize, errSize, s), pending, false), Trace([], [], [], 0), [], s.out)
    ensures Start(outSize, errSize, s).s.requestId == s.requestId
  {
    var start := Start(outSize, errSize, s);
    assert s.out + [] == s.out;
    assert [] + start.out.buf == [];
  }

  lemma EndsAfter(x: Exchange, tr: Trace, items: seq<Item>, base: Bytes)
    requires ExchangeInv(x, tr, items, base)
    ensures Ends(WrittenIn(items), x.st.s.requestId) == if OpenCount(x.st) == 0 then 1 else 0
  {
    hide StreamInv;
    WrittenEnds(tr.recs, x.st.s.requestId, tr.status, OpenCount(x.st) == 0);
  }
}
