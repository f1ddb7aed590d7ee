/** Why FillBuffProc may stop and resume anywhere in a record: one lemma for each place at which
    its loop can run out of buffered bytes. */
module FcgiFill {
  import opened Common
  import opened FcgiWire
  import opened FcgiParams
  import opened FcgiReaderSpec

  /** What is left to do once ToBoundary has stopped. */
  function Finish(b: Reader): Reader {
    if b.eorStop then
      if b.closed || b.contentLen > 0 then b else b.(closed := true)
    else FromBoundary(b)
  }

  lemma AdvanceIsFinish(r: Reader)
    ensures Advance(r) == Finish(ToBoundary(r))
  {
    hide ToBoundary, FromBoundary;
    ToBoundaryShape(r);
  }

  /** At the top of the loop, with a byte to look at and no content left. */
  lemma NoContentLeft(r: Reader)
    requires |r.p| > 0 && r.contentLen == 0
    ensures Advance(r) == Finish(PastContent(r))
  {
    AdvanceIsFinish(r);
    hide Finish, PastContent;
  }

  /** Unread bytes with a partly collected header put back in front. */
  function WithHeader(header: Bytes, r: Reader): Reader {
    r.(p := header + r.p)
  }

  /** A header is collected only between records, and never inside eorStop. */
  predicate HeaderOpen(header: Bytes, r: Reader) {
    && |header| < HEADER_LEN
    && (header != [] ==> r.contentLen == 0 && r.paddingLen == 0 && !r.eorStop)
  }

  lemma NoHeader(r: Reader)
    ensures WithHeader([], r) == r
  {
    assert [] + r.p == r.p;
  }

  /** The read found nothing, possibly in the middle of a header. */
  lemma Starved(header: Bytes, r: Reader)
    requires |r.p| == 0 && !r.closed && HeaderOpen(header, r)
    ensures Advance(WithHeader(header, r)) == Starve(r)
  {
    if header == [] {
      NoHeader(r);
    } else {
      BetweenRecords(WithHeader(header, r));
    }
  }

  lemma DropTwice(p: Bytes, n: nat, m: nat)
    requires n <= m <= |p|
    ensures p[n..][m - n..] == p[m..]
  {
  }

  lemma DroppedContent(r: Reader, n: nat)
    requires r.skip && 0 < n <= r.contentLen && n <= |r.p|
    ensures
      var s := r.(p := r.p[n..], contentLen := r.contentLen - n);
      if n == r.contentLen then DropContent(r) == s.(skip := false)
      else if |s.p| == 0 then DropContent(r) == s
      else DropContent(r) == DropContent(s)
  {
    var s := r.(p := r.p[n..], contentLen := r.contentLen - n);
    var m := Min(r.contentLen, |r.p|);
    if n == r.contentLen {
      assert m == n;
    } else if |s.p| == 0 {
      assert m == n;
    } else {
      DropTwice(r.p, n, m);
      assert Min(s.contentLen, |s.p|) == m - n;
    }
  }

  /** Some content of a skipped record has been passed over. */
  lemma SkippedSome(r: Reader, n: nat)
    requires r.skip && !r.closed && 0 < n <= r.contentLen && n <= |r.p|
    ensures
      var s := r.(p := r.p[n..], contentLen := r.contentLen - n);
      if n < r.contentLen then Advance(s) == Advance(r)
      else Advance(r) == Finish(PastContent(s.(skip := false)))
  {
    hide DropContent, DropPadding, Finish;
    DroppedContent(r, n);
    AdvanceIsFinish(r);
    AdvanceIsFinish(r.(p := r.p[n..], contentLen := r.contentLen - n));
  }

  lemma DroppedPadding(r: Reader, n: nat)
    requires n <= r.paddingLen && n <= |r.p|
    ensures
      var s := r.(p := r.p[n..], paddingLen := r.paddingLen - n);
      && DropPadding(s) == DropPadding(r)
      && (n < r.paddingLen && |s.p| == 0 ==> DropPadding(r) == s)
  {
    DropTwice(r.p, n, Min(r.paddingLen, |r.p|));
  }

  /** Some padding has been passed over. */
  lemma PaddedSome(r: Reader, n: nat)
    requires r.contentLen == 0 && !r.closed && n <= r.paddingLen && n <= |r.p| && r.paddingLen > 0
    ensures
      var s := r.(p := r.p[n..], paddingLen := r.paddingLen - n);
      if n < r.paddingLen then Advance(s) == Finish(PastContent(r)) else PastContent(s) == PastContent(r)
  {
    hide DropContent, DropPadding, Finish;
    DroppedPadding(r, n);
    AdvanceIsFinish(r.(p := r.p[n..], paddingLen := r.paddingLen - n));
  }

  /** Neither content nor padding is left in the current record. */
  lemma BetweenRecords(r: Reader)
    requires r.contentLen == 0 && r.paddingLen == 0 && !r.closed
    ensures PastContent(r) == r
    ensures Finish(r) == if r.eorStop then r.(closed := true) else Advance(r)
  {
    assert r.p[0..] == r.p;
  }

  lemma OnHeaderSteps(h: Bytes, r: Reader, status: Status, t: Reader)
    requires |h| == HEADER_LEN && ProcessHeader(h, r.(eorStop := true)) == (status, t)
    ensures OnHeader(h, r) == AfterStatus(status, t.(eorStop := false, closed := false))
  {
    hide ProcessHeader, AfterStatus;
  }

  lemma AbortedReturns(s: Reader)
    ensures AfterStatus(Aborted, s) == Return(Dead())
  {
  }

  /** A complete header decides how to go on. */
  lemma HeaderComplete(h: Bytes, r: Reader)
    requires |h| == HEADER_LEN && r.contentLen == 0 && !r.closed && !r.eorStop
    ensures Finish(WithHeader(h, r)) ==
            match OnHeader(h, r)
            case Return(s) => s
            case Loop(s) => Advance(s)
  {
    hide OnHeader;
    var b := WithHeader(h, r);
    assert b.p[..HEADER_LEN] == h && b.p[HEADER_LEN..] == r.p;
    assert b.(p := b.p[HEADER_LEN..]) == r;
  }

  /** data has been read of the bytes wanted, and the state r would give the others. */
  predicate Continues(data: Bytes, r: Reader, n: nat, wanted: (Bytes, Reader)) {
    |data| <= n &&
    var (more, s) := GetStr(r, n - |data|);
    wanted == (data + more, s)
  }

  /** line has been read of the line wanted, and the state r would give the rest of it. */
  predicate LineContinues(line: Bytes, r: Reader, k: nat, wanted: (Bytes, Reader)) {
    |line| <= k &&
    var (more, s) := FcgiReaderSpec.GetLine(r, k - |line|);
    wanted == (line + more, s)
  }

  lemma ContinuesStart(r: Reader, n: nat)
    ensures Continues([], r, n, GetStr(r, n))
  {
    assert [] + GetStr(r, n).0 == GetStr(r, n).0;
  }

  lemma ContinuesMore(data: Bytes, mid: Reader, part: Bytes, r: Reader, n: nat, wanted: (Bytes, Reader))
    requires Continues(data, mid, n, wanted)
    requires Continues(part, r, n - |data|, GetStr(mid, n - |data|))
    ensures Continues(data + part, r, n, wanted)
  {
    hide GetStr;
    ConcatAssoc(data, part, GetStr(r, n - |data| - |part|).0);
  }

  lemma ContinuesFilled(data: Bytes, r: Reader, n: nat, wanted: (Bytes, Reader))
    requires Continues(data, r, n, wanted) && |data| < n && !r.closed && (r.begun || r.eorStop)
    ensures Continues(data, Advance(r), n, wanted)
  {
    hide GetStr, Advance;
    GetStrAfterFill(r, n - |data|);
  }

  lemma ContinuesEnd(data: Bytes, r: Reader, n: nat, wanted: (Bytes, Reader))
    requires Continues(data, r, n, wanted) && (|data| == n || r.closed)
    ensures wanted == (data, r)
  {
    if r.closed {
      ClosedGivesNothing(r, n - |data|);
    }
    hide GetChar;
    assert data + [] == data;
  }

  /** Ready bytes come first. */
  lemma {:induction false} DrainReady(r: Reader, n: nat)
    requires !r.closed && !r.skip && n <= r.contentLen && n <= |r.p|
    ensures
      var (rest, fin) := Drain(r.(p := r.p[n..], contentLen := r.contentLen - n));
      Drain(r) == (r.p[..n] + rest, fin)
    decreases n
  {
    hide GetChar;
    if n == 0 {
      assert r.p[0..] == r.p;
      assert r.p[..0] + Drain(r).0 == Drain(r).0;
    } else {
      var s := r.(p := r.p[1..], contentLen := r.contentLen - 1);
      GetCharReady(r);
      DrainReady(s, n - 1);
      assert s.p[n - 1..] == r.p[n..];
      assert r.p[..n] == [r.p[0]] + s.p[..n - 1];
      ConcatAssoc([r.p[0]], s.p[..n - 1], Drain(r.(p := r.p[n..], contentLen := r.contentLen - n)).0);
    }
  }

  /** Inside a record, no content left to deliver means the end. */
  lemma EorEnd(r: Reader)
    requires r.eorStop && !r.closed && (|r.p| == 0 || r.contentLen == 0 || r.skip)
    ensures GetChar(r) == (None, AdvanceEor(r)) && AdvanceEor(r).closed
    ensures Drain(r) == ([], AdvanceEor(r))
    ensures |r.p| == 0 ==> AdvanceEor(r) == Starve(r)
  {
    PastContentShape(r);
    PastContentShape(DropContent(r));
    hide PastContent;
  }

  /** A client of the eorStop stream gets the content of the record. */
  lemma DrainInsideRecord(r: Reader)
    requires r.eorStop
    ensures Drain(r) == EorContent(r)
  {
    hide Drain, AdvanceEor, GetChar;
    if r.closed {
      ClosedGivesNothing(r, 0);
    } else if |r.p| > 0 && r.contentLen > 0 && !r.skip {
      var n := Min(r.contentLen, |r.p|);
      DrainReady(r, n);
      EorEnd(r.(p := r.p[n..], contentLen := r.contentLen - n));
      assert r.p[..n] + [] == r.p[..n];
    } else {
      EorEnd(r);
    }
  }

  /** The bytes run out inside the content. */
  lemma ShortRead(r: Reader, n: nat)
    requires r.eorStop && !r.closed && !r.skip && |r.p| < n <= r.contentLen
    ensures GetStr(r, n) == (r.p, Starve(r.(p := [], contentLen := r.contentLen - |r.p|)))
  {
    hide GetChar, AdvanceEor, Starve;
    var k := |r.p|;
    var s := r.(p := r.p[k..], contentLen := r.contentLen - k);
    assert s == r.(p := [], contentLen := r.contentLen - k);
    EorEnd(s);
    assert GetStr(s, n - k) == ([], Starve(s));
    TakeReady(r, k);
    GetStrSplit(r, k, n - k);
    assert r.p[..k] + [] == r.p;
  }

  /** The eight bytes of a BEGIN_REQUEST body, however they arrive. */
  lemma BeginBodyIsGetStr(r: Reader)
    requires r.eorStop && !r.closed && r.contentLen == 8
    ensures GetStr(r, 8) == BeginBody(r)
    ensures var (body, s) := BeginBody(r);
            if |body| == 8 then s.contentLen == 0 && !s.closed else s.closed
  {
    hide GetChar, AdvanceEor;
    if |r.p| == 0 || r.skip {
      EorEnd(r);
      assert GetStr(r, 8) == ([], AdvanceEor(r));
    } else if |r.p| < 8 {
      ShortRead(r, 8);
      hide GetStr;
    } else {
      TakeReady(r, 8);
      hide GetStr;
    }
  }

  /** The pairs of all are those added so far followed by those of rest. */
  predicate ParsedUpTo(all: Bytes, added: seq<Bytes>, rest: Bytes) {
    && ParseParams(all).entries == added + ParseParams(rest).entries
    && ParseParams(all).ok == ParseParams(rest).ok
    && ParseParams(all).overflow == ParseParams(rest).overflow
  }

  lemma NoLengthInNothing()
    ensures ReadLength([]) == NoLength
  {
  }

  lemma ParsedNothing(all: Bytes)
    ensures ParsedUpTo(all, [], all)
  {
    assert [] + ParseParams(all).entries == ParseParams(all).entries;
  }

  lemma ParsedOneMore(all: Bytes, added: seq<Bytes>, rest: Bytes)
    requires ParsedUpTo(all, added, rest) && rest != [] && ParsePair(rest).Whole?
    ensures ParsedUpTo(all, added + [ParsePair(rest).entry], ParsePair(rest).rest)
  {
    hide ParsePair;
    ConcatAssoc(added, [ParsePair(rest).entry], ParseParams(ParsePair(rest).rest).entries);
  }

  lemma ParsedAll(all: Bytes, added: seq<Bytes>, rest: Bytes)
    requires ParsedUpTo(all, added, rest) && (rest == [] || !ParsePair(rest).Whole?)
    ensures ParseParams(all) == Parsed(added, rest == [], rest != [] && ParsePair(rest).TooLarge?)
  {
    hide ParsePair;
    assert added + [] == added;
  }

  lemma SameEnd(all: Bytes, added: seq<Bytes>, rest: Bytes)
    requires ParsedUpTo(all, added, rest)
    ensures ParseParams(rest).ok == ParseParams(all).ok && ParseParams(rest).overflow == ParseParams(all).overflow
  {
  }
}
