/** One connection served from end to end by the objects of the library. */
module FcgiServe {
  import opened Common
  import opened FcgiWire
  import opened FcgiParams
  import opened FcgiConnection
  import opened FcgiReader
  import opened FcgiAcceptSpec
  import opened FcgiAccept
  import opened FcgiRefusals
  import D = FcgiDemux

  /** Accepts the connection. */
  method AcceptSent(sent: Sent, room: nat) returns (app: Application, rc: Option<int>)
    requires sent.Proper() && sent.Replies() <= room
    ensures rc == Some(0) && fresh(app) && app.params != null && app.params.Valid()
    ensures fresh(app.params) && fresh(app.params.vec) && app.params.Contents() == sent.Environment()
    ensures app.input != null && app.input.Valid() && !app.input.aborted && sent.InputOf(app.input.Abs())
    ensures fresh(app.input) && fresh(app.input.buff) && fresh(app.input.req) && fresh(app.input.req.conn)
  {
    hide R.Advance, Attempted, ReaderStream.Abs, Params.Contents, Sent.Wire, Sent.Proper, Sent.Replies,
         Sent.Environment,
         AcceptFirst, ReaderStream.Raw, Sent.InputOf;
    var conn := new Connection(sent.Wire(), 0, room, 1);
    app := new Application(conn);
    var listener := new Listener([conn]);
    ghost var r := FreshOn(Value(conn), 0, app.req.role, false);
    WholeConnection(sent, r);
    OnlyCandidate(conn, 0, app.req.role, false);
    assert app.Candidates(listener) == [conn] && app.Kept() + Values(listener.queue) == Values([conn]);
    rc := app.Accept(listener, {conn});
    assert app.req.conn == conn;
  }

  /** Reads the input, and the data of a filter. */
  method ReadInput(sent: Sent, stream: ReaderStream) returns (input: Bytes, more: Bytes)
    requires stream.Valid() && !stream.aborted && sent.InputOf(stream.Abs())
    modifies stream, stream.buff, stream.req, stream.req.conn
    ensures input == D.Contents(sent.stdin, STDIN, sent.id)
    ensures more == if sent.role == FILTER then D.Contents(sent.data, DATA, sent.id) else []
    ensures stream.errno == if sent.role == FILTER then 0 else CALL_SEQ_ERROR
  {
    hide R.Drain, R.GetStr, D.Contents, ReaderStream.Abs, R.SetReaderType, ReaderStream.Raw;
    StreamState(stream);
    input := stream.GetStr(|D.Contents(sent.stdin, STDIN, sent.id)| + 1);
    assert input + [] == input;
    StreamState(stream);
    assert stream.errno == 0 && stream.isClosed && !stream.aborted;
    var switched := stream.StartFilterData();
    more := [];
    StreamState(stream);
    if switched == 0 {
      more := stream.GetStr(|D.Contents(sent.data, DATA, sent.id)| + 1);
      assert more + [] == more;
      StreamState(stream);
    }
  }

  /** Accepts the connection and reads everything: the environment has the role and then the pairs in order, the
      input is the STDIN content and then the end without error and, for a filter, the DATA content after it. Only a
      filter may switch to DATA. */
  method Serve(sent: Sent, room: nat) returns (app: Application, rc: Option<int>, input: Bytes, more: Bytes)
    requires sent.Proper() && sent.Replies() <= room
    ensures rc == Some(0) && app.params != null && app.params.Valid()
    ensures app.params.Contents() == sent.Environment()
    ensures input == D.Contents(sent.stdin, STDIN, sent.id)
    ensures more == if sent.role == FILTER then D.Contents(sent.data, DATA, sent.id) else []
    ensures app.input != null && app.input.errno == (if sent.role == FILTER then 0 else CALL_SEQ_ERROR)
  {
    hide Sent.InputOf, D.Contents, Sent.Proper, Sent.Replies, Sent.Environment, Params.Contents, ReaderStream.Abs;
    app, rc := AcceptSent(sent, room);
    input, more := ReadInput(sent, app.input);
  }

  lemma OnlyCandidate(conn: Connection, id: int, role: int, keep: bool)
    requires Attempted(FreshOn(Value(conn), id, role, keep)).Accepted?
    ensures
      var a := Attempted(FreshOn(Value(conn), id, role, keep));
      AcceptFirst(Values([conn]), id, role, keep) == Found(0, a.entries, a.r)
  {
    hide Attempted, FreshOn;
    assert Values([conn])[0] == Value(conn);
  }

  // ---------- refused connections ----------

  /** What a connection carries, refused or not, and that the connection takes the answers. */
  ghost predicate Carries(c: ConnValue, wire: Bytes, replies: nat) {
    c.incoming == wire && replies <= c.room && c.writeErrno != 0
  }

  ghost predicate CarriesRefused(c: ConnValue, bad: Refused) {
    bad.Proper() && Carries(c, bad.Wire(), bad.Replies())
  }

  ghost predicate CarriesSent(c: ConnValue, sent: Sent) {
    sent.Proper() && Carries(c, sent.Wire(), sent.Replies())
  }

  /** Behind any number of refused connections, the request of the next proper one is found. */
  lemma {:induction false} FoundBehindRefused(cs: seq<ConnValue>, bads: seq<Refused>, sent: Sent, id: int, role: int,
                                              keep: bool)
    requires |bads| < |cs| && forall i :: 0 <= i < |bads| ==> CarriesRefused(cs[i], bads[i])
    requires CarriesSent(cs[|bads|], sent)
    ensures
      var o := AcceptFirst(cs, id, role, keep);
      o.Found? && o.index == |bads| && o.entries == sent.Environment() && sent.InputOf(o.r)
    decreases |bads|
  {
    hide Attempted, Sent.Environment, Sent.InputOf, Refused.Proper, Refused.Wire, Refused.Replies, Sent.Proper,
         Sent.Wire, Sent.Replies;
    var r := FreshOn(cs[0], id, role, keep);
    if bads == [] {
      WholeConnection(sent, r);
    } else {
      assert CarriesRefused(cs[0], bads[0]);
      RefusedIsRejected(bads[0], r);
      var b := Attempted(r).r;
      FoundBehindRefused(cs[1..], bads[1..], sent, b.requestId, b.role, b.keep);
    }
  }

  /** Refused connections alone give no request. */
  lemma {:induction false} NoneFound(cs: seq<ConnValue>, bads: seq<Refused>, id: int, role: int, keep: bool)
    requires |bads| == |cs| && forall i :: 0 <= i < |bads| ==> CarriesRefused(cs[i], bads[i])
    ensures AcceptFirst(cs, id, role, keep).Exhausted?
    decreases |bads|
  {
    hide Attempted, Refused.Proper, Refused.Wire, Refused.Replies;
    if bads != [] {
      assert CarriesRefused(cs[0], bads[0]);
      RefusedIsRejected(bads[0], FreshOn(cs[0], id, role, keep));
      var b := Attempted(FreshOn(cs[0], id, role, keep)).r;
      NoneFound(cs[1..], bads[1..], b.requestId, b.role, b.keep);
    }
  }

  lemma {:induction false} ValueAt(conns: seq<Connection>, i: nat)
    requires i < |conns|
    ensures Values(conns)[i] == Value(conns[i])
    decreases |conns|
  {
    if i > 0 {
      ValueAt(conns[1..], i - 1);
    }
  }

  /** With any number of refused connections waiting first and a proper one behind them, FCGX_Accept_r drops the
      refused ones and accepts the request of the proper one. What waits behind it stays. */
  method AcceptBehindRefused(app: Application, listener: Listener, ghost conns: set<Connection>,
                             ghost bads: seq<Refused>, ghost sent: Sent)
    returns (rc: Option<int>)
    requires app.Idle() && !app.open && Distinct(listener.queue) && app.Within(listener, conns)
    requires |bads| < |listener.queue|
    requires forall i :: 0 <= i < |bads| ==> CarriesRefused(Value(listener.queue[i]), bads[i])
    requires CarriesSent(Value(listener.queue[|bads|]), sent)
    modifies app, app.req, listener, conns
    ensures rc == Some(0) && app.Busy() && app.params.Contents() == sent.Environment()
    ensures !app.input.aborted && sent.InputOf(app.input.Abs())
    ensures app.req.conn == old(listener.queue)[|bads|] && listener.queue == old(listener.queue)[|bads| + 1..]
  {
    hide AcceptFirst, ReaderStream.Abs, Params.Contents, Sent.Environment, Sent.InputOf, Values, Value, CarriesSent,
         CarriesRefused, Application.Busy, Application.Kept;
    ghost var queue, values := listener.queue, Values(listener.queue);
    forall i | 0 <= i <= |bads| ensures values[i] == Value(queue[i]) {
      ValueAt(queue, i);
    }
    FoundBehindRefused(values, bads, sent, app.req.requestId, app.req.role, app.req.keep);
    NothingKept(app);
    assert app.Candidates(listener) == queue && app.Kept() + values == values;
    rc := app.Accept(listener, conns);
    assert [] + queue == queue;
    BusyIsOpen(app);
    assert app.Candidates(listener) == [app.req.conn] + listener.queue == queue[|bads|..];
    assert listener.queue == queue[|bads|..][1..] && app.req.conn == queue[|bads|..][0];
  }

  lemma BusyIsOpen(app: Application)
    requires app.Busy()
    ensures app.open
  {
  }

  lemma NothingKept(app: Application)
    requires app.Idle() && !app.open
    ensures app.Kept() == []
  {
  }

  // ---------- looking a parameter up ----------

  /** FCGI_ROLE. */
  const ROLE_NAME: Bytes := ROLE_PREFIX[..9]

  lemma RoleMatches(role: int, name: Bytes)
    requires RESPONDER <= role <= FILTER && EQUALS !in name
    ensures var e := RoleEntry(role).value; Matches(name, e) <==> name == ROLE_NAME
  {
    var e := RoleEntry(role).value;
    assert e[..9] == ROLE_NAME && e[9] == EQUALS;
    assert forall i :: 0 <= i < 9 ==> ROLE_PREFIX[i] != EQUALS && e[i] == ROLE_PREFIX[i];
    assert 9 < |name| < |e| ==> e[..|name|][9] == EQUALS;
  }

  lemma LookupBehindRole(role: Bytes, entries: seq<Bytes>, name: Bytes)
    ensures FindParam(name, [role] + entries) ==
              if Matches(name, role) then Some(0)
              else match FindParam(name, entries) case None => None case Some(i) => Some(i + 1)
  {
    var all := [role] + entries;
    assert all[0] == role && all[1..] == entries;
  }

  /** What lookup finds in an environment. */
  lemma EnvironmentLookup(role: int, ps: seq<Pair>, name: Bytes)
    requires RESPONDER <= role <= FILTER && EQUALS !in name && Unshadowed(name, ps)
    ensures
      var e := RoleEntry(role).value;
      match FindParam(name, [e] + Entries(ps))
      case None => name != ROLE_NAME && FirstNamed(name, ps).None?
      case Some(i) =>
        var found := ([e] + Entries(ps))[i][|name| + 1..];
        if name == ROLE_NAME then found == e[10..]
        else FirstNamed(name, ps).Some? && found == ps[FirstNamed(name, ps).value].value
  {
    var e := RoleEntry(role).value;
    RoleMatches(role, name);
    LookupBehindRole(e, Entries(ps), name);
    LookupFindsFirstValue(name, ps);
    hide Entries, FindParam, FirstNamed, Unshadowed, Matches, RoleEntry;
  }

  /** The value of a name in the environment of an accepted connection: the role's, or that of the first pair
      sent with it. */
  method LookUp(sent: Sent, params: Params, name: Bytes) returns (value: Option<Bytes>)
    requires sent.Proper() && params.Valid() && params.Contents() == sent.Environment()
    requires EQUALS !in name && 0 !in name && Unshadowed(name, sent.ps)
    ensures
      value ==
        if name == ROLE_NAME then Some(CString(RoleEntry(sent.role).value[10..]))
        else match FirstNamed(name, sent.ps)
             case None => None
             case Some(k) => Some(CString(sent.ps[k].value))
  {
    EnvironmentLookup(sent.role, sent.ps, name);
    hide FindParam, FirstNamed, Unshadowed, Matches, RoleEntry, CString, Params.Contents, Entries;
    value := params.GetParam(Some(name));
  }

  lemma StreamState(stream: ReaderStream)
    requires stream.Valid()
    ensures stream.Abs().aborted == stream.aborted && stream.Abs().closed == stream.isClosed
    ensures !stream.aborted ==>
              && stream.Abs().begun == stream.req.begun && stream.Abs().errno == stream.errno
              && stream.Raw().errno == stream.errno
  {
  }
}
