/** FCGX_Accept_r and FCGX_Finish_r: the life of one request structure over its connections. */
module FcgiAccept {
  import opened Common
  import opened FcgiWire
  import opened FcgiParams
  import opened FcgiConnection
  import opened FcgiReader
  import opened FcgiWriter
  import opened FcgiAcceptSpec
  import R = FcgiReaderSpec
  import W = FcgiWriterSpec
  import S = FcgiSession

  function Value(c: Connection): ConnValue
    reads c
  {
    ConnValue(c.incoming, c.readErrno, c.outgoing, c.room, c.writeErrno)
  }

  function Values(cs: seq<Connection>): (vs: seq<ConnValue>)
    reads set c | c in cs
    ensures |vs| == |cs|
  {
    if cs == [] then [] else [Value(cs[0])] + Values(cs[1..])
  }

  predicate Distinct(cs: seq<Connection>) {
    forall i, j :: 0 <= i < j < |cs| ==> cs[i] != cs[j]
  }

  lemma DistinctTail(cs: seq<Connection>)
    requires Distinct(cs)
    ensures cs != [] ==> Distinct(cs[1..])
  {
  }

  lemma ValuesParts(cs: seq<Connection>)
    requires cs != []
    ensures Values(cs)[0] == Value(cs[0]) && Values(cs)[1..] == Values(cs[1..])
  {
  }

  lemma {:induction false} ValuesAppend(a: seq<Connection>, b: seq<Connection>)
    ensures Values(a + b) == Values(a) + Values(b)
  {
    if a == [] {
      assert a + b == b;
    } else {
      ValuesAppend(a[1..], b);
      assert (a + b)[0] == a[0] && (a + b)[1..] == a[1..] + b;
    }
  }

  lemma OneValue(cs: seq<Connection>)
    requires |cs| <= 1
    ensures Values(cs) == if cs == [] then [] else [Value(cs[0])]
  {
    if cs != [] {
      assert cs[1..] == [] && Values(cs[1..]) == [];
    }
  }

  /** OS_Accept on the listening socket: the next waiting connection, or an error. */
  class Listener {
    var queue: seq<Connection>

    constructor (queue: seq<Connection>)
      ensures this.queue == queue
    {
      this.queue := queue;
    }

    method Accept() returns (conn: Connection?)
      modifies this
      ensures old(queue) == [] ==> conn == null && queue == []
      ensures old(queue) != [] ==> conn == old(queue)[0] && queue == old(queue)[1..]
    {
      if queue == [] {
        return null;
      }
      conn := queue[0];
      queue := queue[1..];
    }
  }

  /** How a turn of FCGX_Accept_r's loop ended. Halted: the library has left defined behaviour. */
  datatype Turned = NoCandidate | Taken | Dropped | Halted

  class Application {
    const req: Request
    var open: bool              // ipcFd >= 0
    var input: ReaderStream?
    var params: Params?
    var out: WriterStream?
    var err: WriterStream?

    /** A request in progress has its three streams and its parameters, separate and of one request. */
    ghost predicate Busy()
      reads this, input, params, out, err, if params != null then {params.vec} else {}
    {
      && open && input != null && params != null && out != null && err != null
      && input.Valid() && input.req == req && params.Valid()
      && out.Valid() && err.Valid() && out.req == req && err.req == req
      && out != err && out.buff != err.buff && input.buff != out.buff && input.buff != err.buff
      && (!out.wasFCloseCalled ==> !out.rawWrite) && (!err.wasFCloseCalled ==> !err.rawWrite)
    }

    ghost predicate Idle()
      reads this
    {
      input == null && params == null && out == null && err == null
    }

    /** FCGX_InitRequest. */
    constructor (conn: Connection)
      ensures Idle() && !open && fresh(req) && req.conn == conn && req.requestId == 0 && !req.keep
    {
      req := new Request(conn, 0);
      open, input, params, out, err := false, null, null, null, null;
    }

    /** FCGX_Free. */
    method Free(close: bool)
      modifies this
      ensures Idle() && open == (old(open) && !close)
    {
      input, params, out, err := null, null, null, null;
      if close {
        open := false;
      }
    }

    /** FCGX_Finish_r: closes the error stream and then the output stream, and the connection unless it is
        to be kept and nothing failed. */
    method Finish()
      requires Idle() || Busy()
      modifies this, out, err, if out != null then {out.buff} else {}, if err != null then {err.buff} else {},
               req`nWriters, req.conn`outgoing, req.conn`room, req.conn`stalls
      ensures Idle()
      ensures old(Idle()) ==> open == (old(open) && req.keep) && unchanged(req) && unchanged(req.conn)
      ensures old(Busy()) ==>
                var start := old(S.Session(out.Abs(), err.Abs(), out.Env()));
                var end := S.Run(start, [S.OnErr(S.DoClose), S.OnOut(S.DoClose)]);
                && req.conn.outgoing == end.s.out && req.conn.room == end.s.room && req.nWriters == end.s.nWriters
                && open == (req.keep && end.out.errno == 0 && end.err.errno == 0 && old(input.errno) == 0)
    {
      var close := !req.keep;
      if input != null {
        var closedOk := CloseWriters();
        close := close || !closedOk || input.errno != 0;
      }
      Free(close);
    }

    /** Closes the error stream and then the output stream. */
    method CloseWriters() returns (ok: bool)
      requires Busy()
      modifies out, out.buff, err, err.buff, req`nWriters, req.conn`outgoing, req.conn`room, req.conn`stalls
      ensures
        var end := S.Run(old(S.Session(out.Abs(), err.Abs(), out.Env())), [S.OnErr(S.DoClose), S.OnOut(S.DoClose)]);
        && (ok <==> end.out.errno == 0 && end.err.errno == 0)
        && req.conn.outgoing == end.s.out && req.conn.room == end.s.room && req.nWriters == end.s.nWriters
    {
      hide W.FClose, S.Run;
      ghost var st := S.Session(out.Abs(), err.Abs(), out.Env());
      TwoSteps(st, S.OnErr(S.DoClose), S.OnOut(S.DoClose));
      var errOk := err.FClose();
      ghost var st1 := S.Step(st, S.OnErr(S.DoClose));
      assert out.Abs() == st.out && out.Env() == st1.s;
      assert errOk <==> st1.err.errno == 0;
      var outOk := out.FClose();
      return errOk && outOk;
    }

    /** The start of a pass: a new reader, filled until a request begins or the stream closes. */
    method Begin() returns (reader: ReaderStream)
      requires open
      modifies req, req.conn
      ensures fresh(reader) && fresh(reader.buff) && reader.req == req && reader.Valid() && req.conn == old(req.conn)
      ensures
        var r := R.Advance(FreshOn(old(Value(req.conn)), old(req.requestId), old(req.role), old(req.keep)));
        && reader.Abs() == r && reader.aborted == r.aborted
        && (!r.aborted ==>
              req.begun == r.begun && req.role == r.role && req.keep == r.keep && req.requestId == r.requestId)
    {
      hide R.Advance;
      req.begun := false;
      reader := new ReaderStream(req, 8192, 0);
      reader.FillBuffProc();
    }

    /** The environment of a begun request: the role, then the parameters from the stream. */
    method ReadEnvironment(reader: ReaderStream, role: Bytes) returns (vec: Params, ok: bool)
      requires reader.Valid() && !reader.aborted && reader.req == req && req.begun
      modifies reader, reader.buff, req, req.conn
      ensures fresh(vec) && fresh(vec.vec) && vec.Valid() && reader.Valid() && req.conn == old(req.conn)
      ensures
        var (bs, fin) := R.Drain(R.SetReaderType(old(reader.Abs()), PARAMS));
        var parsed := ParseParams(bs);
        && vec.Contents() == [role] + parsed.entries && (ok <==> parsed.ok && !reader.aborted)
        && reader.Abs() == R.ReadParamsEnd(bs, fin) && reader.aborted == reader.Abs().aborted
        && (!reader.aborted ==>
              && req.role == reader.Abs().role && req.keep == reader.Abs().keep
              && req.requestId == reader.Abs().requestId)
    {
      hide R.Drain, ParseParams, R.SetReaderType, R.ReadParamsEnd;
      vec := new Params(30);
      vec.PutParam(role);
      assert [] + [role] == [role];
      reader.SetReaderType(PARAMS);
      var rc := reader.ReadParams(vec);
      ok := rc.Some? && rc.value >= 0;
    }

    /** One pass of the loop of FCGX_Accept_r on the open connection. */
    method Attempt() returns (ok: bool)
      requires Idle() && open
      modifies this, req, req.conn
      ensures open && out == null && err == null && req.conn == old(req.conn)
      ensures match Attempted(FreshOn(old(Value(req.conn)), old(req.requestId), old(req.role), old(req.keep)))
              case Rejected(r) =>
                && !ok && input != null && !input.aborted
                && req.requestId == r.requestId && req.role == r.role && req.keep == r.keep
              case Accepted(entries, r) =>
                && ok && Accepts(entries, r)
                && fresh(input) && fresh(params) && fresh(input.buff) && fresh(params.vec)
              case Died => !ok && input != null && input.aborted
    {
      hide R.Advance, R.Drain, ParseParams, RoleEntry, R.SetReaderType, R.ReadParamsEnd, FreshOn,
           ReaderStream.Abs, Params.Contents;
      var reader := Begin();
      input := reader;
      if reader.aborted || !req.begun {
        return false;
      }
      var role := RoleEntry(req.role);
      if role.None? {
        return false;
      }
      var vec;
      vec, ok := ReadEnvironment(reader, role.value);
      params := vec;
    }

    /** The connections FCGX_Accept_r will try, in order: the one kept open, if any, then those waiting. */
    ghost function Candidates(listener: Listener): seq<Connection>
      reads this, req`conn, listener
    {
      (if open then [req.conn] else []) + listener.queue
    }

    /** conns has all connections that can come up. */
    ghost predicate Within(listener: Listener, conns: set<Connection>)
      reads req`conn, listener
    {
      req.conn in conns && forall c :: c in listener.queue ==> c in conns
    }

    /** Makes sure that a connection is open, accepting the next one if necessary. */
    method OpenNext(listener: Listener) returns (ok: bool)
      requires Idle()
      modifies this`open, req`conn, listener
      ensures ok <==> old(Candidates(listener)) != []
      ensures ok ==> open && [req.conn] + listener.queue == old(Candidates(listener))
      ensures !ok ==> !open && listener.queue == [] && req.conn == old(req.conn)
    {
      if !open {
        var conn := listener.Accept();
        if conn == null {
          return false;
        }
        req.conn := conn;
        open := true;
      }
      return true;
    }

    /** An accepted request: its environment and its input, about to be set to STDIN. */
    ghost predicate Accepts(entries: seq<Bytes>, r: R.Reader)
      reads this, req, req.conn, input, if input != null then {input.buff} else {},
            params, if params != null then {params.vec} else {}
    {
      && input != null && params != null && input.req == req && input.Valid() && !input.aborted && params.Valid()
      && params.Contents() == entries && R.SetReaderType(input.Abs(), STDIN) == r
    }

    /** One turn of the loop of FCGX_Accept_r on the first candidate. */
    method Turn(listener: Listener, ghost conns: set<Connection>) returns (turn: Turned)
      requires Idle() && Distinct(Candidates(listener)) && Within(listener, conns)
      modifies this, req, listener, conns
      ensures out == null && err == null && open == (turn == Taken || turn == Halted)
      ensures turn == NoCandidate <==> old(Candidates(listener)) == []
      ensures turn == NoCandidate ==> Idle() && listener.queue == []
      ensures Within(listener, conns)
      ensures turn != NoCandidate ==> Values(old(Candidates(listener))[1..]) == old(Values(Candidates(listener)))[1..]
      ensures turn != NoCandidate ==>
                match Attempted(FreshOn(old(Values(Candidates(listener)))[0], old(req.requestId), old(req.role),
                    old(req.keep)))
                case Rejected(r) =>
                  && turn == Dropped && Idle() && Candidates(listener) == old(Candidates(listener))[1..]
                  && req.requestId == r.requestId && req.role == r.role && req.keep == r.keep
                case Accepted(entries, r) =>
                  && turn == Taken && Candidates(listener) == old(Candidates(listener)) && Accepts(entries, r)
                  && fresh(input) && fresh(params) && fresh(input.buff) && fresh(params.vec)
                case Died => turn == Halted && input != null && input.aborted
    {
      hide Attempted, FreshOn, Accepts, Values, Value;
      ghost var all := Candidates(listener);
      if all != [] {
        ValuesParts(all);
      }
      var next := OpenNext(listener);
      if !next {
        return NoCandidate;
      }
      assert all[1..] == listener.queue && all[0] == req.conn && req.conn !in all[1..];
      var accepted := Attempt();
      if accepted {
        return Taken;
      }
      if input.aborted {
        return Halted;
      }
      Free(true);
      assert Candidates(listener) == listener.queue;
      return Dropped;
    }

    /** The loop of FCGX_Accept_r: tries the candidates until a request is accepted. */
    method FindRequest(listener: Listener, ghost conns: set<Connection>) returns (ok: bool)
      requires Idle() && Distinct(Candidates(listener)) && Within(listener, conns)
      modifies this, req, listener, conns
      ensures out == null && err == null && (ok ==> open)
      ensures match AcceptFirst(old(Values(Candidates(listener))), old(req.requestId), old(req.role), old(req.keep))
              case Exhausted => !ok && listener.queue == [] && Idle() && !open
              case Crashed(_) => !ok && input != null && input.aborted
              case Found(k, entries, r) =>
                && ok && Candidates(listener) == old(Candidates(listener))[k..] && Accepts(entries, r)
                && fresh(input) && fresh(params) && fresh(input.buff) && fresh(params.vec)
    {
      hide Attempted, FreshOn, AcceptFirst, Values, Value, Accepts, Within, Distinct, Candidates, Shifted;
      ghost var all := Candidates(listener);
      ghost var values := Values(all);
      ghost var wanted := AcceptFirst(values, req.requestId, req.role, req.keep);
      ghost var tried: nat := 0;
      assert all[0..] == all && values[0..] == values;
      ShiftedMore(0, wanted);
      while true
        invariant Idle() && tried <= |all| && Candidates(listener) == all[tried..]
        invariant Distinct(all[tried..])
        invariant Within(listener, conns)
        invariant Values(all[tried..]) == values[tried..]
        invariant wanted == Shifted(tried, AcceptFirst(values[tried..], req.requestId, req.role, req.keep))
        decreases |all| - tried
      {
        FirstOf(values[tried..], req.requestId, req.role, req.keep);
        ShiftedMore(tried, AcceptFirst(values[tried..], req.requestId, req.role, req.keep));
        DistinctTail(all[tried..]);
        var turn := Turn(listener, conns);
        if turn == NoCandidate {
          return false;
        }
        assert all[tried..][1..] == all[tried + 1..] && values[tried..][1..] == values[tried + 1..];
        if turn == Taken {
          return true;
        }
        if turn == Halted {
          return false;
        }
        ShiftedMore(tried, AcceptFirst(values[tried + 1..], req.requestId, req.role, req.keep));
        tried := tried + 1;
      }
    }

    /** The connection that FCGX_Finish_r keeps open, if it does, as closing the streams leaves it. */
    ghost function Kept(): seq<ConnValue>
      requires Idle() || Busy()
      reads this, input, params, out, err, if params != null then {params.vec} else {},
            if out != null then {out.buff} else {}, if err != null then {err.buff} else {}, req, req.conn
    {
      if Idle() then if open && req.keep then [Value(req.conn)] else []
      else
        var end := S.Run(S.Session(out.Abs(), err.Abs(), out.Env()), [S.OnErr(S.DoClose), S.OnOut(S.DoClose)]);
        if req.keep && end.out.errno == 0 && end.err.errno == 0 && input.errno == 0
        then [Value(req.conn).(outgoing := end.s.out, room := end.s.room)]
        else []
    }

    /** FCGX_Accept_r: finishes the request in progress, if any, and then accepts the next. None: its defined behaviour
        has ended. */
    method Accept(listener: Listener, ghost conns: set<Connection>) returns (rc: Option<int>)
      requires (Idle() || Busy()) && Distinct(Candidates(listener)) && Within(listener, conns)
      modifies this, req, listener, conns, out, err,
               if out != null then {out.buff} else {}, if err != null then {err.buff} else {}
      ensures match AcceptFirst(old(Kept() + Values(listener.queue)), old(req.requestId), old(req.role), old(req.keep))
              case Exhausted => rc.Some? && rc.value < 0 && listener.queue == [] && Idle() && !open
              case Crashed(_) => rc == None
              case Found(k, entries, r) =>
                && rc == Some(0) && Busy() && !input.aborted
                && Candidates(listener)
                   == ((if old(Kept()) != [] then [old(req.conn)] else []) + old(listener.queue))[k..]
                && params.Contents() == entries && input.Abs() == r
                && req.nWriters == 2
                && out.Abs() == W.Writer(STDOUT, 8192, [], false, false, false, false, 0)
                && err.Abs() == W.Writer(STDERR, 512, [], false, false, false, false, 0)
                && fresh(input) && fresh(params) && fresh(input.buff) && fresh(params.vec)
    {
      hide AcceptFirst, R.SetReaderType, ReaderStream.Abs, WriterStream.Abs, Params.Contents, Values, S.Run, Kept,
           Busy, Distinct;
      FinishFor(listener);
      rc := AcceptNext(listener, conns);
    }

    /** The call of FCGX_Finish_r, and what it leaves to try. */
    method FinishFor(listener: Listener)
      requires (Idle() || Busy()) && Distinct(Candidates(listener))
      modifies this, out, err, if out != null then {out.buff} else {}, if err != null then {err.buff} else {},
               req`nWriters, req.conn`outgoing, req.conn`room, req.conn`stalls
      ensures Idle() && Distinct(Candidates(listener))
      ensures Values(Candidates(listener)) == old(Kept() + Values(listener.queue))
      ensures Candidates(listener) == (if old(Kept()) != [] then [req.conn] else []) + listener.queue
    {
      hide Values, S.Run, Busy, Value;
      ghost var queue, waiting, kept := listener.queue, Values(listener.queue), Kept();
      ghost var all, was := Candidates(listener), open;
      DistinctTail(all);
      if open {
        NotWaiting(listener);
      }
      FinishKept();
      assert Values(queue) == waiting;
      ghost var first := if open then [req.conn] else [];
      OneValue(first);
      ValuesAppend(first, queue);
      assert Candidates(listener) == if was && !open then all[1..] else all;
    }

    /** FCGX_Finish_r, by what it keeps. */
    method FinishKept()
      requires Idle() || Busy()
      modifies this, out, err, if out != null then {out.buff} else {}, if err != null then {err.buff} else {},
               req`nWriters, req.conn`outgoing, req.conn`room, req.conn`stalls
      ensures Idle() && (open ==> old(open)) && (!old(open) ==> unchanged(req.conn))
      ensures old(Kept()) == if open then [Value(req.conn)] else []
    {
      hide S.Run;
      Finish();
    }

    lemma NotWaiting(listener: Listener)
      requires Distinct(Candidates(listener)) && open
      ensures req.conn !in listener.queue
    {
      var all := Candidates(listener);
      forall i | 0 <= i < |listener.queue| ensures listener.queue[i] != req.conn {
        assert all[i + 1] == listener.queue[i] && all[0] == req.conn;
      }
    }

    /** FCGX_Accept_r, once the previous request is finished. None: its defined behaviour has ended. */
    method AcceptNext(listener: Listener, ghost conns: set<Connection>) returns (rc: Option<int>)
      requires Idle() && Distinct(Candidates(listener)) && Within(listener, conns)
      modifies this, req, listener, conns
      ensures match AcceptFirst(old(Values(Candidates(listener))), old(req.requestId), old(req.role), old(req.keep))
              case Exhausted => rc.Some? && rc.value < 0 && listener.queue == [] && Idle() && !open
              case Crashed(_) => rc == None
              case Found(k, entries, r) =>
                && rc == Some(0) && Busy() && !input.aborted && Candidates(listener) == old(Candidates(listener))[k..]
                && params.Contents() == entries && input.Abs() == r
                && req.nWriters == 2
                && out.Abs() == W.Writer(STDOUT, 8192, [], false, false, false, false, 0)
                && err.Abs() == W.Writer(STDERR, 512, [], false, false, false, false, 0)
                && fresh(input) && fresh(params) && fresh(input.buff) && fresh(params.vec)
    {
      hide AcceptFirst, R.SetReaderType, ReaderStream.Abs, WriterStream.Abs, Params.Contents, Busy, Values;
      var ok := FindRequest(listener, conns);
      if !ok {
        return if input != null && input.aborted then None else Some(-1);
      }
      StartStreams();
      return Some(0);
    }

    /** The input stream at STDIN, and the two writers. */
    method StartStreams()
      requires open && input != null && params != null && input.req == req && params.Valid()
      requires input.Valid() && !input.aborted
      modifies this, req, input
      ensures Busy() && open && !input.aborted
      ensures input == old(input) && params == old(params) && req.conn == old(req.conn)
      ensures input.Abs() == R.SetReaderType(old(input.Abs()), STDIN) && params.Contents() == old(params.Contents())
      ensures req.nWriters == 2
      ensures out.Abs() == W.Writer(STDOUT, 8192, [], false, false, false, false, 0)
      ensures err.Abs() == W.Writer(STDERR, 512, [], false, false, false, false, 0)
    {
      hide R.SetReaderType, ReaderStream.Abs, Params.Contents;
      input.SetReaderType(STDIN);
      var o := new WriterStream(req, 8192, false, STDOUT);
      var e := new WriterStream(req, 512, false, STDERR);
      out, err := o, e;
      req.nWriters := 2;
    }
  }

  /** An outcome found behind n connections already tried. */
  function Shifted(n: nat, o: Outcome): Outcome {
    match o
    case Exhausted => Exhausted
    case Found(k, entries, r) => Found(k + n, entries, r)
    case Crashed(k) => Crashed(k + n)
  }

  lemma ShiftedMore(n: nat, o: Outcome)
    ensures Shifted(n, Shifted(1, o)) == Shifted(n + 1, o) && Shifted(0, o) == o
    ensures Shifted(n, o) == match o
                             case Exhausted => o
                             case Found(k, _, _) => o.(index := k + n)
                             case Crashed(k) => Crashed(k + n)
  {
  }

  lemma TwoSteps(st: S.Session, a: S.Op, b: S.Op)
    ensures S.Run(st, [a, b]) == S.Step(S.Step(st, a), b)
  {
    hide S.Step;
    assert [a, b][1..] == [b];
    assert [b][1..] == [];
    assert S.Run(S.Step(S.Step(st, a), b), [b][1..]) == S.Step(S.Step(st, a), b);
    assert S.Run(S.Step(st, a), [b]) == S.Step(S.Step(st, a), b);
  }

  /** AcceptFirst, unfolded once. */
  lemma FirstOf(cs: seq<ConnValue>, id: int, role: int, keep: bool)
    ensures
      AcceptFirst(cs, id, role, keep) ==
        if cs == [] then Exhausted
        else
          match Attempted(FreshOn(cs[0], id, role, keep))
          case Accepted(entries, r) => Found(0, entries, r)
          case Died => Crashed(0)
          case Rejected(r) => Shifted(1, AcceptFirst(cs[1..], r.requestId, r.role, r.keep))
  {
    hide Attempted;
  }
}
