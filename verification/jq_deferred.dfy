/** Firing with callbacks that act on the very lists being fired, and jQuery.Deferred built from three such lists.
    A callback's behaviour is given by a script: each call of a user's function takes the next entry and performs
    its operations. Every finite run of arbitrary callbacks is the run of some script. */
module JqDeferred {
  import opened Common
  import opened JqFiring
  import opened JqCallbacks

  datatype Op =
    | Add(k: nat, fns: seq<Fn>)
    | Remove(k: nat, fns: seq<Fn>)
    | Fire(k: nat, data: Data)

  datatype Call = Call(ops: seq<Op>, returnsFalse: bool)

  const DONE := 0
  const FAIL := 1
  const PROGRESS := 2

  /** What jQuery.Deferred adds first to its done or fail list. */
  function Builtins(w: nat): (b: seq<Fn>)
    requires w <= FAIL
    ensures |b| == 3
  {
    [SetState(Outcome(w)), DisableList(1 - w), LockList(PROGRESS)]
  }

  function Outcome(w: nat): State {
    if w == DONE then Resolved else Rejected
  }

  predicate AllUser(fns: seq<Fn>) {
    forall i :: 0 <= i < |fns| ==> fns[i].User?
  }

  lemma NoFunctions()
    ensures AllUser([])
  {
  }

  /** The operations a deferred offers: resolve, reject and notify fire, done, fail and progress add. */
  predicate Offered(op: Op) {
    match op
    case Add(k, fns) => k <= PROGRESS && AllUser(fns)
    case Remove(_, _) => false
    case Fire(k, _) => k <= PROGRESS
  }

  /** Resolving or rejecting. */
  predicate Settles(op: Op) {
    op.Fire? && op.k <= FAIL
  }

  predicate AllOffered(ops: seq<Op>) {
    forall i :: 0 <= i < |ops| ==> Offered(ops[i])
  }

  predicate OfferedScript(script: seq<Call>) {
    forall i :: 0 <= i < |script| ==> AllOffered(script[i].ops)
  }

  /** Operations of a promise, which cannot settle the deferred it belongs to. */
  predicate OnlyAdds(ops: seq<Op>) {
    forall i :: 0 <= i < |ops| ==> ops[i].Add?
  }

  predicate AddingScript(script: seq<Call>) {
    forall i :: 0 <= i < |script| ==> OnlyAdds(script[i].ops)
  }

  /** The fire that settles a deferred: the first of an outcome list. */
  function FirstSettling(fires: seq<Op>): Option<Op> {
    if fires == [] then None
    else if Settles(fires[0]) then Some(fires[0])
    else FirstSettling(fires[1..])
  }

  /** It can settle, and no fire before it could. */
  lemma {:induction false} FirstSettlingMeans(fires: seq<Op>)
    ensures FirstSettling(fires).None? <==> forall i :: 0 <= i < |fires| ==> !Settles(fires[i])
    ensures
      FirstSettling(fires).Some? ==>
        exists i :: && 0 <= i < |fires| && fires[i] == FirstSettling(fires).value && Settles(fires[i])
                    && forall j :: 0 <= j < i ==> !Settles(fires[j])
  {
    if fires != [] && !Settles(fires[0]) {
      FirstSettlingMeans(fires[1..]);
      assert forall i :: 0 < i < |fires| ==> fires[i] == fires[1..][i - 1];
      if FirstSettling(fires).Some? {
        var i :| && 0 <= i < |fires[1..]| && fires[1..][i] == FirstSettling(fires).value && Settles(fires[1..][i])
                 && forall j :: 0 <= j < i ==> !Settles(fires[1..][j]);
        assert fires[i + 1] == FirstSettling(fires).value && Settles(fires[i + 1]);
      }
    }
  }

  lemma {:induction false} FirstSettlingMore(fires: seq<Op>, op: Op)
    ensures
      var first := FirstSettling(fires);
      FirstSettling(fires + [op]) == if first.Some? then first else if Settles(op) then Some(op) else None
    decreases |fires|
  {
    if fires == [] {
      assert [op][1..] == [];
      assert fires + [op] == [op];
    } else {
      FirstSettlingMore(fires[1..], op);
      assert (fires + [op])[0] == fires[0] && (fires + [op])[1..] == fires[1..] + [op];
    }
  }

  /** Every pass was begun with the same data. */
  predicate OneData(log: seq<Event>, d: Data) {
    forall i :: 0 <= i < |log| ==> log[i].Begun? ==> log[i].data == d
  }

  lemma OneDataMore(log: seq<Event>, e: Event, d: Data)
    requires OneData(log, d) && (e.Begun? ==> e.data == d)
    ensures OneData(log + [e], d)
  {
  }

  /** What the promise of a deferred says about one of its lists depends on this much of it. */
  datatype Snapshot = Snapshot(
    list: Option<seq<Fn>>, memory: Option<Data>, fired: bool, firing: bool, firingIndex: int, inCall: bool,
    regs: seq<Registration>, log: seq<Event>)
  {
    /** Registrations whose turn is still to come: in the running pass, or in one about to begin. */
    function ToRun(): seq<Registration> {
      var at := if firing then firingIndex + (if inCall then 1 else 0) else 0;
      if 0 <= at <= |regs| then regs[at..] else []
    }

    /** The list of an outcome that has not come. */
    predicate Untouched(k: nat)
      requires k <= FAIL
    {
      && !fired && !firing && list.Some? && memory.None?
      && |list.value| >= 3 && list.value[..3] == Builtins(k) && AllUser(list.value[3..])
      && RanIn(log) == [] && AddedIn(log) == regs
      && forall i :: 0 <= i < |log| ==> !log[i].Begun?
    }

    /** The list of the outcome that can no longer come: none of its callbacks ever ran. */
    predicate Killed() {
      list.None? && !fired && !firing && RanIn(log) == []
    }

    /** The winner's list after a pass, about to be emptied. */
    predicate Spent(d: Data) {
      fired && !firing && list.Some? && memory == Some(d) && OneData(log, d) && AddedIn(log) == RanIn(log)
    }

    /** The list of the outcome that came: everything registered has run, in order and once, or is still to
        run. first: the list still holds the builtins. */
    predicate Loaded(k: nat, d: Data, first: bool)
      requires k <= FAIL
    {
      && fired && list.Some? && memory == Some(d) && OneData(log, d)
      && AddedIn(log) == RanIn(log) + ToRun()
      && (if firing && first
          then |list.value| >= 3 && list.value[..3] == Builtins(k) && AllUser(list.value[3..])
          else AllUser(list.value))
    }
  }

  lemma UntouchedMeans(s: Snapshot, k: nat)
    requires k <= FAIL && s.Untouched(k)
    ensures !s.fired && !s.firing && s.list.Some? && s.memory.None?
  {
    hide RanIn, AddedIn, Builtins;
  }

  lemma LoadedMeans(s: Snapshot, k: nat, d: Data, first: bool)
    requires k <= FAIL && s.Loaded(k, d, first)
    ensures s.fired && s.list.Some? && s.memory == Some(d)
  {
    hide RanIn, AddedIn, Builtins;
  }

  /** The end of a pass of the winner's list: nothing is left to run. */
  lemma LoadedSpent(s: Snapshot, t: Snapshot, k: nat, d: Data, first: bool)
    requires k <= FAIL && s.Loaded(k, d, first) && s.firing && !s.inCall && s.firingIndex == |s.regs|
    requires t == s.(firing := false, log := s.log + [Ended(false)])
    ensures t.Spent(d)
  {
    RanOne(s.log, Ended(false));
    AddedOne(s.log, Ended(false));
    hide RanIn, AddedIn, Builtins;
    assert s.ToRun() == [] && RanIn(s.log) + [] == RanIn(s.log);
  }

  lemma SpentCleared(s: Snapshot, t: Snapshot, k: nat, d: Data, first: bool)
    requires k <= FAIL && s.Spent(d) && t == s.(list := Some([]), regs := [], log := s.log + [Dropped])
    ensures t.Loaded(k, d, first)
  {
    RanOne(s.log, Dropped);
    AddedOne(s.log, Dropped);
    hide RanIn, AddedIn, Builtins;
    assert t.ToRun() == [] && RanIn(t.log) + [] == RanIn(t.log);
  }

  ghost function Snap(l: CallbackList): Snapshot
    reads l
  {
    Snapshot(l.list, l.memory, l.fired, l.firing, l.firingIndex, l.inCall, l.regs, l.log)
  }

  lemma RegisteredToRun(s: Snapshot, t: Snapshot, more: seq<Registration>)
    requires t.regs == s.regs + more
    requires t.firing == s.firing && t.firingIndex == s.firingIndex && t.inCall == s.inCall
    requires s.firing ==> 0 <= s.firingIndex + (if s.inCall then 1 else 0) <= |s.regs|
    ensures t.ToRun() == s.ToRun() + more
  {
  }

  /** More users' functions at the end, with or without the builtins in front. */
  lemma AllUserMore(list: seq<Fn>, fns: seq<Fn>)
    requires AllUser(fns)
    ensures AllUser(list) ==> AllUser(list + fns)
    ensures |list| >= 3 ==> (list + fns)[..3] == list[..3] && (AllUser(list[3..]) ==> AllUser((list + fns)[3..]))
  {
    if |list| >= 3 {
      assert (list + fns)[3..] == list[3..] + fns;
    }
  }

  lemma OneDataAdditions(log: seq<Event>, more: seq<Registration>, d: Data)
    requires OneData(log, d)
    ensures OneData(log + Additions(more), d)
  {
  }

  /** Registering on an outcome list keeps what is known of it. */
  lemma RegisteredUntouched(s: Snapshot, t: Snapshot, k: nat, fns: seq<Fn>, more: seq<Registration>)
    requires k <= FAIL && AllUser(fns) && s.Untouched(k)
    requires t == s.(list := Some(s.list.value + fns), regs := s.regs + more, log := s.log + Additions(more))
    ensures t.Untouched(k)
  {
    AdditionsMean(s.log, more);
    AllUserMore(s.list.value, fns);
    hide RanIn, AddedIn, Builtins, AllUser;
  }

  lemma RegisteredLoaded(s: Snapshot, t: Snapshot, k: nat, fns: seq<Fn>, more: seq<Registration>, d: Data, first: bool)
    requires k <= FAIL && AllUser(fns) && s.Loaded(k, d, first) && |s.regs| == |s.list.value|
    requires t == s.(list := Some(s.list.value + fns), regs := s.regs + more, log := s.log + Additions(more))
    requires s.firing ==> 0 <= s.firingIndex + (if s.inCall then 1 else 0) <= |s.regs|
    ensures t.Loaded(k, d, first)
  {
    AdditionsMean(s.log, more);
    OneDataAdditions(s.log, more, d);
    hide RanIn, AddedIn, Builtins, OneData, Additions, AllUser, Snapshot.ToRun;
    RegisteredToRun(s, t, more);
    ConcatAssoc(RanIn(s.log), s.ToRun(), more);
    AllUserMore(s.list.value, fns);
  }

  /** A fire that is accepted changes nothing of an outcome list but its history. */
  lemma AcceptedKeeps(s: Snapshot, t: Snapshot, k: nat, data: Data)
    requires k <= FAIL && s.Untouched(k) && t == s.(log := s.log + [Accepted(data)])
    ensures t.Untouched(k)
  {
    RanOne(s.log, Accepted(data));
    AddedOne(s.log, Accepted(data));
    hide RanIn, AddedIn, Builtins;
  }

  class World {
    const lists: seq<CallbackList>
    /** The lists are those of a deferred. */
    const deferred: bool
    var script: seq<Call>
    var state: State

    ghost var winner: Option<nat>      // the list whose fire settled the deferred
    ghost var settledWith: Data
    ghost var firstPass: bool          // the winner's list still holds the builtins
    ghost var changes: seq<State>      // all assignments to state
    ghost var fires: seq<Op>           // all fires made, ignored ones included

    /** Any lists, with any callbacks. */
    constructor (lists: seq<CallbackList>, script: seq<Call>)
      requires forall i, j :: 0 <= i < j < |lists| ==> lists[i] != lists[j]
      requires forall k :: 0 <= k < |lists| ==> lists[k].Valid()
      ensures Good() && !deferred && this.lists == lists && this.script == script && fires == []
    {
      this.lists, deferred, this.script, state := lists, false, script, Pending;
      winner, settledWith, firstPass, changes, fires := None, 0, false, [], [];
    }

    /** jQuery.Deferred: three lists, of which the first two begin with functions that keep the state. */
    constructor Deferred(script: seq<Call>)
      requires OfferedScript(script)
      ensures Good() && deferred && winner == None && this.script == script && fires == [] && fresh(lists)
      ensures forall k :: 0 <= k < |lists| ==> !lists[k].firing && !lists[k].fired
    {
      hide Replay, AddedIn, RanIn, RequestsOf, AcceptedIn, Increasing, Builtins, OfferedScript, AllUser,
           Snapshot.Untouched,
           Snapshot.Loaded, Snapshot.Killed, CallbackList.Core, CallbackList.Valid, Shape, Settling;
      var done := NewOutcomeList(DONE);
      var fail := NewOutcomeList(FAIL);
      var progress := new CallbackList(false, true, false, false);
      lists, deferred, this.script, state := [done, fail, progress], true, script, Pending;
      winner, settledWith, firstPass, changes, fires := None, 0, false, [], [];
      new;
      FreshShape();
    }

    /** Lists as jQuery.Deferred makes them have the shape it relies on. */
    lemma FreshShape()
      requires |lists| == 3 && OfferedScript(script)
      requires forall k :: 0 <= k <= FAIL ==>
                 lists[k].once && lists[k].memorized && !lists[k].unique && !lists[k].stopOnFalse
      requires var l := lists[PROGRESS]; !l.once && l.memorized && !l.unique && !l.stopOnFalse
      requires var l := lists[PROGRESS]; l.list == Some([]) && l.memory.None? && !l.fired
      requires winner.None? && fires == []
      ensures Shape()
    {
      hide OfferedScript;
      NoFunctions();
    }

    /** One of the two lists that fire once, with its builtins. */
    static method NewOutcomeList(k: nat) returns (l: CallbackList)
      requires k <= FAIL
      ensures fresh(l) && l.Valid() && l.once && l.memorized && !l.unique && !l.stopOnFalse
      ensures Snap(l).Untouched(k) && !l.firing && !l.fired
    {
      hide Replay, RequestsOf, AcceptedIn, Increasing, Builtins;
      l := new CallbackList(true, true, false, false);
      ghost var more;
      var start;
      start, more := l.PushAll(Builtins(k));
      assert [] + Builtins(k) == Builtins(k) && l.list.value[3..] == [];
      assert AddedIn([]) == [] && [] + more == more;
    }

    ghost predicate Separate() {
      forall i, j :: 0 <= i < j < |lists| ==> lists[i] != lists[j]
    }

    ghost predicate AllValid()
      reads this, lists
    {
      forall k :: 0 <= k < |lists| ==> lists[k].Valid()
    }

    /** All lists but one are as user code sees them. */
    ghost predicate OthersValid(k: nat)
      reads this, lists
    {
      forall j :: 0 <= j < |lists| && j != k ==> lists[j].Valid()
    }

    // ---------- the promise of a deferred ----------

    /** The progress list of a deferred without an outcome takes every notification. */
    ghost predicate Notifiable()
      requires |lists| == 3
      reads this, lists
    {
      lists[PROGRESS].list.Some? && lists[PROGRESS].stack.Some?
    }

    /** The progress list once an outcome has locked it takes none. */
    ghost predicate Muted()
      requires |lists| == 3
      reads this, lists
    {
      lists[PROGRESS].stack.None? && (lists[PROGRESS].list.Some? ==> lists[PROGRESS].fired)
    }

    /** The deferred after j of the builtins of list w have run. */
    ghost predicate Settling(w: nat, j: nat)
      requires |lists| == 3
      reads this, lists
    {
      && w <= FAIL && winner == Some(w)
      && Snap(lists[w]).Loaded(w, settledWith, firstPass)
      && state == (if j >= 1 then Outcome(w) else Pending)
      && changes == (if j >= 1 then [Outcome(w)] else [])
      && (if j >= 2 then Snap(lists[1 - w]).Killed() else Snap(lists[1 - w]).Untouched(1 - w))
      && (j >= 3 ==> Muted())
    }

    /** The lists of a deferred, and scripts that use only what it offers. */
    ghost predicate Shape()
      reads this, lists
    {
      && |lists| == 3
      && (forall k :: 0 <= k <= FAIL ==>
            lists[k].once && lists[k].memorized && !lists[k].unique && !lists[k].stopOnFalse)
      && !lists[PROGRESS].once && lists[PROGRESS].memorized && !lists[PROGRESS].unique && !lists[PROGRESS].stopOnFalse
      && (lists[PROGRESS].list.Some? ==>
            AllUser(lists[PROGRESS].list.value) && lists[PROGRESS].memory.Some? == lists[PROGRESS].fired)
      && OfferedScript(script) && Decided()
    }

    /** The outcome is that of the first fire made that can settle. */
    ghost predicate Decided()
      reads this`winner, this`settledWith, this`fires
    {
      FirstSettling(fires) == if winner.None? then None else Some(Fire(winner.value, settledWith))
    }

    /** The promise, whenever user code runs: nothing has happened yet, or exactly one outcome has. */
    ghost predicate Promise()
      reads this, lists
    {
      && Shape()
      && match winner
         case None => state == Pending && changes == [] && Snap(lists[DONE]).Untouched(DONE)
                      && Snap(lists[FAIL]).Untouched(FAIL) && Notifiable()
         case Some(w) => Settling(w, 3)
    }

    /** Outside of a pass of the winner, nothing is left to run. */
    ghost predicate Settled()
      reads this, lists
    {
      winner.Some? && winner.value < |lists| && !lists[winner.value].firing ==> lists[winner.value].list == Some([])
    }

    ghost predicate Good()
      reads this, lists
    {
      Separate() && AllValid() && (deferred ==> Promise() && Settled())
    }

    // ---------- running callbacks ----------

    /** Calls one of the functions of jQuery.Deferred. */
    method CallBuiltin(fn: Fn)
      requires Separate() && AllValid() && !fn.User?
      modifies this`state, this`changes, lists
      ensures AllValid()
      ensures forall j :: 0 <= j < |lists| ==>
                && lists[j].firing == old(lists[j].firing) && lists[j].inCall == old(lists[j].inCall)
                && lists[j].firingIndex == old(lists[j].firingIndex)
                && lists[j].firingLength == old(lists[j].firingLength)
                && (lists[j].list == old(lists[j].list) || lists[j].list == None)
                && (lists[j].stack == old(lists[j].stack) || lists[j].stack == None)
                && old(lists[j].log) <= lists[j].log
      ensures match fn
              case SetState(s) => state == s && changes == old(changes) + [s]
                                  && forall j :: 0 <= j < |lists| ==> unchanged(lists[j])
              case DisableList(k) =>
                && state == old(state) && changes == old(changes)
                && (forall j :: 0 <= j < |lists| && j != k ==> unchanged(lists[j]))
                && (k < |lists| ==> lists[k].list == None && lists[k].fired == old(lists[k].fired)
                                    && RanIn(lists[k].log) == RanIn(old(lists[k].log)))
              case LockList(k) =>
                && state == old(state) && changes == old(changes)
                && (forall j :: 0 <= j < |lists| && j != k ==> unchanged(lists[j]))
                && (k < |lists| ==>
                      && lists[k].stack == None && lists[k].fired == old(lists[k].fired)
                      && lists[k].memory == old(lists[k].memory)
                      && (lists[k].list.Some? ==> lists[k].memory.Some?))
              case User(_) => true
    {
      match fn {
        case SetState(s) =>
          state := s;
          changes := changes + [s];
        case DisableList(k) =>
          if k < |lists| { lists[k].Disable(); }
        case LockList(k) =>
          if k < |lists| { lists[k].Lock(); }
        case User(_) =>
      }
    }

    /** What a call may not change: which passes are running, and who has won. */
    twostate predicate Steady()
      reads this, lists
    {
      && |script| <= |old(script)| && old(fires) <= fires
      && (forall j :: 0 <= j < |lists| ==> old(lists[j].log) <= lists[j].log)
      && (forall j :: 0 <= j < |lists| ==>
            lists[j].firing == old(lists[j].firing) && lists[j].inCall == old(lists[j].inCall))
      && (deferred ==>
            && (forall j :: 0 <= j < |lists| ==> old(lists[j].firing) ==>
               lists[j].firingIndex == old(lists[j].firingIndex))
            && (old(winner).Some? ==> winner == old(winner) && settledWith == old(settledWith))
            && (old(winner.Some? && winner.value < |lists| && lists[winner.value].firing) ==>
                  firstPass == old(firstPass)))
    }

    /** Steady, except that list k is in a pass begun since. */
    twostate predicate SteadyBut(k: nat)
      reads this, lists
    {
      && |script| <= |old(script)| && old(fires) <= fires
      && (forall j :: 0 <= j < |lists| ==> old(lists[j].log) <= lists[j].log)
      && (forall j :: 0 <= j < |lists| && j != k ==>
            lists[j].firing == old(lists[j].firing) && lists[j].inCall == old(lists[j].inCall))
      && (deferred ==>
            && (forall j :: 0 <= j < |lists| && j != k ==> old(lists[j].firing) ==>
               lists[j].firingIndex == old(lists[j].firingIndex))
            && (old(winner).Some? ==> winner == old(winner) && settledWith == old(settledWith))
            && (old(winner.Some? && winner.value < |lists| && lists[winner.value].firing) ==>
                  firstPass == old(firstPass)))
    }

    /** No fire has been made since but by callbacks. */
    twostate predicate NoFire()
      reads this
    {
      AddingScript(old(script)) ==> AddingScript(script) && fires == old(fires)
    }

    /** One fire has been made, and then none but by callbacks. */
    twostate predicate OneFire(op: Op)
      reads this
    {
      && old(fires) + [op] <= fires
      && (AddingScript(old(script)) ==> AddingScript(script) && fires == old(fires) + [op])
    }

    /** The first pass of an outcome list records the fire that settles. */
    ghost predicate SettlesNow(k: nat)
      reads this
    {
      deferred && k != PROGRESS && winner.None?
    }

    // ---------- changes of one list ----------

    /** The list side of add: pushes the functions and extends a running pass. */
    method Register(l: CallbackList, k: nat, fns: seq<Fn>) returns (start: nat, ghost more: seq<Registration>)
      requires Good() && k < |lists| && l == lists[k] && l.list.Some? && (deferred ==> AllUser(fns))
      modifies l`list, l`regs, l`nextId, l`log, l`firingLength
      ensures Separate() && OthersValid(k) && l.Valid()
      ensures l.list.Some? && start == |old(l.list).value| <= |l.list.value|
      ensures l.log == old(l.log) + Additions(more)
      ensures !l.unique ==> l.list.value == old(l.list).value + fns && Of(more, fns)
      ensures l.firing ==> l.firingLength == |l.list.value|
      ensures deferred ==> Promise()
      ensures deferred && k != PROGRESS && winner.Some? ==> winner == Some(k) && (!l.firing ==> start == 0)
      ensures deferred && (k == PROGRESS || winner.None? || l.firing) ==> Settled()
    {
      hide Replay, AddedIn, RanIn, RequestsOf, AcceptedIn, Increasing, Builtins, OfferedScript, Snapshot.Untouched,
           Snapshot.Loaded, CallbackList.Core, CallbackList.Valid;
      ghost var before := Snap(l);
      IndexesFit(l);
      start, more := l.PushAll(fns);
      if deferred && k != PROGRESS {
        if winner.None? || winner != Some(k) {
          if before.Untouched(k) { RegisteredUntouched(before, Snap(l), k, fns, more); }
        } else {
          RegisteredLoaded(before, Snap(l), k, fns, more, settledWith, firstPass);
        }
      }
    }

    lemma IndexesFit(l: CallbackList)
      requires l.Valid() && l.list.Some?
      ensures |l.regs| == |l.list.value|
      ensures l.firing ==> 0 <= l.firingIndex + (if l.inCall then 1 else 0) <= |l.regs|
    {
    }

    /** After registering, either nothing is to be run, or the list may fire. */
    lemma AfterRegister(k: nat)
      requires k < |lists| && Separate() && OthersValid(k) && lists[k].Valid() && lists[k].list.Some?
      requires deferred ==> Promise()
      requires deferred && k != PROGRESS && winner.Some? ==> winner == Some(k)
      requires deferred && (k == PROGRESS || winner.None? || lists[k].firing) ==> Settled()
      ensures deferred && !lists[k].firing && lists[k].memory.Some? ==> ReadyToFire(k, lists[k].memory.value)
      ensures deferred && k != PROGRESS && lists[k].memory.Some? ==> winner.Some?
      ensures lists[k].firing || lists[k].memory.None? ==> Good()
    {
      hide Replay, AddedIn, RanIn, RequestsOf, AcceptedIn, Increasing, Builtins, OfferedScript, Snapshot.Untouched,
           Snapshot.Loaded, Snapshot.Killed;
      if deferred && k <= FAIL {
        if winner.None? {
          UntouchedMeans(Snap(lists[k]), k);
        } else {
          LoadedMeans(Snap(lists[k]), k, settledWith, firstPass);
        }
      }
    }

    // ---------- one pass ----------

    /** How many builtins have run when list k is about to call the function at its firing index. */
    ghost function Phase(k: nat): nat
      requires k < |lists|
      reads this, lists[k]
    {
      if firstPass && 0 <= lists[k].firingIndex < 3 then lists[k].firingIndex else 3
    }

    /** The promise between two callbacks of a pass of list k. */
    ghost predicate InPass(k: nat)
      requires k < |lists|
      reads this, lists
    {
      && Shape() && k <= PROGRESS
      && if k == PROGRESS then Promise() && Settled() else Settling(k, Phase(k))
    }

    /** A deferred's list may fire: its progress list in between, or an outcome list for the first time, or the
        winner's list again for what was just registered. */
    ghost predicate ReadyToFire(k: nat, data: Data)
      requires k < |lists|
      reads this, lists
    {
      && Promise() && k <= PROGRESS
      && (k == PROGRESS ==> Settled())
      && (k != PROGRESS ==> lists[k].firingStart == 0 && (winner.Some? ==> winner == Some(k) && settledWith == data))
    }

    /** The deferred is settled by a fire of an outcome list. */
    ghost method Settle(k: nat, data: Data)
      requires Decided() && winner.None? && k <= FAIL
      modifies this`winner, this`settledWith, this`firstPass, this`fires
      ensures Decided() && winner == Some(k) && settledWith == data && firstPass
      ensures fires == old(fires) + [Fire(k, data)]
    {
      hide FirstSettling;
      FirstSettlingMore(fires, Fire(k, data));
      winner, settledWith, firstPass, fires := Some(k), data, true, fires + [Fire(k, data)];
    }

    /** Starts a pass; the first pass of an outcome list settles the deferred. */
    method BeginPass(l: CallbackList, k: nat, data: Data, requested: bool)
      requires k < |lists| && l == lists[k] && Separate() && OthersValid(k)
      requires l.Core() && !l.firing && !l.inCall && l.list.Some? && l.firingStart <= |l.list.value|
      requires l.stack.Some? ==>
                 AcceptedIn(l.log) == RequestsOf(l.log) + (if requested then [data] + l.stack.value else l.stack.value)
      requires deferred ==> ReadyToFire(k, data)
      modifies this`winner, this`settledWith, this`firstPass, this`fires,
               l`memory, l`fired, l`firing, l`firingIndex, l`firingStart, l`firingLength, l`log
      ensures OthersValid(k) && l.AtHead()
      ensures deferred ==> InPass(k) && (old(winner).Some? ==> winner == old(winner) && settledWith == old(settledWith))
      ensures deferred && k != PROGRESS ==> winner == Some(k) && settledWith == data
      ensures l.log == old(l.log) + [Begun(data, old(l.firingStart), requested)]
      ensures deferred && (k == PROGRESS || (old(winner).Some? && old(winner) != Some(k))) ==>
                firstPass == old(firstPass)
      ensures if old(SettlesNow(k)) then fires == old(fires) + [Fire(k, data)] else fires == old(fires)
    {
      hide Replay, AddedIn, RanIn, RequestsOf, AcceptedIn, Increasing, Builtins, OfferedScript, Snapshot.Untouched,
           Snapshot.Loaded, Snapshot.Killed,
           CallbackList.Core, CallbackList.AtHead, CallbackList.Valid, Decided;
      ghost var before := Snap(l);
      ghost var won, first := winner, firstPass;
      if deferred && k != PROGRESS {
        if winner.None? {
          Settle(k, data);
        } else {
          firstPass := false;
        }
      }
      l.StartPass(data, requested);
      if deferred && k != PROGRESS {
        if won.None? {
          BegunFirst(before, Snap(l), k, data, requested);
        } else {
          BegunAgain(before, Snap(l), k, data, requested, first);
        }
      }
    }

    /** Takes the next callback. In a deferred it is a builtin during the first three turns of the first pass, and a
        user's function, called with the promise kept, otherwise. */
    method TakeCallback(l: CallbackList, k: nat) returns (fn: Fn)
      requires k < |lists| && l == lists[k] && Separate() && OthersValid(k) && l.AtHead()
      requires l.list.Some? && 0 <= l.firingIndex < l.firingLength && (deferred ==> InPass(k))
      modifies l`inCall, l`log
      ensures AllValid() && l.firing && l.inCall && l.list.Some? && old(l.log) <= l.log
      ensures fn == l.list.value[l.firingIndex] && l.list == old(l.list)
      ensures |l.log| == |old(l.log)| + 1 && l.log[|old(l.log)|].Ran? && l.log[|old(l.log)|].reg.fn == fn
      ensures deferred ==> InPass(k)
      ensures deferred && fn.User? ==> Promise() && Settled() && (k != PROGRESS && firstPass ==> l.firingIndex >= 3)
      ensures deferred && !fn.User? ==>
                k <= FAIL && firstPass && l.firingIndex < 3 && fn == Builtins(k)[l.firingIndex]
                    && Settling(k, l.firingIndex)
    {
      hide Replay, AddedIn, RanIn, RequestsOf, AcceptedIn, Increasing, Builtins, OfferedScript, Snapshot.Untouched,
           Snapshot.Loaded, Snapshot.Killed,
           CallbackList.Core, CallbackList.Valid;
      ghost var before := Snap(l);
      fn := l.NextCallback();
      if deferred && k != PROGRESS {
        NextIs(before, k, settledWith, firstPass);
        Taken(before, Snap(l), k, settledWith, firstPass);
      }
    }

    /** One of the first three turns of the pass that settles a deferred, or a builtin in any other world. */
    method BuiltinTurn(l: CallbackList, k: nat, fn: Fn)
      requires k < |lists| && l == lists[k] && Separate() && AllValid() && l.firing && l.inCall && !fn.User?
      requires deferred ==>
                 && Shape() && k <= FAIL && firstPass && 0 <= l.firingIndex < 3
                 && fn == Builtins(k)[l.firingIndex] && Settling(k, l.firingIndex)
      modifies this`state, this`changes, lists
      ensures AllValid() && l.firing && l.inCall && l.firingIndex == old(l.firingIndex) && SteadyBut(k)
      ensures (l.list == old(l.list) || l.list == None) && l.firingLength == old(l.firingLength)
      ensures l.stack.Some? ==> l.stack == old(l.stack)
      ensures deferred ==> AfterCall(k)
    {
      hide Replay, AddedIn, RanIn, RequestsOf, AcceptedIn, Increasing, OfferedScript, Snapshot.Loaded,
           CallbackList.Core,
           CallbackList.Valid;
      assert deferred ==> Builtins(k) == [SetState(Outcome(k)), DisableList(1 - k), LockList(PROGRESS)];
      CallBuiltin(fn);
    }

    lemma ListCount()
      requires Good()
      ensures deferred ==> |lists| == 3
    {
    }

    /** Takes the next entry of the script. */
    method NextCall() returns (call: Call)
      requires Good() && |script| > 0
      modifies this`script
      ensures Good() && script == old(script)[1..] && call == old(script)[0] && (deferred ==> AllOffered(call.ops))
      ensures AddingScript(old(script)) ==> AddingScript(script) && OnlyAdds(call.ops)
    {
      hide Replay, AddedIn, RanIn, RequestsOf, AcceptedIn, Increasing, Builtins, AllOffered, Snapshot.Untouched,
           Snapshot.Loaded,
           Snapshot.Killed, CallbackList.Core, CallbackList.Valid, OnlyAdds;
      call := script[0];
      script := script[1..];
    }

    /** Calls a user's function: it does what the script says, on any of the lists. */
    method CallUser() returns (isFalse: bool)
      requires Good()
      modifies this, lists
      ensures Good() && Steady()
      ensures |script| == |old(script)| ==> forall j :: 0 <= j < |lists| ==> unchanged(lists[j])
      ensures |old(script)| > 0 ==> |script| < |old(script)| && isFalse == old(script)[0].returnsFalse
      ensures |old(script)| == 0 ==> !isFalse
      ensures NoFire()
      decreases |script|, 1, 0
    {
      hide Good, AllOffered, OnlyAdds, AddingScript;
      if |script| == 0 {
        return false;
      }
      var call := NextCall();
      Perform(call.ops);
      return call.returnsFalse;
    }

    /** The operations of a callback, or of code outside of any callback. */
    method Perform(ops: seq<Op>)
      requires Good() && (deferred ==> AllOffered(ops))
      modifies this, lists
      ensures Good() && Steady()
      ensures deferred && old(winner).None? && |ops| > 0 && Settles(ops[0]) ==>
                winner == Some(ops[0].k) && settledWith == ops[0].data
      ensures deferred && (exists i :: 0 <= i < |ops| && Settles(ops[i])) ==> winner.Some?
      ensures OnlyAdds(ops) ==> NoFire()
      decreases |script|, 7
    {
      hide Good, Promise, Offered, AddingScript;
      for i := 0 to |ops|
        invariant Good() && Steady() && (i == 0 ==> winner == old(winner))
        invariant i > 0 && deferred && old(winner).None? && Settles(ops[0]) ==>
                    winner == Some(ops[0].k) && settledWith == ops[0].data
        invariant forall j :: 0 <= j < i && deferred && Settles(ops[j]) ==> winner.Some?
        invariant OnlyAdds(ops) ==> NoFire()
      {
        Do(ops[i]);
      }
    }

    /** One operation. */
    method Do(op: Op)
      requires Good() && (deferred ==> Offered(op))
      modifies this, lists
      ensures Good() && Steady()
      ensures deferred && Settles(op) ==> winner.Some?
      ensures deferred && Settles(op) && old(winner).None? ==> winner == Some(op.k) && settledWith == op.data
      ensures op.Add? ==> NoFire()
      decreases |script|, 6
    {
      hide Good, Promise, AddingScript;
      ListCount();
      match op {
        case Add(k, fns) => if k < |lists| { ghost var more, mid := AddTo(k, fns); }
        case Remove(k, fns) => if k < |lists| { RemoveFrom(k, fns); }
        case Fire(k, data) => if k < |lists| { FireWith(k, data); }
      }
    }

    // ---------- the public operations ----------

    /** self.add: the functions join the list, and a running pass; with a remembered fire they are called at once. */
    method AddTo(k: nat, fns: seq<Fn>) returns (ghost more: seq<Registration>, ghost mid: seq<Event>)
      requires Good() && k < |lists| && (deferred ==> AllUser(fns))
      modifies this, lists
      ensures Good() && Steady()
      ensures old(lists[k].list).None? ==> unchanged(lists[k])
      ensures old(lists[k].list).Some? ==>
                && mid == old(lists[k].log) + Additions(more) && mid <= lists[k].log
                && (!lists[k].unique ==> Of(more, fns))
      ensures old(lists[k].list).Some? && (old(lists[k].firing) || old(lists[k].memory).None?) ==>
                && lists[k].log == mid && lists[k].list.Some?
                && (!lists[k].unique ==> lists[k].list.value == old(lists[k].list).value + fns)
                && (lists[k].firing ==> lists[k].firingLength == |lists[k].list.value|)
      ensures old(lists[k].list).Some? && !old(lists[k].firing) && old(lists[k].memory).Some? ==>
                mid + [Begun(old(lists[k].memory).value, |old(lists[k].list).value|, false)] <= lists[k].log
      ensures NoFire()
      decreases |script|, 5
    {
      hide Replay, AddedIn, RanIn, RequestsOf, AcceptedIn, Increasing, Builtins, OfferedScript, Good, Promise,
           Settled,
           CallbackList.Core, AddingScript;
      var l := lists[k];
      more, mid := [], l.log;
      if l.list.None? {
        return;
      }
      var start;
      start, more := Register(l, k, fns);
      AfterRegister(k);
      mid := l.log;
      if !l.firing && l.memory.Some? {
        StartAt(l, k, start);
        FirePass(l, k, l.memory.value, false);
      }
    }

    /** firingStart = start. */
    method StartAt(l: CallbackList, k: nat, start: nat)
      requires k < |lists| && l == lists[k] && Separate() && OthersValid(k) && l.Valid()
      requires !l.firing && l.list.Some? && l.memory.Some? && start <= |l.list.value|
      requires deferred ==> ReadyToFire(k, l.memory.value) && (k != PROGRESS ==> start == 0)
      modifies l`firingStart
      ensures OthersValid(k) && l.Core() && !l.inCall && l.firingStart == start
      ensures l.stack.Some? ==> AcceptedIn(l.log) == RequestsOf(l.log) + l.stack.value
      ensures deferred ==> ReadyToFire(k, l.memory.value)
    {
      hide Replay, AddedIn, RanIn, RequestsOf, AcceptedIn, Increasing, Builtins, OfferedScript, Snapshot.Untouched,
           Snapshot.Loaded, Snapshot.Killed;
      l.firingStart := start;
    }

    /** self.remove, which a deferred does not offer. */
    method RemoveFrom(k: nat, fns: seq<Fn>)
      requires Good() && k < |lists| && !deferred
      modifies lists
      ensures Good() && Steady()
      ensures lists[k].list.Some? == old(lists[k].list.Some?)
      ensures lists[k].list.Some? ==> lists[k].list.value == DropAll(old(lists[k].list).value, fns)
    {
      hide CallbackList.Valid, CallbackList.Core;
      lists[k].Remove(fns);
    }

    /** Resolving, rejecting or notifying is not ignored exactly when the deferred has no outcome yet. */
    lemma FiresIffPending(k: nat)
      requires Good() && deferred && k <= PROGRESS && k < |lists|
      ensures lists[k].list.Some? && (!lists[k].fired || lists[k].stack.Some?) <==> winner.None?
      ensures winner.None? && k <= FAIL ==> lists[k].firingStart == 0 && Promise() && !lists[k].firing
    {
      hide Replay, AddedIn, RanIn, RequestsOf, AcceptedIn, Increasing, Builtins, OfferedScript, Snapshot.Untouched,
           Snapshot.Loaded;
      assert lists[k].Valid();
      if winner.Some? {
        LoadedMeans(Snap(lists[winner.value]), winner.value, settledWith, firstPass);
      } else if k <= FAIL {
        UntouchedMeans(Snap(lists[k]), k);
      }
    }

    /** Notes that a fire is not ignored. */
    ghost method Accept(l: CallbackList, k: nat, data: Data)
      requires Good() && k < |lists| && l == lists[k] && l.list.Some? && (!l.fired || l.stack.Some?) && !l.firing
      modifies l`log
      ensures Separate() && OthersValid(k) && l.Core() && !l.inCall && l.firingStart == 0
      ensures l.log == old(l.log) + [Accepted(data)]
      ensures l.stack.Some? ==> AcceptedIn(l.log) == RequestsOf(l.log) + ([data] + l.stack.value)
      ensures deferred ==> ReadyToFire(k, data)
    {
      hide Replay, AddedIn, RanIn, RequestsOf, AcceptedIn, Increasing, Builtins, OfferedScript, Snapshot.Untouched,
           Snapshot.Loaded, Snapshot.Killed;
      ghost var before := Snap(l);
      if deferred && k <= FAIL {
        FiresIffPending(k);
      }
      assert l.Valid();
      l.Record(Accepted(data));
      if deferred && k <= FAIL {
        AcceptedKeeps(before, Snap(l), k, data);
      }
    }

    /** A fire that begins a pass at once. */
    method FireNow(l: CallbackList, k: nat, data: Data)
      requires Good() && k < |lists| && l == lists[k] && l.list.Some? && (!l.fired || l.stack.Some?) && !l.firing
      modifies this, lists
      ensures Good() && Steady() && old(l.log) + [Accepted(data), Begun(data, 0, true)] <= l.log
      ensures deferred && k != PROGRESS ==> winner == Some(k) && settledWith == data
      ensures if old(SettlesNow(k)) then OneFire(Fire(k, data)) else NoFire()
      decreases |script|, 4
    {
      hide Replay, AddedIn, RanIn, RequestsOf, AcceptedIn, Increasing, Builtins, OfferedScript, Promise, Settled,
           CallbackList.Core, CallbackList.Valid, AddingScript, Good, ReadyToFire;
      Accept(l, k, data);
      assert old(l.log) + [Accepted(data)] + [Begun(data, 0, true)]
          == old(l.log) + [Accepted(data), Begun(data, 0, true)];
      FirePass(l, k, data, true);
    }

    /** self.fireWith: queued while the list is firing, ignored by a list that fires once and has. */
    method FireWith(k: nat, data: Data)
      requires Good() && k < |lists|
      modifies this, lists
      ensures Good() && Steady()
      ensures old(lists[k].list.None? || (lists[k].fired && lists[k].stack.None?)) ==> unchanged(lists[k])
      ensures old(lists[k].list.Some? && lists[k].stack.Some? && lists[k].firing) ==>
                && lists[k].stack == Some(old(lists[k].stack).value + [data])
                && lists[k].log == old(lists[k].log) + [Accepted(data)]
      ensures old(lists[k].list.Some? && (!lists[k].fired || lists[k].stack.Some?) && !lists[k].firing) ==>
                old(lists[k].log) + [Accepted(data), Begun(data, 0, true)] <= lists[k].log
      ensures deferred && k <= FAIL && old(winner).None? ==> winner == Some(k) && settledWith == data
      ensures deferred && k <= PROGRESS && old(winner).Some? ==>
                && unchanged(`script, `state, `winner, `settledWith, `firstPass, `changes)
                && forall j :: 0 <= j < |lists| ==> unchanged(lists[j])
      ensures OneFire(Fire(k, data))
      decreases |script|, 5
    {
      hide Replay, AddedIn, RanIn, RequestsOf, AcceptedIn, Increasing, Builtins, OfferedScript, Promise, Settled,
           CallbackList.Core, CallbackList.Valid, AddingScript, Good;
      var l := lists[k];
      ListCount();
      if deferred {
        FiresIffPending(k);
      }
      NoteFire(k, data);
      if l.list.Some? && (!l.fired || l.stack.Some?) {
        if l.firing {
          FiredBefore(k);
          Enqueue(l, k, data);
        } else {
          FireNow(l, k, data);
        }
      }
    }

    /** Records a fire, unless the pass it begins will. */
    ghost method NoteFire(k: nat, data: Data)
      requires Good() && k < |lists|
      modifies this`fires
      ensures Good() && fires == if SettlesNow(k) then old(fires) else old(fires) + [Fire(k, data)]
    {
      hide Replay, AddedIn, RanIn, RequestsOf, AcceptedIn, Increasing, Builtins, OfferedScript, Snapshot.Untouched,
           Snapshot.Loaded, Snapshot.Killed, CallbackList.Core, CallbackList.Valid, FirstSettling;
      if !SettlesNow(k) {
        FirstSettlingMore(fires, Fire(k, data));
        fires := fires + [Fire(k, data)];
      }
    }

    lemma FiredBefore(k: nat)
      requires Good() && k < |lists| && lists[k].firing
      ensures lists[k].fired
    {
      assert lists[k].Valid();
    }

    /** stack.push. */
    method Enqueue(l: CallbackList, k: nat, data: Data)
      requires Good() && k < |lists| && l == lists[k] && l.firing && l.stack.Some?
      modifies l`log, l`stack
      ensures Good() && l.stack == Some(old(l.stack).value + [data]) && l.log == old(l.log) + [Accepted(data)]
    {
      hide Replay, AddedIn, RanIn, RequestsOf, AcceptedIn, Increasing, Builtins, OfferedScript, Snapshot.Untouched,
           Snapshot.Loaded, Snapshot.Killed, CallbackList.Core, CallbackList.Valid;
      l.Enqueue(data);
    }

    /** The closure's own fire( data ). */
    method FirePass(l: CallbackList, k: nat, data: Data, requested: bool)
      requires k < |lists| && l == lists[k] && Separate() && OthersValid(k)
      requires l.Core() && !l.firing && !l.inCall && l.list.Some? && l.firingStart <= |l.list.value|
      requires l.stack.Some? ==>
                 AcceptedIn(l.log) == RequestsOf(l.log) + (if requested then [data] + l.stack.value else l.stack.value)
      requires deferred ==> ReadyToFire(k, data)
      modifies this, lists
      ensures Good() && Steady() && old(l.log) + [Begun(data, old(l.firingStart), requested)] <= l.log
      ensures deferred && k != PROGRESS ==> winner == Some(k) && settledWith == data
      ensures l.once ==> l.list.None? || l.list == Some([])
      ensures if old(SettlesNow(k)) then OneFire(Fire(k, data)) else NoFire()
      decreases |script|, 3, if l.stack.Some? then |l.stack.value| else 0
    {
      hide Replay, AddedIn, RanIn, RequestsOf, AcceptedIn, Increasing, Builtins, OfferedScript, Snapshot.Untouched,
           Snapshot.Loaded,
           Snapshot.Killed, Settling, Promise, Good, ReadyToFire, InPass, Shape, CallbackList.Core, CallbackList.Valid,
           CallbackList.AtHead, AddingScript;
      BeginPass(l, k, data, requested);
      var cut := RunPass(l, k);
      FinishPass(l, k, cut);
    }

    /** The loop of fire: true if a callback stopped the pass. */
    method RunPass(l: CallbackList, k: nat) returns (cut: bool)
      requires k < |lists| && l == lists[k] && Separate() && OthersValid(k) && l.AtHead() && (deferred ==> InPass(k))
      modifies this, lists
      ensures OthersValid(k) && l.firing && SteadyBut(k)
      ensures if cut then l.Valid() && l.inCall else l.AtHead() && (l.list.Some? ==> l.firingIndex >= l.firingLength)
      ensures cut ==> l.stopOnFalse && l.memory.None?
      ensures deferred ==> !cut && InPass(k)
      ensures |script| == |old(script)| && l.stack.Some? ==> l.stack == old(l.stack)
      ensures NoFire()
      decreases |script|, 2, 0
    {
      hide Replay, AddedIn, RanIn, RequestsOf, AcceptedIn, Increasing, Builtins, OfferedScript, Snapshot.Untouched,
           Snapshot.Loaded,
           Snapshot.Killed, Settling, Promise, CallbackList.Core, CallbackList.Valid, InPass, AddingScript;
      cut := false;
      while l.list.Some? && l.firingIndex < l.firingLength
        invariant OthersValid(k) && l.AtHead() && (deferred ==> InPass(k)) && SteadyBut(k) && !cut
        invariant |script| == |old(script)| && l.stack.Some? ==> l.stack == old(l.stack)
        invariant NoFire()
        decreases |script|, if l.list.Some? then l.firingLength - l.firingIndex else 0
      {
        cut := OneTurn(l, k);
        if cut {
          break;
        }
      }
    }

    /** Between the end of a pass of list k and what follows it. */
    ghost predicate BetweenPasses(k: nat)
      requires k < |lists|
      reads this, lists
    {
      && Shape() && k <= PROGRESS
      && if k == PROGRESS then Promise() && Settled()
         else
           && winner == Some(k) && lists[k].stack.None? && Snap(lists[k]).Spent(settledWith)
           && state == Outcome(k) && changes == [Outcome(k)]
           && Snap(lists[1 - k]).Killed() && Muted()
    }

    /** Where the loop of fire has ended. */
    lemma PassOver(l: CallbackList, cut: bool)
      requires l.firing
      requires if cut then l.Valid() && l.inCall else l.AtHead() && (l.list.Some? ==> l.firingIndex >= l.firingLength)
      ensures l.Core() && l.firingStart == 0 && cut == l.inCall && (l.once ==> l.stack.None?)
      ensures !cut ==> l.Queue() == Some([]) && (l.list.Some? ==> l.firingIndex == |l.regs| == |l.list.value|)
      ensures l.stack.Some? ==> AcceptedIn(l.log) == RequestsOf(l.log) + l.stack.value
    {
      hide Replay, AddedIn, RanIn, RequestsOf, AcceptedIn, Increasing;
      assert !cut && l.list.Some? ==> l.regs[l.firingIndex..] == [];
    }

    /** firing = false. */
    method EndOfPass(l: CallbackList, k: nat, cut: bool)
      requires k < |lists| && l == lists[k] && Separate() && OthersValid(k) && l.firing
      requires if cut then l.Valid() && l.inCall else l.AtHead() && (l.list.Some? ==> l.firingIndex >= l.firingLength)
      requires deferred ==> !cut && InPass(k)
      modifies l`firing, l`inCall, l`log
      ensures OthersValid(k) && l.Core() && !l.firing && !l.inCall && l.firingStart == 0
      ensures l.log == old(l.log) + [Ended(cut)]
      ensures l.once ==> l.stack.None?
      ensures l.stack.Some? ==> AcceptedIn(l.log) == RequestsOf(l.log) + l.stack.value
      ensures deferred ==> BetweenPasses(k) && (if k == PROGRESS then winner != Some(k) else l.stack.None?)
    {
      hide Replay, AddedIn, RanIn, RequestsOf, AcceptedIn, Increasing, Builtins, OfferedScript, Snapshot.Untouched,
           Snapshot.Killed, Snapshot.Spent, CallbackList.Core, CallbackList.Valid, CallbackList.AtHead;
      ghost var before := Snap(l);
      PassOver(l, cut);
      l.EndPass(cut);
      if deferred && k != PROGRESS {
        LoadedSpent(before, Snap(l), k, settledWith, firstPass);
      }
    }

    /** What follows the loop of fire: the next accepted fire, or the end of a list that fires once. */
    method FinishPass(l: CallbackList, k: nat, cut: bool)
      requires k < |lists| && l == lists[k] && Separate() && OthersValid(k) && l.firing
      requires if cut then l.Valid() && l.inCall else l.AtHead() && (l.list.Some? ==> l.firingIndex >= l.firingLength)
      requires deferred ==> !cut && InPass(k)
      modifies this, lists
      ensures Good() && SteadyBut(k) && !l.firing && !l.inCall
      ensures l.once ==> l.list.None? || l.list == Some([])
      ensures old(l.log) + [Ended(cut)] <= l.log
      ensures old(l.list).Some? && old(l.stack).Some? && old(l.stack).value != [] ==>
                old(l.log) + [Ended(cut), Begun(old(l.stack).value[0], 0, true)] <= l.log
      ensures NoFire()
      decreases |script|, 3, if l.stack.Some? then |l.stack.value| else 0, 0
    {
      hide Replay, AddedIn, RanIn, RequestsOf, AcceptedIn, Increasing, Builtins, OfferedScript, Snapshot.Untouched,
           Snapshot.Loaded,
           Snapshot.Killed, Settling, Promise, Good, InPass, CallbackList.Core, CallbackList.Valid, CallbackList.AtHead,
           BetweenPasses, ReadyToFire, AddingScript, Decided;
      EndOfPass(l, k, cut);
      assert forall e: Event :: old(l.log) + [Ended(cut)] + [e] == old(l.log) + [Ended(cut), e];
      if l.list.Some? && l.stack.Some? && |l.stack.value| > 0 {
        var data := Shift(l, k);
        FirePass(l, k, data, true);
      } else {
        Retire(l, k);
      }
    }

    /** stack.shift(). */
    method Shift(l: CallbackList, k: nat) returns (data: Data)
      requires k < |lists| && l == lists[k] && Separate() && OthersValid(k)
      requires l.Core() && !l.firing && !l.inCall && l.firingStart == 0
      requires l.stack.Some? && |l.stack.value| > 0 && AcceptedIn(l.log) == RequestsOf(l.log) + l.stack.value
      requires deferred ==> BetweenPasses(k)
      modifies l`stack
      ensures OthersValid(k) && l.Core() && data == old(l.stack).value[0] && l.stack == Some(old(l.stack).value[1..])
      ensures AcceptedIn(l.log) == RequestsOf(l.log) + ([data] + l.stack.value)
      ensures deferred ==> ReadyToFire(k, data)
    {
      hide Replay, AddedIn, RanIn, RequestsOf, AcceptedIn, Increasing, Builtins, OfferedScript, Snapshot.Untouched,
           Snapshot.Loaded,
           Snapshot.Killed, Snapshot.Spent;
      data := l.stack.value[0];
      assert l.stack.value == [data] + l.stack.value[1..];
      l.stack := Some(l.stack.value[1..]);
    }

    /** After the last pass: a list that has fired and fires once is emptied, or disabled without memory. */
    method Retire(l: CallbackList, k: nat)
      requires k < |lists| && l == lists[k] && Separate() && OthersValid(k)
      requires l.Core() && !l.firing && !l.inCall && l.firingStart == 0
      requires l.stack.Some? ==> AcceptedIn(l.log) == RequestsOf(l.log) + l.stack.value
      requires l.list.Some? && l.stack.Some? ==> l.stack.value == []
      requires deferred ==> BetweenPasses(k)
      modifies l`list, l`regs, l`log, l`stack, l`memory
      ensures Good() && old(l.log) <= l.log && !l.firing && !l.inCall
      ensures old(l.stack).None? ==> l.list.None? || l.list == Some([])
      ensures old(l.stack).Some? ==> l.list == old(l.list)
    {
      hide Replay, AddedIn, RanIn, RequestsOf, AcceptedIn, Increasing, Builtins, OfferedScript, Snapshot.Untouched,
           Snapshot.Loaded, Snapshot.Killed;
      ghost var before := Snap(l);
      if l.list.Some? && l.stack.None? {
        if l.memory.Some? {
          l.Clear();
          if deferred && k != PROGRESS {
            SpentCleared(before, Snap(l), k, settledWith, firstPass);
          }
        } else {
          l.Disable();
        }
      }
    }

    /** The promise when the callback at the firing index of list k has returned. */
    ghost predicate AfterCall(k: nat)
      requires k < |lists|
      reads this, lists
    {
      && Shape() && k <= PROGRESS
      && if k == PROGRESS then Promise() && Settled()
         else
           var next := lists[k].firingIndex + 1;
           Settling(k, if firstPass && 0 <= next < 3 then next else 3)
    }

    /** The turn of a user's function. */
    method UserTurn(l: CallbackList, k: nat) returns (isFalse: bool)
      requires k < |lists| && l == lists[k] && Good() && l.firing && l.inCall && l.list.Some?
      requires deferred ==> InPass(k) && (k != PROGRESS && firstPass ==> l.firingIndex >= 3)
      modifies this, lists
      ensures AllValid() && l.firing && l.inCall && SteadyBut(k) && (deferred ==> AfterCall(k))
      ensures isFalse <==> old(NextFalse())
      ensures |script| == |old(script)| ==>
                && l.list == old(l.list) && l.stack == old(l.stack)
                && l.firingLength == old(l.firingLength) && l.firingIndex == old(l.firingIndex)
      ensures NoFire()
      decreases |script|, 1, 1
    {
      hide AddingScript, FirstSettling, Replay, AddedIn, RanIn, RequestsOf, AcceptedIn, Increasing, Builtins,
           OfferedScript, Snapshot.Untouched,
           Snapshot.Loaded, Snapshot.Killed, CallbackList.Core, CallbackList.Valid;
      isFalse := CallUser();
    }

    /** The callback has returned and the pass goes on. */
    method GoOn(l: CallbackList, k: nat)
      requires k < |lists| && l == lists[k] && Separate() && AllValid() && l.firing && l.inCall
      requires deferred ==> AfterCall(k)
      modifies l`inCall, l`firingIndex
      ensures OthersValid(k) && l.AtHead() && l.firingIndex == old(l.firingIndex) + 1 && (deferred ==> InPass(k))
    {
      hide Replay, AddedIn, RanIn, RequestsOf, AcceptedIn, Increasing, Builtins, OfferedScript, Snapshot.Untouched,
           Snapshot.Loaded, Snapshot.Killed, CallbackList.Core, CallbackList.Valid, CallbackList.AtHead;
      ghost var before := Snap(l);
      l.CallReturned();
      if deferred && k != PROGRESS {
        ReturnKeeps(before, Snap(l), k, settledWith, firstPass);
      }
    }

    /** The next call of a user's function returns false. */
    ghost predicate NextFalse()
      reads this
    {
      |script| > 0 && script[0].returnsFalse
    }

    /** The call of the callback at the firing index. */
    method CallTaken(l: CallbackList, k: nat, fn: Fn) returns (isFalse: bool)
      requires k < |lists| && l == lists[k] && Separate() && AllValid() && l.firing && l.inCall && l.list.Some?
      requires deferred ==> InPass(k)
      requires deferred && fn.User? ==> Promise() && Settled() && (k != PROGRESS && firstPass ==> l.firingIndex >= 3)
      requires deferred && !fn.User? ==>
                 && k <= FAIL && firstPass && 0 <= l.firingIndex < 3 && fn == Builtins(k)[l.firingIndex]
                 && Settling(k, l.firingIndex)
      modifies this, lists
      ensures AllValid() && l.firing && l.inCall && SteadyBut(k) && (deferred ==> AfterCall(k))
      ensures isFalse <==> fn.User? && old(NextFalse())
      ensures |script| == |old(script)| ==>
                && (l.list.Some? ==> l.firingLength - l.firingIndex == old(l.firingLength - l.firingIndex))
                && (l.stack.Some? ==> l.stack == old(l.stack))
      ensures NoFire()
      decreases |script|, 1, 2
    {
      hide AddingScript, FirstSettling, Replay, AddedIn, RanIn, RequestsOf, AcceptedIn, Increasing, Builtins,
           OfferedScript, Snapshot.Untouched,
           Snapshot.Loaded, Snapshot.Killed, CallbackList.Core, CallbackList.Valid, CallbackList.AtHead, Settling,
           Promise, Settled, Snap, AfterCall;
      isFalse := false;
      if fn.User? {
        isFalse := UserTurn(l, k);
      } else {
        BuiltinTurn(l, k, fn);
      }
    }

    /** The call of the callback at the firing index, from taking it to its return. */
    method CallNext(l: CallbackList, k: nat) returns (isFalse: bool)
      requires k < |lists| && l == lists[k] && Separate() && OthersValid(k) && l.AtHead()
      requires l.list.Some? && 0 <= l.firingIndex < l.firingLength && (deferred ==> InPass(k))
      modifies this, lists
      ensures AllValid() && l.firing && l.inCall && SteadyBut(k) && (deferred ==> AfterCall(k))
      ensures
        && |l.log| > |old(l.log)| && l.log[|old(l.log)|].Ran?
        && l.log[|old(l.log)|].reg.fn == old(l.list.value[l.firingIndex])
      ensures isFalse <==> old(l.list.value[l.firingIndex]).User? && old(NextFalse())
      ensures |script| == |old(script)| ==>
                && (l.list.Some? ==> l.firingLength - l.firingIndex == old(l.firingLength - l.firingIndex))
                && (l.stack.Some? ==> l.stack == old(l.stack))
      ensures NoFire()
      decreases |script|, 1, 3
    {
      hide AddingScript, FirstSettling, Replay, AddedIn, RanIn, RequestsOf, AcceptedIn, Increasing, Builtins,
           OfferedScript, Snapshot.Untouched,
           Snapshot.Loaded, Snapshot.Killed, CallbackList.Core, CallbackList.Valid, CallbackList.AtHead, Settling,
           Promise, Settled, Snap, InPass, AfterCall;
      LengthAtHead(l);
      var fn := TakeCallback(l, k);
      isFalse := CallTaken(l, k, fn);
    }

    /** One turn of the loop of fire: true if the callback stopped the pass, which it does exactly when it is a user's
        function that returns false on a list that stops on false. */
    method OneTurn(l: CallbackList, k: nat) returns (cut: bool)
      requires k < |lists| && l == lists[k] && Separate() && OthersValid(k) && l.AtHead()
      requires l.list.Some? && 0 <= l.firingIndex < l.firingLength && (deferred ==> InPass(k))
      modifies this, lists
      ensures OthersValid(k) && l.firing && SteadyBut(k)
      ensures
        && |l.log| > |old(l.log)| && l.log[|old(l.log)|].Ran?
        && l.log[|old(l.log)|].reg.fn == old(l.list.value[l.firingIndex])
      ensures cut <==> l.stopOnFalse && old(l.list.value[l.firingIndex]).User? && old(NextFalse())
      ensures if cut then l.Valid() && l.inCall && l.memory.None? else l.AtHead()
      ensures deferred ==> !cut && InPass(k)
      ensures |script| == |old(script)| ==>
                && (l.list.Some? && !cut ==> l.firingLength - l.firingIndex < old(l.firingLength - l.firingIndex))
                && (l.stack.Some? ==> l.stack == old(l.stack))
      ensures NoFire()
      decreases |script|, 1, 4
    {
      hide AddingScript, FirstSettling, Replay, AddedIn, RanIn, RequestsOf, AcceptedIn, Increasing, Builtins,
           OfferedScript, Snapshot.Untouched,
           Snapshot.Loaded, Snapshot.Killed, CallbackList.Core, CallbackList.Valid, CallbackList.AtHead, Settling,
           Promise, Settled, Snap, InPass;
      LengthAtHead(l);
      var isFalse := CallNext(l, k);
      if isFalse && l.stopOnFalse {
        StopPass(l);
        return true;
      }
      GoOn(l, k);
      return false;
    }

    lemma LengthAtHead(l: CallbackList)
      requires l.AtHead() && l.list.Some?
      ensures l.firingLength == |l.list.value|
    {
      hide CallbackList.Core;
    }

    /** memory = false, when a callback returned false and that stops the pass. */
    method StopPass(l: CallbackList)
      requires l.Valid()
      modifies l`memory
      ensures l.Valid() && l.memory.None?
    {
      l.memory := None;
    }
  }

  /** A deferred, whenever user code runs: its state changes at most once, only one outcome's callbacks ever run,
      all with the settling arguments, each once and in the order of registration; whatever is not yet run of them
      is still to run in the pass going on. */
  lemma SettlesOnce(w: World)
    requires w.Good() && w.deferred
    ensures |w.lists| == 3 && |w.changes| <= 1 && w.state == (if w.changes == [] then Pending else w.changes[0])
    ensures w.state == Resolved <==> w.winner == Some(DONE)
    ensures w.state == Rejected <==> w.winner == Some(FAIL)
    ensures w.state == Pending <==> w.winner == None
    ensures w.winner.None? ==> w.changes == [] && RanIn(w.lists[DONE].log) == [] && RanIn(w.lists[FAIL].log) == []
    ensures w.winner.Some? ==>
              && w.winner.value <= FAIL && w.changes == [Outcome(w.winner.value)]
              && RanIn(w.lists[1 - w.winner.value].log) == []
              && var l := w.lists[w.winner.value];
                 && OneData(l.log, w.settledWith) && Increasing(AddedIn(l.log))
                 && RanIn(l.log) <= AddedIn(l.log)
                 && (!l.firing ==> RanIn(l.log) == AddedIn(l.log))
  {
    hide Replay, AddedIn, RanIn, RequestsOf, AcceptedIn, Increasing, Builtins, OfferedScript, OneData;
    if w.winner.Some? {
      var l := w.lists[w.winner.value];
      assert l.Valid();
      assert !l.firing ==> Snap(l).ToRun() == [];
      assert RanIn(l.log) + [] == RanIn(l.log);
    }
  }

  /** Any run of a deferred: any operations on it, made by the program or by any callbacks, in any nesting. */
  method AnyRun(script: seq<Call>, ops: seq<Op>) returns (w: World)
    requires OfferedScript(script) && AllOffered(ops)
    ensures w.deferred && |w.lists| == 3 && |w.changes| <= 1
    ensures (exists i :: 0 <= i < |ops| && Settles(ops[i])) ==> w.winner.Some?
    ensures |ops| > 0 && Settles(ops[0]) ==> w.winner == Some(ops[0].k) && w.settledWith == ops[0].data
    ensures FirstSettling(w.fires) == if w.winner.None? then None else Some(Fire(w.winner.value, w.settledWith))
    ensures w.state == Resolved <==> FirstSettling(w.fires).Some? && FirstSettling(w.fires).value.k == DONE
    ensures w.state == Rejected <==> FirstSettling(w.fires).Some? && FirstSettling(w.fires).value.k == FAIL
    ensures w.state == Pending <==> FirstSettling(w.fires).None?
    ensures |ops| > 0 && ops[0].Fire? && ops[0].k == DONE ==> w.state == Resolved
    ensures |ops| > 0 && ops[0].Fire? && ops[0].k == FAIL ==> w.state == Rejected
    ensures w.winner.None? ==> w.changes == [] && RanIn(w.lists[DONE].log) == [] && RanIn(w.lists[FAIL].log) == []
    ensures w.winner.Some? ==>
              && w.winner.value <= FAIL && w.changes == [Outcome(w.winner.value)]
              && RanIn(w.lists[1 - w.winner.value].log) == []
              && var l := w.lists[w.winner.value];
                 OneData(l.log, w.settledWith) && Increasing(AddedIn(l.log)) && RanIn(l.log) == AddedIn(l.log)
  {
    hide Replay, AddedIn, RanIn, RequestsOf, AcceptedIn, Increasing, Builtins, OneData, World.Good;
    w := new World.Deferred(script);
    w.Perform(ops);
    SettlesOnce(w);
    FirstFireDecides(w);
  }

  /** The outcome of a deferred is that of the first fire ever made, in whatever nesting, that can settle. */
  lemma FirstFireDecides(w: World)
    requires w.Good() && w.deferred
    ensures FirstSettling(w.fires) == if w.winner.None? then None else Some(Fire(w.winner.value, w.settledWith))
  {
  }

  /** In the history of any list, every pass that was neither stopped nor disabled called the functions of exactly those
      registrations that were in the pass, or joined it, and were not removed before their turn: once each, and in list
      order. The list itself holds the functions of what is registered and not removed. */
  lemma FiringUnderMutation(l: CallbackList, before: seq<Event>, data: Data, from: nat, requested: bool, es: seq<Event>,
                            after: seq<Event>)
    requires l.Valid() && Inside(es)
    requires l.log == before + [Begun(data, from, requested)] + es + [Ended(false)] + after
    ensures from <= |Replay(before).live|
    ensures
      var start := Replay(before).live[from..];
      var members, lost := start + AddedIn(es), LostIn(start, es);
      && RanIn(es) == Except(members, lost) && Increasing(RanIn(es))
      && (forall x :: x in RanIn(es) <==> x in members && x !in lost)
      && CalledIn(es) == Functions(Except(members, lost))
    ensures Functions(Replay(l.log).live) == if l.list.Some? then l.list.value else []
  {
    hide Inside, Except, LostIn, Increasing, RanIn, AddedIn, CalledIn;
    HistoryRunsEachOnce(before, data, from, requested, es, after);
    CalledAreRan(es);
    hide Replay;
  }

  /** The fires that a repeatable list did not ignore become passes in the order in which they were made; between passes
      none is left over. */
  lemma FiresInOrder(l: CallbackList)
    requires l.Valid() && l.stack.Some?
    ensures RequestsOf(l.log) <= AcceptedIn(l.log) && (!l.firing ==> RequestsOf(l.log) == AcceptedIn(l.log))
  {
    hide Replay, AddedIn, RanIn, RequestsOf, AcceptedIn, Increasing;
    assert RequestsOf(l.log) + [] == RequestsOf(l.log);
  }

  /** Taking the next callback moves it from what is to run to what has run. */
  lemma TakenToRun(s: Snapshot, t: Snapshot)
    requires s.firing && !s.inCall && 0 <= s.firingIndex < |s.regs| && t.regs == s.regs
    requires t.firing && t.inCall && t.firingIndex == s.firingIndex
    ensures s.ToRun() == s.regs[s.firingIndex..] && t.ToRun() == s.regs[s.firingIndex + 1..]
  {
  }

  lemma TakenMoves(s: Snapshot, t: Snapshot)
    requires s.firing && !s.inCall && 0 <= s.firingIndex < |s.regs|
    requires t == s.(inCall := true, log := s.log + [Ran(s.regs[s.firingIndex])])
    ensures RanIn(s.log) + s.ToRun() == RanIn(t.log) + t.ToRun() && AddedIn(t.log) == AddedIn(s.log)
  {
    var reg := s.regs[s.firingIndex];
    RanOne(s.log, Ran(reg));
    AddedOne(s.log, Ran(reg));
    hide RanIn, AddedIn, Snapshot.ToRun;
    TakenToRun(s, t);
    TakenOrder(RanIn(s.log), s.regs, s.firingIndex);
  }

  lemma Taken(s: Snapshot, t: Snapshot, k: nat, d: Data, first: bool)
    requires k <= FAIL && s.firing && !s.inCall && 0 <= s.firingIndex < |s.regs|
    requires t == s.(inCall := true, log := s.log + [Ran(s.regs[s.firingIndex])])
    requires s.Loaded(k, d, first)
    ensures t.Loaded(k, d, first)
  {
    hide RanIn, AddedIn, Builtins, OneData, AllUser, Snapshot.ToRun;
    OneDataMore(s.log, Ran(s.regs[s.firingIndex]), d);
    TakenMoves(s, t);
  }

  lemma TakenOrder(ran: seq<Registration>, regs: seq<Registration>, at: nat)
    requires at < |regs|
    ensures ran + regs[at..] == (ran + [regs[at]]) + regs[at + 1..]
  {
    assert regs[at..] == [regs[at]] + regs[at + 1..];
    ConcatAssoc(ran, [regs[at]], regs[at + 1..]);
  }

  /** Returning from a callback changes nothing of what is to run. */
  lemma ReturnKeeps(s: Snapshot, t: Snapshot, k: nat, d: Data, first: bool)
    requires k <= FAIL && s.firing && s.inCall && t == s.(inCall := false, firingIndex := s.firingIndex + 1)
    ensures s.Loaded(k, d, first) ==> t.Loaded(k, d, first)
  {
    hide RanIn, AddedIn, Builtins, OneData, AllUser;
  }

  /** The builtins come first, and then only users' functions. */
  lemma NextIs(s: Snapshot, k: nat, d: Data, first: bool)
    requires k <= FAIL && s.firing && s.Loaded(k, d, first) && 0 <= s.firingIndex < |s.list.value|
    ensures
      var fn := s.list.value[s.firingIndex];
      if first && s.firingIndex < 3 then fn == Builtins(k)[s.firingIndex] && !fn.User? else fn.User?
  {
    if first && s.firingIndex < 3 {
      assert s.list.value[..3][s.firingIndex] == s.list.value[s.firingIndex];
    } else if first {
      assert s.list.value[3..][s.firingIndex - 3] == s.list.value[s.firingIndex];
    }
  }

  /** The first pass of an outcome list. */
  lemma BegunFirst(s: Snapshot, t: Snapshot, k: nat, data: Data, requested: bool)
    requires k <= FAIL && s.Untouched(k)
    requires t == s.(memory := Some(data), fired := true, firing := true, firingIndex := 0, inCall := false,
                     log := t.log)
    requires t.log == s.log + [Begun(data, 0, requested)]
    ensures t.Loaded(k, data, true)
  {
    RanOne(s.log, Begun(data, 0, requested));
    AddedOne(s.log, Begun(data, 0, requested));
    OneDataMore(s.log, Begun(data, 0, requested), data);
    hide RanIn, AddedIn, Builtins, OneData, AllUser;
    assert t.ToRun() == t.regs && [] + t.regs == t.regs;
  }

  /** A later pass of the winner's list, for what was registered since. */
  lemma BegunAgain(s: Snapshot, t: Snapshot, k: nat, data: Data, requested: bool, first: bool)
    requires k <= FAIL && s.Loaded(k, data, first) && !s.firing
    requires t == s.(memory := Some(data), fired := true, firing := true, firingIndex := 0, inCall := false,
                     log := t.log)
    requires t.log == s.log + [Begun(data, 0, requested)]
    ensures t.Loaded(k, data, false)
  {
    var e := Begun(data, 0, requested);
    RanOne(s.log, e);
    AddedOne(s.log, e);
    OneDataMore(s.log, e, data);
    hide RanIn, AddedIn, Builtins, OneData, AllUser;
  }
}
