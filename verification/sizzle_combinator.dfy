/** Sizzle's combinators: the search along a direction that remembers on each node what it found, against the
    plain search. */
module SizzleCombinator {
  import opened Common

  datatype Dir = ParentNode | PreviousSibling

  /** A fixed document: nodes by their position in document order, so that parents and previous siblings come
      before, and the position of the document node. */
  datatype Tree = Tree(parent: seq<Option<nat>>, previous: seq<Option<nat>>, element: seq<bool>, document: nat)
  {
    function Size(): nat { |element| }

    predicate WellFormed() {
      && |parent| == |previous| == |element|
      && forall x :: 0 <= x < |element| ==>
           && (parent[x].Some? ==> parent[x].value < x)
           && (previous[x].Some? ==> previous[x].value < x)
    }

    /** elem[ dir ]. */
    function Next(dir: Dir, x: nat): (y: Option<nat>)
      requires WellFormed() && x < Size()
      ensures y.Some? ==> y.value < x
    {
      if dir == ParentNode then parent[x] else previous[x]
    }
  }

  /** What the elements are to be reachable from: one node or several. */
  datatype Context = Node(node: nat) | Nodes(nodes: set<nat>)

  /** What every matcher is called with besides the element. */
  datatype Query = Query(context: Context, xml: bool)

  /** The document as one outermost run sees it. */
  datatype Scope = Scope(tree: Tree, query: Query)
  {
    predicate WellFormed() { tree.WellFormed() }

    function Size(): nat { tree.Size() }

    function Next(dir: Dir, x: nat): (y: Option<nat>)
      requires WellFormed() && x < Size()
      ensures y.Some? ==> y.value < x
    {
      tree.Next(dir, x)
    }

    /** elem === checkContext, or one of the elements of checkContext. */
    predicate InContext(x: nat) {
      match query.context
      case Node(node) => x == node
      case Nodes(nodes) => x in nodes
    }

    /** Without a leading relation nothing is asked of the context on an XML document, or if it is the document
        itself, which is then not the outermost context. */
    predicate Free(leading: bool) {
      !leading && (query.xml || query.context == Node(tree.document))
    }
  }

  /** What a sequence of tokens compiles to: the nodes that pass the simple selectors, checked first, and before them
      a combinator, or the foundation: a search for the context, which is one of two closures. InContext is what
      these two look for. */
  datatype Matcher =
    | InContext
    | Rooted(passing: set<nat>, leading: bool, single: Combinator, several: Combinator)
    | Chained(passing: set<nat>, before: Combinator)

  /** The closure made by addCombinator. */
  datatype Combinator = Combinator(dir: Dir, first: bool, base: bool, doneName: nat, matcher: Matcher)
  {
    /** elem.nodeType === 1 || checkNonElements. */
    predicate Checks(s: Scope, y: nat)
      requires y < s.Size()
    {
      s.tree.element[y] || (base && dir == ParentNode)
    }
  }

  // ---------- the plain search ----------

  predicate Matches(s: Scope, m: Matcher, x: nat)
    requires s.WellFormed() && x < s.Size()
    decreases m
  {
    match m
    case InContext => s.InContext(x)
    case Rooted(passing, leading, single, several) =>
      && x in passing
      && (s.Free(leading) || if s.query.context.Node? then Reaches(s, single, x) else Reaches(s, several, x))
    case Chained(passing, before) => x in passing && Reaches(s, before, x)
  }

  predicate Reaches(s: Scope, c: Combinator, x: nat)
    requires s.WellFormed() && x < s.Size()
    decreases c, x
  {
    var next := s.Next(c.dir, x);
    next.Some? &&
    var y := next.value;
    if !c.Checks(s, y) then Reaches(s, c, y)
    else if c.first then Matches(s, c.matcher, y)
    else Matches(s, c.matcher, y) || Reaches(s, c, y)
  }

  /** y is on the way from x in a direction. */
  predicate OnWay(s: Scope, dir: Dir, x: nat, y: nat)
    requires s.WellFormed() && x < s.Size()
    decreases x
  {
    var next := s.Next(dir, x);
    next.Some? && (next.value == y || OnWay(s, dir, next.value, y))
  }

  lemma {:induction false} WayGoesBack(s: Scope, dir: Dir, x: nat, y: nat)
    requires s.WellFormed() && x < s.Size() && OnWay(s, dir, x, y)
    ensures y < x
    decreases x
  {
    var next := s.Next(dir, x).value;
    if next != y {
      WayGoesBack(s, dir, next, y);
    }
  }

  /** The search finds exactly: some node on the way that is looked at and matches or, for > and +, the nearest
      node that is looked at. */
  lemma {:induction false} ReachesMeansSome(s: Scope, c: Combinator, x: nat)
    requires s.WellFormed() && x < s.Size()
    ensures Reaches(s, c, x) <==>
              exists y :: && 0 <= y < x && OnWay(s, c.dir, x, y) && c.Checks(s, y) && Matches(s, c.matcher, y)
                          && (c.first ==> forall z :: y < z < x && OnWay(s, c.dir, x, z) ==> !c.Checks(s, z))
    decreases x
  {
    hide Matches;
    var next := s.Next(c.dir, x);
    if next.Some? {
      var n := next.value;
      ReachesMeansSome(s, c, n);
      NearestFirst(s, c, x);
    }
  }

  /** What is on the way is the next node and what is on the way from there, behind it. */
  lemma NearestFirst(s: Scope, c: Combinator, x: nat)
    requires s.WellFormed() && x < s.Size() && s.Next(c.dir, x).Some?
    ensures
      var n := s.Next(c.dir, x).value;
      forall y :: 0 <= y < x ==> (OnWay(s, c.dir, x, y) <==> y == n || (y < n && OnWay(s, c.dir, n, y)))
  {
    var n := s.Next(c.dir, x).value;
    forall y | 0 <= y < x && OnWay(s, c.dir, n, y) ensures y < n {
      WayGoesBack(s, c.dir, n, y);
    }
  }

  // ---------- names ----------

  /** Closures are numbered in the order in which they are made: inner ones before those around them. */
  predicate Numbered(m: Matcher, bound: nat)
    decreases m
  {
    match m
    case InContext => true
    case Rooted(_, _, single, several) =>
      && single.doneName < bound && Numbered(single.matcher, single.doneName)
      && several.doneName < bound && Numbered(several.matcher, several.doneName)
    case Chained(_, before) => before.doneName < bound && Numbered(before.matcher, before.doneName)
  }

  /** A table of closures by number. That one table holds several matchers says that no number is used twice. */
  predicate Listed(m: Matcher, table: map<nat, Combinator>)
    decreases m
  {
    match m
    case InContext => true
    case Rooted(_, _, single, several) =>
      && single.doneName in table && table[single.doneName] == single && Listed(single.matcher, table)
      && several.doneName in table && table[several.doneName] == several && Listed(several.matcher, table)
    case Chained(_, before) =>
      before.doneName in table && table[before.doneName] == before && Listed(before.matcher, table)
  }

  // ---------- caches ----------

  /** cache[1]: not yet set, true, or the number of the candidate for which the matcher failed. */
  datatype Data = Unset | True | Failed(candidate: nat)

  /** elem[ expando ][ dir ]: the key [ dirruns, doneName ] and the data. */
  datatype Cache = Cache(run: nat, doneName: nat, data: Data)

  type Caches = map<(nat, Dir), Cache>

  datatype Run = Run(scope: Scope, table: map<nat, Combinator>, run: nat, candidate: nat)

  /** What an entry of the current run says, unless its search is still going on. */
  ghost predicate Right(r: Run, active: set<nat>, k: (nat, Dir), e: Cache)
    requires r.scope.WellFormed()
  {
    e.doneName in active ||
    (&& e.doneName in r.table && k.0 < r.scope.Size() && r.table[e.doneName].dir == k.1 && !r.table[e.doneName].first
     && match e.data
        case True => Matches(r.scope, r.table[e.doneName].matcher, k.0)
        case Failed(n) => n <= r.candidate && !Matches(r.scope, r.table[e.doneName].matcher, k.0)
        case Unset => false)
  }

  ghost predicate Sound(r: Run, active: set<nat>, caches: Caches)
    requires r.scope.WellFormed()
  {
    forall k :: k in caches && caches[k].run == r.run ==> Right(r, active, k, caches[k])
  }

  /** An entry that failed for the current candidate says that nothing further on matches either. */
  ghost predicate Settled(r: Run, active: set<nat>, caches: Caches)
    requires r.scope.WellFormed()
  {
    forall k: (nat, Dir) ::
      k in caches && caches[k].run == r.run && caches[k].doneName !in active && caches[k].doneName in r.table
      && k.0 < r.scope.Size() && caches[k].data == Failed(r.candidate)
      ==> !Reaches(r.scope, r.table[caches[k].doneName], k.0)
  }

  /** A search from x writes only entries of nodes before x, and none of the searches still going on. */
  ghost predicate Framed(r: Run, active: set<nat>, x: nat, before: Caches, after: Caches) {
    && (forall k: (nat, Dir) :: k.0 >= x ==> (k in after <==> k in before))
    && (forall k: (nat, Dir) :: k.0 >= x && k in after ==> k in before && after[k] == before[k])
    && (forall k :: k in after && after[k].run == r.run && after[k].doneName in active ==>
          k in before && after[k] == before[k])
    && (forall k :: k in after ==> after[k].run == r.run || (k in before && after[k] == before[k]))
  }

  lemma FramedSame(r: Run, active: set<nat>, x: nat, caches: Caches)
    ensures Framed(r, active, x, caches, caches)
  {
  }

  lemma FramedTrans(r: Run, active: set<nat>, more: set<nat>, x: nat, y: nat, a: Caches, b: Caches, c: Caches)
    requires active <= more && y <= x && Framed(r, active, x, a, b) && Framed(r, more, y, b, c)
    ensures Framed(r, active, x, a, c)
  {
  }

  /** During a search by c that has come to a node: what c left for this candidate on nodes further on is settled,
      and what it left on the nodes it came by says no more than where it is now. */
  ghost predicate Pointing(r: Run, c: Combinator, from: nat, caches: Caches)
    requires r.scope.WellFormed() && from < r.scope.Size()
  {
    forall k: (nat, Dir) ::
      k in caches && Own(r, c, caches[k]) && k.0 < r.scope.Size() && Reaches(r.scope, c, k.0)
      ==> k.0 >= from && Reaches(r.scope, c, from)
  }

  /** An entry that c left for this candidate. */
  predicate Own(r: Run, c: Combinator, e: Cache) {
    e == Cache(r.run, c.doneName, Failed(r.candidate))
  }

  lemma SearchBegins(r: Run, c: Combinator, x: nat, active: set<nat>, caches: Caches)
    requires r.scope.WellFormed() && x < r.scope.Size() && Settled(r, active, caches) && c.doneName !in active
    requires c.doneName in r.table && r.table[c.doneName] == c
    ensures Settled(r, active + {c.doneName}, caches) && Pointing(r, c, x, caches)
    ensures Framed(r, active, x, caches, caches)
  {
    hide Reaches, Matches;
  }

  lemma SearchEnds(r: Run, c: Combinator, from: nat, active: set<nat>, caches: Caches)
    requires r.scope.WellFormed() && from < r.scope.Size() && c.doneName in r.table && r.table[c.doneName] == c
    requires Settled(r, active + {c.doneName}, caches) && Pointing(r, c, from, caches) && !Reaches(r.scope, c, from)
    ensures Settled(r, active, caches)
  {
    hide Reaches, Matches;
  }

  lemma PointingOn(r: Run, c: Combinator, from: nat, y: nat, caches: Caches)
    requires r.scope.WellFormed() && from < r.scope.Size() && y < from && Pointing(r, c, from, caches)
    requires Reaches(r.scope, c, from) == Reaches(r.scope, c, y)
    ensures Pointing(r, c, y, caches)
  {
    hide Reaches, Matches;
  }

  /** outerCache[ dir ] = [ dirkey ]. */
  lemma Marked(r: Run, c: Combinator, y: nat, from: nat, active: set<nat>, before: Caches)
    requires r.scope.WellFormed() && y < from < r.scope.Size()
    requires Sound(r, active, before) && Settled(r, active + {c.doneName}, before)
    ensures
      var mid := before[(y, c.dir) := Cache(r.run, c.doneName, Unset)];
      Sound(r, active + {c.doneName}, mid) && Settled(r, active + {c.doneName}, mid)
  {
    hide Reaches, Matches;
  }

  /** cache[1] = what the matcher said. */
  lemma Remembered(r: Run, c: Combinator, y: nat, from: nat, active: set<nat>, before: Caches, mid: Caches,
                   after: Caches, matched: bool)
    requires r.scope.WellFormed() && y < from < r.scope.Size() && c.doneName !in active && !c.first
    requires c.doneName in r.table && r.table[c.doneName] == c
    requires mid == before[(y, c.dir) := Cache(r.run, c.doneName, Unset)]
    requires Sound(r, active, before) && Framed(r, active + {c.doneName}, y, mid, after)
    requires Sound(r, active + {c.doneName}, after) && matched == Matches(r.scope, c.matcher, y)
    ensures
      var end := after[(y, c.dir) := Cache(r.run, c.doneName, if matched then True else Failed(r.candidate))];
      && (y, c.dir) in after && after[(y, c.dir)] == mid[(y, c.dir)]
      && Sound(r, active, end) && Framed(r, active, from, before, end)
  {
    hide Reaches, Matches;
    var more, key := active + {c.doneName}, (y, c.dir);
    var end := after[key := Cache(r.run, c.doneName, if matched then True else Failed(r.candidate))];
    forall k | k in end && end[k].run == r.run ensures Right(r, active, k, end[k]) {
      if k != key {
        assert Right(r, more, k, after[k]);
        if end[k].doneName == c.doneName {
          assert k in mid && mid[k] == end[k];
        }
      }
    }
  }

  /** A failure leaves the rest of the way to be searched. */
  lemma PointingPast(r: Run, c: Combinator, y: nat, from: nat, active: set<nat>, before: Caches, mid: Caches,
                     after: Caches)
    requires r.scope.WellFormed() && y < from < r.scope.Size()
    requires mid == before[(y, c.dir) := Cache(r.run, c.doneName, Unset)]
    requires Pointing(r, c, from, before) && Framed(r, active + {c.doneName}, y, mid, after)
    requires Reaches(r.scope, c, from) == Reaches(r.scope, c, y)
    ensures Pointing(r, c, y, after[(y, c.dir) := Cache(r.run, c.doneName, Failed(r.candidate))])
  {
    hide Reaches, Matches;
    var key := (y, c.dir);
    var end := after[key := Cache(r.run, c.doneName, Failed(r.candidate))];
    forall k: (nat, Dir) | k in end && Own(r, c, end[k]) && k.0 < r.scope.Size() && Reaches(r.scope, c, k.0)
      ensures k.0 >= y && Reaches(r.scope, c, y)
    {
      if k != key {
        assert k in mid && mid[k] == end[k];
      }
    }
  }

  /** What an entry with c's key tells about the search. */
  lemma VisitKnown(r: Run, c: Combinator, y: nat, from: nat, active: set<nat>, caches: Caches)
    requires r.scope.WellFormed() && y < from < r.scope.Size() && r.scope.Next(c.dir, from) == Some(y)
    requires c.Checks(r.scope, y) && !c.first && c.doneName !in active
    requires c.doneName in r.table && r.table[c.doneName] == c
    requires Sound(r, active, caches) && Settled(r, active + {c.doneName}, caches) && Pointing(r, c, from, caches)
    requires (y, c.dir) in caches && caches[(y, c.dir)].run == r.run && caches[(y, c.dir)].doneName == c.doneName
    ensures
      var data := caches[(y, c.dir)].data;
      && (data == True ==> Reaches(r.scope, c, from))
      && (data == Failed(r.candidate) ==> !Reaches(r.scope, c, from) && Settled(r, active, caches))
      && (data != True && data != Failed(r.candidate) ==>
            Reaches(r.scope, c, from) == Reaches(r.scope, c, y) && Pointing(r, c, y, caches))
      && Framed(r, active, from, caches, caches)
  {
    hide Matches;
    var key := (y, c.dir);
    assert Right(r, active, key, caches[key]);
    if caches[key].data == Failed(r.candidate) {
      assert Own(r, c, caches[key]);
      SearchEnds(r, c, from, active, caches);
    } else if caches[key].data != True {
      PointingOn(r, c, from, y, caches);
    }
  }

  lemma SettledPast(r: Run, c: Combinator, y: nat, active: set<nat>, after: Caches)
    requires r.scope.WellFormed() && Settled(r, active + {c.doneName}, after)
    ensures Settled(r, active + {c.doneName}, after[(y, c.dir) := Cache(r.run, c.doneName, Failed(r.candidate))])
  {
    hide Reaches, Matches;
  }

  // ---------- the search that remembers ----------

  class Sizzle {
    const tree: Tree
    var dirruns: nat
    var cachedruns: nat
    var caches: Caches

    ghost function Now(q: Query, table: map<nat, Combinator>): Run
      reads this
    {
      Run(Scope(tree, q), table, dirruns, cachedruns)
    }

    /** Between runs. */
    ghost predicate Valid()
      reads this
    {
      tree.WellFormed() && forall k :: k in caches ==> caches[k].run <= dirruns
    }

    constructor (tree: Tree)
      requires tree.WellFormed()
      ensures Valid() && this.tree == tree
    {
      this.tree, dirruns, cachedruns, caches := tree, 0, 0, map[];
    }

    /** What every call may assume and must restore: the caches are right, and settled unless it returns true. */
    ghost predicate Ready(q: Query, table: map<nat, Combinator>, active: set<nat>, bound: nat, x: nat)
      reads this
    {
      && tree.WellFormed() && x < tree.Size() && (forall a :: a in active ==> a >= bound)
      && Sound(Now(q, table), active, caches) && Settled(Now(q, table), active, caches)
    }

    /** elementMatcher: the simple selectors are asked before the combinator. */
    method MatchElement(m: Matcher, x: nat, q: Query, ghost table: map<nat, Combinator>, ghost active: set<nat>,
                        ghost bound: nat)
      returns (r: bool)
      requires Ready(q, table, active, bound, x) && Numbered(m, bound) && Listed(m, table)
      modifies this`caches
      ensures r == Matches(Scope(tree, q), m, x) && (q.xml ==> caches == old(caches))
      ensures Sound(Now(q, table), active, caches) && (!r ==> Settled(Now(q, table), active, caches))
      ensures Framed(Now(q, table), active, x, old(caches), caches)
      decreases m
    {
      hide Sound, Settled, Reaches;
      if m.InContext? {
        FramedSame(Now(q, table), active, x, caches);
        return Scope(tree, q).InContext(x);
      }
      if x !in m.passing {
        FramedSame(Now(q, table), active, x, caches);
        return false;
      }
      match m {
        case Rooted(_, leading, single, several) =>
          if Scope(tree, q).Free(leading) {
            FramedSame(Now(q, table), active, x, caches);
            return true;
          }
          if q.context.Node? {
            r := Combine(single, x, q, table, active, bound);
          } else {
            r := Combine(several, x, q, table, active, bound);
          }
        case Chained(_, before) =>
          r := Combine(before, x, q, table, active, bound);
      }
    }

    /** The closure made by addCombinator. */
    method Combine(c: Combinator, x: nat, q: Query, ghost table: map<nat, Combinator>, ghost active: set<nat>,
                   ghost bound: nat)
      returns (r: bool)
      requires Ready(q, table, active, bound, x)
      requires c.doneName < bound && c.doneName in table && table[c.doneName] == c
      requires Numbered(c.matcher, c.doneName) && Listed(c.matcher, table)
      modifies this`caches
      ensures r == Reaches(Scope(tree, q), c, x) && (q.xml ==> caches == old(caches))
      ensures Sound(Now(q, table), active, caches) && (!r ==> Settled(Now(q, table), active, caches))
      ensures Framed(Now(q, table), active, x, old(caches), caches)
      decreases c, 2
    {
      hide Sound, Settled, Matches, Framed;
      if c.first {
        r := Nearest(c, x, q, table, active, bound);
      } else if q.xml {
        FramedSame(Now(q, table), active, x, caches);
        r := SearchPlain(c, x, q, table, active, bound);
      } else {
        r := SearchCached(c, x, q, table, active, bound);
      }
    }

    /** Against the closest node. */
    method Nearest(c: Combinator, x: nat, q: Query, ghost table: map<nat, Combinator>, ghost active: set<nat>,
                   ghost bound: nat)
      returns (r: bool)
      requires Ready(q, table, active, bound, x) && c.first
      requires c.doneName < bound && Numbered(c.matcher, c.doneName) && Listed(c.matcher, table)
      modifies this`caches
      ensures r == Reaches(Scope(tree, q), c, x) && (q.xml ==> caches == old(caches))
      ensures Sound(Now(q, table), active, caches) && (!r ==> Settled(Now(q, table), active, caches))
      ensures Framed(Now(q, table), active, x, old(caches), caches)
      decreases c, 1
    {
      hide Sound, Settled, Matches;
      var elem := tree.Next(c.dir, x);
      ghost var from: nat := x;
      while elem.Some?
        invariant caches == old(caches) && from <= x && elem == tree.Next(c.dir, from)
        invariant Reaches(Scope(tree, q), c, x) == Reaches(Scope(tree, q), c, from)
        decreases if elem.Some? then elem.value + 1 else 0
      {
        var y := elem.value;
        if c.Checks(Scope(tree, q), y) {
          r := MatchElement(c.matcher, y, q, table, active, c.doneName);
          return;
        }
        from := y;
        elem := tree.Next(c.dir, y);
      }
      return false;
    }

    /** Against all nodes on the way, on an XML document. */
    method SearchPlain(c: Combinator, x: nat, q: Query, ghost table: map<nat, Combinator>, ghost active: set<nat>,
                       ghost bound: nat)
      returns (r: bool)
      requires Ready(q, table, active, bound, x) && !c.first && q.xml
      requires c.doneName < bound && Numbered(c.matcher, c.doneName) && Listed(c.matcher, table)
      modifies this`caches
      ensures r == Reaches(Scope(tree, q), c, x) && caches == old(caches)
      decreases c, 1
    {
      hide Sound, Settled, Matches;
      var elem := tree.Next(c.dir, x);
      ghost var from: nat := x;
      while elem.Some?
        invariant caches == old(caches) && from <= x && elem == tree.Next(c.dir, from)
        invariant Reaches(Scope(tree, q), c, x) == Reaches(Scope(tree, q), c, from)
        decreases if elem.Some? then elem.value + 1 else 0
      {
        var y := elem.value;
        if c.Checks(Scope(tree, q), y) {
          var matched := MatchElement(c.matcher, y, q, table, active, c.doneName);
          if matched {
            return true;
          }
        }
        from := y;
        elem := tree.Next(c.dir, y);
      }
      return false;
    }

    /** Against all nodes on the way, with the caches. */
    method SearchCached(c: Combinator, x: nat, q: Query, ghost table: map<nat, Combinator>, ghost active: set<nat>,
                        ghost bound: nat)
      returns (r: bool)
      requires Ready(q, table, active, bound, x) && !c.first
      requires c.doneName < bound && c.doneName in table && table[c.doneName] == c
      requires Numbered(c.matcher, c.doneName) && Listed(c.matcher, table)
      modifies this`caches
      ensures r == Reaches(Scope(tree, q), c, x)
      ensures Sound(Now(q, table), active, caches) && (!r ==> Settled(Now(q, table), active, caches))
      ensures Framed(Now(q, table), active, x, old(caches), caches)
      decreases c, 1
    {
      hide Sound, Settled, Matches, Framed, Pointing;
      var elem := tree.Next(c.dir, x);
      ghost var from: nat := x;
      SearchBegins(Now(q, table), c, x, active, caches);
      while elem.Some?
        invariant from <= x && elem == tree.Next(c.dir, from)
        invariant Reaches(Scope(tree, q), c, x) == Reaches(Scope(tree, q), c, from)
        invariant Sound(Now(q, table), active, caches) && Settled(Now(q, table), active + {c.doneName}, caches)
                  && Pointing(Now(q, table), c, from, caches)
        invariant Framed(Now(q, table), active, x, old(caches), caches)
        decreases if elem.Some? then elem.value + 1 else 0
      {
        var y := elem.value;
        if c.Checks(Scope(tree, q), y) {
          ghost var before := caches;
          var known := Visit(c, y, q, from, table, active, bound);
          FramedTrans(Now(q, table), active, active, x, from, old(caches), before, caches);
          if known.Some? {
            return known.value;
          }
        } else {
          PointingOn(Now(q, table), c, from, y, caches);
        }
        from := y;
        elem := tree.Next(c.dir, y);
      }
      SearchEnds(Now(q, table), c, from, active, caches);
      return false;
    }

    /** One node on the way: Some if the search ends here. */
    method Visit(c: Combinator, y: nat, q: Query, ghost from: nat, ghost table: map<nat, Combinator>,
                 ghost active: set<nat>, ghost bound: nat)
      returns (known: Option<bool>)
      requires tree.WellFormed() && y < from < tree.Size() && tree.Next(c.dir, from) == Some(y)
               && c.Checks(Scope(tree, q), y) && !c.first
      requires forall a :: a in active ==> a >= bound
      requires c.doneName < bound && c.doneName in table && table[c.doneName] == c
      requires Numbered(c.matcher, c.doneName) && Listed(c.matcher, table)
      requires Sound(Now(q, table), active, caches) && Settled(Now(q, table), active + {c.doneName}, caches)
               && Pointing(Now(q, table), c, from, caches)
      modifies this`caches
      ensures Sound(Now(q, table), active, caches)
      ensures known.Some? ==> known.value == Reaches(Scope(tree, q), c, from)
      ensures known == Some(false) ==> Settled(Now(q, table), active, caches)
      ensures known == None ==>
                && Reaches(Scope(tree, q), c, from) == Reaches(Scope(tree, q), c, y)
                && Settled(Now(q, table), active + {c.doneName}, caches) && Pointing(Now(q, table), c, y, caches)
      ensures Framed(Now(q, table), active, from, old(caches), caches)
      decreases c, 0
    {
      hide Sound, Settled, Matches, Framed, Pointing;
      var key := (y, c.dir);
      if key in caches && caches[key].run == dirruns && caches[key].doneName == c.doneName {
        VisitKnown(Now(q, table), c, y, from, active, caches);
        var data := caches[key].data;
        if data == True || data == Failed(cachedruns) {
          return Some(data == True);
        }
        return None;
      }
      ghost var before := caches;
      Marked(Now(q, table), c, y, from, active, before);
      caches := caches[key := Cache(dirruns, c.doneName, Unset)];
      ghost var mid := caches;
      var matched := MatchElement(c.matcher, y, q, table, active + {c.doneName}, c.doneName);
      ghost var after := caches;
      Remembered(Now(q, table), c, y, from, active, before, mid, after, matched);
      caches := caches[key := caches[key].(data := if matched then True else Failed(cachedruns))];
      if matched {
        return Some(true);
      }
      PointingPast(Now(q, table), c, y, from, active, before, mid, after);
      SettledPast(Now(q, table), c, y, active, after);
      return None;
    }

    /** One candidate against the selectors of a group, until one matches. */
    method MatchAny(ms: seq<Matcher>, x: nat, q: Query, ghost table: map<nat, Combinator>, ghost bound: nat)
      returns (r: bool)
      requires Ready(q, table, {}, bound, x)
      requires forall j :: 0 <= j < |ms| ==> Numbered(ms[j], bound) && Listed(ms[j], table)
      modifies this`caches
      ensures r == (exists j :: 0 <= j < |ms| && Matches(Scope(tree, q), ms[j], x)) && (q.xml ==> caches == old(caches))
      ensures Sound(Now(q, table), {}, caches)
      ensures forall k :: k in caches ==> caches[k].run == dirruns || (k in old(caches) && caches[k] == old(caches)[k])
    {
      hide Sound, Settled, Matches;
      for j := 0 to |ms|
        invariant Ready(q, table, {}, bound, x) && (q.xml ==> caches == old(caches))
        invariant forall i :: 0 <= i < j ==> !Matches(Scope(tree, q), ms[i], x)
        invariant forall k :: k in caches ==>
                    caches[k].run == dirruns || (k in old(caches) && caches[k] == old(caches)[k])
      {
        var matched := MatchElement(ms[j], x, q, table, {}, bound);
        if matched {
          return true;
        }
      }
      return false;
    }

    /** superMatcher without set matchers, in the outermost run: the candidates that match some selector of the
        group, in the order in which they come. */
    method SuperMatcher(compiled: Compiled, elems: seq<nat>, q: Query, ghost table: map<nat, Combinator>,
                        ghost bound: nat)
      returns (results: seq<nat>)
      requires Valid() && forall i :: 0 <= i < |elems| ==> elems[i] < tree.Size()
      requires forall j :: 0 <= j < |compiled.elementMatchers| ==>
                 Numbered(compiled.elementMatchers[j], bound) && Listed(compiled.elementMatchers[j], table)
      modifies this, compiled
      ensures Valid() && results == Selected(Scope(tree, q), compiled.elementMatchers, elems)
    {
      hide Sound, Settled, Matches;
      dirruns := dirruns + 1;
      cachedruns := compiled.matcherCachedRuns;
      results := [];
      NewRun(Now(q, table), caches);
      assert elems[..0] == [];
      for i := 0 to |elems|
        invariant Valid() && cachedruns == compiled.matcherCachedRuns
        invariant Sound(Now(q, table), {}, caches) && Settled(Now(q, table), {}, caches)
        invariant results == Selected(Scope(tree, q), compiled.elementMatchers, elems[..i])
      {
        assert elems[..i + 1][..i] == elems[..i];
        var matched := MatchAny(compiled.elementMatchers, elems[i], q, table, bound);
        if matched {
          results := results + [elems[i]];
        }
        NextCandidate(Now(q, table), caches);
        compiled.matcherCachedRuns := compiled.matcherCachedRuns + 1;
        cachedruns := compiled.matcherCachedRuns;
      }
      assert elems[..|elems|] == elems;
    }
  }

  /** What compile returns and keeps: it may be used again and again. */
  class Compiled {
    const elementMatchers: seq<Matcher>
    var matcherCachedRuns: nat

    constructor (elementMatchers: seq<Matcher>)
      ensures this.elementMatchers == elementMatchers && matcherCachedRuns == 0
    {
      this.elementMatchers, matcherCachedRuns := elementMatchers, 0;
    }
  }

  /** The candidates some selector matches by the plain search. */
  function Selected(s: Scope, ms: seq<Matcher>, elems: seq<nat>): (results: seq<nat>)
    requires s.WellFormed() && forall i :: 0 <= i < |elems| ==> elems[i] < s.Size()
  {
    if |elems| == 0 then []
    else
      var last := elems[|elems| - 1];
      Selected(s, ms, elems[..|elems| - 1])
      + if exists j :: 0 <= j < |ms| && Matches(s, ms[j], last) then [last] else []
  }

  /** A new run believes nothing that is on the nodes. */
  lemma NewRun(r: Run, caches: Caches)
    requires r.scope.WellFormed() && forall k :: k in caches ==> caches[k].run < r.run
    ensures Sound(r, {}, caches) && Settled(r, {}, caches)
  {
  }

  /** A new candidate: failures are still failures, but say nothing of the rest of the way. */
  lemma NextCandidate(r: Run, caches: Caches)
    requires r.scope.WellFormed() && Sound(r, {}, caches)
    ensures
      var next := r.(candidate := r.candidate + 1);
      Sound(next, {}, caches) && Settled(next, {}, caches)
  {
    hide Matches, Reaches;
    var next := r.(candidate := r.candidate + 1);
    forall k | k in caches && caches[k].run == r.run
      ensures Right(next, {}, k, caches[k]) && caches[k].data != Failed(next.candidate)
    {
      assert Right(r, {}, k, caches[k]);
    }
  }
}
