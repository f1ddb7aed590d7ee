/** From a tokenized selector to a matcher and to its results: compiling keeps the meaning, and so does matching
    with caches. */
module SizzleCompile {
  import opened Common
  import opened SizzleCombinator

  /** A token: a simple selector, as the nodes that pass it, or a relation between what is left and right of it. */
  datatype Token = Filter(passing: set<nat>) | Relative(dir: Dir, first: bool)

  /** The tokens after a leading relation. */
  function Start(tokens: seq<Token>): nat {
    if |tokens| > 0 && tokens[0].Relative? then 1 else 0
  }

  /** How the first tokens are related to the context. */
  function Implicit(tokens: seq<Token>): (r: Token)
    ensures r.Relative?
  {
    if |tokens| > 0 && tokens[0].Relative? then tokens[0] else Relative(ParentNode, false)
  }

  /** The first token is a relation. */
  predicate Leading(tokens: seq<Token>) {
    |tokens| > 0 && tokens[0].Relative?
  }

  /** y is related to x: it lies in the direction and, for > and +, no node that is looked at comes between. */
  predicate Related(s: Scope, relation: Token, base: bool, x: nat, y: nat)
    requires s.WellFormed() && x < s.Size() && y < x && relation.Relative?
  {
    && OnWay(s, relation.dir, x, y) && Looked(s, relation, base, y)
    && (relation.first ==> forall z :: y < z < x && OnWay(s, relation.dir, x, z) ==> !Looked(s, relation, base, z))
  }

  predicate Looked(s: Scope, relation: Token, base: bool, y: nat)
    requires y < s.Size() && relation.Relative?
  {
    s.tree.element[y] || (base && relation.dir == ParentNode)
  }

  /** The meaning of the first n tokens: x stands where they allow, in the leading relation to the context, or below
      it, if the context is asked for. */
  predicate Means(s: Scope, tokens: seq<Token>, n: nat, x: nat)
    requires s.WellFormed() && x < s.Size() && n <= |tokens|
    decreases n
  {
    if n <= Start(tokens) then
      || s.Free(Leading(tokens))
      || exists y :: 0 <= y < x && Related(s, Implicit(tokens), true, x, y) && s.InContext(y)
    else
      var before, last := n - 1, tokens[n - 1];
      match last
      case Filter(passing) => x in passing && Means(s, tokens, before, x)
      case Relative(_, _) =>
        exists y :: 0 <= y < x && Related(s, last, false, x, y) && Means(s, tokens, before, y)
  }

  /** In one run the matcher means the first n tokens. */
  ghost predicate AgreesIn(s: Scope, m: Matcher, tokens: seq<Token>, n: nat)
    requires s.WellFormed() && n <= |tokens|
  {
    forall x :: 0 <= x < s.Size() ==> Matches(s, m, x) == Means(s, tokens, n, x)
  }

  /** Whatever the matcher is called with, it means the first n tokens. */
  ghost predicate Agrees(t: Tree, m: Matcher, tokens: seq<Token>, n: nat)
    requires t.WellFormed() && n <= |tokens|
  {
    forall q: Query :: AgreesIn(Scope(t, q), m, tokens, n)
  }

  function FirstNodes(n: nat): (nodes: set<nat>)
    ensures forall x: nat :: x in nodes <==> x < n
  {
    if n == 0 then {} else FirstNodes(n - 1) + {n - 1}
  }

  function AllNodes(t: Tree): set<nat> {
    FirstNodes(t.Size())
  }

  // ---------- the meaning, on the document alone ----------

  predicate InTree(t: Tree, elems: seq<nat>) {
    forall i :: 0 <= i < |elems| ==> elems[i] < t.Size()
  }

  /** Following the links from x leads to y. */
  predicate Leads(links: seq<Option<nat>>, x: nat, y: nat)
    requires x < |links| && forall i :: 0 <= i < |links| && links[i].Some? ==> links[i].value < i
    decreases x
  {
    links[x].Some? && (links[x].value == y || Leads(links, links[x].value, y))
  }

  /** x stands below y: y is its parent or the parent's parent and so on. */
  predicate Below(t: Tree, x: nat, y: nat)
    requires t.WellFormed() && x < t.Size()
  {
    Leads(t.parent, x, y)
  }

  /** x stands behind y: y is its previous sibling or the one before that and so on. */
  predicate Behind(t: Tree, x: nat, y: nat)
    requires t.WellFormed() && x < t.Size()
  {
    Leads(t.previous, x, y)
  }

  function ContextNodes(q: Query): set<nat> {
    match q.context
    case Node(node) => {node}
    case Nodes(nodes) => nodes
  }

  /** What the token between y and x asks for. A relation passes over what is not an element, except that a leading
      one sees every ancestor. */
  predicate Step(t: Tree, token: Token, leading: bool, x: nat, y: nat)
    requires t.WellFormed() && x < t.Size() && y < t.Size()
  {
    match token
    case Filter(passing) => x == y && x in passing
    case Relative(ParentNode, first) =>
      && Below(t, x, y) && (leading || t.element[y])
      && (first ==> forall z :: y < z < x && Below(t, x, z) ==> !leading && !t.element[z])
    case Relative(PreviousSibling, first) =>
      && Behind(t, x, y) && t.element[y]
      && (first ==> forall z :: y < z < x && Behind(t, x, z) ==> !t.element[z])
  }

  /** Where the first node of a way may be: with a leading relation, in the context; without one, below the context,
      or anywhere if the document is XML or the context itself. */
  predicate StartsRight(t: Tree, q: Query, tokens: seq<Token>, start: nat)
    requires t.WellFormed() && start < t.Size() && |tokens| > 0
  {
    match tokens[0]
    case Relative(_, _) => start in ContextNodes(q)
    case Filter(_) =>
      q.xml || q.context == Node(t.document) || exists c :: c in ContextNodes(q) && Below(t, start, c)
  }

  /** A way through the document from the first of n tokens to the last: a node before each and one behind. */
  predicate IsWay(t: Tree, q: Query, tokens: seq<Token>, n: nat, way: seq<nat>)
    requires t.WellFormed() && 0 < |tokens| && n <= |tokens|
  {
    && |way| == n + 1 && InTree(t, way) && StartsRight(t, q, tokens, way[0])
    && forall k :: 0 <= k < n ==> Step(t, tokens[k], k == 0, way[k + 1], way[k])
  }

  ghost predicate WayTo(t: Tree, q: Query, tokens: seq<Token>, n: nat, x: nat)
    requires t.WellFormed() && 0 < |tokens| && n <= |tokens|
  {
    exists way :: IsWay(t, q, tokens, n, way) && way[n] == x
  }

  lemma WayMore(t: Tree, q: Query, tokens: seq<Token>, n: nat, x: nat)
    requires t.WellFormed() && n < |tokens| && x < t.Size()
    ensures WayTo(t, q, tokens, n + 1, x) <==>
              exists y: nat :: y < t.Size() && Step(t, tokens[n], n == 0, x, y) && WayTo(t, q, tokens, n, y)
  {
    hide Step, StartsRight;
    if WayTo(t, q, tokens, n + 1, x) {
      var way :| IsWay(t, q, tokens, n + 1, way) && way[n + 1] == x;
      var y, before := way[n], way[..n + 1];
      forall k | 0 <= k < n ensures Step(t, tokens[k], k == 0, before[k + 1], before[k]) {
        assert Step(t, tokens[k], k == 0, way[k + 1], way[k]);
      }
      assert IsWay(t, q, tokens, n, before) && before[n] == y;
      assert Step(t, tokens[n], n == 0, x, y) && WayTo(t, q, tokens, n, y);
    }
    if y: nat :| y < t.Size() && Step(t, tokens[n], n == 0, x, y) && WayTo(t, q, tokens, n, y) {
      var way :| IsWay(t, q, tokens, n, way) && way[n] == y;
      var more := way + [x];
      forall k | 0 <= k < n + 1 ensures Step(t, tokens[k], k == 0, more[k + 1], more[k]) {
        if k < n {
          assert more[k] == way[k] && more[k + 1] == way[k + 1];
        }
      }
      assert IsWay(t, q, tokens, n + 1, more) && more[n + 1] == x;
      assert WayTo(t, q, tokens, n + 1, x);
    }
  }

  lemma {:induction false} OnWayLeads(s: Scope, dir: Dir, x: nat, y: nat)
    requires s.WellFormed() && x < s.Size()
    ensures OnWay(s, dir, x, y) == if dir == ParentNode then Below(s.tree, x, y) else Behind(s.tree, x, y)
    decreases x
  {
    var next := s.Next(dir, x);
    if next.Some? {
      OnWayLeads(s, dir, next.value, y);
    }
  }

  lemma RelatedSteps(s: Scope, token: Token, leading: bool, x: nat, y: nat)
    requires s.WellFormed() && x < s.Size() && y < x && token.Relative?
    ensures Related(s, token, leading, x, y) == Step(s.tree, token, leading, x, y)
  {
    hide OnWay, Leads;
    forall z | 0 <= z < x
      ensures OnWay(s, token.dir, x, z) == if token.dir == ParentNode then Below(s.tree, x, z) else Behind(s.tree, x, z)
    {
      OnWayLeads(s, token.dir, x, z);
    }
  }

  lemma {:induction false} LeadsGoesBack(t: Tree, token: Token, leading: bool, x: nat, y: nat)
    requires t.WellFormed() && x < t.Size() && y < t.Size() && token.Relative? && Step(t, token, leading, x, y)
    ensures y < x
  {
    var s := Scope(t, Query(Node(0), false));
    OnWayLeads(s, token.dir, x, y);
    WayGoesBack(s, token.dir, x, y);
  }

  lemma NoWayYet(t: Tree, q: Query, tokens: seq<Token>, x: nat)
    requires t.WellFormed() && 0 < |tokens| && x < t.Size()
    ensures WayTo(t, q, tokens, 0, x) == StartsRight(t, q, tokens, x)
  {
    hide StartsRight, Step;
    if StartsRight(t, q, tokens, x) {
      assert IsWay(t, q, tokens, 0, [x]) && [x][0] == x;
    }
  }

  lemma ContextAbove(s: Scope, tokens: seq<Token>, x: nat)
    requires s.WellFormed() && |tokens| > 0 && x < s.Size() && tokens[0].Filter?
    ensures Means(s, tokens, 0, x) == StartsRight(s.tree, s.query, tokens, x)
  {
    var below := Relative(ParentNode, false);
    assert s.Free(Leading(tokens)) == (s.query.xml || s.query.context == Node(s.tree.document));
    forall y | 0 <= y < x ensures Related(s, below, true, x, y) == Below(s.tree, x, y) {
      OnWayLeads(s, ParentNode, x, y);
    }
    if c :| c in ContextNodes(s.query) && Below(s.tree, x, c) {
      OnWayLeads(s, ParentNode, x, c);
      WayGoesBack(s, ParentNode, x, c);
      assert Related(s, below, true, x, c) && s.InContext(c);
    }
  }

  lemma ContextLeads(s: Scope, tokens: seq<Token>, x: nat)
    requires s.WellFormed() && |tokens| > 0 && x < s.Size() && tokens[0].Relative?
    ensures Means(s, tokens, 1, x) == WayTo(s.tree, s.query, tokens, 1, x)
  {
    hide Related, Step, WayTo;
    var t, q := s.tree, s.query;
    WayMore(t, q, tokens, 0, x);
    forall y | 0 <= y < t.Size() ensures WayTo(t, q, tokens, 0, y) == s.InContext(y) {
      NoWayYet(t, q, tokens, y);
    }
    forall y | 0 <= y < x ensures Related(s, tokens[0], true, x, y) == Step(t, tokens[0], true, x, y) {
      RelatedSteps(s, tokens[0], true, x, y);
    }
    if y :| 0 <= y < t.Size() && Step(t, tokens[0], true, x, y) && WayTo(t, q, tokens, 0, y) {
      LeadsGoesBack(t, tokens[0], true, x, y);
      assert Related(s, tokens[0], true, x, y) && s.InContext(y);
    }
  }

  /** What the tokens mean is that there is a way. */
  lemma {:induction false} MeansWay(s: Scope, tokens: seq<Token>, n: nat, x: nat)
    requires s.WellFormed() && |tokens| > 0 && x < s.Size() && Start(tokens) <= n <= |tokens|
    ensures Means(s, tokens, n, x) == WayTo(s.tree, s.query, tokens, n, x)
    decreases n
  {
    hide Related, Step, WayTo, StartsRight;
    var t, q := s.tree, s.query;
    if n == 0 {
      NoWayYet(t, q, tokens, x);
      ContextAbove(s, tokens, x);
    } else if n == 1 && tokens[0].Relative? {
      ContextLeads(s, tokens, x);
    } else {
      var before, last := n - 1, tokens[n - 1];
      WayMore(t, q, tokens, before, x);
      match last {
        case Filter(passing) =>
          MeansWay(s, tokens, before, x);
          FilterSteps(t, passing, before == 0, x);
        case Relative(_, _) =>
          forall y | 0 <= y < x
            ensures Related(s, last, false, x, y) == Step(t, last, false, x, y)
            ensures Means(s, tokens, before, y) == WayTo(t, q, tokens, before, y)
          {
            RelatedSteps(s, last, false, x, y);
            MeansWay(s, tokens, before, y);
          }
          if y :| 0 <= y < t.Size() && Step(t, last, false, x, y) && WayTo(t, q, tokens, before, y) {
            LeadsGoesBack(t, last, false, x, y);
            assert Related(s, last, false, x, y) && Means(s, tokens, before, y);
          }
      }
    }
  }

  lemma FilterSteps(t: Tree, passing: set<nat>, leading: bool, x: nat)
    requires t.WellFormed() && x < t.Size()
    ensures forall y :: 0 <= y < t.Size() ==> Step(t, Filter(passing), leading, x, y) == (x == y && x in passing)
  {
  }

  /** Siblings have one parent. */
  predicate SiblingsTogether(t: Tree)
    requires t.WellFormed()
  {
    forall x :: 0 <= x < t.Size() && t.previous[x].Some? ==> t.parent[x] == t.parent[t.previous[x].value]
  }

  lemma {:induction false} BelowBelow(t: Tree, x: nat, y: nat, c: nat)
    requires t.WellFormed() && x < t.Size() && y < t.Size() && Below(t, x, y) && Below(t, y, c)
    ensures Below(t, x, c)
    decreases x
  {
    if t.parent[x].value != y {
      BelowBelow(t, t.parent[x].value, y, c);
    }
  }

  lemma {:induction false} BehindHasParent(t: Tree, x: nat, y: nat)
    requires t.WellFormed() && SiblingsTogether(t) && x < t.Size() && y < t.Size() && Behind(t, x, y)
    ensures t.parent[x] == t.parent[y]
    decreases x
  {
    if t.previous[x].value != y {
      BehindHasParent(t, t.previous[x].value, y);
    }
  }

  /** Without a leading relation, on a document that is neither XML nor the context itself, whatever is selected
      stands below the context, at any depth and whatever relations the selector has. */
  lemma {:induction false} SelectedBelowContext(t: Tree, q: Query, tokens: seq<Token>, n: nat, x: nat)
    requires t.WellFormed() && SiblingsTogether(t) && 0 < |tokens| && n <= |tokens| && x < t.Size()
    requires tokens[0].Filter? && !q.xml && q.context != Node(t.document) && WayTo(t, q, tokens, n, x)
    ensures exists c :: c in ContextNodes(q) && Below(t, x, c)
    decreases n
  {
    hide WayTo, SiblingsTogether;
    if n == 0 {
      NoWayYet(t, q, tokens, x);
    } else {
      WayMore(t, q, tokens, n - 1, x);
      var y: nat :| y < t.Size() && Step(t, tokens[n - 1], n - 1 == 0, x, y) && WayTo(t, q, tokens, n - 1, y);
      SelectedBelowContext(t, q, tokens, n - 1, y);
      var c :| c in ContextNodes(q) && Below(t, y, c);
      if tokens[n - 1].Relative? {
        if tokens[n - 1].dir == ParentNode {
          BelowBelow(t, x, y, c);
        } else {
          BehindHasParent(t, x, y);
        }
      }
      assert Below(t, x, c);
    }
  }

  /** A simple selector selects what passes it and stands below the context, or, on an XML document or from the
      document, simply what passes it. */
  lemma SimpleSelector(t: Tree, q: Query, passing: set<nat>, x: nat)
    requires t.WellFormed() && x < t.Size()
    ensures WayTo(t, q, [Filter(passing)], 1, x) <==>
              && x in passing
              && (q.xml || q.context == Node(t.document) || exists c :: c in ContextNodes(q) && Below(t, x, c))
  {
    hide WayTo;
    var tokens := [Filter(passing)];
    WayMore(t, q, tokens, 0, x);
    FilterSteps(t, passing, true, x);
    NoWayYet(t, q, tokens, x);
  }

  /** With a leading > a simple selector selects the children of the context that pass it, on any document. */
  lemma ChildrenOfContext(t: Tree, q: Query, passing: set<nat>, x: nat)
    requires t.WellFormed() && x < t.Size()
    ensures WayTo(t, q, [Relative(ParentNode, true), Filter(passing)], 2, x) <==>
              x in passing && t.parent[x].Some? && t.parent[x].value in ContextNodes(q)
  {
    hide WayTo;
    var tokens := [Relative(ParentNode, true), Filter(passing)];
    WayMore(t, q, tokens, 1, x);
    FilterSteps(t, passing, false, x);
    WayMore(t, q, tokens, 0, x);
    forall y: nat | y < t.Size()
      ensures WayTo(t, q, tokens, 0, y) == (y in ContextNodes(q))
      ensures Step(t, tokens[0], true, x, y) <==> t.parent[x] == Some(y)
    {
      NoWayYet(t, q, tokens, y);
      ParentIsNearest(t, x, y);
    }
  }

  lemma ParentIsNearest(t: Tree, x: nat, y: nat)
    requires t.WellFormed() && x < t.Size() && y < t.Size()
    ensures Step(t, Relative(ParentNode, true), true, x, y) <==> t.parent[x] == Some(y)
  {
    if t.parent[x].Some? {
      var n := t.parent[x].value;
      assert Below(t, x, n);
      forall z: nat | z < t.Size() && Below(t, x, z) ensures z <= n {
        ParentFirst(t, x, z);
      }
      if Step(t, Relative(ParentNode, true), true, x, y) {
        ParentFirst(t, x, y);
      }
    }
  }

  lemma ParentFirst(t: Tree, x: nat, y: nat)
    requires t.WellFormed() && x < t.Size() && y < t.Size() && Below(t, x, y)
    ensures t.parent[x].Some? && y <= t.parent[x].value
  {
    var s, n := Scope(t, Query(Node(0), false)), t.parent[x].value;
    if y != n {
      OnWayLeads(s, ParentNode, n, y);
      WayGoesBack(s, ParentNode, n, y);
    }
  }

  /** Whatever the matcher is called with, it matches where there is a way. */
  ghost predicate FindsWays(t: Tree, m: Matcher, tokens: seq<Token>)
    requires t.WellFormed() && |tokens| > 0
  {
    forall q: Query, x :: 0 <= x < t.Size() ==> Matches(Scope(t, q), m, x) == WayTo(t, q, tokens, |tokens|, x)
  }

  // ---------- compiling ----------

  lemma ReachesRelated(s: Scope, c: Combinator, x: nat)
    requires s.WellFormed() && x < s.Size()
    ensures Reaches(s, c, x) <==>
              exists y :: 0 <= y < x && Related(s, Relative(c.dir, c.first), c.base, x, y) && Matches(s, c.matcher, y)
  {
    hide Reaches, Matches;
    ReachesMeansSome(s, c, x);
    assert forall y :: 0 <= y < x ==> Looked(s, Relative(c.dir, c.first), c.base, y) == c.Checks(s, y);
    if y :| 0 <= y < x && Related(s, Relative(c.dir, c.first), c.base, x, y) && Matches(s, c.matcher, y) {
      assert OnWay(s, c.dir, x, y) && c.Checks(s, y);
    }
    if Reaches(s, c, x) {
      var y :| && 0 <= y < x && OnWay(s, c.dir, x, y) && c.Checks(s, y) && Matches(s, c.matcher, y)
               && (c.first ==> forall z :: y < z < x && OnWay(s, c.dir, x, z) ==> !c.Checks(s, z));
      assert Related(s, Relative(c.dir, c.first), c.base, x, y);
    }
  }

  /** A closure that searches for the context as the tokens say. */
  predicate SearchesContext(c: Combinator, tokens: seq<Token>) {
    c.dir == Implicit(tokens).dir && c.first == Implicit(tokens).first && c.base && c.matcher == InContext
  }

  lemma ContextReached(s: Scope, c: Combinator, tokens: seq<Token>, x: nat)
    requires s.WellFormed() && x < s.Size() && SearchesContext(c, tokens)
    ensures Reaches(s, c, x) <==> exists y :: 0 <= y < x && Related(s, Implicit(tokens), true, x, y) && s.InContext(y)
  {
    ReachesRelated(s, c, x);
    assert Relative(c.dir, c.first) == Implicit(tokens);
    hide Reaches, Related;
    assert forall y :: 0 <= y < x ==> Matches(s, c.matcher, y) == s.InContext(y);
  }

  lemma FoundationAgrees(t: Tree, single: Combinator, several: Combinator, tokens: seq<Token>)
    requires t.WellFormed() && |tokens| > 0 && SearchesContext(single, tokens) && SearchesContext(several, tokens)
    ensures Agrees(t, Rooted(AllNodes(t), Leading(tokens), single, several), tokens, Start(tokens))
  {
    hide Reaches, Related;
    var m := Rooted(AllNodes(t), Leading(tokens), single, several);
    forall q: Query, x | 0 <= x < t.Size()
      ensures Matches(Scope(t, q), m, x) == Means(Scope(t, q), tokens, Start(tokens), x)
    {
      ContextReached(Scope(t, q), single, tokens, x);
      ContextReached(Scope(t, q), several, tokens, x);
    }
  }

  lemma FilterAgrees(t: Tree, m: Matcher, tokens: seq<Token>, n: nat)
    requires t.WellFormed() && Start(tokens) <= n < |tokens| && tokens[n].Filter? && !m.InContext?
    requires Agrees(t, m, tokens, n)
    ensures Agrees(t, m.(passing := m.passing * tokens[n].passing), tokens, n + 1)
  {
    hide Reaches, Related;
    var more := m.(passing := m.passing * tokens[n].passing);
    forall q: Query, x | 0 <= x < t.Size()
      ensures Matches(Scope(t, q), more, x) == Means(Scope(t, q), tokens, n + 1, x)
    {
      assert AgreesIn(Scope(t, q), m, tokens, n);
      assert Matches(Scope(t, q), m, x) == Means(Scope(t, q), tokens, n, x);
    }
  }

  lemma RelativeAgrees(t: Tree, c: Combinator, tokens: seq<Token>, n: nat)
    requires t.WellFormed() && Start(tokens) <= n < |tokens| && tokens[n] == Relative(c.dir, c.first)
    requires Agrees(t, c.matcher, tokens, n) && !c.base
    ensures Agrees(t, Chained(AllNodes(t), c), tokens, n + 1)
  {
    var more := Chained(AllNodes(t), c);
    forall q: Query, x | 0 <= x < t.Size()
      ensures Matches(Scope(t, q), more, x) == Means(Scope(t, q), tokens, n + 1, x)
    {
      var s := Scope(t, q);
      assert AgreesIn(s, c.matcher, tokens, n);
      ReachesRelated(s, c, x);
      assert Matches(s, more, x) == Reaches(s, c, x);
      hide Reaches, Related, Matches;
      assert forall y :: 0 <= y < x ==> Matches(s, c.matcher, y) == Means(s, tokens, n, y);
    }
  }

  lemma {:induction false} ListedMore(m: Matcher, table: map<nat, Combinator>, name: nat, c: Combinator)
    requires Listed(m, table) && name !in table
    ensures Listed(m, table[name := c])
    decreases m
  {
    match m {
      case InContext =>
      case Rooted(_, _, single, several) =>
        ListedMore(single.matcher, table, name, c);
        ListedMore(several.matcher, table, name, c);
      case Chained(_, before) => ListedMore(before.matcher, table, name, c);
    }
  }

  lemma {:induction false} NumberedMore(m: Matcher, bound: nat, more: nat)
    requires Numbered(m, bound) && bound <= more
    ensures Numbered(m, more)
    decreases m
  {
  }

  /** Closures that exist go on existing. */
  ghost predicate Grows(done: nat, table: map<nat, Combinator>, later: nat, more: map<nat, Combinator>) {
    done <= later && forall k :: k in table ==> k in more && more[k] == table[k]
  }

  lemma {:induction false} ListedKept(m: Matcher, table: map<nat, Combinator>, more: map<nat, Combinator>)
    requires Listed(m, table) && Grows(0, table, 0, more)
    ensures Listed(m, more)
    decreases m
  {
    match m {
      case InContext =>
      case Rooted(_, _, single, several) =>
        ListedKept(single.matcher, table, more);
        ListedKept(several.matcher, table, more);
      case Chained(_, before) => ListedKept(before.matcher, table, more);
    }
  }

  /** The closures of some matchers exist. */
  ghost predicate InUse(ms: seq<Matcher>, done: nat, table: map<nat, Combinator>) {
    forall j :: 0 <= j < |ms| ==> Numbered(ms[j], done) && Listed(ms[j], table)
  }

  lemma InUseKept(ms: seq<Matcher>, done: nat, table: map<nat, Combinator>, later: nat, more: map<nat, Combinator>)
    requires InUse(ms, done, table) && Grows(done, table, later, more)
    ensures InUse(ms, later, more)
  {
    hide Numbered, Listed;
    forall j | 0 <= j < |ms| ensures Numbered(ms[j], later) && Listed(ms[j], more) {
      NumberedMore(ms[j], done, later);
      ListedKept(ms[j], table, more);
    }
  }

  lemma AgreeingFindsWays(t: Tree, m: Matcher, tokens: seq<Token>)
    requires t.WellFormed() && |tokens| > 0 && Agrees(t, m, tokens, |tokens|)
    ensures FindsWays(t, m, tokens)
  {
    hide Means, Matches, WayTo;
    forall q: Query, x | 0 <= x < t.Size()
      ensures Matches(Scope(t, q), m, x) == WayTo(t, q, tokens, |tokens|, x)
    {
      assert AgreesIn(Scope(t, q), m, tokens, |tokens|);
      MeansWay(Scope(t, q), tokens, |tokens|, x);
    }
  }

  class Compiler {
    const tree: Tree
    var done: nat
    ghost var table: map<nat, Combinator>

    ghost predicate Valid()
      reads this
    {
      tree.WellFormed() && forall k :: k in table ==> k < done
    }

    constructor (tree: Tree)
      requires tree.WellFormed()
      ensures Valid() && this.tree == tree
    {
      this.tree, done, table := tree, 0, map[];
    }

    /** addCombinator. */
    method AddCombinator(matcher: Matcher, dir: Dir, first: bool, base: bool) returns (c: Combinator)
      requires Valid() && Numbered(matcher, done) && Listed(matcher, table)
      modifies this
      ensures Valid() && c == Combinator(dir, first, base, old(done), matcher)
      ensures done == old(done) + 1 && old(done) !in old(table) && table == old(table)[old(done) := c]
      ensures c.doneName < done && Numbered(matcher, c.doneName) && Listed(matcher, table)
    {
      c := Combinator(dir, first, base, done, matcher);
      ListedMore(matcher, table, done, c);
      table := table[done := c];
      done := done + 1;
    }

    /** matcherFromTokens without positional matchers. */
    method MatcherFromTokens(tokens: seq<Token>) returns (m: Matcher)
      requires Valid() && |tokens| > 0
      modifies this
      ensures Valid() && Agrees(tree, m, tokens, |tokens|) && Numbered(m, done) && Listed(m, table)
      ensures FindsWays(tree, m, tokens) && Grows(old(done), old(table), done, table)
    {
      hide Agrees, FindsWays;
      var implicit := Implicit(tokens);
      var matchContext := AddCombinator(InContext, implicit.dir, implicit.first, true);
      var matchAnyContext := AddCombinator(InContext, implicit.dir, implicit.first, true);
      m := Rooted(AllNodes(tree), Leading(tokens), matchContext, matchAnyContext);
      FoundationAgrees(tree, matchContext, matchAnyContext, tokens);
      for i := Start(tokens) to |tokens|
        invariant Valid() && Agrees(tree, m, tokens, i) && Numbered(m, done) && Listed(m, table) && !m.InContext?
        invariant Grows(old(done), old(table), done, table)
      {
        match tokens[i] {
          case Filter(passing) =>
            FilterAgrees(tree, m, tokens, i);
            m := m.(passing := m.passing * passing);
          case Relative(dir, first) =>
            var c := AddCombinator(m, dir, first, false);
            RelativeAgrees(tree, c, tokens, i);
            m := Chained(AllNodes(tree), c);
        }
      }
      AgreeingFindsWays(tree, m, tokens);
    }

    /** compile: the selectors of a group, from the last to the first. */
    method Compile(group: seq<seq<Token>>) returns (ms: seq<Matcher>)
      requires Valid() && forall g :: 0 <= g < |group| ==> |group[g]| > 0
      modifies this
      ensures Valid() && |ms| == |group|
      ensures forall g :: 0 <= g < |group| ==>
                && Agrees(tree, ms[|group| - 1 - g], group[g], |group[g]|)
                && FindsWays(tree, ms[|group| - 1 - g], group[g])
      ensures InUse(ms, done, table) && Grows(old(done), old(table), done, table)
    {
      hide Agrees, FindsWays, Numbered, Listed;
      ms := [];
      var i := |group|;
      while i > 0
        invariant Valid() && 0 <= i <= |group| && |ms| == |group| - i
        invariant forall g :: i <= g < |group| ==>
                    && Agrees(tree, ms[|group| - 1 - g], group[g], |group[g]|)
                    && FindsWays(tree, ms[|group| - 1 - g], group[g])
        invariant InUse(ms, done, table) && Grows(old(done), old(table), done, table)
      {
        i := i - 1;
        ghost var was, table0 := done, table;
        var m := MatcherFromTokens(group[i]);
        InUseKept(ms, was, table0, done, table);
        ms := ms + [m];
      }
    }
  }

  // ---------- selecting ----------

  /** x is meant by some selector of the group. */
  predicate Meant(s: Scope, group: seq<seq<Token>>, x: nat)
    requires s.WellFormed() && x < s.Size()
  {
    exists g :: 0 <= g < |group| && Means(s, group[g], |group[g]|, x)
  }

  /** The candidates that are meant, in their order. */
  function MeantAmong(s: Scope, group: seq<seq<Token>>, elems: seq<nat>): seq<nat>
    requires s.WellFormed() && InTree(s.tree, elems)
  {
    if |elems| == 0 then []
    else
      var last := elems[|elems| - 1];
      MeantAmong(s, group, elems[..|elems| - 1]) + if Meant(s, group, last) then [last] else []
  }

  /** There is a way to x by some selector of the group. */
  ghost predicate Chosen(t: Tree, q: Query, group: seq<seq<Token>>, x: nat)
    requires t.WellFormed() && forall g :: 0 <= g < |group| ==> |group[g]| > 0
  {
    exists g :: 0 <= g < |group| && WayTo(t, q, group[g], |group[g]|, x)
  }

  /** What is meant among the candidates is what there is a way to. */
  lemma {:induction false} MeantIsChosen(s: Scope, group: seq<seq<Token>>, elems: seq<nat>)
    requires s.WellFormed() && InTree(s.tree, elems) && forall g :: 0 <= g < |group| ==> |group[g]| > 0
    ensures forall x :: x in MeantAmong(s, group, elems) <==> x in elems && Chosen(s.tree, s.query, group, x)
    decreases |elems|
  {
    hide Means, WayTo;
    if |elems| > 0 {
      var x := elems[|elems| - 1];
      MeantIsChosen(s, group, elems[..|elems| - 1]);
      forall g | 0 <= g < |group|
        ensures Means(s, group[g], |group[g]|, x) == WayTo(s.tree, s.query, group[g], |group[g]|, x)
      {
        MeansWay(s, group[g], |group[g]|, x);
      }
      assert Meant(s, group, x) == Chosen(s.tree, s.query, group, x);
      assert elems == elems[..|elems| - 1] + [x];
    }
  }

  lemma {:induction false} SelectedIsMeant(s: Scope, ms: seq<Matcher>, group: seq<seq<Token>>, elems: seq<nat>)
    requires s.WellFormed() && |ms| == |group| && InTree(s.tree, elems)
    requires forall g :: 0 <= g < |group| ==> Agrees(s.tree, ms[|group| - 1 - g], group[g], |group[g]|)
    ensures Selected(s, ms, elems) == MeantAmong(s, group, elems)
    decreases |elems|
  {
    hide Matches, Means;
    if |elems| > 0 {
      var x := elems[|elems| - 1];
      SelectedIsMeant(s, ms, group, elems[..|elems| - 1]);
      forall g | 0 <= g < |group|
        ensures Matches(s, ms[|group| - 1 - g], x) == Means(s, group[g], |group[g]|, x)
      {
        assert AgreesIn(Scope(s.tree, s.query), ms[|group| - 1 - g], group[g], |group[g]|);
      }
      if j :| 0 <= j < |ms| && Matches(s, ms[j], x) {
        var g := |group| - 1 - j;
        assert Matches(s, ms[|group| - 1 - g], x);
        assert Means(s, group[g], |group[g]|, x);
      }
      if g :| 0 <= g < |group| && Means(s, group[g], |group[g]|, x) {
        assert Matches(s, ms[|group| - 1 - g], x);
      }
    }
  }

  /** The matchers of a group, which exist, mean its selectors. */
  ghost predicate Compiles(t: Tree, ms: seq<Matcher>, group: seq<seq<Token>>, done: nat, table: map<nat, Combinator>)
    requires t.WellFormed()
  {
    && |ms| == |group| && InUse(ms, done, table)
    && forall g :: 0 <= g < |group| ==> Agrees(t, ms[|group| - 1 - g], group[g], |group[g]|)
  }

  /** Fills the compiler's cache. */
  method CompileAll(compiler: Compiler, groups: seq<seq<seq<Token>>>) returns (cache: seq<Compiled>)
    requires compiler.Valid() && forall k, g :: 0 <= k < |groups| && 0 <= g < |groups[k]| ==> |groups[k][g]| > 0
    modifies compiler
    ensures compiler.Valid() && |cache| == |groups| && fresh(cache)
    ensures forall k :: 0 <= k < |groups| ==>
              Compiles(compiler.tree, cache[k].elementMatchers, groups[k], compiler.done, compiler.table)
  {
    hide Agrees, InUse, Grows;
    cache := [];
    for k := 0 to |groups|
      invariant compiler.Valid() && |cache| == k && fresh(cache)
      invariant forall i :: 0 <= i < k ==>
                  Compiles(compiler.tree, cache[i].elementMatchers, groups[i], compiler.done, compiler.table)
    {
      ghost var done, table := compiler.done, compiler.table;
      var ms := compiler.Compile(groups[k]);
      forall i | 0 <= i < k
        ensures Compiles(compiler.tree, cache[i].elementMatchers, groups[i], compiler.done, compiler.table)
      {
        InUseKept(cache[i].elementMatchers, done, table, compiler.done, compiler.table);
      }
      var compiled := new Compiled(ms);
      cache := cache + [compiled];
    }
  }

  /** One call of a compiled selector. */
  datatype Selection = Selection(selector: nat, elems: seq<nat>, query: Query)

  /** The results are, of the candidates, those that there is a way to by the selector. */
  ghost predicate SelectsChosen(t: Tree, run: Selection, groups: seq<seq<seq<Token>>>, results: seq<nat>)
    requires t.WellFormed() && run.selector < |groups|
    requires forall g :: 0 <= g < |groups[run.selector]| ==> |groups[run.selector][g]| > 0
  {
    forall x :: x in results <==> x in run.elems && Chosen(t, run.query, groups[run.selector], x)
  }

  /** Any selections one after the other, on whatever earlier runs have left on the nodes: any of the compiled
      selectors, again and again, with any contexts, on an XML document or not, for candidates in any order, repeated
      ones too. Each time the results are exactly the candidates that the tokens mean. */
  method SelectAll(sizzle: Sizzle, compiler: Compiler, groups: seq<seq<seq<Token>>>, runs: seq<Selection>)
    returns (results: seq<seq<nat>>)
    requires sizzle.Valid() && compiler.Valid() && sizzle.tree == compiler.tree
    requires forall k, g :: 0 <= k < |groups| && 0 <= g < |groups[k]| ==> |groups[k][g]| > 0
    requires forall r :: 0 <= r < |runs| ==> runs[r].selector < |groups| && InTree(sizzle.tree, runs[r].elems)
    modifies sizzle, compiler
    ensures sizzle.Valid() && compiler.Valid() && |results| == |runs|
    ensures forall r :: 0 <= r < |runs| ==>
              && results[r] == MeantAmong(Scope(sizzle.tree, runs[r].query), groups[runs[r].selector], runs[r].elems)
              && SelectsChosen(sizzle.tree, runs[r], groups, results[r])
  {
    hide Agrees, Chosen, Numbered, Listed, Selected, MeantAmong, Means, Matches;
    var cache := CompileAll(compiler, groups);
    results := [];
    for r := 0 to |runs|
      invariant sizzle.Valid() && compiler.Valid() && |results| == r
      invariant forall k :: 0 <= k < |groups| ==>
                  Compiles(sizzle.tree, cache[k].elementMatchers, groups[k], compiler.done, compiler.table)
      invariant forall i :: 0 <= i < r ==>
                  results[i] == MeantAmong(Scope(sizzle.tree, runs[i].query), groups[runs[i].selector], runs[i].elems)
      invariant forall i :: 0 <= i < r ==> SelectsChosen(sizzle.tree, runs[i], groups, results[i])
    {
      var run := runs[r];
      var compiled := cache[run.selector];
      assert Compiles(sizzle.tree, compiled.elementMatchers, groups[run.selector], compiler.done, compiler.table);
      var selected := sizzle.SuperMatcher(compiled, run.elems, run.query, compiler.table, compiler.done);
      SelectedIsMeant(Scope(sizzle.tree, run.query), compiled.elementMatchers, groups[run.selector], run.elems);
      MeantIsChosen(Scope(sizzle.tree, run.query), groups[run.selector], run.elems);
      results := results + [selected];
    }
  }
}
