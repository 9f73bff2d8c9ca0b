/**
 * The tree traversals of `trees.py` and the adjacency views `traversal.py` builds for them.
 * Both maps are arbitrary: they may dangle, branch twice into a node, or cycle.
 */
module Trees {
  import opened Wrappers

  type ParentMap = map<string, Option<string>>
  type ChildMap = map<string, seq<string>>

  /** `FlockTreeError`, carrying the node at which the repeat was found. */
  datatype TreeError = CycleAt(node: string)

  // ---- walking up ------------------------------------------------------------------

  function ParentOf(node: string, parentOf: ParentMap): Option<string> {
    if node in parentOf then parentOf[node] else None
  }

  /** Every node that is somebody's parent: all that a walk up can meet. */
  function Parents(parentOf: ParentMap): set<string> {
    set n | n in parentOf && parentOf[n].Some? :: parentOf[n].value
  }

  function Walk(current: Option<string>, seen: set<string>, parentOf: ParentMap): Result<seq<string>, TreeError>
    requires current.Some? ==> current.value in Parents(parentOf)
    decreases Parents(parentOf) - seen
  {
    match current
    case None => Success([])
    case Some(n) =>
      if n in seen then Failure(CycleAt(n))
      else
        match Walk(ParentOf(n, parentOf), seen + {n}, parentOf)
        case Success(rest) => Success([n] + rest)
        case Failure(e) => Failure(e)
  }

  function Ancestors(node: string, parentOf: ParentMap): Result<seq<string>, TreeError> {
    Walk(ParentOf(node, parentOf), {node}, parentOf)
  }

  method AncestorsOf(node: string, parentOf: ParentMap) returns (r: Result<seq<string>, TreeError>)
    ensures r == Ancestors(node, parentOf)
  {
    var chain: seq<string> := [];
    var seen := {node};
    var current := ParentOf(node, parentOf);
    assert forall rest: seq<string> :: [] + rest == rest;
    while current.Some?
      invariant current.Some? ==> current.value in Parents(parentOf)
      invariant Ancestors(node, parentOf) ==
                match Walk(current, seen, parentOf)
                case Success(rest) => Success(chain + rest)
                case Failure(e) => Failure(e)
      decreases Parents(parentOf) - seen, current.Some?
    {
      if current.value in seen {
        return Failure(CycleAt(current.value));
      }
      assert forall rest: seq<string> :: (chain + [current.value]) + rest == chain + ([current.value] + rest);
      chain := chain + [current.value];
      seen := seen + {current.value};
      current := ParentOf(current.value, parentOf);
    }
    assert chain + [] == chain;
    return Success(chain);
  }

  /** The `k`-th parent above `node`, if the map goes that far. */
  ghost function Climb(node: string, k: nat, parentOf: ParentMap): Option<string> {
    if k == 0 then Some(node)
    else
      match Climb(node, k - 1, parentOf)
      case None => None
      case Some(m) => ParentOf(m, parentOf)
  }

  ghost predicate ClimbsTo(node: string, i: nat, x: string, parentOf: ParentMap) {
    Climb(node, i, parentOf) == Some(x)
  }

  ghost predicate Revisits(node: string, i: nat, j: nat, parentOf: ParentMap) {
    i < j && Climb(node, i, parentOf).Some? && Climb(node, i, parentOf) == Climb(node, j, parentOf)
  }

  lemma {:induction false} WalkMeaning(node: string, k: nat, seen: set<string>, parentOf: ParentMap)
    requires k > 0
    requires forall i :: 0 <= i < k ==> Climb(node, i, parentOf).Some? && Climb(node, i, parentOf).value in seen
    requires forall x :: x in seen ==> exists i: nat :: i < k && ClimbsTo(node, i, x, parentOf)
    ensures Climb(node, k, parentOf).Some? ==> Climb(node, k, parentOf).value in Parents(parentOf)
    ensures match Walk(Climb(node, k, parentOf), seen, parentOf)
            case Success(rest) =>
              && NoDup(rest) && (forall x :: x in rest ==> x !in seen)
              && (forall i :: 0 <= i < |rest| ==> Climb(node, k + i, parentOf) == Some(rest[i]))
              && Climb(node, k + |rest|, parentOf) == None
            case Failure(e) =>
              exists i, j :: Revisits(node, i, j, parentOf) && Climb(node, i, parentOf) == Some(e.node)
    decreases Parents(parentOf) - seen
  {
    assert Climb(node, k - 1, parentOf).Some?;
    var current := Climb(node, k, parentOf);
    if current.Some? {
      var n := current.value;
      if n in seen {
        var i: nat :| i < k && ClimbsTo(node, i, n, parentOf);
        assert Revisits(node, i, k, parentOf);
      } else {
        assert ClimbsTo(node, k, n, parentOf);
        WalkMeaning(node, k + 1, seen + {n}, parentOf);
        var tail := Walk(Climb(node, k + 1, parentOf), seen + {n}, parentOf);
        if tail.Success? {
          var rest := [n] + tail.value;
          forall i | 0 <= i < |rest| ensures Climb(node, k + i, parentOf) == Some(rest[i]) {
            if i > 0 { assert Climb(node, (k + 1) + (i - 1), parentOf) == Some(tail.value[i - 1]); }
          }
        }
      }
    }
  }

  lemma {:induction false} ClimbStaysNone(node: string, k: nat, j: nat, parentOf: ParentMap)
    requires Climb(node, k, parentOf) == None && k <= j
    ensures Climb(node, j, parentOf) == None
    decreases j
  {
    if k < j { ClimbStaysNone(node, k, j - 1, parentOf); }
  }

  /** A chain is returned exactly when it lists every parent up to a node without one, none twice. */
  lemma {:induction false} AncestorsSucceed(node: string, parentOf: ParentMap)
    requires Ancestors(node, parentOf).Success?
    ensures var path := [node] + Ancestors(node, parentOf).value;
            && NoDup(path)
            && (forall i :: 0 <= i < |path| ==> Climb(node, i, parentOf) == Some(path[i]))
            && (forall i :: i >= |path| ==> Climb(node, i, parentOf) == None)
  {
    assert Climb(node, 0, parentOf) == Some(node);
    assert ClimbsTo(node, 0, node, parentOf);
    WalkMeaning(node, 1, {node}, parentOf);
    assert Climb(node, 1, parentOf) == ParentOf(node, parentOf);
    var rest := Ancestors(node, parentOf).value;
    var path := [node] + rest;
    forall i | 0 <= i < |path| ensures Climb(node, i, parentOf) == Some(path[i]) {
      if i > 0 { assert Climb(node, 1 + (i - 1), parentOf) == Some(rest[i - 1]); }
    }
    forall i: nat | i >= |path| ensures Climb(node, i, parentOf) == None {
      ClimbStaysNone(node, |path|, i, parentOf);
    }
  }

  /** `ancestors_of` raises exactly when the walk up comes back to a node, and names such a node. */
  lemma {:induction false} AncestorsRaiseIffCycle(node: string, parentOf: ParentMap)
    ensures Ancestors(node, parentOf).Failure? <==> exists i, j :: Revisits(node, i, j, parentOf)
    ensures Ancestors(node, parentOf).Failure? ==>
              exists i, j :: Revisits(node, i, j, parentOf)
                          && Climb(node, i, parentOf) == Some(Ancestors(node, parentOf).error.node)
  {
    assert Climb(node, 0, parentOf) == Some(node);
    assert ClimbsTo(node, 0, node, parentOf);
    WalkMeaning(node, 1, {node}, parentOf);
    assert Climb(node, 1, parentOf) == ParentOf(node, parentOf);
    if Ancestors(node, parentOf).Success? {
      AncestorsSucceed(node, parentOf);
      var path := [node] + Ancestors(node, parentOf).value;
      forall i: nat, j: nat ensures !Revisits(node, i, j, parentOf) {
        if i < j < |path| {
          assert path[i] != path[j];
        }
      }
    }
  }

  /** The last node of the walk; `node` itself when it has no parent. */
  function RootOf(node: string, parentOf: ParentMap): Result<string, TreeError> {
    match Ancestors(node, parentOf)
    case Failure(e) => Failure(e)
    case Success(chain) => Success(if chain == [] then node else chain[|chain| - 1])
  }

  /** The root is the one node on the way up that has no parent. */
  lemma RootIsTopmost(node: string, parentOf: ParentMap)
    requires RootOf(node, parentOf).Success?
    ensures var root := RootOf(node, parentOf).value;
            && ParentOf(root, parentOf) == None
            && (exists k: nat :: Climb(node, k, parentOf) == Some(root))
            && (forall k: nat, m :: Climb(node, k, parentOf) == Some(m) && ParentOf(m, parentOf) == None ==> m == root)
  {
    AncestorsSucceed(node, parentOf);
    var path := [node] + Ancestors(node, parentOf).value;
    var top := |path| - 1;
    assert Climb(node, top, parentOf) == Some(path[top]);
    assert Climb(node, top + 1, parentOf) == None;
    forall k: nat, m | Climb(node, k, parentOf) == Some(m) && ParentOf(m, parentOf) == None
      ensures m == path[top]
    {
      assert k < |path|;
      assert Climb(node, k + 1, parentOf) == None;
      assert k + 1 >= |path|;
    }
  }

  // ---- walking down ----------------------------------------------------------------

  function Children(node: string, childrenOf: ChildMap): seq<string> {
    if node in childrenOf then childrenOf[node] else []
  }

  /** Every node that is listed as somebody's child. */
  function Listed(childrenOf: ChildMap): set<string> {
    set k, x | k in childrenOf && x in childrenOf[k] :: x
  }

  function Expand(frontier: seq<string>, childrenOf: ChildMap): (next: seq<string>)
    ensures forall x :: x in next ==> x in Listed(childrenOf)
  {
    if frontier == [] then [] else Children(frontier[0], childrenOf) + Expand(frontier[1..], childrenOf)
  }

  lemma {:induction false} ExpandMembers(frontier: seq<string>, x: string, childrenOf: ChildMap)
    ensures x in Expand(frontier, childrenOf) <==> exists p :: p in frontier && x in Children(p, childrenOf)
  {
    if frontier != [] {
      ExpandMembers(frontier[1..], x, childrenOf);
      assert forall p :: p in frontier <==> p == frontier[0] || p in frontier[1..];
    }
  }

  lemma {:induction false} ExpandConcat(a: seq<string>, b: seq<string>, childrenOf: ChildMap)
    ensures Expand(a + b, childrenOf) == Expand(a, childrenOf) + Expand(b, childrenOf)
  {
    if a == [] {
      assert a + b == b;
    } else {
      assert (a + b)[1..] == a[1..] + b;
      ExpandConcat(a[1..], b, childrenOf);
    }
  }

  /** One pass over a frontier: the enlarged `seen`, or the first child already in it. */
  function Mark(frontier: seq<string>, seen: set<string>): (r: Result<set<string>, TreeError>)
    ensures r.Success? ==> seen <= r.value
    ensures r.Success? && frontier != [] ==> frontier[0] in r.value && frontier[0] !in seen
  {
    if frontier == [] then Success(seen)
    else if frontier[0] in seen then Failure(CycleAt(frontier[0]))
    else Mark(frontier[1..], seen + {frontier[0]})
  }

  lemma {:induction false} MarkMeaning(frontier: seq<string>, seen: set<string>)
    ensures Mark(frontier, seen).Success? <==> NoDup(frontier) && forall x :: x in frontier ==> x !in seen
    ensures Mark(frontier, seen).Success? ==> Mark(frontier, seen).value == seen + Elements(frontier)
  {
    if frontier != [] {
      assert frontier == [frontier[0]] + frontier[1..];
      NoDupConcat([frontier[0]], frontier[1..]);
      if frontier[0] !in seen { MarkMeaning(frontier[1..], seen + {frontier[0]}); }
    }
  }

  lemma {:induction false} MarkConcat(a: seq<string>, b: seq<string>, seen: set<string>)
    ensures Mark(a + b, seen) == match Mark(a, seen) case Success(s) => Mark(b, s) case Failure(e) => Failure(e)
  {
    if a == [] {
      assert a + b == b;
    } else {
      assert (a + b)[1..] == a[1..] + b;
      if a[0] !in seen { MarkConcat(a[1..], b, seen + {a[0]}); }
    }
  }

  function Prepend(frontier: seq<string>, r: Result<seq<string>, TreeError>): Result<seq<string>, TreeError> {
    match r
    case Failure(e) => Failure(e)
    case Success(rest) => Success(frontier + rest)
  }

  function Bfs(frontier: seq<string>, seen: set<string>, childrenOf: ChildMap): Result<seq<string>, TreeError>
    requires forall x :: x in frontier ==> x in Listed(childrenOf)
    decreases Listed(childrenOf) - seen, |frontier|
  {
    if frontier == [] then Success([])
    else
      match Mark(frontier, seen)
      case Failure(e) => Failure(e)
      case Success(seen') =>
        Prepend(frontier, Bfs(Expand(frontier, childrenOf), seen', childrenOf))
  }

  function Descendants(node: string, childrenOf: ChildMap): Result<seq<string>, TreeError> {
    Bfs(Children(node, childrenOf), {node}, childrenOf)
  }

  /** One level: mark its nodes as seen and collect their children, or fail at one already seen. */
  method VisitLevel(frontier: seq<string>, before: set<string>, childrenOf: ChildMap)
    returns (seen: Result<set<string>, TreeError>, next: seq<string>)
    ensures seen == Mark(frontier, before)
    ensures seen.Success? ==> next == Expand(frontier, childrenOf)
  {
    var marked := before;
    next := [];
    for i := 0 to |frontier|
      invariant next == Expand(frontier[..i], childrenOf)
      invariant Mark(frontier[..i], before) == Success(marked)
    {
      var child := frontier[i];
      assert frontier[..i] + frontier[i..] == frontier && frontier[..i] + [child] == frontier[..i + 1];
      MarkConcat(frontier[..i], frontier[i..], before);
      if child in marked { return Failure(CycleAt(child)), next; }
      MarkConcat(frontier[..i], [child], before);
      ExpandConcat(frontier[..i], [child], childrenOf);
      marked := marked + {child};
      next := next + Children(child, childrenOf);
    }
    assert frontier[..|frontier|] == frontier;
    return Success(marked), next;
  }

  method DescendantsOf(node: string, childrenOf: ChildMap) returns (r: Result<seq<string>, TreeError>)
    ensures r == Descendants(node, childrenOf)
  {
    var out: seq<string> := [];
    var seen := {node};
    var frontier := Children(node, childrenOf);
    PrependNothing(Bfs(frontier, seen, childrenOf));
    while frontier != []
      invariant forall x :: x in frontier ==> x in Listed(childrenOf)
      invariant Descendants(node, childrenOf) == Prepend(out, Bfs(frontier, seen, childrenOf))
      decreases Listed(childrenOf) - seen, |frontier|
    {
      var marked, next := VisitLevel(frontier, seen, childrenOf);
      if marked.Failure? { return Failure(marked.error); }
      assert frontier[0] in marked.value && frontier[0] !in seen;
      PrependTwice(out, frontier, Bfs(next, marked.value, childrenOf));
      out, seen, frontier := out + frontier, marked.value, next;
    }
    assert out + [] == out;
    return Success(out);
  }

  lemma PrependNothing(r: Result<seq<string>, TreeError>)
    ensures Prepend([], r) == r
  {
    if r.Success? { assert [] + r.value == r.value; }
  }

  lemma PrependTwice(a: seq<string>, b: seq<string>, r: Result<seq<string>, TreeError>)
    ensures Prepend(a, Prepend(b, r)) == Prepend(a + b, r)
  {
    if r.Success? { assert a + (b + r.value) == (a + b) + r.value; }
  }

  /** The nodes `k` child steps below `node`, once per way of getting there. */
  ghost function Level(node: string, k: nat, childrenOf: ChildMap): seq<string> {
    if k == 0 then [node] else Expand(Level(node, k - 1, childrenOf), childrenOf)
  }

  /** Levels 0 to `k`, one after another: depth never decreases along it. */
  ghost function Levels(node: string, k: nat, childrenOf: ChildMap): seq<string> {
    if k == 0 then Level(node, 0, childrenOf)
    else Levels(node, k - 1, childrenOf) + Level(node, k, childrenOf)
  }

  lemma {:induction false} LevelsContain(node: string, i: nat, k: nat, childrenOf: ChildMap)
    requires i <= k
    ensures forall x :: x in Level(node, i, childrenOf) ==> x in Levels(node, k, childrenOf)
    decreases k
  {
    if i < k { LevelsContain(node, i, k - 1, childrenOf); }
  }

  lemma {:induction false} LevelsAreLevels(node: string, x: string, k: nat, childrenOf: ChildMap)
    requires x in Levels(node, k, childrenOf)
    ensures exists i: nat :: i <= k && x in Level(node, i, childrenOf)
  {
    if k > 0 && x !in Level(node, k, childrenOf) {
      LevelsAreLevels(node, x, k - 1, childrenOf);
    }
  }

  /** `all` is levels 0 to `h`, and level `h + 1` is empty. */
  ghost predicate Exhausts(node: string, all: seq<string>, h: nat, childrenOf: ChildMap) {
    NoDup(all) && all == Levels(node, h, childrenOf) && Level(node, h + 1, childrenOf) == []
  }

  ghost predicate RepeatsBy(node: string, h: nat, childrenOf: ChildMap) {
    !NoDup(Levels(node, h, childrenOf))
  }

  ghost predicate BfsOutcome(node: string, before: seq<string>, r: Result<seq<string>, TreeError>, childrenOf: ChildMap)
  {
    match r
    case Success(rest) => exists h :: Exhausts(node, before + rest, h, childrenOf)
    case Failure(e) => exists h :: RepeatsBy(node, h, childrenOf)
  }

  lemma PrependOutcome(node: string, before: seq<string>, frontier: seq<string>, r: Result<seq<string>, TreeError>,
                       childrenOf: ChildMap)
    requires BfsOutcome(node, before + frontier, r, childrenOf)
    ensures BfsOutcome(node, before, Prepend(frontier, r), childrenOf)
  {
    if r.Success? {
      assert before + (frontier + r.value) == (before + frontier) + r.value;
    }
  }

  lemma {:induction false} BfsMeaning(node: string, k: nat, before: seq<string>, childrenOf: ChildMap)
    requires k > 0
    requires before == Levels(node, k - 1, childrenOf) && NoDup(before)
    ensures BfsOutcome(node, before, Bfs(Level(node, k, childrenOf), Elements(before), childrenOf), childrenOf)
    decreases Listed(childrenOf) - Elements(before)
  {
    var seen, frontier := Elements(before), Level(node, k, childrenOf);
    if frontier == [] {
      assert before + [] == before;
      assert Exhausts(node, before, k - 1, childrenOf);
    } else {
      NoDupConcat(before, frontier);
      MarkMeaning(frontier, seen);
      if Mark(frontier, seen).Success? {
        ElementsConcat(before, frontier);
        assert frontier[0] in Listed(childrenOf) && frontier[0] in Elements(before + frontier) && frontier[0] !in seen;
        BfsMeaning(node, k + 1, before + frontier, childrenOf);
        PrependOutcome(node, before, frontier,
                       Bfs(Expand(frontier, childrenOf), Elements(before + frontier), childrenOf),
                       childrenOf);
      } else {
        assert RepeatsBy(node, k, childrenOf);
      }
    }
  }

  /**
   * `descendants_of` succeeds with levels 1, 2, ... in order, down to the first empty level and
   * without a repeat, or raises because some node can be reached in two ways.
   */
  lemma {:induction false} DescendantsAreLevels(node: string, childrenOf: ChildMap)
    ensures match Descendants(node, childrenOf)
            case Success(out) => exists h :: Exhausts(node, [node] + out, h, childrenOf)
            case Failure(e) => exists h :: RepeatsBy(node, h, childrenOf)
  {
    assert Levels(node, 0, childrenOf) == [node];
    assert Expand([node], childrenOf) == Children(node, childrenOf) + Expand([], childrenOf);
    assert Level(node, 1, childrenOf) == Expand(Level(node, 0, childrenOf), childrenOf);
    assert Level(node, 1, childrenOf) == Children(node, childrenOf);
    assert Elements([node]) == {node};
    BfsMeaning(node, 1, [node], childrenOf);
  }

  lemma {:induction false} EmptyLevelsStayEmpty(node: string, h: nat, k: nat, childrenOf: ChildMap)
    requires Level(node, h, childrenOf) == [] && h <= k
    ensures Level(node, k, childrenOf) == []
    decreases k
  {
    if h < k { EmptyLevelsStayEmpty(node, h, k - 1, childrenOf); }
  }

  lemma {:induction false} LevelsSettle(node: string, h: nat, k: nat, childrenOf: ChildMap)
    requires Level(node, h + 1, childrenOf) == [] && h <= k
    ensures Levels(node, k, childrenOf) == Levels(node, h, childrenOf)
    decreases k
  {
    if h < k {
      LevelsSettle(node, h, k - 1, childrenOf);
      EmptyLevelsStayEmpty(node, h + 1, k, childrenOf);
    }
  }

  lemma {:induction false} RepeatsPersist(node: string, k: nat, h: nat, childrenOf: ChildMap)
    requires !NoDup(Levels(node, k, childrenOf)) && k <= h
    ensures !NoDup(Levels(node, h, childrenOf))
    decreases h
  {
    if k < h {
      RepeatsPersist(node, k, h - 1, childrenOf);
      NoDupConcat(Levels(node, h - 1, childrenOf), Level(node, h, childrenOf));
    }
  }

  /** `descendants_of` raises exactly when some level prefix lists a node twice. */
  lemma {:induction false} DescendantsRaiseIffRepeat(node: string, childrenOf: ChildMap)
    ensures Descendants(node, childrenOf).Failure? <==> exists h :: RepeatsBy(node, h, childrenOf)
  {
    DescendantsAreLevels(node, childrenOf);
    if Descendants(node, childrenOf).Success? {
      var h :| Exhausts(node, [node] + Descendants(node, childrenOf).value, h, childrenOf);
      forall k: nat ensures !RepeatsBy(node, k, childrenOf) {
        if k <= h {
          if RepeatsBy(node, k, childrenOf) { RepeatsPersist(node, k, h, childrenOf); }
        } else {
          LevelsSettle(node, h, k, childrenOf);
        }
      }
    }
  }

  /** What `descendants_of` returns is exactly what lies one or more child steps below. */
  lemma DescendantsAreReachable(node: string, x: string, childrenOf: ChildMap)
    requires Descendants(node, childrenOf).Success?
    ensures x in Descendants(node, childrenOf).value <==> exists k: nat :: k > 0 && x in Level(node, k, childrenOf)
  {
    DescendantsAreLevels(node, childrenOf);
    var out := Descendants(node, childrenOf).value;
    var h :| Exhausts(node, [node] + out, h, childrenOf);
    NoDupConcat([node], out);
    if x in out {
      LevelsAreLevels(node, x, h, childrenOf);
    }
    if k: nat :| k > 0 && x in Level(node, k, childrenOf) {
      ReachableIsReturned(node, x, k, h, childrenOf);
    }
  }

  /** Where no node is listed twice, the start is not found again below itself. */
  lemma NotBelowItself(node: string, k: nat, h: nat, childrenOf: ChildMap)
    requires 0 < k <= h && NoDup(Levels(node, h, childrenOf))
    ensures node !in Level(node, k, childrenOf)
  {
    if node in Level(node, k, childrenOf) {
      LevelsContain(node, 0, k - 1, childrenOf);
      NoDupConcat(Levels(node, k - 1, childrenOf), Level(node, k, childrenOf));
      RepeatsPersist(node, k, h, childrenOf);
    }
  }

  lemma ReachableIsReturned(node: string, x: string, k: nat, h: nat, childrenOf: ChildMap)
    requires k > 0 && x in Level(node, k, childrenOf)
    requires NoDup(Levels(node, h, childrenOf)) && Level(node, h + 1, childrenOf) == []
    ensures x in Levels(node, h, childrenOf) && x != node
  {
    if k > h { EmptyLevelsStayEmpty(node, h + 1, k, childrenOf); }
    LevelsContain(node, k, h, childrenOf);
    NotBelowItself(node, k, h, childrenOf);
  }

  /** `leaves_under`: the nodes of the subtree that list no child. */
  function LeavesIn(subtree: seq<string>, childrenOf: ChildMap): (leaves: seq<string>)
    ensures forall x :: x in leaves <==> x in subtree && Children(x, childrenOf) == []
  {
    if subtree == [] then []
    else
      var rest := LeavesIn(subtree[1..], childrenOf);
      assert subtree == [subtree[0]] + subtree[1..];
      if Children(subtree[0], childrenOf) == [] then [subtree[0]] + rest else rest
  }

  lemma ChildIsDeeper(node: string, x: string, c: string, j: nat, childrenOf: ChildMap)
    requires x in Level(node, j, childrenOf) && c in Children(x, childrenOf)
    ensures c in Level(node, j + 1, childrenOf)
  {
    ExpandMembers(Level(node, j, childrenOf), c, childrenOf);
  }

  lemma ParentIsAbove(node: string, y: string, k: nat, childrenOf: ChildMap) returns (p: string)
    requires k > 0 && y in Level(node, k, childrenOf)
    ensures p in Level(node, k - 1, childrenOf) && y in Children(p, childrenOf)
  {
    ExpandMembers(Level(node, k - 1, childrenOf), y, childrenOf);
    p :| p in Level(node, k - 1, childrenOf) && y in Children(p, childrenOf);
  }

  /** A level below a child is a level, one deeper, below its parent. */
  lemma {:induction false} LevelBelowChild(x: string, c: string, y: string, k: nat, childrenOf: ChildMap)
    requires c in Children(x, childrenOf) && y in Level(c, k, childrenOf)
    ensures y in Level(x, k + 1, childrenOf)
    decreases k
  {
    if k == 0 {
      ChildIsDeeper(x, x, c, 0, childrenOf);
    } else {
      var p := ParentIsAbove(c, y, k, childrenOf);
      LevelBelowChild(x, c, p, k - 1, childrenOf);
      ChildIsDeeper(x, p, y, k, childrenOf);
    }
  }

  lemma NothingBelowEmpty(node: string, x: string, j: nat, h: nat, childrenOf: ChildMap)
    requires x in Level(node, j, childrenOf) && Level(node, h + 1, childrenOf) == []
    ensures j <= h
  {
    if j > h { EmptyLevelsStayEmpty(node, h + 1, j, childrenOf); }
  }

  /** `leaf` lists no child and stands `k` child steps below `x`, in the subtree of `node`. */
  ghost predicate IsLeafBelow(node: string, x: string, leaf: string, k: nat, m: nat, childrenOf: ChildMap) {
    leaf in Level(x, k, childrenOf) && leaf in Level(node, m, childrenOf) && Children(leaf, childrenOf) == []
  }

  lemma LeafBelowChild(node: string, x: string, c: string, leaf: string, k: nat, m: nat, childrenOf: ChildMap)
    requires c in Children(x, childrenOf) && IsLeafBelow(node, c, leaf, k, m, childrenOf)
    ensures IsLeafBelow(node, x, leaf, k + 1, m, childrenOf)
  {
    LevelBelowChild(x, c, leaf, k, childrenOf);
  }

  /** Below a node of a level, while deeper levels run out, some node lists no child. */
  lemma {:induction false} LeafBelow(node: string, x: string, j: nat, h: nat, childrenOf: ChildMap)
    returns (leaf: string, k: nat, m: nat)
    requires x in Level(node, j, childrenOf) && j <= h && Level(node, h + 1, childrenOf) == []
    ensures IsLeafBelow(node, x, leaf, k, m, childrenOf)
    decreases h - j
  {
    if Children(x, childrenOf) == [] {
      leaf, k, m := x, 0, j;
    } else {
      var c := Children(x, childrenOf)[0];
      ChildIsDeeper(node, x, c, j, childrenOf);
      NothingBelowEmpty(node, c, j + 1, h, childrenOf);
      leaf, k, m := LeafBelow(node, c, j + 1, h, childrenOf);
      LeafBelowChild(node, x, c, leaf, k, m, childrenOf);
      k := k + 1;
    }
  }

  lemma LevelIsInSubtree(node: string, x: string, k: nat, childrenOf: ChildMap)
    requires Descendants(node, childrenOf).Success? && x in Level(node, k, childrenOf)
    ensures x in [node] + Descendants(node, childrenOf).value
  {
    if k > 0 { DescendantsAreReachable(node, x, childrenOf); }
  }

  lemma SubtreeIsLevels(node: string, x: string, childrenOf: ChildMap) returns (j: nat, h: nat)
    requires Descendants(node, childrenOf).Success? && x in [node] + Descendants(node, childrenOf).value
    ensures x in Level(node, j, childrenOf) && j <= h && Level(node, h + 1, childrenOf) == []
  {
    DescendantsAreLevels(node, childrenOf);
    h :| Exhausts(node, [node] + Descendants(node, childrenOf).value, h, childrenOf);
    LevelsAreLevels(node, x, h, childrenOf);
    j :| j <= h && x in Level(node, j, childrenOf);
  }

  /** Every node of a subtree stands at or above one of the subtree's leaves, so no subtree is without leaves. */
  lemma LeavesCoverSubtree(node: string, x: string, childrenOf: ChildMap) returns (leaf: string, k: nat)
    requires Descendants(node, childrenOf).Success? && x in [node] + Descendants(node, childrenOf).value
    ensures leaf in LeavesIn([node] + Descendants(node, childrenOf).value, childrenOf)
    ensures leaf in Level(x, k, childrenOf)
  {
    var j, h := SubtreeIsLevels(node, x, childrenOf);
    var m: nat;
    leaf, k, m := LeafBelow(node, x, j, h, childrenOf);
    LevelIsInSubtree(node, leaf, m, childrenOf);
  }
}
