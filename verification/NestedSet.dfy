/**
 * The nested-set numbering (`lft`/`rgt`) of a group tree, and its agreement with parent links:
 * what `permissions.py` and the range fetch of `traversal.py` both rely on.
 */
module NestedSet {
  import opened Wrappers
  import opened Trees
  import opened Adjacency

  predicate Contains(outer: TreeRow, inner: TreeRow) {
    outer.lft <= inner.lft && inner.rgt <= outer.rgt
  }

  predicate StrictlyContains(outer: TreeRow, inner: TreeRow) {
    outer.lft < inner.lft && inner.rgt < outer.rgt
  }

  predicate Disjoint(a: TreeRow, b: TreeRow) {
    a.rgt < b.lft || b.rgt < a.lft
  }

  /** Node `n` has a proper interval, lying strictly inside its parent's if it has one. */
  ghost predicate Placed(rows: seq<TreeRow>, n: string) {
    var m, P := RowMapOf(rows), ParentMapOf(rows);
    && n in m && m[n].lft < m[n].rgt
    && match ParentOf(n, P)
       case None => true
       case Some(p) => p in m && StrictlyContains(m[p], m[n])
  }

  /** Two children of one parent, or two roots, are disjoint. */
  ghost predicate Apart(rows: seq<TreeRow>, n: string, q: string) {
    var m, P := RowMapOf(rows), ParentMapOf(rows);
    n in m && q in m && n != q && ParentOf(n, P) == ParentOf(q, P) ==> Disjoint(m[n], m[q])
  }

  ghost predicate ValidNestedSet(rows: seq<TreeRow>) {
    && UniqueNames(rows)
    && (forall n {:trigger Placed(rows, n)} :: n in RowMapOf(rows) ==> Placed(rows, n))
    && (forall n, q {:trigger Apart(rows, n, q)} :: Apart(rows, n, q))
  }

  lemma {:induction false} AboveContains(rows: seq<TreeRow>, d: string, k: nat)
    requires ValidNestedSet(rows) && d in RowMapOf(rows) && Climb(d, k, ParentMapOf(rows)).Some?
    ensures var a := Climb(d, k, ParentMapOf(rows)).value;
            && a in RowMapOf(rows)
            && Contains(RowMapOf(rows)[a], RowMapOf(rows)[d])
            && (k > 0 ==> StrictlyContains(RowMapOf(rows)[a], RowMapOf(rows)[d]))
  {
    assert Placed(rows, d);
    if k > 0 {
      AboveContains(rows, d, k - 1);
      assert Placed(rows, Climb(d, k - 1, ParentMapOf(rows)).value);
    }
  }

  lemma NoReturn(rows: seq<TreeRow>, d: string, k: nat)
    requires ValidNestedSet(rows) && d in RowMapOf(rows) && k > 0
    ensures Climb(d, k, ParentMapOf(rows)) != Some(d)
  {
    if Climb(d, k, ParentMapOf(rows)).Some? { AboveContains(rows, d, k); }
  }

  lemma NoRevisit(rows: seq<TreeRow>, d: string, i: nat, j: nat)
    requires ValidNestedSet(rows) && d in RowMapOf(rows)
    ensures !Revisits(d, i, j, ParentMapOf(rows))
  {
    var P := ParentMapOf(rows);
    if i < j && Climb(d, i, P).Some? {
      AboveContains(rows, d, i);
      ClimbAdd(d, i, j - i, P);
      NoReturn(rows, Climb(d, i, P).value, j - i);
    }
  }

  /** A validly numbered tree has no cycle, so no walk up in it raises. */
  lemma WalksEnd(rows: seq<TreeRow>, d: string)
    requires ValidNestedSet(rows) && d in RowMapOf(rows)
    ensures Ancestors(d, ParentMapOf(rows)).Success?
  {
    AncestorsRaiseIffCycle(d, ParentMapOf(rows));
    forall i: nat, j: nat ensures !Revisits(d, i, j, ParentMapOf(rows)) { NoRevisit(rows, d, i, j); }
  }

  ghost function Depth(rows: seq<TreeRow>, d: string): nat
    requires ValidNestedSet(rows) && d in RowMapOf(rows)
  {
    WalksEnd(rows, d);
    |Ancestors(d, ParentMapOf(rows)).value|
  }

  lemma ParentIsShallower(rows: seq<TreeRow>, d: string, p: string)
    requires ValidNestedSet(rows) && d in RowMapOf(rows) && ParentOf(d, ParentMapOf(rows)) == Some(p)
    ensures p in RowMapOf(rows) && Depth(rows, p) < Depth(rows, d)
  {
    var P := ParentMapOf(rows);
    assert Placed(rows, d);
    WalksEnd(rows, d);
    WalksEnd(rows, p);
    AncestorsSucceed(d, P);
    AncestorsSucceed(p, P);
    var up := [p] + Ancestors(p, P).value;
    assert Climb(p, |up| - 1, P) == Some(up[|up| - 1]);
    ClimbFromParent(d, |up| - 1, P);
  }

  /** `a` is `d` or stands above it. */
  ghost predicate AtOrAbove(a: string, d: string, parentOf: ParentMap) {
    exists k: nat :: ClimbsTo(d, k, a, parentOf)
  }

  lemma AtOrAboveParent(a: string, d: string, p: string, parentOf: ParentMap)
    requires ParentOf(d, parentOf) == Some(p)
    ensures AtOrAbove(a, d, parentOf) <==> a == d || AtOrAbove(a, p, parentOf)
  {
    assert ClimbsTo(d, 0, d, parentOf);
    if k: nat :| ClimbsTo(d, k, a, parentOf) {
      if k > 0 {
        ClimbFromParent(d, k - 1, parentOf);
        assert ClimbsTo(p, k - 1, a, parentOf);
      }
    }
    if k: nat :| ClimbsTo(p, k, a, parentOf) {
      ClimbFromParent(d, k, parentOf);
      assert ClimbsTo(d, k + 1, a, parentOf);
    }
  }

  lemma AtOrAboveRoot(a: string, d: string, parentOf: ParentMap)
    requires ParentOf(d, parentOf) == None
    ensures AtOrAbove(a, d, parentOf) <==> a == d
  {
    assert ClimbsTo(d, 0, d, parentOf);
    if k: nat :| ClimbsTo(d, k, a, parentOf) {
      assert Climb(d, 0, parentOf) == Some(d);
      if k > 0 { ClimbFromParent(d, k - 1, parentOf); }
    }
  }

  lemma AtOrAboveContains(rows: seq<TreeRow>, a: string, d: string)
    requires ValidNestedSet(rows) && d in RowMapOf(rows) && AtOrAbove(a, d, ParentMapOf(rows))
    ensures a in RowMapOf(rows) && Contains(RowMapOf(rows)[a], RowMapOf(rows)[d])
    ensures a != d ==> StrictlyContains(RowMapOf(rows)[a], RowMapOf(rows)[d])
  {
    var k: nat :| ClimbsTo(d, k, a, ParentMapOf(rows));
    AboveContains(rows, d, k);
  }

  /** Any two intervals are nested along the tree, or disjoint. */
  lemma {:induction false} NestedOrDisjoint(rows: seq<TreeRow>, a: string, d: string)
    requires ValidNestedSet(rows) && a in RowMapOf(rows) && d in RowMapOf(rows)
    ensures var P := ParentMapOf(rows);
            AtOrAbove(a, d, P) || AtOrAbove(d, a, P) || Disjoint(RowMapOf(rows)[a], RowMapOf(rows)[d])
    decreases Depth(rows, a) + Depth(rows, d)
  {
    var P := ParentMapOf(rows);
    assert Placed(rows, a) && Placed(rows, d) && Apart(rows, a, d);
    match (ParentOf(a, P), ParentOf(d, P)) {
      case (Some(p), _) =>
        ParentIsShallower(rows, a, p);
        AtOrAboveParent(d, a, p, P);
        NestedOrDisjoint(rows, p, d);
        if AtOrAbove(p, d, P) && p != d { BelowTheParent(rows, a, p, d); }
      case (None, Some(q)) =>
        ParentIsShallower(rows, d, q);
        AtOrAboveParent(a, d, q, P);
        AtOrAboveRoot(q, a, P);
        NestedOrDisjoint(rows, a, q);
      case (None, None) =>
        AtOrAboveRoot(a, d, P);
    }
  }

  /** The inductive case in which `a`'s parent `p` stands strictly above `d`. */
  lemma {:induction false} BelowTheParent(rows: seq<TreeRow>, a: string, p: string, d: string)
    requires ValidNestedSet(rows) && a in RowMapOf(rows) && d in RowMapOf(rows)
    requires ParentOf(a, ParentMapOf(rows)) == Some(p) && AtOrAbove(p, d, ParentMapOf(rows)) && p != d
    ensures var P := ParentMapOf(rows);
            AtOrAbove(a, d, P) || AtOrAbove(d, a, P) || Disjoint(RowMapOf(rows)[a], RowMapOf(rows)[d])
    decreases Depth(rows, a) + Depth(rows, d), 0
  {
    var P := ParentMapOf(rows);
    assert Placed(rows, a) && Placed(rows, d) && Apart(rows, a, d);
    if ParentOf(d, P) == None {
      AtOrAboveRoot(p, d, P);
    } else {
      var q := ParentOf(d, P).value;
      ParentIsShallower(rows, d, q);
      AtOrAboveParent(p, d, q, P);
      AtOrAboveParent(a, d, q, P);
      NestedOrDisjoint(rows, a, q);
      if AtOrAbove(q, a, P) && q != a {
        AtOrAboveParent(q, a, p, P);
        AtOrAboveContains(rows, q, p);
        AtOrAboveContains(rows, p, q);
        assert p == q;
        AtOrAboveParent(a, d, q, P);
      }
    }
  }

  lemma AtOrAboveIsAncestor(a: string, d: string, parentOf: ParentMap)
    requires Ancestors(d, parentOf).Success?
    ensures AtOrAbove(a, d, parentOf) <==> a == d || a in Ancestors(d, parentOf).value
  {
    AncestorsSucceed(d, parentOf);
    var chain := Ancestors(d, parentOf).value;
    var path := [d] + chain;
    assert ClimbsTo(d, 0, d, parentOf);
    if k: nat :| ClimbsTo(d, k, a, parentOf) {
      assert k < |path| && path[k] == a;
    }
    if a in chain {
      var i :| 0 <= i < |chain| && chain[i] == a;
      assert path[i + 1] == a;
      assert ClimbsTo(d, i + 1, a, parentOf);
    }
  }

  /**
   * On every validly numbered tree, interval containment is ancestry: the query predicate and the
   * parent walk select the same nodes.
   */
  lemma ContainsIffAncestor(rows: seq<TreeRow>, a: string, d: string)
    requires ValidNestedSet(rows) && a in RowMapOf(rows) && d in RowMapOf(rows)
    ensures Ancestors(d, ParentMapOf(rows)).Success?
    ensures Contains(RowMapOf(rows)[a], RowMapOf(rows)[d]) <==> a == d || a in Ancestors(d, ParentMapOf(rows)).value
  {
    var P := ParentMapOf(rows);
    WalksEnd(rows, d);
    AtOrAboveIsAncestor(a, d, P);
    assert Placed(rows, d);
    if AtOrAbove(a, d, P) { AtOrAboveContains(rows, a, d); }
    if Contains(RowMapOf(rows)[a], RowMapOf(rows)[d]) {
      NestedOrDisjoint(rows, a, d);
      if AtOrAbove(d, a, P) { AtOrAboveContains(rows, d, a); }
    }
  }

  // ---- the range fetch -------------------------------------------------------------

  function Within(rows: seq<TreeRow>, outer: TreeRow): (fetched: seq<TreeRow>)
    ensures forall r :: r in fetched <==> r in rows && Contains(outer, r)
  {
    if rows == [] then []
    else
      assert rows == [rows[0]] + rows[1..];
      (if Contains(outer, rows[0]) then [rows[0]] else []) + Within(rows[1..], outer)
  }

  /** `fetch_group_subtree_rows`: the rows whose interval lies in `root`'s, none for an unknown root. */
  function RangeFetch(rows: seq<TreeRow>, root: string): seq<TreeRow> {
    if root in RowMapOf(rows) then Within(rows, RowMapOf(rows)[root]) else []
  }

  lemma {:induction false} WithinKeepsNamesUnique(rows: seq<TreeRow>, outer: TreeRow)
    requires UniqueNames(rows)
    ensures UniqueNames(Within(rows, outer))
  {
    if rows != [] {
      var tail := Within(rows[1..], outer);
      WithinKeepsNamesUnique(rows[1..], outer);
      forall j | 0 <= j < |tail| ensures tail[j].name != rows[0].name {
        assert tail[j] in rows[1..];
        var k :| 0 <= k < |rows[1..]| && rows[1..][k] == tail[j];
        assert rows[k + 1] == tail[j];
      }
    }
  }

  lemma RowsInMap(rows: seq<TreeRow>, r: TreeRow)
    requires UniqueNames(rows) && r in rows
    ensures r.name in RowMapOf(rows) && RowMapOf(rows)[r.name] == r
    ensures r.name in ParentMapOf(rows) && ParentMapOf(rows)[r.name] == Normal(r.parent)
  {
    var i :| 0 <= i < |rows| && rows[i] == r;
    RowsByName(rows, i);
    KeysAreNames(rows);
  }

  lemma NamedRow(rows: seq<TreeRow>, n: string)
    requires UniqueNames(rows) && n in RowMapOf(rows)
    ensures RowMapOf(rows)[n] in rows && RowMapOf(rows)[n].name == n
  {
    KeysAreNames(rows);
    var i :| 0 <= i < |rows| && rows[i].name == n;
    RowsByName(rows, i);
  }

  /** Climbing in the fetched rows is climbing in the whole tree, until the fetched rows end. */
  lemma {:induction false} ClimbInPart(part: ParentMap, whole: ParentMap, d: string, k: nat)
    requires forall n :: n in part ==> n in whole && part[n] == whole[n]
    ensures Climb(d, k, part).Some? ==> Climb(d, k, part) == Climb(d, k, whole)
  {
    if k > 0 { ClimbInPart(part, whole, d, k - 1); }
  }

  /** The view of the fetched rows gives each fetched row the parent it has in the whole tree. */
  ghost predicate FetchAgrees(rows: seq<TreeRow>, root: string) {
    var fetched := RangeFetch(rows, root);
    && (forall n :: n in ParentMapOf(fetched) <==> n in RowMapOf(rows) && RowMapOf(rows)[n] in fetched)
    && (forall n :: n in ParentMapOf(fetched) ==>
        n in ParentMapOf(rows) && ParentMapOf(fetched)[n] == ParentMapOf(rows)[n])
  }

  lemma FetchedRowsAgree(rows: seq<TreeRow>, root: string)
    requires ValidNestedSet(rows) && root in RowMapOf(rows)
    ensures UniqueNames(RangeFetch(rows, root)) && FetchAgrees(rows, root)
  {
    var fetched := RangeFetch(rows, root);
    WithinKeepsNamesUnique(rows, RowMapOf(rows)[root]);
    KeysAreNames(fetched);
    forall n | n in ParentMapOf(fetched)
      ensures n in RowMapOf(rows) && RowMapOf(rows)[n] in fetched
      ensures n in ParentMapOf(rows) && ParentMapOf(fetched)[n] == ParentMapOf(rows)[n]
    {
      var i :| 0 <= i < |fetched| && fetched[i].name == n;
      RowsInMap(fetched, fetched[i]);
      RowsInMap(rows, fetched[i]);
    }
    forall n | n in RowMapOf(rows) && RowMapOf(rows)[n] in fetched ensures n in ParentMapOf(fetched) {
      NamedRow(rows, n);
      RowsInMap(fetched, RowMapOf(rows)[n]);
    }
  }

  lemma InsideKeepsParent(rows: seq<TreeRow>, root: string, d: string)
    requires UniqueNames(rows) && root in RowMapOf(rows) && d in RowMapOf(rows) && FetchAgrees(rows, root)
    requires Contains(RowMapOf(rows)[root], RowMapOf(rows)[d])
    ensures ParentOf(d, ParentMapOf(RangeFetch(rows, root))) == ParentOf(d, ParentMapOf(rows))
  {
    NamedRow(rows, d);
    assert d in ParentMapOf(RangeFetch(rows, root));
  }

  ghost predicate SameParentAt(d: string, i: nat, F: ParentMap, P: ParentMap) {
    Climb(d, i, P).Some? ==> ParentOf(Climb(d, i, P).value, F) == ParentOf(Climb(d, i, P).value, P)
  }

  lemma {:induction false} ClimbInBoth(d: string, k: nat, F: ParentMap, P: ParentMap)
    requires forall i: nat :: i < k ==> SameParentAt(d, i, F, P)
    ensures Climb(d, k, F) == Climb(d, k, P)
  {
    if k > 0 {
      ClimbInBoth(d, k - 1, F, P);
      assert SameParentAt(d, k - 1, F, P);
    }
  }

  lemma SameParentInside(rows: seq<TreeRow>, root: string, d: string, k: nat, i: nat)
    requires ValidNestedSet(rows) && root in RowMapOf(rows) && d in RowMapOf(rows) && FetchAgrees(rows, root)
    requires i <= k && Climb(d, k, ParentMapOf(rows)) == Some(root)
    ensures SameParentAt(d, i, ParentMapOf(RangeFetch(rows, root)), ParentMapOf(rows))
  {
    var P := ParentMapOf(rows);
    if Climb(d, i, P).Some? {
      AboveContains(rows, d, i);
      ClimbAdd(d, i, k - i, P);
      AboveContains(rows, Climb(d, i, P).value, k - i);
      InsideKeepsParent(rows, root, Climb(d, i, P).value);
    }
  }

  lemma ClimbStaysInside(rows: seq<TreeRow>, root: string, d: string, k: nat, F: ParentMap)
    requires ValidNestedSet(rows) && root in RowMapOf(rows) && d in RowMapOf(rows) && FetchAgrees(rows, root)
    requires Climb(d, k, ParentMapOf(rows)) == Some(root) && F == ParentMapOf(RangeFetch(rows, root))
    ensures Climb(d, k, F) == Some(root)
  {
    var P := ParentMapOf(rows);
    forall i: nat | i < k ensures SameParentAt(d, i, F, P) { SameParentInside(rows, root, d, k, i); }
    ClimbInBoth(d, k, F, P);
  }

  lemma FetchedViewNeverRaises(rows: seq<TreeRow>, root: string)
    requires ValidNestedSet(rows) && root in RowMapOf(rows)
    ensures Consistent(ParentMapOf(RangeFetch(rows, root)), ChildMapOf(RangeFetch(rows, root)))
    ensures Descendants(root, ChildMapOf(RangeFetch(rows, root))).Success?
  {
    var F := ParentMapOf(RangeFetch(rows, root));
    FetchedRowsAgree(rows, root);
    AdjacencyIsConsistent(RangeFetch(rows, root));
    DescendantsRaiseIffOnCycle(root, F, ChildMapOf(RangeFetch(rows, root)));
    forall k: nat ensures !OnCycle(root, k, F) {
      ClimbInPart(F, ParentMapOf(rows), root, k);
      if k > 0 { NoReturn(rows, root, k); }
    }
  }

  lemma FetchedIffBelow(rows: seq<TreeRow>, root: string, d: string)
    requires ValidNestedSet(rows) && root in RowMapOf(rows)
    ensures Descendants(root, ChildMapOf(RangeFetch(rows, root))).Success?
    ensures d in [root] + Descendants(root, ChildMapOf(RangeFetch(rows, root))).value <==>
            d in ParentMapOf(RangeFetch(rows, root))
  {
    var fetched := RangeFetch(rows, root);
    var P, F, C := ParentMapOf(rows), ParentMapOf(fetched), ChildMapOf(fetched);
    FetchedRowsAgree(rows, root);
    FetchedViewNeverRaises(rows, root);
    NamedRow(rows, root);
    DescendantsAreReachable(root, d, C);
    if d in F && d != root {
      ContainsIffAncestor(rows, root, d) by { assert RowMapOf(rows)[d] in fetched; }
      AtOrAboveIsAncestor(root, d, P);
      var k: nat :| ClimbsTo(d, k, root, P);
      assert k > 0;
      ClimbStaysInside(rows, root, d, k, F);
      LevelIffClimb(root, d, k, F, C);
    }
    if k: nat :| k > 0 && d in Level(root, k, C) {
      LevelIffClimb(root, d, k, F, C);
      ClimbFromParent(d, k - 1, F);
    }
  }

  /**
   * The rows the range fetch returns are exactly the subtree: rebuilding the views from those rows
   * alone and walking down from `root` lists every fetched row once, and never raises.
   */
  lemma FetchIsSubtree(rows: seq<TreeRow>, root: string)
    requires ValidNestedSet(rows) && root in RowMapOf(rows)
    ensures var fetched := RangeFetch(rows, root);
            var down := Descendants(root, ChildMapOf(fetched));
            && down.Success? && NoDup([root] + down.value)
            && (forall d :: d in [root] + down.value <==> exists i :: 0 <= i < |fetched| && fetched[i].name == d)
  {
    var fetched := RangeFetch(rows, root);
    FetchedViewNeverRaises(rows, root);
    DescendantsAreLevels(root, ChildMapOf(fetched));
    KeysAreNames(fetched);
    forall d
      ensures d in [root] + Descendants(root, ChildMapOf(fetched)).value <==> d in ParentMapOf(fetched)
    {
      FetchedIffBelow(rows, root, d);
    }
  }
}
