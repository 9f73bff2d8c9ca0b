/**
 * The adjacency views `TreeTraversalService` builds from its rows, and the agreement between
 * walking up the one view and walking down the other.
 */
module Adjacency {
  import opened Wrappers
  import opened Trees

  /** The columns of a `Flock Group` (or `Flock Branch`) row that traversal and scoping read. */
  datatype TreeRow = TreeRow(name: string, parent: Option<string>, lft: int, rgt: int, leader: Option<string>)

  function Normal(parent: Option<string>): Option<string> {
    if Truthy(parent) then parent else None
  }

  function ParentMapOf(rows: seq<TreeRow>): ParentMap {
    if rows == [] then map[]
    else
      var r := rows[|rows| - 1];
      ParentMapOf(rows[..|rows| - 1])[r.name := Normal(r.parent)]
  }

  function ChildMapOf(rows: seq<TreeRow>): ChildMap {
    if rows == [] then map[]
    else
      var r := rows[|rows| - 1];
      var m := ChildMapOf(rows[..|rows| - 1]);
      match Normal(r.parent)
      case None => m
      case Some(p) => m[p := Children(p, m) + [r.name]]
  }

  function RowMapOf(rows: seq<TreeRow>): map<string, TreeRow> {
    if rows == [] then map[]
    else RowMapOf(rows[..|rows| - 1])[rows[|rows| - 1].name := rows[|rows| - 1]]
  }

  method BuildAdjacency(rows: seq<TreeRow>)
    returns (parentOf: ParentMap, childrenOf: ChildMap, rowByName: map<string, TreeRow>)
    ensures parentOf == ParentMapOf(rows) && childrenOf == ChildMapOf(rows) && rowByName == RowMapOf(rows)
  {
    parentOf, childrenOf, rowByName := map[], map[], map[];
    for i := 0 to |rows|
      invariant parentOf == ParentMapOf(rows[..i])
      invariant childrenOf == ChildMapOf(rows[..i])
      invariant rowByName == RowMapOf(rows[..i])
    {
      assert rows[..i + 1][..i] == rows[..i];
      var row := rows[i];
      var parent := Normal(row.parent);
      parentOf := parentOf[row.name := parent];
      rowByName := rowByName[row.name := row];
      if parent.Some? {
        childrenOf := childrenOf[parent.value := Children(parent.value, childrenOf) + [row.name]];
      }
    }
    assert rows[..|rows|] == rows;
  }

  ghost predicate UniqueNames(rows: seq<TreeRow>) {
    forall i, j :: 0 <= i < j < |rows| ==> rows[i].name != rows[j].name
  }

  /** The two views describe the same edges, each once. */
  ghost predicate Consistent(parentOf: ParentMap, childrenOf: ChildMap) {
    && (forall p, d :: d in Children(p, childrenOf) <==> ParentOf(d, parentOf) == Some(p))
    && (forall p :: NoDup(Children(p, childrenOf)))
  }

  lemma {:induction false} KeysAreNames(rows: seq<TreeRow>)
    ensures forall n :: n in ParentMapOf(rows) <==> exists i :: 0 <= i < |rows| && rows[i].name == n
    ensures RowMapOf(rows).Keys == ParentMapOf(rows).Keys
  {
    if rows != [] {
      var init := rows[..|rows| - 1];
      KeysAreNames(init);
      forall n ensures n in ParentMapOf(rows) <==> exists i :: 0 <= i < |rows| && rows[i].name == n {
        if n in ParentMapOf(init) {
          var i :| 0 <= i < |init| && init[i].name == n;
          assert rows[i].name == n;
        }
        if i :| 0 <= i < |rows| && rows[i].name == n {
          if i < |init| { assert init[i].name == n; }
        }
      }
    }
  }

  lemma {:induction false} RowsByName(rows: seq<TreeRow>, i: nat)
    requires UniqueNames(rows) && i < |rows|
    ensures rows[i].name in RowMapOf(rows) && RowMapOf(rows)[rows[i].name] == rows[i]
    ensures ParentOf(rows[i].name, ParentMapOf(rows)) == Normal(rows[i].parent)
  {
    if i < |rows| - 1 {
      var init := rows[..|rows| - 1];
      assert rows[i] == init[i];
      RowsByName(init, i);
    }
  }

  /** From rows with distinct names, both views hold exactly the rows' parent links. */
  lemma {:induction false} AdjacencyIsConsistent(rows: seq<TreeRow>)
    requires UniqueNames(rows)
    ensures Consistent(ParentMapOf(rows), ChildMapOf(rows))
  {
    if rows != [] {
      var init, r := rows[..|rows| - 1], rows[|rows| - 1];
      AdjacencyIsConsistent(init);
      KeysAreNames(init);
      assert r.name !in ParentMapOf(init);
      var P, C, P', C' := ParentMapOf(init), ChildMapOf(init), ParentMapOf(rows), ChildMapOf(rows);
      forall p ensures NoDup(Children(p, C')) {
        assert ParentOf(r.name, P) != Some(p);
        NoDupConcat(Children(p, C), [r.name]);
      }
      forall p, d ensures d in Children(p, C') <==> ParentOf(d, P') == Some(p) {
        assert ParentOf(r.name, P) == None;
        assert d in Children(p, C) <==> ParentOf(d, P) == Some(p);
      }
    }
  }

  // ---- up and down agree -----------------------------------------------------------

  lemma {:induction false} ClimbFromParent(node: string, k: nat, parentOf: ParentMap)
    ensures Climb(node, k + 1, parentOf) ==
            match ParentOf(node, parentOf) case None => None case Some(m) => Climb(m, k, parentOf)
  {
    if k > 0 {
      ClimbFromParent(node, k - 1, parentOf);
    } else {
      assert Climb(node, 0, parentOf) == Some(node);
    }
  }

  lemma {:induction false} ClimbAdd(node: string, i: nat, j: nat, parentOf: ParentMap)
    requires Climb(node, i, parentOf).Some?
    ensures Climb(node, i + j, parentOf) == Climb(Climb(node, i, parentOf).value, j, parentOf)
  {
    if j > 0 { ClimbAdd(node, i, j - 1, parentOf); }
  }

  lemma InExpandIffParentIn(frontier: seq<string>, d: string, parentOf: ParentMap, childrenOf: ChildMap)
    requires Consistent(parentOf, childrenOf)
    ensures d in Expand(frontier, childrenOf) <==>
            ParentOf(d, parentOf).Some? && ParentOf(d, parentOf).value in frontier
  {
    ExpandMembers(frontier, d, childrenOf);
    if p :| p in frontier && d in Children(p, childrenOf) {
      assert ParentOf(d, parentOf) == Some(p);
    }
    if ParentOf(d, parentOf).Some? {
      assert d in Children(ParentOf(d, parentOf).value, childrenOf);
    }
  }

  /** `d` is on a level exactly when it has a parent and the parent is on the level above. */
  lemma LevelStep(node: string, d: string, k: nat, parentOf: ParentMap, childrenOf: ChildMap)
    requires Consistent(parentOf, childrenOf) && k > 0
    ensures d in Level(node, k, childrenOf) <==>
            ParentOf(d, parentOf).Some? && ParentOf(d, parentOf).value in Level(node, k - 1, childrenOf)
  {
    InExpandIffParentIn(Level(node, k - 1, childrenOf), d, parentOf, childrenOf);
  }

  lemma ClimbStep(node: string, d: string, k: nat, parentOf: ParentMap)
    requires k > 0
    ensures Climb(d, k, parentOf) == Some(node) <==>
            ParentOf(d, parentOf).Some? && Climb(ParentOf(d, parentOf).value, k - 1, parentOf) == Some(node)
  {
    ClimbFromParent(d, k - 1, parentOf);
  }

  /** `d` stands on level `k` below `node` exactly when `node` is `d`'s `k`-th parent. */
  lemma {:induction false} LevelIffClimb(node: string, d: string, k: nat, parentOf: ParentMap, childrenOf: ChildMap)
    requires Consistent(parentOf, childrenOf)
    ensures d in Level(node, k, childrenOf) <==> Climb(d, k, parentOf) == Some(node)
    decreases k
  {
    if k > 0 {
      LevelStep(node, d, k, parentOf, childrenOf);
      ClimbStep(node, d, k, parentOf);
      if ParentOf(d, parentOf).Some? {
        LevelIffClimb(node, ParentOf(d, parentOf).value, k - 1, parentOf, childrenOf);
      }
    }
  }

  lemma {:induction false} ExpandNoDup(frontier: seq<string>, parentOf: ParentMap, childrenOf: ChildMap)
    requires Consistent(parentOf, childrenOf) && NoDup(frontier)
    ensures NoDup(Expand(frontier, childrenOf))
  {
    if frontier != [] {
      var head, tail := Children(frontier[0], childrenOf), Expand(frontier[1..], childrenOf);
      ExpandNoDup(frontier[1..], parentOf, childrenOf);
      forall x | x in head ensures x !in tail {
        ExpandMembers(frontier[1..], x, childrenOf);
        assert ParentOf(x, parentOf) == Some(frontier[0]);
      }
      NoDupConcat(head, tail);
    }
  }

  lemma {:induction false} LevelNoDup(node: string, k: nat, parentOf: ParentMap, childrenOf: ChildMap)
    requires Consistent(parentOf, childrenOf)
    ensures NoDup(Level(node, k, childrenOf))
  {
    if k > 0 {
      LevelNoDup(node, k - 1, parentOf, childrenOf);
      ExpandNoDup(Level(node, k - 1, childrenOf), parentOf, childrenOf);
    }
  }

  ghost predicate OnCycle(node: string, k: nat, parentOf: ParentMap) {
    k > 0 && Climb(node, k, parentOf) == Some(node)
  }

  lemma MeetingMeansCycle(node: string, x: string, i: nat, h: nat, parentOf: ParentMap)
    requires i < h && Climb(x, i, parentOf) == Some(node) && Climb(x, h, parentOf) == Some(node)
    ensures OnCycle(node, h - i, parentOf)
  {
    ClimbAdd(x, i, h - i, parentOf);
  }

  lemma SharedBetweenLevels(node: string, h: nat, childrenOf: ChildMap) returns (x: string)
    requires h > 0 && RepeatsBy(node, h, childrenOf) && !RepeatsBy(node, h - 1, childrenOf)
    requires NoDup(Level(node, h, childrenOf))
    ensures x in Levels(node, h - 1, childrenOf) && x in Level(node, h, childrenOf)
  {
    x := SharedElement(Levels(node, h - 1, childrenOf), Level(node, h, childrenOf));
  }

  lemma FirstRepeat(node: string, h: nat, parentOf: ParentMap, childrenOf: ChildMap)
      returns (x: string, i: nat)
    requires Consistent(parentOf, childrenOf) && h > 0
    requires RepeatsBy(node, h, childrenOf) && !RepeatsBy(node, h - 1, childrenOf)
    ensures i < h && x in Level(node, i, childrenOf) && x in Level(node, h, childrenOf)
  {
    LevelNoDup(node, h, parentOf, childrenOf);
    x, i := FirstRepeatOf(node, h, childrenOf);
  }

  lemma FirstRepeatOf(node: string, h: nat, childrenOf: ChildMap) returns (x: string, i: nat)
    requires h > 0 && NoDup(Level(node, h, childrenOf))
    requires RepeatsBy(node, h, childrenOf) && !RepeatsBy(node, h - 1, childrenOf)
    ensures i < h && x in Level(node, i, childrenOf) && x in Level(node, h, childrenOf)
  {
    x := SharedBetweenLevels(node, h, childrenOf);
    i := LevelOfMember(node, x, h - 1, childrenOf);
  }

  lemma LevelOfMember(node: string, x: string, h: nat, childrenOf: ChildMap) returns (i: nat)
    requires x in Levels(node, h, childrenOf)
    ensures i <= h && x in Level(node, i, childrenOf)
  {
    LevelsAreLevels(node, x, h, childrenOf);
    i :| i <= h && x in Level(node, i, childrenOf);
  }

  lemma {:induction false} RepeatMeansCycle(node: string, h: nat, parentOf: ParentMap, childrenOf: ChildMap)
    requires Consistent(parentOf, childrenOf) && RepeatsBy(node, h, childrenOf)
    ensures exists k: nat :: OnCycle(node, k, parentOf)
  {
    if h > 0 {
      if RepeatsBy(node, h - 1, childrenOf) {
        RepeatMeansCycle(node, h - 1, parentOf, childrenOf);
      } else {
        var x, i := FirstRepeat(node, h, parentOf, childrenOf);
        LevelIffClimb(node, x, i, parentOf, childrenOf);
        LevelIffClimb(node, x, h, parentOf, childrenOf);
        MeetingMeansCycle(node, x, i, h, parentOf);
      }
    }
  }

  lemma NoCycleAbove(d: string, i: nat, node: string, parentOf: ParentMap)
    requires Ancestors(d, parentOf).Success? && Climb(d, i, parentOf) == Some(node)
    ensures !exists k: nat :: OnCycle(node, k, parentOf)
  {
    AncestorsSucceed(d, parentOf);
    var path := [d] + Ancestors(d, parentOf).value;
    forall k: nat | k > 0 ensures Climb(node, k, parentOf) != Some(node) {
      ClimbAdd(d, i, k, parentOf);
      assert i < |path|;
      if i + k < |path| { assert path[i] != path[i + k]; }
    }
  }

  /** On consistent views, walking down from `node` raises exactly when `node` is its own ancestor. */
  lemma DescendantsRaiseIffOnCycle(node: string, parentOf: ParentMap, childrenOf: ChildMap)
    requires Consistent(parentOf, childrenOf)
    ensures Descendants(node, childrenOf).Failure? <==> exists k: nat :: OnCycle(node, k, parentOf)
  {
    DescendantsRaiseIffRepeat(node, childrenOf);
    if h :| RepeatsBy(node, h, childrenOf) {
      RepeatMeansCycle(node, h, parentOf, childrenOf);
    }
    if k: nat :| OnCycle(node, k, parentOf) {
      LevelIffClimb(node, node, k, parentOf, childrenOf);
      LevelsContain(node, 0, k - 1, childrenOf);
      assert node in Level(node, 0, childrenOf);
      NoDupConcat(Levels(node, k - 1, childrenOf), Level(node, k, childrenOf));
      assert RepeatsBy(node, k, childrenOf);
    }
  }

  /** Whoever is found on the way up finds the node on the way down. */
  lemma UpMeansDown(node: string, d: string, i: nat, parentOf: ParentMap, childrenOf: ChildMap)
    requires Consistent(parentOf, childrenOf) && Ancestors(d, parentOf).Success?
    requires i < |Ancestors(d, parentOf).value| && Ancestors(d, parentOf).value[i] == node
    ensures Descendants(node, childrenOf).Success? && d in Descendants(node, childrenOf).value
  {
    AncestorsSucceed(d, parentOf);
    assert ([d] + Ancestors(d, parentOf).value)[i + 1] == node;
    NoCycleAbove(d, i + 1, node, parentOf);
    DescendantsRaiseIffOnCycle(node, parentOf, childrenOf);
    LevelIffClimb(node, d, i + 1, parentOf, childrenOf);
    DescendantsAreReachable(node, d, childrenOf);
  }

  lemma LevelMeansUp(node: string, d: string, k: nat, parentOf: ParentMap, childrenOf: ChildMap)
    requires Consistent(parentOf, childrenOf) && Ancestors(d, parentOf).Success? && k > 0
    requires d in Level(node, k, childrenOf)
    ensures node in Ancestors(d, parentOf).value
  {
    var chain := Ancestors(d, parentOf).value;
    AncestorsSucceed(d, parentOf);
    LevelIffClimb(node, d, k, parentOf, childrenOf);
    assert k < |[d] + chain| && ([d] + chain)[k] == chain[k - 1];
  }

  lemma DownMeansUp(node: string, d: string, parentOf: ParentMap, childrenOf: ChildMap)
    requires Consistent(parentOf, childrenOf) && Ancestors(d, parentOf).Success?
    requires Descendants(node, childrenOf).Success? && d in Descendants(node, childrenOf).value
    ensures node in Ancestors(d, parentOf).value
  {
    var k := LevelOfDescendant(node, d, childrenOf);
    LevelMeansUp(node, d, k, parentOf, childrenOf);
  }

  lemma LevelOfDescendant(node: string, d: string, childrenOf: ChildMap) returns (k: nat)
    requires Descendants(node, childrenOf).Success? && d in Descendants(node, childrenOf).value
    ensures k > 0 && d in Level(node, k, childrenOf)
  {
    DescendantsAreReachable(node, d, childrenOf);
    k :| k > 0 && d in Level(node, k, childrenOf);
  }

  /**
   * Walking down and walking up name the same pairs: where `d`'s walk up ends, `d` is found under
   * `node` exactly when `node` is found above `d`, and then walking down from `node` cannot raise.
   */
  lemma DownIffUp(node: string, d: string, parentOf: ParentMap, childrenOf: ChildMap)
    requires Consistent(parentOf, childrenOf) && Ancestors(d, parentOf).Success?
    ensures node in Ancestors(d, parentOf).value <==>
            Descendants(node, childrenOf).Success? && d in Descendants(node, childrenOf).value
  {
    var chain := Ancestors(d, parentOf).value;
    if node in chain {
      var i :| 0 <= i < |chain| && chain[i] == node;
      UpMeansDown(node, d, i, parentOf, childrenOf);
    }
    if Descendants(node, childrenOf).Success? && d in Descendants(node, childrenOf).value {
      DownMeansUp(node, d, parentOf, childrenOf);
    }
  }
}
