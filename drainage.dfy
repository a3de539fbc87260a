/** The theory behind D8 flow accumulation: cells linked to a strictly lower
    neighbour form a forest, and a cell's accumulated flow is the number of
    cells whose chain of links passes through it. Heights are integers; only
    their order matters. */
module Drainage {
  import opened Base

  /** A downslope field over the heights `vals`: every link leads to a cell of
      the grid that is strictly lower. */
  ghost predicate Descends(vals: seq<int>, down: seq<Option<nat>>)
  {
    && |down| == |vals|
    && forall i :: 0 <= i < |down| && down[i].Some? ==> down[i].value < |vals| && vals[down[i].value] < vals[i]
  }

  /** The lowest height. */
  function Lowest(vals: seq<int>): (m: int)
    requires |vals| > 0
    ensures forall i :: 0 <= i < |vals| ==> m <= vals[i]
    ensures exists i :: 0 <= i < |vals| && m == vals[i]
  {
    if |vals| == 1 then vals[0]
    else
      var rest := Lowest(vals[1..]);
      assert forall i :: 1 <= i < |vals| ==> vals[i] == vals[1..][i - 1];
      if vals[0] <= rest then vals[0] else rest
  }

  /** Following the links from cell i eventually reaches cell c. */
  ghost predicate DrainsTo(vals: seq<int>, down: seq<Option<nat>>, i: nat, c: nat)
    requires Descends(vals, down) && i < |vals|
    decreases vals[i] - Lowest(vals)
  {
    i == c || (down[i].Some? && DrainsTo(vals, down, down[i].value, c))
  }

  /** The drainage tree above c: every cell whose water passes through c,
      c included. */
  ghost function Upstream(vals: seq<int>, down: seq<Option<nat>>, c: nat): set<nat>
    requires Descends(vals, down)
  {
    set i | 0 <= i < |vals| && DrainsTo(vals, down, i, c)
  }

  /** Sum of the tree sizes of the cells below position n that drain directly
      into c. */
  ghost function DonorTrees(vals: seq<int>, down: seq<Option<nat>>, c: nat, n: nat): nat
    requires Descends(vals, down) && n <= |vals|
  {
    if n == 0 then 0
    else DonorTrees(vals, down, c, n - 1) + (if down[n - 1] == Some(c) then |Upstream(vals, down, n - 1)| else 0)
  }

  /** The same sum restricted to the donors in `done`. */
  ghost function DonorTreesIn(vals: seq<int>, down: seq<Option<nat>>, c: nat, done: set<nat>, n: nat): nat
    requires Descends(vals, down) && n <= |vals|
  {
    if n == 0 then 0
    else
      DonorTreesIn(vals, down, c, done, n - 1)
      + (if down[n - 1] == Some(c) && n - 1 in done then |Upstream(vals, down, n - 1)| else 0)
  }

  /** The union of the trees of the cells below position n that drain directly
      into c. */
  ghost function DonorUnion(vals: seq<int>, down: seq<Option<nat>>, c: nat, n: nat): set<nat>
    requires Descends(vals, down) && n <= |vals|
  {
    if n == 0 then {}
    else DonorUnion(vals, down, c, n - 1) + (if down[n - 1] == Some(c) then Upstream(vals, down, n - 1) else {})
  }

  /** Sum, over the cells below position n that drain directly into c, of the
      values `flow` holds for them. */
  function Inflow(flow: seq<nat>, down: seq<Option<nat>>, c: nat, n: nat): nat
    requires n <= |flow| && n <= |down|
  {
    if n == 0 then 0
    else Inflow(flow, down, c, n - 1) + (if down[n - 1] == Some(c) then flow[n - 1] else 0)
  }

  // ----- Paths -----

  /** Water only runs downhill. */
  lemma DrainsLower(vals: seq<int>, down: seq<Option<nat>>, i: nat, c: nat)
    requires Descends(vals, down) && i < |vals| && DrainsTo(vals, down, i, c)
    ensures c < |vals| && vals[c] <= vals[i]
    ensures i != c ==> vals[c] < vals[i]
    decreases vals[i] - Lowest(vals)
  {
    if i != c {
      DrainsLower(vals, down, down[i].value, c);
    }
  }

  lemma DrainsTransitive(vals: seq<int>, down: seq<Option<nat>>, i: nat, a: nat, b: nat)
    requires Descends(vals, down) && i < |vals| && a < |vals|
    requires DrainsTo(vals, down, i, a) && DrainsTo(vals, down, a, b)
    ensures DrainsTo(vals, down, i, b)
    decreases vals[i] - Lowest(vals)
  {
    if i != a {
      DrainsTransitive(vals, down, down[i].value, a, b);
    }
  }

  /** From any cell there is only one path, so two cells it reaches lie on one
      chain. */
  lemma DrainsLinear(vals: seq<int>, down: seq<Option<nat>>, i: nat, a: nat, b: nat)
    requires Descends(vals, down) && i < |vals|
    requires DrainsTo(vals, down, i, a) && DrainsTo(vals, down, i, b)
    ensures a < |vals| && b < |vals|
    ensures DrainsTo(vals, down, a, b) || DrainsTo(vals, down, b, a)
    decreases vals[i] - Lowest(vals)
  {
    DrainsLower(vals, down, i, a);
    DrainsLower(vals, down, i, b);
    if i != a && i != b {
      DrainsLinear(vals, down, down[i].value, a, b);
    }
  }

  /** A path into c that does not start at c enters it from a direct donor. */
  lemma DrainsThroughDonor(vals: seq<int>, down: seq<Option<nat>>, i: nat, c: nat) returns (d: nat)
    requires Descends(vals, down) && i < |vals|
    requires DrainsTo(vals, down, i, c) && i != c
    ensures d < |vals| && down[d] == Some(c) && DrainsTo(vals, down, i, d)
    decreases vals[i] - Lowest(vals)
  {
    var j := down[i].value;
    if j == c {
      d := i;
    } else {
      d := DrainsThroughDonor(vals, down, j, c);
    }
  }

  /** The trees of two different direct donors of c never share a cell. */
  lemma DonorTreesDisjoint(vals: seq<int>, down: seq<Option<nat>>, c: nat, d1: nat, d2: nat)
    requires Descends(vals, down) && d1 < |vals| && d2 < |vals| && d1 != d2
    requires down[d1] == Some(c) && down[d2] == Some(c)
    ensures Upstream(vals, down, d1) !! Upstream(vals, down, d2)
  {
    forall i | i in Upstream(vals, down, d1)
      ensures i !in Upstream(vals, down, d2)
    {
      if i in Upstream(vals, down, d2) {
        DrainsLinear(vals, down, i, d1, d2);
        if DrainsTo(vals, down, d1, d2) {
          DrainsLower(vals, down, c, d2);
        } else {
          DrainsLower(vals, down, c, d1);
        }
      }
    }
  }

  // ----- The tree-size decomposition -----

  lemma {:induction false} DonorUnionMembers(vals: seq<int>, down: seq<Option<nat>>, c: nat, n: nat, i: nat)
    requires Descends(vals, down) && n <= |vals|
    ensures i in DonorUnion(vals, down, c, n) <==>
      i < |vals| && exists d :: 0 <= d < n && down[d] == Some(c) && DrainsTo(vals, down, i, d)
  {
    if n > 0 {
      DonorUnionMembers(vals, down, c, n - 1, i);
    }
  }

  /** The trees of earlier donors are disjoint from the tree of a later one. */
  lemma DonorUnionDisjoint(vals: seq<int>, down: seq<Option<nat>>, c: nat, n: nat)
    requires Descends(vals, down) && 0 < n <= |vals| && down[n - 1] == Some(c)
    ensures DonorUnion(vals, down, c, n - 1) !! Upstream(vals, down, n - 1)
  {
    var last := n - 1;
    forall i | i in DonorUnion(vals, down, c, last)
      ensures i !in Upstream(vals, down, last)
    {
      DonorUnionMembers(vals, down, c, last, i);
      var d :| 0 <= d < last && down[d] == Some(c) && DrainsTo(vals, down, i, d);
      assert i in Upstream(vals, down, d);
      DonorTreesDisjoint(vals, down, c, d, last);
    }
  }

  lemma {:induction false} DonorUnionSize(vals: seq<int>, down: seq<Option<nat>>, c: nat, n: nat)
    requires Descends(vals, down) && n <= |vals|
    ensures |DonorUnion(vals, down, c, n)| == DonorTrees(vals, down, c, n)
  {
    if n > 0 {
      DonorUnionSize(vals, down, c, n - 1);
      if down[n - 1] == Some(c) {
        DonorUnionDisjoint(vals, down, c, n);
        DisjointUnionSize(DonorUnion(vals, down, c, n - 1), Upstream(vals, down, n - 1));
      }
    }
  }

  lemma DisjointUnionSize(a: set<nat>, b: set<nat>)
    requires a !! b
    ensures |a + b| == |a| + |b|
  {
  }

  /** The tree above c is c itself plus the disjoint trees of its direct donors. */
  lemma UpstreamSplit(vals: seq<int>, down: seq<Option<nat>>, c: nat)
    requires Descends(vals, down) && c < |vals|
    ensures Upstream(vals, down, c) == {c} + DonorUnion(vals, down, c, |vals|)
    ensures c !in DonorUnion(vals, down, c, |vals|)
  {
    var n := |vals|;
    forall i | i in Upstream(vals, down, c) && i != c
      ensures i in DonorUnion(vals, down, c, n)
    {
      var d := DrainsThroughDonor(vals, down, i, c);
      DonorUnionMembers(vals, down, c, n, i);
    }
    forall i | i in DonorUnion(vals, down, c, n)
      ensures i in Upstream(vals, down, c) && i != c
    {
      DonorUnionMembers(vals, down, c, n, i);
      var d :| 0 <= d < n && down[d] == Some(c) && DrainsTo(vals, down, i, d);
      assert DrainsTo(vals, down, d, c);
      DrainsTransitive(vals, down, i, d, c);
      DrainsLower(vals, down, i, d);
    }
    assert DrainsTo(vals, down, c, c);
  }

  /** The size of the drainage tree above c is one (c itself) plus the sizes of
      the trees of the cells draining directly into c. */
  lemma TreeSize(vals: seq<int>, down: seq<Option<nat>>, c: nat)
    requires Descends(vals, down) && c < |vals|
    ensures |Upstream(vals, down, c)| == 1 + DonorTrees(vals, down, c, |vals|)
  {
    UpstreamSplit(vals, down, c);
    DonorUnionSize(vals, down, c, |vals|);
  }

  // ----- Partial sums -----

  lemma {:induction false} DonorTreesInAll(vals: seq<int>, down: seq<Option<nat>>, c: nat, done: set<nat>, n: nat)
    requires Descends(vals, down) && n <= |vals|
    requires forall d :: 0 <= d < n && down[d] == Some(c) ==> d in done
    ensures DonorTreesIn(vals, down, c, done, n) == DonorTrees(vals, down, c, n)
  {
    if n > 0 {
      DonorTreesInAll(vals, down, c, done, n - 1);
    }
  }

  lemma {:induction false} DonorTreesInEmpty(vals: seq<int>, down: seq<Option<nat>>, c: nat, n: nat)
    requires Descends(vals, down) && n <= |vals|
    ensures DonorTreesIn(vals, down, c, {}, n) == 0
  {
    if n > 0 {
      DonorTreesInEmpty(vals, down, c, n - 1);
    }
  }

  lemma {:induction false} DonorTreesInAdd(vals: seq<int>, down: seq<Option<nat>>, c: nat, done: set<nat>, j: nat, n: nat)
    requires Descends(vals, down) && n <= |vals| && j !in done
    ensures DonorTreesIn(vals, down, c, done + {j}, n) ==
      DonorTreesIn(vals, down, c, done, n) + (if j < n && down[j] == Some(c) then |Upstream(vals, down, j)| else 0)
  {
    if n > 0 {
      DonorTreesInAdd(vals, down, c, done, j, n - 1);
    }
  }

  /** Once every cell holds the size of its tree, a cell's inflow is the sum of
      its donors' tree sizes. */
  lemma {:induction false} InflowOfTrees(vals: seq<int>, down: seq<Option<nat>>, flow: seq<nat>, c: nat, n: nat)
    requires Descends(vals, down) && n <= |vals| && |flow| == |vals|
    requires forall d :: 0 <= d < |vals| ==> flow[d] == |Upstream(vals, down, d)|
    ensures Inflow(flow, down, c, n) == DonorTrees(vals, down, c, n)
  {
    if n > 0 {
      InflowOfTrees(vals, down, flow, c, n - 1);
    }
  }
}
