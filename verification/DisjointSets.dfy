/**
  Union-find as the source splitter uses it: `find` rewrites every parent on its path to the
  root, `union` links one of the two roots below the other by the toss of a coin.
 */
module DisjointSets {

  /** `rep` names the element's root; `depth` grows towards the roots and stays below `bound`. */
  ghost predicate NodeOk(parents: seq<nat>, rep: seq<nat>, depth: seq<nat>, bound: nat, x: nat)
    requires |rep| == |depth| == |parents| && x < |parents|
  {
    && parents[x] < |parents| && rep[x] < |parents| && depth[x] < bound
    && parents[rep[x]] == rep[x] == rep[rep[x]]
    && (if parents[x] == x then rep[x] == x
        else rep[parents[x]] == rep[x] && depth[x] < depth[parents[x]] && depth[x] < depth[rep[x]])
  }

  ghost predicate Forest(parents: seq<nat>, rep: seq<nat>, depth: seq<nat>, bound: nat) {
    |rep| == |depth| == |parents| && forall x :: 0 <= x < |parents| ==> NodeOk(parents, rep, depth, bound, x)
  }

  predicate Closed(parents: seq<nat>) {
    forall y :: 0 <= y < |parents| ==> parents[y] < |parents|
  }

  lemma ForestClosed(parents: seq<nat>, rep: seq<nat>, depth: seq<nat>, bound: nat)
    requires Forest(parents, rep, depth, bound)
    ensures Closed(parents)
  {
    forall y | 0 <= y < |parents| ensures parents[y] < |parents| {
      assert NodeOk(parents, rep, depth, bound, y);
    }
  }

  /** The element reached after following `steps` parent links. */
  function Follow(parents: seq<nat>, x: nat, steps: nat): (y: nat)
    requires x < |parents| && Closed(parents)
    ensures y < |parents|
    decreases steps
  {
    if steps == 0 then x else Follow(parents, parents[x], steps - 1)
  }

  /** `rep` is not a free invention: it is where the parent links lead, and they end there. */
  lemma {:induction false} RepIsRoot(parents: seq<nat>, rep: seq<nat>, depth: seq<nat>, bound: nat, x: nat)
    returns (steps: nat)
    requires Forest(parents, rep, depth, bound) && x < |parents|
    ensures Closed(parents) && Follow(parents, x, steps) == rep[x] < |parents| && parents[rep[x]] == rep[x]
    decreases bound - depth[x]
  {
    ForestClosed(parents, rep, depth, bound);
    assert NodeOk(parents, rep, depth, bound, x);
    assert NodeOk(parents, rep, depth, bound, parents[x]);
    if parents[x] == x {
      steps := 0;
    } else {
      var rest := RepIsRoot(parents, rep, depth, bound, parents[x]);
      steps := rest + 1;
    }
  }

  /** Two roots below which the same forest hangs are the same: the partition is determined by
      the parents alone. */
  lemma {:induction false} RootUnique(parents: seq<nat>, x: nat, j: nat, k: nat)
    requires x < |parents| && Closed(parents)
    requires parents[Follow(parents, x, j)] == Follow(parents, x, j)
    requires parents[Follow(parents, x, k)] == Follow(parents, x, k)
    ensures Follow(parents, x, j) == Follow(parents, x, k)
    decreases j + k
  {
    if j == 0 {
      Stays(parents, x, k);
    } else if k == 0 {
      Stays(parents, x, j);
    } else {
      RootUnique(parents, parents[x], j - 1, k - 1);
    }
  }

  lemma {:induction false} Stays(parents: seq<nat>, x: nat, k: nat)
    requires x < |parents| && Closed(parents) && parents[x] == x
    ensures Follow(parents, x, k) == x
  {
    if k > 0 {
      Stays(parents, x, k - 1);
    }
  }

  /** Shortening a path to the root leaves the forest and its roots as they were. */
  lemma CompressKeepsForest(parents: seq<nat>, rep: seq<nat>, depth: seq<nat>, bound: nat, x: nat)
    requires Forest(parents, rep, depth, bound) && x < |parents| && parents[x] != x
    ensures rep[x] < |parents| && Forest(parents[x := rep[x]], rep, depth, bound)
  {
    assert NodeOk(parents, rep, depth, bound, x);
    var parents' := parents[x := rep[x]];
    forall z | 0 <= z < |parents| ensures NodeOk(parents', rep, depth, bound, z) {
      assert NodeOk(parents, rep, depth, bound, z);
    }
  }

  ghost function MergedRep(rep: seq<nat>, child: nat, root: nat): (merged: seq<nat>)
    ensures |merged| == |rep| && forall z :: 0 <= z < |rep| ==> merged[z] == if rep[z] == child then root else rep[z]
  {
    seq(|rep|, z requires 0 <= z < |rep| => if rep[z] == child then root else rep[z])
  }

  ghost function RaisedDepth(depth: seq<nat>, rep: seq<nat>, root: nat, bound: nat): (raised: seq<nat>)
    requires |rep| == |depth|
    ensures |raised| == |rep|
    ensures forall z :: 0 <= z < |rep| ==> raised[z] == if rep[z] == root then depth[z] + bound else depth[z]
  {
    seq(|rep|, z requires 0 <= z < |rep| => if rep[z] == root then depth[z] + bound else depth[z])
  }

  lemma LinkKeepsForest(parents: seq<nat>, rep: seq<nat>, depth: seq<nat>, bound: nat, child: nat, root: nat)
    requires Forest(parents, rep, depth, bound) && child < |parents| && root < |parents|
    requires rep[child] == child && rep[root] == root && child != root
    ensures Forest(parents[child := root], MergedRep(rep, child, root), RaisedDepth(depth, rep, root, bound), 2 * bound)
  {
    assert NodeOk(parents, rep, depth, bound, child) && NodeOk(parents, rep, depth, bound, root);
    var parents', rep' := parents[child := root], MergedRep(rep, child, root);
    var depth', bound' := RaisedDepth(depth, rep, root, bound), 2 * bound;
    forall z | 0 <= z < |parents| ensures NodeOk(parents', rep', depth', bound', z) {
      assert NodeOk(parents, rep, depth, bound, z);
      assert NodeOk(parents, rep, depth, bound, parents[z]) && NodeOk(parents, rep, depth, bound, rep[z]);
    }
  }

  /** `after` is the partition `before` with the sets of `x` and `y` merged, and no others. */
  ghost predicate Merges(before: seq<nat>, after: seq<nat>, x: nat, y: nat)
    requires x < |before| && y < |before|
  {
    && |after| == |before|
    && forall a, b :: 0 <= a < |before| && 0 <= b < |before| ==>
         (after[a] == after[b] <==>
           || before[a] == before[b]
           || (before[a] == before[x] && before[b] == before[y])
           || (before[a] == before[y] && before[b] == before[x]))
  }

  class DisjointSet {
    var parents: seq<nat>
    ghost var rep: seq<nat>
    ghost var depth: seq<nat>
    ghost var bound: nat

    ghost predicate Valid()
      reads this
    {
      Forest(parents, rep, depth, bound)
    }

    /** Every element is its own set. */
    constructor (n: nat)
      ensures Valid() && |parents| == n && rep == seq(n, i => i)
    {
      parents := seq(n, i => i);
      rep, depth, bound := seq(n, i => i), seq(n, _ => 0), 1;
    }

    /** Answers the root; whatever links are rewritten, no element changes its root. */
    method Find(x: nat) returns (root: nat)
      requires Valid() && x < |parents|
      modifies this`parents
      ensures Valid() && |parents| == old(|parents|)
      ensures root == rep[x] && parents[x] == root
      ensures forall y :: 0 <= y < |parents| ==> parents[y] == old(parents[y]) || parents[y] == rep[y]
      decreases bound - depth[x]
    {
      assert NodeOk(parents, rep, depth, bound, x);
      if parents[x] != x {
        assert NodeOk(parents, rep, depth, bound, parents[x]);
        root := Find(parents[x]);
        assert NodeOk(parents, rep, depth, bound, x);
        CompressKeepsForest(parents, rep, depth, bound, x);
        parents := parents[x := root];
      } else {
        root := x;
      }
    }

    /** Merges the two sets and no others, however the coin falls. */
    method Union(x: nat, y: nat)
      requires Valid() && x < |parents| && y < |parents|
      modifies this
      ensures Valid() && |parents| == old(|parents|)
      ensures Merges(old(rep), rep, x, y)
    {
      var rx := Find(x);
      var ry := Find(y);
      assert NodeOk(parents, rep, depth, bound, x) && NodeOk(parents, rep, depth, bound, y);
      if rx != ry {
        if * {
          LinkKeepsForest(parents, rep, depth, bound, rx, ry);
          depth, bound, rep := RaisedDepth(depth, rep, ry, bound), 2 * bound, MergedRep(rep, rx, ry);
          parents := parents[rx := ry];
        } else {
          LinkKeepsForest(parents, rep, depth, bound, ry, rx);
          depth, bound, rep := RaisedDepth(depth, rep, rx, bound), 2 * bound, MergedRep(rep, ry, rx);
          parents := parents[ry := rx];
        }
      }
    }
  }

  // ---------------------------------------------------------------- chains of shared names

  /** Some dependency name is shared by the two functions. */
  ghost predicate Share(deps: seq<seq<nat>>, a: nat, b: nat) {
    exists g :: 0 <= g < |deps| && a in deps[g] && b in deps[g]
  }

  ghost predicate Chain(deps: seq<seq<nat>>, path: seq<nat>) {
    path != [] && forall i :: 0 <= i < |path| - 1 ==> Share(deps, path[i], path[i + 1])
  }

  /** A chain of shared names leads from one function to the other. */
  ghost predicate Linked(deps: seq<seq<nat>>, a: nat, b: nat) {
    exists path :: Chain(deps, path) && path[0] == a && path[|path| - 1] == b
  }

  lemma LinkedSelf(deps: seq<seq<nat>>, a: nat)
    ensures Linked(deps, a, a)
  {
    assert Chain(deps, [a]);
  }

  lemma LinkedTrans(deps: seq<seq<nat>>, a: nat, b: nat, c: nat)
    requires Linked(deps, a, b) && Linked(deps, b, c)
    ensures Linked(deps, a, c)
  {
    var p :| Chain(deps, p) && p[0] == a && p[|p| - 1] == b;
    var q :| Chain(deps, q) && q[0] == b && q[|q| - 1] == c;
    var path := p + q[1..];
    forall i | 0 <= i < |path| - 1 ensures Share(deps, path[i], path[i + 1]) {
      if i < |p| - 1 {
        assert Share(deps, p[i], p[i + 1]);
      } else {
        assert Share(deps, q[i - |p| + 1], q[i - |p| + 2]);
      }
    }
    assert Chain(deps, path);
  }

  lemma LinkedSym(deps: seq<seq<nat>>, a: nat, b: nat)
    requires Linked(deps, a, b)
    ensures Linked(deps, b, a)
  {
    var p :| Chain(deps, p) && p[0] == a && p[|p| - 1] == b;
    var q := seq(|p|, i requires 0 <= i < |p| => p[|p| - 1 - i]);
    forall i | 0 <= i < |q| - 1 ensures Share(deps, q[i], q[i + 1]) {
      assert Share(deps, p[|p| - 2 - i], p[|p| - 2 - i + 1]);
    }
    assert Chain(deps, q);
  }

  lemma LinkedShare(deps: seq<seq<nat>>, a: nat, b: nat)
    requires Share(deps, a, b)
    ensures Linked(deps, a, b)
  {
    assert Chain(deps, [a, b]);
  }

  /** If sharing a name implies equal roots, so does being linked by a chain. */
  lemma {:induction false} ChainKeepsRep(deps: seq<seq<nat>>, rep: seq<nat>, path: seq<nat>)
    requires Chain(deps, path) && path[0] < |rep|
    requires forall g, a :: 0 <= g < |deps| && a in deps[g] ==> a < |rep|
    requires forall a: nat, b: nat :: Share(deps, a, b) && a < |rep| && b < |rep| ==> rep[a] == rep[b]
    ensures path[|path| - 1] < |rep| && rep[path[|path| - 1]] == rep[path[0]]
  {
    if |path| > 1 {
      assert Share(deps, path[0], path[1]);
      assert path[1..] != [] && forall i :: 0 <= i < |path[1..]| - 1 ==> Share(deps, path[1..][i], path[1..][i + 1]) by {
        forall i | 0 <= i < |path[1..]| - 1 ensures Share(deps, path[1..][i], path[1..][i + 1]) {
          assert Share(deps, path[i + 1], path[i + 2]);
        }
      }
      ChainKeepsRep(deps, rep, path[1..]);
    }
  }

  // ---------------------------------------------------------------- grouping the functions

  ghost predicate InRange(deps: seq<seq<nat>>, n: nat) {
    forall g, a :: 0 <= g < |deps| && a in deps[g] ==> a < n
  }

  /** The partition of the functions is the one by chains of shared names. */
  ghost predicate PartitionByChains(deps: seq<seq<nat>>, rep: seq<nat>) {
    forall a, b :: 0 <= a < |rep| && 0 <= b < |rep| ==> (rep[a] == rep[b] <==> Linked(deps, a, b) || a == b)
  }

  /** Unites, per name, every function that uses it with the first one: two functions end up
      together exactly when a chain of shared names links them. */
  method Unite(n: nat, deps: seq<seq<nat>>) returns (sets: DisjointSet)
    requires InRange(deps, n)
    ensures fresh(sets) && sets.Valid() && |sets.parents| == n
    ensures PartitionByChains(deps, sets.rep)
  {
    sets := new DisjointSet(n);
    var g := 0;
    while g < |deps|
      invariant 0 <= g <= |deps| && fresh(sets) && sets.Valid() && |sets.parents| == n
      invariant Sound(deps, sets.rep)
      invariant forall h :: 0 <= h < g ==> Joined(deps[h], |deps[h]|, sets.rep)
    {
      UniteGroup(sets, deps, g);
      g := g + 1;
    }
    Complete(deps, sets.rep);
  }

  method UniteGroup(sets: DisjointSet, deps: seq<seq<nat>>, g: nat)
    requires sets.Valid() && InRange(deps, |sets.parents|) && g < |deps| && Sound(deps, sets.rep)
    requires forall h :: 0 <= h < g ==> Joined(deps[h], |deps[h]|, sets.rep)
    modifies sets
    ensures sets.Valid() && |sets.parents| == old(|sets.parents|) && Sound(deps, sets.rep)
    ensures forall h :: 0 <= h <= g ==> Joined(deps[h], |deps[h]|, sets.rep)
  {
    var ids := deps[g];
    var j := 0;
    while j < |ids|
      invariant 0 <= j <= |ids| && sets.Valid() && |sets.parents| == old(|sets.parents|)
      invariant Sound(deps, sets.rep)
      invariant forall h :: 0 <= h < g ==> Joined(deps[h], |deps[h]|, sets.rep)
      invariant Joined(ids, j, sets.rep)
    {
      assert ids[0] in deps[g] && ids[j] in deps[g];
      ghost var before := sets.rep;
      sets.Union(ids[0], ids[j]);
      UnionSound(deps, before, sets.rep, ids[0], ids[j]);
      forall h | 0 <= h < g ensures Joined(deps[h], |deps[h]|, sets.rep) {
        MergeKeepsJoined(before, sets.rep, ids[0], ids[j], deps[h], |deps[h]|);
      }
      MergeKeepsJoined(before, sets.rep, ids[0], ids[j], ids, j);
      j := j + 1;
    }
  }

  lemma MergeKeepsJoined(before: seq<nat>, after: seq<nat>, x: nat, y: nat, ids: seq<nat>, j: nat)
    requires x < |before| && y < |before| && Merges(before, after, x, y) && Joined(ids, j, before)
    ensures Joined(ids, j, after)
  {
  }

  ghost predicate Sound(deps: seq<seq<nat>>, rep: seq<nat>) {
    forall a, b :: 0 <= a < |rep| && 0 <= b < |rep| && rep[a] == rep[b] ==> Linked(deps, a, b) || a == b
  }

  ghost predicate Joined(ids: seq<nat>, j: nat, rep: seq<nat>) {
    forall i :: 0 <= i < j <= |ids| ==> ids[0] < |rep| && ids[i] < |rep| && rep[ids[i]] == rep[ids[0]]
  }

  lemma UnionSound(deps: seq<seq<nat>>, rep: seq<nat>, rep': seq<nat>, x: nat, y: nat)
    requires x < |rep| && y < |rep| && Sound(deps, rep) && Share(deps, x, y) && Merges(rep, rep', x, y)
    ensures Sound(deps, rep')
  {
    LinkedShare(deps, x, y);
    LinkedSym(deps, x, y);
    forall a, b | 0 <= a < |rep| && 0 <= b < |rep| && rep'[a] == rep'[b] ensures Linked(deps, a, b) || a == b {
      if rep[a] == rep[x] && rep[b] == rep[y] {
        Bridge(deps, rep, a, x, y, b);
      } else if rep[a] == rep[y] && rep[b] == rep[x] {
        Bridge(deps, rep, a, y, x, b);
      }
    }
  }

  lemma Bridge(deps: seq<seq<nat>>, rep: seq<nat>, a: nat, u: nat, v: nat, b: nat)
    requires a < |rep| && u < |rep| && v < |rep| && b < |rep| && Sound(deps, rep)
    requires rep[a] == rep[u] && rep[v] == rep[b] && Linked(deps, u, v)
    ensures Linked(deps, a, b)
  {
    if a == u { LinkedSelf(deps, a); }
    if v == b { LinkedSelf(deps, b); }
    LinkedTrans(deps, a, u, v);
    LinkedTrans(deps, a, v, b);
  }

  lemma Complete(deps: seq<seq<nat>>, rep: seq<nat>)
    requires InRange(deps, |rep|) && forall h :: 0 <= h < |deps| ==> Joined(deps[h], |deps[h]|, rep)
    ensures forall a, b :: 0 <= a < |rep| && 0 <= b < |rep| && Linked(deps, a, b) ==> rep[a] == rep[b]
  {
    forall a: nat, b: nat | Share(deps, a, b) && a < |rep| && b < |rep| ensures rep[a] == rep[b] {
      var g :| 0 <= g < |deps| && a in deps[g] && b in deps[g];
      assert Joined(deps[g], |deps[g]|, rep);
    }
    forall a, b | 0 <= a < |rep| && 0 <= b < |rep| && Linked(deps, a, b) ensures rep[a] == rep[b] {
      var path :| Chain(deps, path) && path[0] == a && path[|path| - 1] == b;
      ChainKeepsRep(deps, rep, path);
    }
  }
}
