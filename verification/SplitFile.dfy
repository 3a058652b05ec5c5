/**
  Splitting a source file: functions that share dependency names, directly or through others,
  stay together; the resulting groups are packed longest first into the given number of files.
  A function is its index, its text is only its length.
 */
module SplitFile {
  import opened DisjointSets
  import opened Packing

  /** The functions of one set in file order, and their total length. */
  datatype Group = Group(ids: seq<nat>, size: nat)

  ghost predicate AllBelow(ids: seq<nat>, n: nat) {
    forall i :: 0 <= i < |ids| ==> ids[i] < n
  }

  ghost predicate Ascending(ids: seq<nat>) {
    forall i, j :: 0 <= i < j < |ids| ==> ids[i] < ids[j]
  }

  function TextSize(lengths: seq<nat>, ids: seq<nat>): nat
    requires AllBelow(ids, |lengths|)
  {
    if ids == [] then 0 else TextSize(lengths, ids[..|ids| - 1]) + lengths[ids[|ids| - 1]]
  }

  function Sizes(groups: seq<Group>): (sizes: seq<nat>)
    ensures |sizes| == |groups| && forall i :: 0 <= i < |groups| ==> sizes[i] == groups[i].size
  {
    seq(|groups|, i requires 0 <= i < |groups| => groups[i].size)
  }

  /** All functions of the groups, with multiplicity. */
  ghost function AllIds(groups: seq<Group>): multiset<nat> {
    if groups == [] then multiset{} else AllIds(groups[..|groups| - 1]) + multiset(groups[|groups| - 1].ids)
  }

  ghost function Range(n: nat): multiset<nat> {
    if n == 0 then multiset{} else Range(n - 1) + multiset{n - 1}
  }

  lemma {:induction false} RangeHas(n: nat, x: nat)
    ensures Range(n)[x] == if x < n then 1 else 0
  {
    if n > 0 {
      RangeHas(n - 1, x);
    }
  }

  lemma Swap(a: multiset<nat>, b: multiset<nat>, c: multiset<nat>)
    ensures a + b + c == a + c + b
  {
  }

  lemma SwapIn(a: multiset<nat>, b: multiset<nat>, c: multiset<nat>)
    ensures a + (b + c) == a + b + c
  {
  }

  lemma {:induction false} AllIdsUpdate(groups: seq<Group>, j: nat, g: Group, x: nat)
    requires j < |groups| && g.ids == groups[j].ids + [x]
    ensures AllIds(groups[j := g]) == AllIds(groups) + multiset{x}
  {
    var n := |groups| - 1;
    var last := multiset(groups[n].ids);
    if j == n {
      assert groups[j := g][..n] == groups[..n];
      SwapIn(AllIds(groups[..n]), last, multiset{x});
    } else {
      assert groups[j := g][..n] == groups[..n][j := g];
      AllIdsUpdate(groups[..n], j, g, x);
      Swap(AllIds(groups[..n]), multiset{x}, last);
    }
  }

  // ---------------------------------------------------------------- collecting the sets

  /** Group `j` lists, in file order, exactly the functions below `n` whose root is `keys[j]`. */
  ghost predicate Collected(lengths: seq<nat>, rep: seq<nat>, groups: seq<Group>, keys: seq<nat>, n: nat) {
    && |keys| == |groups| && n <= |rep| == |lengths|
    && (forall j :: 0 <= j < |groups| ==> GroupOk(lengths, rep, groups[j], keys[j], n))
    && (forall x :: 0 <= x < n ==> rep[x] in keys)
    && AllIds(groups) == Range(n)
  }

  ghost predicate GroupOk(lengths: seq<nat>, rep: seq<nat>, g: Group, key: nat, n: nat)
    requires n <= |rep| == |lengths|
  {
    && AllBelow(g.ids, n) && Ascending(g.ids)
    && (forall x: nat :: x < n ==> (x in g.ids <==> rep[x] == key))
    && g.size == TextSize(lengths, g.ids)
  }

  ghost predicate Indexed(position: map<nat, nat>, keys: seq<nat>) {
    && (forall p :: p in position <==> p in keys)
    && (forall p :: p in position ==> position[p] < |keys| && keys[position[p]] == p)
    && (forall j :: 0 <= j < |keys| ==> keys[j] in position && position[keys[j]] == j)
  }

  lemma NothingCollected(lengths: seq<nat>, rep: seq<nat>)
    requires |rep| == |lengths|
    ensures Collected(lengths, rep, [], [], 0) && Indexed(map[], [])
  {
  }

  /** The loop that appends each function to the set of its root. */
  method CollectSets(lengths: seq<nat>, sets: DisjointSet) returns (groups: seq<Group>, ghost keys: seq<nat>)
    requires sets.Valid() && |sets.parents| == |lengths|
    modifies sets
    ensures sets.Valid() && sets.rep == old(sets.rep)
    ensures Collected(lengths, sets.rep, groups, keys, |lengths|)
  {
    hide Collected;
    hide Indexed;
    hide AllIds;
    ghost var rep := sets.rep;
    groups, keys := [], [];
    var position: map<nat, nat> := map[];
    NothingCollected(lengths, rep);
    var i := 0;
    while i < |lengths|
      invariant 0 <= i <= |lengths| && sets.Valid() && |sets.parents| == |lengths| && sets.rep == rep
      invariant Collected(lengths, rep, groups, keys, i) && Indexed(position, keys)
    {
      var parent := sets.Find(i);
      groups, position, keys := AppendToSet(lengths, rep, i, parent, groups, position, keys);
      i := i + 1;
    }
  }

  method AppendToSet(lengths: seq<nat>, ghost rep: seq<nat>, i: nat, parent: nat,
                     groups: seq<Group>, position: map<nat, nat>, ghost keys: seq<nat>)
    returns (groups': seq<Group>, position': map<nat, nat>, ghost keys': seq<nat>)
    requires Collected(lengths, rep, groups, keys, i) && Indexed(position, keys)
    requires i < |rep| && parent == rep[i]
    ensures Collected(lengths, rep, groups', keys', i + 1) && Indexed(position', keys')
  {
    groups', position', keys' := groups, position, keys;
    if parent !in position {
      AddEmpty(lengths, rep, groups, keys, i, parent);
      IndexedSnoc(position, keys, parent);
      position' := position[parent := |groups|];
      groups', keys' := groups + [Group([], 0)], keys + [parent];
    }
    var j := position'[parent];
    AddFunction(lengths, rep, groups', keys', i, j);
    groups' := groups'[j := Group(groups'[j].ids + [i], groups'[j].size + lengths[i])];
  }

  lemma IndexedSnoc(position: map<nat, nat>, keys: seq<nat>, p: nat)
    requires Indexed(position, keys) && p !in position
    ensures Indexed(position[p := |keys|], keys + [p])
  {
  }

  lemma AddEmpty(lengths: seq<nat>, rep: seq<nat>, groups: seq<Group>, keys: seq<nat>, n: nat, key: nat)
    requires Collected(lengths, rep, groups, keys, n) && key !in keys
    ensures Collected(lengths, rep, groups + [Group([], 0)], keys + [key], n)
  {
    var groups', keys' := groups + [Group([], 0)], keys + [key];
    assert groups'[..|groups|] == groups;
    forall j | 0 <= j < |groups'| ensures GroupOk(lengths, rep, groups'[j], keys'[j], n) {
      if j < |groups| {
        assert GroupOk(lengths, rep, groups[j], keys[j], n);
      } else {
        forall x: nat | x < n ensures rep[x] != key {
          assert rep[x] in keys;
        }
      }
    }
  }

  lemma GroupGrows(lengths: seq<nat>, rep: seq<nat>, g: Group, n: nat)
    requires n < |rep| == |lengths| && GroupOk(lengths, rep, g, rep[n], n)
    ensures GroupOk(lengths, rep, Group(g.ids + [n], g.size + lengths[n]), rep[n], n + 1)
  {
    assert (g.ids + [n])[..|g.ids|] == g.ids;
  }

  lemma OtherGroupKeeps(lengths: seq<nat>, rep: seq<nat>, g: Group, key: nat, n: nat)
    requires n < |rep| == |lengths| && GroupOk(lengths, rep, g, key, n) && key != rep[n]
    ensures GroupOk(lengths, rep, g, key, n + 1)
  {
  }

  lemma AddFunction(lengths: seq<nat>, rep: seq<nat>, groups: seq<Group>, keys: seq<nat>, n: nat, j: nat)
    requires Collected(lengths, rep, groups, keys, n) && n < |rep| && j < |groups| && keys[j] == rep[n]
    requires forall i :: 0 <= i < |keys| && keys[i] == keys[j] ==> i == j
    ensures Collected(lengths, rep, groups[j := Group(groups[j].ids + [n], groups[j].size + lengths[n])], keys, n + 1)
  {
    var g := Group(groups[j].ids + [n], groups[j].size + lengths[n]);
    var groups' := groups[j := g];
    forall i | 0 <= i < |groups'| ensures GroupOk(lengths, rep, groups'[i], keys[i], n + 1) {
      assert GroupOk(lengths, rep, groups[i], keys[i], n);
      if i == j {
        GroupGrows(lengths, rep, groups[i], n);
      } else {
        OtherGroupKeeps(lengths, rep, groups[i], keys[i], n);
      }
    }
    assert AllIds(groups') == Range(n + 1) by {
      AllIdsUpdate(groups, j, g, n);
    }
  }

  // ---------------------------------------------------------------- arsort

  ghost predicate LargestFirst(groups: seq<Group>) {
    forall i, j :: 0 <= i < j < |groups| ==> groups[i].size >= groups[j].size
  }

  function Insert(g: Group, groups: seq<Group>): (r: seq<Group>)
    requires LargestFirst(groups)
    ensures LargestFirst(r) && multiset(r) == multiset(groups) + multiset{g}
    ensures r != [] && (r[0] == g || (groups != [] && r[0] == groups[0]))
  {
    if groups == [] || groups[0].size <= g.size then [g] + groups
    else
      var rest := Insert(g, groups[1..]);
      assert groups == [groups[0]] + groups[1..];
      [groups[0]] + rest
  }

  /** Sorts by size, largest first, equal sizes in their former order. */
  function Arsort(groups: seq<Group>): (r: seq<Group>)
    ensures LargestFirst(r) && multiset(r) == multiset(groups)
  {
    if groups == [] then []
    else
      assert groups == [groups[0]] + groups[1..];
      Insert(groups[0], Arsort(groups[1..]))
  }

  /** The groups of one size, in order. */
  ghost function OfSize(groups: seq<Group>, size: nat): seq<Group> {
    if groups == [] then []
    else (if groups[0].size == size then [groups[0]] else []) + OfSize(groups[1..], size)
  }

  lemma {:induction false} InsertIsStable(g: Group, groups: seq<Group>, size: nat)
    requires LargestFirst(groups)
    ensures OfSize(Insert(g, groups), size) == OfSize([g] + groups, size)
  {
    assert ([g] + groups)[1..] == groups;
    if groups != [] && groups[0].size > g.size {
      InsertIsStable(g, groups[1..], size);
      var rest := Insert(g, groups[1..]);
      assert ([groups[0]] + rest)[1..] == rest;
      assert ([g] + groups[1..])[1..] == groups[1..];
    }
  }

  /** Sorting keeps groups of equal size in their former order. */
  lemma {:induction false} ArsortIsStable(groups: seq<Group>, size: nat)
    ensures OfSize(Arsort(groups), size) == OfSize(groups, size)
  {
    if groups != [] {
      var rest := Arsort(groups[1..]);
      ArsortIsStable(groups[1..], size);
      InsertIsStable(groups[0], rest, size);
      assert ([groups[0]] + rest)[1..] == rest;
    }
  }

  // ---------------------------------------------------------------- the files

  /** The groups a file receives, one after the other. */
  function FileText(groups: seq<Group>, files: seq<nat>, k: nat): seq<nat>
    requires |groups| == |files|
  {
    if groups == [] then []
    else
      var n := |groups| - 1;
      FileText(groups[..n], files[..n], k) + if files[n] == k then groups[n].ids else []
  }

  /** Every group stands in its file in one piece, behind all groups placed there earlier. */
  lemma {:induction false} GroupInFile(groups: seq<Group>, files: seq<nat>, i: nat)
    requires |groups| == |files| && i < |groups|
    ensures var text, at := FileText(groups, files, files[i]), |FileText(groups[..i], files[..i], files[i])|;
      at + |groups[i].ids| <= |text| && text[at..at + |groups[i].ids|] == groups[i].ids
  {
    var n := |groups| - 1;
    if i < n {
      GroupInFile(groups[..n], files[..n], i);
      assert groups[..n][..i] == groups[..i] && files[..n][..i] == files[..i];
    }
  }

  /** What a file's text holds, with multiplicity. */
  ghost function TextIds(groups: seq<Group>, files: seq<nat>, k: nat): multiset<nat>
    requires |groups| == |files|
  {
    multiset(FileText(groups, files, k))
  }

  /** All functions written to the first `m` files, with multiplicity. */
  ghost function Written(groups: seq<Group>, files: seq<nat>, m: nat): multiset<nat>
    requires |groups| == |files|
  {
    if m == 0 then multiset{} else Written(groups, files, m - 1) + TextIds(groups, files, m - 1)
  }

  lemma TextIdsStep(groups: seq<Group>, files: seq<nat>, k: nat)
    requires |groups| == |files| > 0
    ensures var n := |groups| - 1;
      TextIds(groups, files, k) ==
        TextIds(groups[..n], files[..n], k) + if files[n] == k then multiset(groups[n].ids) else multiset{}
  {
  }

  lemma {:induction false} WrittenStep(groups: seq<Group>, files: seq<nat>, m: nat)
    requires |groups| == |files| > 0
    ensures var n := |groups| - 1;
      Written(groups, files, m) ==
        Written(groups[..n], files[..n], m) + if files[n] < m then multiset(groups[n].ids) else multiset{}
  {
    hide TextIds;
    if m > 0 {
      var n := |groups| - 1;
      WrittenStep(groups, files, m - 1);
      TextIdsStep(groups, files, m - 1);
      var fewer, text := Written(groups[..n], files[..n], m - 1), TextIds(groups[..n], files[..n], m - 1);
      SwapIn(fewer, text, multiset(groups[n].ids));
      Swap(fewer, multiset(groups[n].ids), text);
    }
  }

  lemma {:induction false} NothingWritten(m: nat)
    ensures Written([], [], m) == multiset{}
  {
    if m > 0 {
      NothingWritten(m - 1);
    }
  }

  lemma {:induction false} AllIdsWritten(groups: seq<Group>, files: seq<nat>, m: nat)
    requires |groups| == |files| && forall i :: 0 <= i < |files| ==> files[i] < m
    ensures Written(groups, files, m) == AllIds(groups)
  {
    if groups == [] {
      NothingWritten(m);
    } else {
      WrittenStep(groups, files, m);
      AllIdsWritten(groups[..|groups| - 1], files[..|files| - 1], m);
    }
  }

  /** `AllIds` does not depend on the order of the groups. */
  lemma {:induction false} AllIdsPermutes(a: seq<Group>, b: seq<Group>)
    requires multiset(a) == multiset(b)
    ensures AllIds(a) == AllIds(b)
  {
    if a == [] {
      assert |b| == |multiset(b)|;
    } else {
      var n := |a| - 1;
      assert a[n] in multiset(b);
      var j :| 0 <= j < |b| && b[j] == a[n];
      var rest := b[..j] + b[j + 1..];
      assert a == a[..n] + [a[n]];
      assert b == b[..j] + [b[j]] + b[j + 1..];
      assert multiset(rest) == multiset(b[..j]) + multiset(b[j + 1..]) == multiset(b) - multiset{a[n]};
      AllIdsPermutes(a[..n], rest);
      AllIdsRemove(b, j);
    }
  }

  lemma {:induction false} AllIdsRemove(groups: seq<Group>, j: nat)
    requires j < |groups|
    ensures AllIds(groups) == AllIds(groups[..j] + groups[j + 1..]) + multiset(groups[j].ids)
  {
    var n := |groups| - 1;
    if j == n {
      assert groups[..j] + groups[j + 1..] == groups[..n];
    } else {
      AllIdsRemove(groups[..n], j);
      var rest := groups[..j] + groups[j + 1..];
      var others := groups[..n][..j] + groups[..n][j + 1..];
      assert rest[..|rest| - 1] == others && rest[|rest| - 1] == groups[n];
      Swap(AllIds(others), multiset(groups[j].ids), multiset(groups[n].ids));
    }
  }

  /** A group lists in file order one class of functions linked by chains of shared names. */
  ghost predicate IsClass(lengths: seq<nat>, deps: seq<seq<nat>>, g: Group) {
    && AllBelow(g.ids, |lengths|) && Ascending(g.ids) && g.size == TextSize(lengths, g.ids)
    && forall a: nat, b: nat :: a < |lengths| && b < |lengths| && a in g.ids ==>
         (b in g.ids <==> Linked(deps, a, b) || a == b)
  }

  lemma CollectedIsClass(lengths: seq<nat>, deps: seq<seq<nat>>, rep: seq<nat>, groups: seq<Group>, keys: seq<nat>, g: Group)
    requires Collected(lengths, rep, groups, keys, |lengths|) && PartitionByChains(deps, rep) && g in groups
    ensures IsClass(lengths, deps, g)
  {
    var j :| 0 <= j < |groups| && groups[j] == g;
    assert GroupOk(lengths, rep, groups[j], keys[j], |lengths|);
  }

  lemma CollectedAreClasses(lengths: seq<nat>, deps: seq<seq<nat>>, rep: seq<nat>,
                            collected: seq<Group>, keys: seq<nat>, groups: seq<Group>)
    requires Collected(lengths, rep, collected, keys, |lengths|) && PartitionByChains(deps, rep)
    requires multiset(groups) == multiset(collected)
    ensures forall g :: g in groups ==> IsClass(lengths, deps, g)
    ensures AllIds(collected) == Range(|lengths|)
  {
    hide IsClass;
    forall g | g in groups ensures IsClass(lengths, deps, g) {
      assert g in multiset(groups);
      CollectedIsClass(lengths, deps, rep, collected, keys, g);
    }
  }

  /** The whole split: refused when there are fewer functions than files; otherwise every
      function lands in exactly one file, whole classes stay together, and the files are packed
      longest class first. */
  method Split(lengths: seq<nat>, deps: seq<seq<nat>>, chunks: nat)
    returns (ok: bool, groups: seq<Group>, files: seq<nat>, texts: seq<seq<nat>>)
    requires chunks > 0 && InRange(deps, |lengths|)
    ensures ok <==> |lengths| >= chunks
    ensures ok ==> LargestFirst(groups) && forall g :: g in groups ==> IsClass(lengths, deps, g)
    ensures ok ==> IsGreedy(Sizes(groups), files, chunks)
    ensures ok ==> |texts| == chunks && |files| == |groups|
    ensures ok ==> forall k :: 0 <= k < chunks ==> texts[k] == FileText(groups, files, k)
    ensures ok ==> Written(groups, files, chunks) == Range(|lengths|)
  {
    hide IsClass;
    hide Collected;
    hide PartitionByChains;
    hide AllIds;
    hide Written;
    hide Range;
    hide IsFirstMin;
    hide Loads;
    if |lengths| < chunks {
      return false, [], [], [];
    }
    var sets := Unite(|lengths|, deps);
    var collected, keys := CollectSets(lengths, sets);
    groups := Arsort(collected);
    AllIdsPermutes(collected, groups);
    CollectedAreClasses(lengths, deps, sets.rep, collected, keys, groups);
    var fileSizes;
    files, fileSizes := Pack(Sizes(groups), chunks);
    AllIdsWritten(groups, files, chunks);
    texts := seq(chunks, k requires 0 <= k && |groups| == |files| => FileText(groups, files, k));
    ok := true;
  }

  lemma {:induction false} TextSizeAppend(lengths: seq<nat>, a: seq<nat>, b: seq<nat>)
    requires AllBelow(a, |lengths|) && AllBelow(b, |lengths|)
    ensures AllBelow(a + b, |lengths|) && TextSize(lengths, a + b) == TextSize(lengths, a) + TextSize(lengths, b)
  {
    if b == [] {
      assert a + b == a;
    } else {
      var n := |b| - 1;
      assert (a + b)[..|a + b| - 1] == a + b[..n];
      TextSizeAppend(lengths, a, b[..n]);
    }
  }

  /** The size kept for a file while packing is the size of the text written to it. */
  lemma {:induction false} LoadIsTextSize(
    lengths: seq<nat>, deps: seq<seq<nat>>, groups: seq<Group>, files: seq<nat>, k: nat)
    requires |groups| == |files| && forall g :: g in groups ==> IsClass(lengths, deps, g)
    ensures AllBelow(FileText(groups, files, k), |lengths|)
    ensures TextSize(lengths, FileText(groups, files, k)) == Load(Sizes(groups), files, k)
  {
    if groups == [] {
      assert Sizes(groups) == [];
    } else {
      var n := |groups| - 1;
      assert groups[n] in groups;
      assert Sizes(groups)[..n] == Sizes(groups[..n]);
      assert IsClass(lengths, deps, groups[n]);
      LoadIsTextSize(lengths, deps, groups[..n], files[..n], k);
      var before := FileText(groups[..n], files[..n], k);
      if files[n] == k {
        TextSizeAppend(lengths, before, groups[n].ids);
      } else {
        assert FileText(groups, files, k) == before;
      }
    }
  }

  /** The sizes of the produced files meet the longest-first bound against every other way to
      distribute the same groups. */
  lemma SplitIsBalanced(groups: seq<Group>, files: seq<nat>, chunks: nat, other: seq<nat>, best: nat, k: nat)
    requires LargestFirst(groups) && IsGreedy(Sizes(groups), files, chunks) && k < chunks
    requires IsAssignment(Sizes(groups), other, chunks) && Within(Sizes(groups), other, chunks, best)
    ensures 3 * (chunks * Load(Sizes(groups), files, k)) <= (4 * chunks - 1) * best
  {
    LongestFirstBound(Sizes(groups), files, chunks, other, best, k);
  }
}
