/**
  The replay window: message identifiers kept sorted in an array of 2N entries that drops its
  lower half when full, next to the plain checkers that keep the N newest in an ordered set.
 */
module DuplicateChecker {

  /** `Status`: error 1 is a repeated identifier, error 2 one below the oldest known. */
  datatype Status = Ok | AlreadyProcessed | VeryOld

  ghost predicate Sorted(s: seq<nat>) {
    forall i, j :: 0 <= i < j < |s| ==> s[i] < s[j]
  }

  function Elements(s: seq<nat>): set<nat> { set x | x in s }

  // ---------------------------------------------------------------- the array checker

  /** The first position whose entry is not below `id`. */
  function LowerBound(s: seq<nat>, id: nat): (k: nat)
    ensures k <= |s|
    ensures forall i :: 0 <= i < k ==> s[i] < id
    ensures k < |s| ==> s[k] >= id
  {
    if s == [] || s[0] >= id then 0 else 1 + LowerBound(s[1..], id)
  }

  function Compact(s: seq<nat>, n: nat): seq<nat> {
    if |s| == 2 * n then s[n..] else s
  }

  /** One call of `check_message_id_duplicates` on the entries in use. */
  function CheckArray(s: seq<nat>, n: nat, id: nat): (Status, seq<nat>) {
    var s := Compact(s, n);
    if s == [] || id > s[|s| - 1] then (Ok, s + [id])
    else if |s| >= n && id < s[0] then (VeryOld, s)
    else
      var k := LowerBound(s, id);
      if k < |s| && s[k] == id then (AlreadyProcessed, s) else (Ok, Inserted(s, k, id))
  }

  /** Several calls of `CheckArray` in a row; their answers are what `ArrayAccepts` asks about. */
  ghost function ArrayAfter(n: nat, ids: seq<nat>): seq<nat> {
    if ids == [] then [] else CheckArray(ArrayAfter(n, ids[..|ids| - 1]), n, ids[|ids| - 1]).1
  }

  /** `s` lists, in order, every member of `offered` from `s[0]` on: the top of `offered`. */
  ghost predicate TopOf(s: seq<nat>, offered: set<nat>) {
    && Sorted(s) && (s == [] ==> offered == {})
    && (s != [] ==> forall x :: x in s <==> x in offered && x >= s[0])
  }

  /** The invariant of the array: the newest identifiers, between N (or all) and 2N of them. */
  ghost predicate Window(s: seq<nat>, n: nat, offered: set<nat>) {
    TopOf(s, offered) && |s| <= 2 * n && (|s| < n ==> forall x :: x in offered ==> x in s)
  }

  lemma CompactKeepsWindow(s: seq<nat>, n: nat, offered: set<nat>)
    requires n > 0 && Window(s, n, offered)
    ensures Window(Compact(s, n), n, offered) && |Compact(s, n)| < 2 * n
    ensures Compact(s, n) == [] ==> offered == {}
  {
    var c := Compact(s, n);
    if |s| == 2 * n {
      forall x | x in offered && x >= c[0] ensures x in c {
        assert x in s;
        var j :| 0 <= j < |s| && s[j] == x;
        assert x == c[j - n];
      }
      forall x | x in c ensures x in offered && x >= c[0] {
        assert x in s;
      }
    }
  }

  /** The verdict in terms of everything ever offered: an identifier is accepted just when it is
      new and, once N entries are kept, not below all of them. */
  lemma ArrayVerdict(s: seq<nat>, n: nat, offered: set<nat>, id: nat)
    requires n > 0 && Window(s, n, offered)
    ensures var c := Compact(s, n);
      CheckArray(s, n, id).0.Ok? <==> id !in offered && (|c| < n || id > c[0])
    ensures CheckArray(s, n, id).0.AlreadyProcessed? <==> id in Compact(s, n)
    ensures CheckArray(s, n, id).0.AlreadyProcessed? ==> id in offered
    ensures Window(CheckArray(s, n, id).1, n, offered + {id})
  {
    CompactKeepsWindow(s, n, offered);
    var c := Compact(s, n);
    if c == [] || id > c[|c| - 1] {
      AppendKeepsWindow(c, n, offered, id);
    } else if !(|c| >= n && id < c[0]) {
      var k := LowerBound(c, id);
      if c[k] == id {
        assert id in c && offered + {id} == offered;
      } else {
        InsertKeepsWindow(c, n, offered, id, k);
      }
    }
  }

  lemma OkIsKept(s: seq<nat>, n: nat, id: nat)
    requires CheckArray(s, n, id).0.Ok?
    ensures id in CheckArray(s, n, id).1
  {
    var c := Compact(s, n);
    if c == [] || id > c[|c| - 1] {
      assert (c + [id])[|c|] == id;
    } else {
      InsertedMembers(c, LowerBound(c, id), id, id);
    }
  }

  lemma AppendKeepsWindow(c: seq<nat>, n: nat, offered: set<nat>, id: nat)
    requires n > 0 && Window(c, n, offered) && |c| < 2 * n && (c == [] || id > c[|c| - 1])
    ensures id !in offered && Window(c + [id], n, offered + {id})
  {
    if c != [] {
      assert id !in c && id >= c[0];
    }
  }

  function Inserted(c: seq<nat>, k: nat, id: nat): (r: seq<nat>)
    requires k <= |c|
    ensures |r| == |c| + 1
    ensures forall i :: 0 <= i < |r| ==> r[i] == if i < k then c[i] else if i == k then id else c[i - 1]
  {
    c[..k] + [id] + c[k..]
  }

  lemma InsertedMembers(c: seq<nat>, k: nat, id: nat, x: nat)
    requires k <= |c|
    ensures x in Inserted(c, k, id) <==> x == id || x in c
  {
    var r := Inserted(c, k, id);
    assert r[k] == id;
    if x in c {
      var i :| 0 <= i < |c| && c[i] == x;
      assert r[if i < k then i else i + 1] == x;
    }
  }

  lemma InsertKeepsWindow(c: seq<nat>, n: nat, offered: set<nat>, id: nat, k: nat)
    requires n > 0 && Window(c, n, offered) && |c| < 2 * n && k < |c|
    requires (forall i :: 0 <= i < k ==> c[i] < id) && id < c[k] && (|c| < n || id >= c[0])
    ensures id !in offered && Window(Inserted(c, k, id), n, offered + {id})
  {
    var r := Inserted(c, k, id);
    assert Sorted(r);
    assert id !in c;
    forall x ensures x in r <==> x in offered + {id} && x >= r[0] {
      if x >= 0 {
        InsertedMembers(c, k, id, x);
      }
    }
  }

  ghost function Offered(ids: seq<nat>): set<nat> { Elements(ids) }

  lemma OfferedSnoc(ids: seq<nat>)
    requires ids != []
    ensures Offered(ids) == Offered(ids[..|ids| - 1]) + {ids[|ids| - 1]}
  {
    assert ids == ids[..|ids| - 1] + [ids[|ids| - 1]];
  }

  /** After any sequence of identifiers the array is the sorted top of all of them. */
  lemma {:induction false} ArrayIsTop(n: nat, ids: seq<nat>)
    requires n > 0
    ensures Window(ArrayAfter(n, ids), n, Offered(ids))
  {
    if ids != [] {
      var prior := ids[..|ids| - 1];
      ArrayIsTop(n, prior);
      OfferedSnoc(ids);
      ArrayVerdict(ArrayAfter(n, prior), n, Offered(prior), ids[|ids| - 1]);
    }
  }

  /** How many of the identifiers were accepted. */
  ghost function AcceptedCount(n: nat, ids: seq<nat>): nat {
    if ids == [] then 0
    else
      var prior := ids[..|ids| - 1];
      AcceptedCount(n, prior) + if CheckArray(ArrayAfter(n, prior), n, ids[|ids| - 1]).0.Ok? then 1 else 0
  }

  /** The exact size: nothing accepted is forgotten except N at a time, and only once 2N are kept. */
  lemma {:induction false} ArraySize(n: nat, ids: seq<nat>) returns (drops: nat)
    requires n > 0
    ensures var size := |ArrayAfter(n, ids)|;
      && AcceptedCount(n, ids) == size + drops * n && size <= 2 * n
      && (drops > 0 ==> size >= n)
  {
    drops := 0;
    if ids != [] {
      var k := |ids| - 1;
      drops := ArraySize(n, ids[..k]);
      CheckSize(ArrayAfter(n, ids[..k]), n, ids[k]);
      hide CheckArray;
      hide Compact;
      if |ArrayAfter(n, ids[..k])| == 2 * n {
        assert (drops + 1) * n == drops * n + n;
        drops := drops + 1;
      }
    }
  }

  lemma CheckSize(s: seq<nat>, n: nat, id: nat)
    ensures |CheckArray(s, n, id).1|
      == (if |s| == 2 * n then n else |s|) + if CheckArray(s, n, id).0.Ok? then 1 else 0
  {
  }

  // ---------------------------------------------------------------- the set checkers

  ghost predicate IsMin(s: set<nat>, x: nat) { x in s && forall y :: y in s ==> x <= y }

  lemma {:induction false} MinExists(s: set<nat>)
    requires s != {}
    ensures exists x :: IsMin(s, x)
    decreases |s|
  {
    var y :| y in s;
    if s == {y} {
      assert IsMin(s, y);
    } else {
      MinExists(s - {y});
      var z :| IsMin(s - {y}, z);
      assert s == s - {y} + {y};
      assert IsMin(s, if y < z then y else z);
    }
  }

  /** The least element; `*begin()` of the ordered set. */
  ghost function Min(s: set<nat>): (x: nat)
    requires s != {}
    ensures IsMin(s, x)
  {
    MinExists(s);
    var x :| IsMin(s, x);
    x
  }

  /** `IdDuplicateCheckerOld::check`. */
  ghost function CheckOld(s: set<nat>, n: nat, id: nat): (Status, set<nat>)
    requires n > 0
  {
    if |s| == n && id < Min(s) then (VeryOld, s)
    else if id in s then (AlreadyProcessed, s)
    else
      var t := s + {id};
      (Ok, if |t| > n then t - {Min(t)} else t)
  }

  /** `IdDuplicateCheckerNew::check`. */
  ghost function CheckNew(s: set<nat>, n: nat, id: nat): (Status, set<nat>) {
    if id in s then (AlreadyProcessed, s)
    else
      var t := s + {id};
      if |t| == n + 1 then (if Min(t) == id then VeryOld else Ok, t - {Min(t)}) else (Ok, t)
  }

  ghost function OldAfter(n: nat, ids: seq<nat>): set<nat>
    requires n > 0
  {
    if ids == [] then {} else CheckOld(OldAfter(n, ids[..|ids| - 1]), n, ids[|ids| - 1]).1
  }

  /** The two set checkers give the same answers and keep the same sets. */
  lemma OldEqualsNew(s: set<nat>, n: nat, id: nat)
    requires n > 0 && |s| <= n
    ensures CheckOld(s, n, id) == CheckNew(s, n, id)
    ensures |CheckOld(s, n, id).1| <= n
  {
    var t := s + {id};
    if id !in s && |s| == n {
      assert |t| == n + 1;
      if id < Min(s) {
        assert IsMin(t, id);
        assert t - {id} == s;
      }
    }
  }

  /** `s` holds the n largest members of `offered`, or all of them. */
  ghost predicate SetWindow(s: set<nat>, n: nat, offered: set<nat>) {
    && s <= offered && |s| <= n && (|s| == n || s == offered)
    && forall x, y :: x in offered && x !in s && y in s ==> x < y
  }

  lemma SetVerdict(s: set<nat>, n: nat, offered: set<nat>, id: nat)
    requires n > 0 && SetWindow(s, n, offered)
    ensures CheckOld(s, n, id).0.Ok? <==> id !in offered && (|s| < n || id > Min(s))
    ensures SetWindow(CheckOld(s, n, id).1, n, offered + {id})
  {
    var t := s + {id};
    if id !in s && !(|s| == n && id < Min(s)) {
      assert |t| == |s| + 1;
      assert id !in offered;
    }
  }

  lemma {:induction false} OldIsTop(n: nat, ids: seq<nat>)
    requires n > 0
    ensures SetWindow(OldAfter(n, ids), n, Offered(ids))
  {
    if ids != [] {
      var prior := ids[..|ids| - 1];
      OldIsTop(n, prior);
      OfferedSnoc(ids);
      SetVerdict(OldAfter(n, prior), n, Offered(prior), ids[|ids| - 1]);
    }
  }

  // ---------------------------------------------------------------- the sandwich

  ghost predicate ArrayAccepts(n: nat, ids: seq<nat>, id: nat) { CheckArray(ArrayAfter(n, ids), n, id).0.Ok? }

  ghost predicate SetAccepts(n: nat, ids: seq<nat>, id: nat)
    requires n > 0
  {
    CheckOld(OldAfter(n, ids), n, id).0.Ok?
  }

  lemma SortedSize(s: seq<nat>)
    requires Sorted(s)
    ensures |Elements(s)| == |s|
  {
    if s != [] {
      var n := |s| - 1;
      SortedSize(s[..n]);
      assert s == s[..n] + [s[n]];
      assert Elements(s) == Elements(s[..n]) + {s[n]};
    }
  }

  /** Of the array's and a set checker's window the smaller is contained in the larger. */
  lemma TopsNest(s: seq<nat>, t: set<nat>, n: nat, offered: set<nat>)
    requires TopOf(s, offered) && SetWindow(t, n, offered)
    ensures |s| <= |t| ==> Elements(s) <= t
    ensures |t| <= |s| ==> t <= Elements(s)
  {
    SortedSize(s);
    var e := Elements(s);
    if e <= t {
      if |t| <= |e| {
        assert |t - e| == |t| - |e|;
        assert t - e == {};
      }
    } else {
      var x :| x in e && x !in t;
      forall y | y in t ensures y in e {
        assert x < y && x >= s[0];
      }
      assert t <= e;
      assert |e - t| == |e| - |t|;
      assert x in e - t;
    }
  }

  lemma ArraySmallerThanSet(n: nat, c: seq<nat>, t: set<nat>, offered: set<nat>)
    requires n > 0 && c != [] && TopOf(c, offered) && SetWindow(t, n, offered) && |t| == n <= |c|
    ensures c[0] <= Min(t)
  {
    TopsNest(c, t, n, offered);
    assert Min(t) in t;
    assert Min(t) in Elements(c);
  }

  lemma SetSmallerThanArray(n: nat, c: seq<nat>, t: set<nat>, offered: set<nat>)
    requires n > 0 && c != [] && TopOf(c, offered) && SetWindow(t, n, offered) && |c| <= n == |t|
    ensures Min(t) <= c[0]
  {
    TopsNest(c, t, n, offered);
    assert c[0] in c;
    assert c[0] in Elements(c);
  }

  /** After any history, whatever the plain checker of the N newest accepts the array accepts,
      and whatever the array accepts the plain checker of the 2N newest accepts. */
  lemma Sandwich(n: nat, ids: seq<nat>, id: nat)
    requires n > 0
    ensures SetAccepts(n, ids, id) ==> ArrayAccepts(n, ids, id)
    ensures ArrayAccepts(n, ids, id) ==> SetAccepts(2 * n, ids, id)
  {
    var offered, a := Offered(ids), ArrayAfter(n, ids);
    var small, large := OldAfter(n, ids), OldAfter(2 * n, ids);
    ArrayIsTop(n, ids);
    OldIsTop(n, ids);
    OldIsTop(2 * n, ids);
    ArrayVerdict(a, n, offered, id);
    SetVerdict(small, n, offered, id);
    SetVerdict(large, 2 * n, offered, id);
    CompactKeepsWindow(a, n, offered);
    SandwichAt(n, Compact(a, n), small, large, offered, id);
  }

  lemma SandwichAt(n: nat, c: seq<nat>, small: set<nat>, large: set<nat>, offered: set<nat>, id: nat)
    requires n > 0 && Window(c, n, offered) && |c| < 2 * n
    requires SetWindow(small, n, offered) && SetWindow(large, 2 * n, offered)
    ensures id !in offered && (|small| < n || id > Min(small)) ==> |c| < n || id > c[0]
    ensures id !in offered && (|c| < n || id > c[0]) ==> |large| < 2 * n || id > Min(large)
  {
    SortedSize(c);
    if |c| >= n {
      if |small| == n {
        ArraySmallerThanSet(n, c, small, offered);
      } else {
        assert Elements(c) <= offered == small;
        SubsetSize(Elements(c), small);
        assert false;
      }
    }
    if |large| == 2 * n {
      if c == [] {
        assert false;
      } else {
        SetSmallerThanArray(2 * n, c, large, offered);
        if |c| < n {
          assert large <= offered <= Elements(c);
          SubsetSize(large, Elements(c));
          assert false;
        }
      }
    }
  }

  lemma SubsetSize(a: set<nat>, b: set<nat>)
    requires a <= b
    ensures |a| <= |b|
  {
    assert |b - a| == |b| - |a|;
  }

  // ---------------------------------------------------------------- the checkers in place

  lemma LowerBoundUnique(s: seq<nat>, id: nat, k: nat)
    requires k <= |s| && (forall i :: 0 <= i < k ==> s[i] < id) && (k < |s| ==> s[k] >= id)
    ensures LowerBound(s, id) == k
  {
  }

  /** `MessageIdDuplicateChecker<max_size>`. */
  class MessageIdDuplicateChecker {
    const n: nat
    const ids: array<nat>
    var endPos: nat

    ghost predicate Valid()
      reads this, ids
    {
      n > 0 && ids.Length == 2 * n && endPos <= 2 * n && Sorted(Entries())
    }

    ghost function Entries(): seq<nat>
      requires endPos <= ids.Length
      reads this, ids
    {
      ids[..endPos]
    }

    constructor (n: nat)
      requires n > 0
      ensures Valid() && fresh(ids) && this.n == n && Entries() == []
    {
      this.n := n;
      ids := new nat[2 * n](_ => 0);
      endPos := 0;
    }

    /** `std::lower_bound` over the entries in use. */
    method Find(id: nat) returns (k: nat)
      requires Valid()
      ensures k == LowerBound(Entries(), id)
    {
      var lo, hi := 0, endPos;
      while lo < hi
        invariant 0 <= lo <= hi <= endPos
        invariant forall i :: 0 <= i < lo ==> Entries()[i] < id
        invariant forall i :: hi <= i < endPos ==> Entries()[i] >= id
      {
        var mid := (lo + hi) / 2;
        if ids[mid] < id { lo := mid + 1; } else { hi := mid; }
      }
      LowerBoundUnique(Entries(), id, lo);
      k := lo;
    }

    /** The full array keeps its upper half. */
    method DropLowerHalf()
      requires Valid()
      modifies this`endPos, ids
      ensures endPos <= ids.Length && Entries() == Compact(old(Entries()), n)
    {
      if endPos == 2 * n {
        var i := 0;
        while i < n
          invariant 0 <= i <= n
          invariant forall j :: 0 <= j < i ==> ids[j] == old(ids[n + j])
          invariant forall j :: n <= j < 2 * n ==> ids[j] == old(ids[j])
        {
          ids[i] := ids[n + i];
          i := i + 1;
        }
        endPos := n;
      }
    }

    /** Shifts the entries from `k` up by one and writes `id` there. */
    method InsertAt(k: nat, id: nat)
      requires endPos < ids.Length && k <= endPos
      modifies this`endPos, ids
      ensures endPos <= ids.Length && Entries() == Inserted(old(Entries()), k, id)
    {
      ghost var was, len := ids[..], endPos;
      var i := endPos;
      while i > k
        invariant k <= i <= endPos == len
        invariant forall j :: 0 <= j <= i && j < len ==> ids[j] == was[j]
        invariant forall j :: i < j <= len ==> ids[j] == was[j - 1]
      {
        ids[i] := ids[i - 1];
        i := i - 1;
      }
      ids[k] := id;
      endPos := endPos + 1;
      assert Entries() == Inserted(was[..len], k, id);
    }

    method Check(id: nat) returns (status: Status)
      requires Valid()
      modifies this`endPos, ids
      ensures endPos <= ids.Length && (status, Entries()) == CheckArray(old(Entries()), n, id)
      ensures Valid()
    {
      CheckKeepsSorted(Entries(), n, id);
      DropLowerHalf();
      if endPos == 0 || id > ids[endPos - 1] {
        ghost var c := Entries();
        ids[endPos] := id;
        endPos := endPos + 1;
        assert Entries() == c + [id];
        return Ok;
      }
      if endPos >= n && id < ids[0] {
        return VeryOld;
      }
      var k := Find(id);
      if ids[k] == id {
        return AlreadyProcessed;
      }
      InsertAt(k, id);
      return Ok;
    }
  }

  lemma CheckKeepsSorted(s: seq<nat>, n: nat, id: nat)
    requires n > 0 && Sorted(s) && |s| <= 2 * n
    ensures Sorted(Compact(s, n)) && |Compact(s, n)| < 2 * n
    ensures Sorted(CheckArray(s, n, id).1) && |CheckArray(s, n, id).1| <= 2 * n
  {
    var c := Compact(s, n);
    assert Sorted(c) && |c| < 2 * n;
    if c != [] && id <= c[|c| - 1] && !(|c| >= n && id < c[0]) {
      InsertedSorted(c, LowerBound(c, id), id);
    }
  }

  lemma InsertedSorted(c: seq<nat>, k: nat, id: nat)
    requires Sorted(c) && k < |c| && (forall i :: 0 <= i < k ==> c[i] < id) && id <= c[k]
    ensures c[k] != id ==> Sorted(Inserted(c, k, id))
  {
  }

  /** `*begin()` of an ordered set. */
  method Begin(s: set<nat>) returns (x: nat)
    requires s != {}
    ensures x == Min(s)
  {
    x :| x in s;
    var rest := s - {x};
    while rest != {}
      invariant rest <= s && x in s && forall y :: y in s ==> y in rest || x <= y
      decreases rest
    {
      var y :| y in rest;
      if y < x { x := y; }
      rest := rest - {y};
    }
  }

  /** `IdDuplicateCheckerOld`. */
  class IdDuplicateCheckerOld {
    const n: nat
    var saved: set<nat>

    constructor (n: nat)
      ensures this.n == n && saved == {}
    {
      this.n := n;
      saved := {};
    }

    method Check(id: nat) returns (status: Status)
      requires n > 0
      modifies this
      ensures (status, saved) == CheckOld(old(saved), n, id)
    {
      if |saved| == n {
        var oldest := Begin(saved);
        if id < oldest { return VeryOld; }
      }
      if id in saved { return AlreadyProcessed; }
      saved := saved + {id};
      if |saved| > n {
        var oldest := Begin(saved);
        saved := saved - {oldest};
      }
      return Ok;
    }
  }

  /** `IdDuplicateCheckerNew`. */
  class IdDuplicateCheckerNew {
    const n: nat
    var saved: set<nat>

    constructor (n: nat)
      ensures this.n == n && saved == {}
    {
      this.n := n;
      saved := {};
    }

    method Check(id: nat) returns (status: Status)
      modifies this
      ensures (status, saved) == CheckNew(old(saved), n, id)
    {
      var inserted := id !in saved;
      assert !inserted ==> saved + {id} == saved;
      saved := saved + {id};
      if !inserted { return AlreadyProcessed; }
      if |saved| == n + 1 {
        var begin := Begin(saved);
        saved := saved - {begin};
        if begin == id { return VeryOld; }
      }
      return Ok;
    }
  }
}
