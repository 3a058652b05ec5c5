/**
  `get_ht_pos` as one thread runs it undisturbed, on the table in place; it keeps the invariant
  of the concurrent runs in `ProbeTable`.
 */
module HashTable {
  import opened Counting
  import opened ProbeTable

  /** The table between the calls of a lone thread. */
  function Quiet(slots: seq<nat>, size: nat): State { State(slots, size, [Idle], []) }

  lemma AloneReady(slots: seq<nat>, size: nat, p: Probe)
    requires Inv(Quiet(slots, size)) && ProbeOk(slots, p)
    requires size <= HT_MAX_SIZE / 2 || p.hash == UNKNOWN_HASH
    ensures Inv(State(slots, size, [CompareExchange(p)], []))
  {
    var threads := [CompareExchange(p)];
    assert threads[..0] == [];
    assert [Idle][..0] == [];
    assert Count([Idle], Lagging) == 0 && Count([Idle], Pending) == 0;
    assert Count(threads, Lagging) == 0;
    assert Count(threads, Pending) == if p.hash != UNKNOWN_HASH then 1 else 0;
  }

  /** Taking an empty slot for the hash: the two steps of the state machine that do it. */
  lemma InsertKeepsInv(slots: seq<nat>, size: nat, p: Probe)
    requires Inv(Quiet(slots, size)) && ProbeOk(slots, p) && slots[p.pos] == 0
    requires size <= HT_MAX_SIZE / 2 || p.hash == UNKNOWN_HASH
    ensures Inv(Quiet(slots[p.pos := p.hash], size + 1))
  {
    AloneReady(slots, size, p);
    var s := State(slots, size, [CompareExchange(p)], []);
    hide PathsOk;
    hide CountsOk;
    StepKeepsInv(s, 0, 0);
    var s1 := Step(s, 0, 0);
    assert s1 == State(slots[p.pos := p.hash], size, [Increment(p)], []);
    StepKeepsInv(s1, 0, 0);
    ForgetSettled(Step(s1, 0, 0));
  }

  lemma ForgetSettled(s: State)
    requires Inv(s)
    ensures Inv(s.(settled := []))
  {
  }

  class HashTable {
    const ht: array<nat>
    var size: nat

    ghost predicate Valid()
      reads this, ht
    {
      Inv(Quiet(ht[..], size))
    }

    constructor ()
      ensures Valid() && fresh(ht) && size == 0 && forall i :: 0 <= i < ht.Length ==> ht[i] == 0
    {
      ht := new nat[HT_MAX_SIZE](_ => 0);
      size := 0;
      new;
      InitialOk(1);
      assert Quiet(ht[..], size) == Initial(1);
    }

    /** The hash whose slot a call returns: the one asked for, or the one of unknown callers when
        the table is half full and the hash is new. */
    ghost function Answer(hash: nat, force: bool): nat
      reads this, ht
    {
      if (hash != 0 && hash in ht[..]) || size <= HT_MAX_SIZE / 2 || force then hash else UNKNOWN_HASH
    }

    /** Returns the slot of the answer; an answer that is stored changes nothing, any other takes
        an empty slot. Hash 0, which marks empty slots, is never stored. */
    method GetHtPos(hash: nat, force: bool) returns (pos: nat)
      requires Valid() && (force ==> hash == UNKNOWN_HASH)
      modifies this`size, ht
      ensures Valid() && pos < ht.Length
      ensures ht[pos] == old(Answer(hash, force))
      ensures old(Answer(hash, force) != 0 && Answer(hash, force) in ht[..]) ==>
        ht[..] == old(ht[..]) && size == old(size)
      ensures !old(Answer(hash, force) != 0 && Answer(hash, force) in ht[..]) ==>
        && old(ht[..])[pos] == 0 && ht[..] == old(ht[..])[pos := old(Answer(hash, force))]
        && size == old(size) + 1
      decreases !force
    {
      hide PathsOk;
      hide CountsOk;
      hide PathTaken;
      pos := hash % HT_MAX_SIZE;
      var wasOverflow := false;
      BeginOk(ht[..], hash, hash, force);
      while true
        invariant pos < HT_MAX_SIZE == ht.Length && ht[..] == old(ht[..]) && size == old(size)
        invariant ProbeOk(ht[..], Probe(hash, hash, force, pos, wasOverflow))
        decreases Ahead(Probe(hash, hash, force, pos, wasOverflow))
      {
        ghost var p := Probe(hash, hash, force, pos, wasOverflow);
        if ht[pos] == 0 {
          NotStored(Quiet(ht[..], size), p);
          if size > HT_MAX_SIZE / 2 {
            if force {
              OccupancyBound(Quiet(ht[..], size));
              assert size * 10 < HT_MAX_SIZE * 7;
            } else {
              pos := GetHtPos(UNKNOWN_HASH, true);
              return;
            }
          }
          InsertKeepsInv(ht[..], size, p);
          ht[pos] := hash;
          size := size + 1;
          assert ht[..] == old(ht[..])[pos := hash];
          return;
        } else if ht[pos] == hash {
          assert ht[..][pos] == hash;
          return;
        } else {
          AdvanceOk(Quiet(ht[..], size), p);
          pos := pos + 1;
          if pos == HT_MAX_SIZE {
            pos := 0;
            assert !wasOverflow;
            wasOverflow := true;
          }
        }
      }
    }
  }
}
