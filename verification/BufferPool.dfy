/**
  Reference-counted recording buffers. The pool keeps one reference to each of its buffers; a
  buffer is leased only while that is the only one, and dies with its last reference.
  Buffers are numbered in the order they are made, so a number is never used twice.
*/
module BufferPool {
  import opened Wrappers

  /** One buffer: its count is the pool's reference plus its leases; at zero it is gone. */
  ghost predicate Tally(b: nat, pooled: bool, references: map<nat, nat>, made: nat, leases: multiset<nat>, deleted: multiset<nat>) {
    if b in references
    then references[b] == (if pooled then 1 else 0) + leases[b] && references[b] > 0 && b < made && deleted[b] == 0
    else !pooled && leases[b] == 0 && deleted[b] == (if b < made then 1 else 0)
  }

  class Pool {
    var buffers: seq<nat>
    var next: nat
    var references: map<nat, nat>
    var made: nat

    /** References held outside the pool, and the buffers that have been deleted. */
    ghost var leases: multiset<nat>
    ghost var deleted: multiset<nat>

    /** The pool's reference and the leases are all there is, and a buffer without references
        has been deleted exactly once. */
    ghost predicate Counted()
      reads `buffers, `references, `made, `leases, `deleted
    {
      && (forall i, j :: 0 <= i < j < |buffers| ==> buffers[i] != buffers[j])
      && (forall b :: Tally(b, b in buffers, references, made, leases, deleted))
    }

    ghost predicate Valid()
      reads this
    {
      Counted() && (next == 0 || next < |buffers|)
    }

    constructor ()
      ensures Valid() && buffers == [] && leases == multiset{}
    {
      buffers, next, references, made := [], 0, map[], 0;
      leases, deleted := multiset{}, multiset{};
    }

    /** The pool gives back its reference to its first buffer. */
    method DropFirst()
      requires Valid() && buffers != []
      modifies `references, `deleted, `buffers, `next
      ensures Valid() && buffers == old(buffers)[1..]
    {
      var b := buffers[0];
      assert Tally(b, b in buffers, references, made, leases, deleted);
      var left := references[b] - 1;
      if left == 0 {
        references := references - {b};
        deleted := deleted + multiset{b};
      } else {
        references := references[b := left];
      }
      buffers, next := buffers[1..], 0;
      forall x ensures Tally(x, x in buffers, references, made, leases, deleted) {
        assert Tally(x, x in old(buffers), old(references), made, leases, old(deleted));
        assert x in buffers <==> x in old(buffers) && x != b;
      }
    }

    method Clear()
      requires Valid()
      modifies `references, `deleted, `buffers, `next
      ensures Valid() && buffers == [] && next == 0
    {
      hide *;
      while buffers != []
        invariant Valid()
        decreases |buffers|
      {
        DropFirst();
      }
      Rewind();
    }

    method Rewind()
      requires Valid()
      modifies `next
      ensures Valid() && next == 0
    {
      hide Counted;
      next := 0;
    }

    method AddBuffer()
      requires Valid()
      modifies `references, `buffers, `made
      ensures Valid() && buffers == old(buffers) + [old(made)] && made == old(made) + 1
      ensures leases[old(made)] == 0
    {
      var b := made;
      assert Tally(b, b in buffers, references, made, leases, deleted);
      references := references[b := 1];
      buffers, made := buffers + [b], made + 1;
      forall x ensures Tally(x, x in buffers, references, made, leases, deleted) {
        assert Tally(x, x in old(buffers), old(references), old(made), leases, deleted);
      }
    }

    /** A new set of buffers replaces the old one; leased old buffers live on. */
    method Allocate(count: nat)
      requires Valid()
      modifies `references, `deleted, `buffers, `next, `made
      ensures Valid() && |buffers| == count
      ensures forall i :: 0 <= i < count ==> buffers[i] >= old(made) && leases[buffers[i]] == 0
    {
      hide *;
      Clear();
      for i := 0 to count
        invariant Valid() && |buffers| == i && made >= old(made)
        invariant forall k :: 0 <= k < i ==> buffers[k] >= old(made) && leases[buffers[k]] == 0
      {
        AddBuffer();
      }
    }

    /** One atomic attempt to take a buffer that nobody else references. */
    method TryLease(b: nat) returns (taken: bool)
      requires Valid() && b in buffers
      modifies `references, `leases
      ensures Valid() && taken == (old(references)[b] == 1)
      ensures taken <==> old(leases)[b] == 0
      ensures leases == if taken then old(leases) + multiset{b} else old(leases)
    {
      assert Tally(b, b in buffers, references, made, leases, deleted);
      if references[b] != 1 { return false; }
      references := references[b := 2];
      leases := leases + multiset{b};
      Others(old(references), old(leases), deleted, b);
      return true;
    }

    /** Scans every buffer once, from where the last scan stopped. The result was referenced by
        the pool alone; there is none only if every buffer is leased. */
    method Acquire() returns (result: Option<nat>)
      requires Valid()
      modifies `references, `leases, `next
      ensures Valid()
      ensures result.Some? ==> result.value in buffers && old(leases)[result.value] == 0 && leases == old(leases) + multiset{result.value}
      ensures result.None? ==> leases == old(leases) && forall b :: b in buffers ==> leases[b] > 0
    {
      Index();
      hide *;
      result := None;
      if buffers == [] { return; }
      ghost var order := buffers[next..] + buffers[..next];
      for i := 0 to |buffers|
        invariant Valid() && leases == old(leases)
        invariant next < |buffers| && next == if old(next) + i < |buffers| then old(next) + i else old(next) + i - |buffers|
        invariant forall k :: 0 <= k < i ==> leases[order[k]] > 0
      {
        var index := next;
        assert buffers[index] == order[i];
        Advance();
        var taken := TryLease(buffers[index]);
        if taken { return Some(buffers[index]); }
      }
      assert forall b :: b in buffers ==> b in order;
    }

    method Advance()
      requires Valid() && buffers != []
      modifies `next
      ensures Valid() && next == if old(next) + 1 == |buffers| then 0 else old(next) + 1
    {
      hide Counted;
      next := (next + 1) % |buffers|;
    }

    lemma Index()
      requires Valid()
      ensures buffers != [] ==> next < |buffers|
    {
    }

    method AddRef(b: nat)
      requires Valid() && leases[b] > 0
      modifies `references, `leases
      ensures Valid() && leases == old(leases) + multiset{b}
    {
      assert Tally(b, b in buffers, references, made, leases, deleted);
      references := references[b := references[b] + 1];
      leases := leases + multiset{b};
      Others(old(references), old(leases), deleted, b);
    }

    /** The last reference deletes the buffer, exactly once. */
    method Release(b: nat) returns (left: nat)
      requires Valid() && leases[b] > 0
      modifies `references, `leases, `deleted
      ensures Valid() && leases == old(leases) - multiset{b}
      ensures left == (if b in buffers then 1 else 0) + leases[b]
      ensures deleted == if left == 0 then old(deleted) + multiset{b} else old(deleted)
    {
      assert Tally(b, b in buffers, references, made, leases, deleted);
      left := references[b] - 1;
      leases := leases - multiset{b};
      if left == 0 {
        references := references - {b};
        deleted := deleted + multiset{b};
      } else {
        references := references[b := left];
      }
      Others(old(references), old(leases), old(deleted), b);
    }

    /** Buffers other than `b` are unaffected by a step that only concerns `b`. */
    lemma Others(was: map<nat, nat>, before: multiset<nat>, gone: multiset<nat>, b: nat)
      requires forall x :: Tally(x, x in buffers, was, made, before, gone)
      requires Tally(b, b in buffers, references, made, leases, deleted)
      requires forall x: nat :: x != b ==> (x in references <==> x in was) && (x in was ==> references[x] == was[x])
      requires forall x: nat :: x != b ==> leases[x] == before[x] && deleted[x] == gone[x]
      ensures forall x :: Tally(x, x in buffers, references, made, leases, deleted)
    {
    }
  }
}
