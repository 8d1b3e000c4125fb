/**
 The doubly linked list of include/grinch/list.h, on a memory of nodes named by their addresses.

 A list is a ring through its head; the ghost sequence lists the other nodes in order.
 */
module List {
  import opened Basics

  /** The node after position i of a ring. */
  ghost function After(ring: seq<nat>, i: nat): (n: nat)
    requires i < |ring|
  {
    if i + 1 < |ring| then ring[i + 1] else ring[0]
  }

  ghost predicate Linked(next: map<nat, nat>, prev: map<nat, nat>, ring: seq<nat>) {
    && Unique(ring)
    && forall i: nat :: i < |ring| ==>
    ring[i] in next && next[ring[i]] == After(ring, i) && After(ring, i) in prev && prev[After(ring, i)] == ring[i]
  }

  /** The ring of `head` holds exactly the nodes of s, in order. */
  ghost predicate IsList(next: map<nat, nat>, prev: map<nat, nat>, head: nat, s: seq<nat>) {
    Linked(next, prev, [head] + s)
  }

  /** Where `list_add_sorted` puts an entry: before the first one that comes later. */
  function Place(key: map<nat, nat>, s: seq<nat>, k: nat): (i: nat)
    ensures i <= |s|
  {
    if s == [] || Key(key, s[0]) > k then 0 else 1 + Place(key, s[1..], k)
  }

  function Key(key: map<nat, nat>, n: nat): (k: nat) {
    if n in key then key[n] else 0
  }

  ghost predicate Sorted(key: map<nat, nat>, s: seq<nat>) {
    forall i, j :: 0 <= i < j < |s| ==> Key(key, s[i]) <= Key(key, s[j])
  }

  lemma {:induction false} PlaceFacts(key: map<nat, nat>, s: seq<nat>, k: nat)
    ensures var i := Place(key, s, k);
            (forall j :: 0 <= j < i ==> Key(key, s[j]) <= k) && (i < |s| ==> Key(key, s[i]) > k)
  {
    if s != [] && Key(key, s[0]) <= k {
      PlaceFacts(key, s[1..], k);
      var i := Place(key, s[1..], k);
      assert forall j :: 1 <= j < i + 1 ==> s[j] == s[1..][j - 1];
    }
  }

  /** A sorted list stays sorted, and an entry comes after those with the same key. */
  lemma PlaceSorted(key: map<nat, nat>, s: seq<nat>, n: nat)
    requires Sorted(key, s)
    ensures var i := Place(key, s, Key(key, n)); Sorted(key, s[..i] + [n] + s[i..])
  {
    var i := Place(key, s, Key(key, n));
    PlaceFacts(key, s, Key(key, n));
    if i < |s| {
      assert forall j :: i <= j < |s| ==> Key(key, s[i]) <= Key(key, s[j]);
    }
  }

  /** Linking a node between two neighbours of a ring. */
  lemma LinkedInsert(next: map<nat, nat>, prev: map<nat, nat>, ring: seq<nat>, i: nat, n: nat)
    requires Linked(next, prev, ring) && i < |ring| && n !in ring
    ensures var a, b := ring[i], After(ring, i);
            Linked(next[n := b][a := n], prev[b := n][n := a], ring[..i + 1] + [n] + ring[i + 1..])
  {
    var a, b, r := ring[i], After(ring, i), ring[..i + 1] + [n] + ring[i + 1..];
    var next', prev' := next[n := b][a := n], prev[b := n][n := a];
    forall k: nat | k < |r|
      ensures r[k] in next' && next'[r[k]] == After(r, k) && After(r, k) in prev' && prev'[After(r, k)] == r[k]
    {
      if k <= i {
        assert r[k] == ring[k];
      } else if k > i + 1 {
        assert r[k] == ring[k - 1];
      }
    }
  }

  lemma LinkedRemove(next: map<nat, nat>, prev: map<nat, nat>, ring: seq<nat>, i: nat)
    requires Linked(next, prev, ring) && 0 < i < |ring|
    ensures ring[i] in next && ring[i] in prev
    ensures var a, b := prev[ring[i]], next[ring[i]]; Linked(next[a := b], prev[b := a], ring[..i] + ring[i + 1..])
  {
    assert After(ring, i - 1) == ring[i];
    var a, b, r := ring[i - 1], After(ring, i), ring[..i] + ring[i + 1..];
    assert prev[ring[i]] == a && next[ring[i]] == b;
    forall k: nat | k < |r|
      ensures r[k] in next[a := b] && next[a := b][r[k]] == After(r, k) && After(r, k) in prev[b := a]
              && prev[b := a][After(r, k)] == r[k]
    {
      if k < i - 1 {
        assert r[k] == ring[k] && After(r, k) == After(ring, k) == ring[k + 1];
      } else if k == i - 1 {
        assert r[k] == a && After(r, k) == b;
      } else {
        assert r[k] == ring[k + 1] && After(r, k) == After(ring, k + 1);
      }
    }
  }

  class Nodes {
    var next: map<nat, nat>
    var prev: map<nat, nat>

    ghost predicate Holds(head: nat, s: seq<nat>)
      reads this
    {
      IsList(next, prev, head, s)
    }

    /** `__list_add` */
    method Link(n: nat, a: nat, b: nat)
      modifies this
      ensures next == old(next)[n := b][a := n] && prev == old(prev)[b := n][n := a]
    {
      prev := prev[b := n];
      next := next[n := b];
      prev := prev[n := a];
      next := next[a := n];
    }

    /** `list_add`: the entry becomes the first of the list. */
    method Add(n: nat, head: nat, ghost s: seq<nat>)
      requires Holds(head, s) && n != head && n !in s
      modifies this
      ensures Holds(head, [n] + s)
      ensures forall x :: x in old(next) && x != head ==> x in next && (x != n ==> next[x] == old(next)[x])
    {
      ghost var ring := [head] + s;
      LinkedInsert(next, prev, ring, 0, n);
      assert ring[0] == head && next[head] == After(ring, 0);
      assert ring[..1] + [n] + ring[1..] == [head] + ([n] + s);
      Link(n, head, next[head]);
    }

    /** `list_add_tail`: the entry becomes the last of the list. */
    method AddTail(n: nat, head: nat, ghost s: seq<nat>)
      requires Holds(head, s) && n != head && n !in s
      modifies this
      ensures Holds(head, s + [n])
    {
      ghost var ring := [head] + s;
      LinkedInsert(next, prev, ring, |s|, n);
      assert After(ring, |s|) == head && prev[head] == ring[|s|];
      assert ring[..|s| + 1] + [n] + ring[|s| + 1..] == [head] + (s + [n]);
      Link(n, prev[head], head);
    }

    /** `list_del`: the list without the entry. */
    method Del(n: nat, head: nat, ghost s: seq<nat>, ghost i: nat)
      requires Holds(head, s) && i < |s| && s[i] == n
      modifies this
      ensures Holds(head, s[..i] + s[i + 1..])
    {
      ghost var ring := [head] + s;
      LinkedRemove(next, prev, ring, i + 1);
      assert ring[i + 1] == n;
      assert ring[..i + 1] + ring[i + 2..] == [head] + (s[..i] + s[i + 1..]);
      var a, b := prev[n], next[n];
      prev := prev[b := a];
      next := next[a := b];
    }

    /** The first entry that comes later than the key, or the head. */
    method FindLater(head: nat, key: map<nat, nat>, k: nat, ghost s: seq<nat>) returns (pos: nat)
      requires Holds(head, s)
      ensures pos == After([head] + s, Place(key, s, k))
    {
      ghost var ring, i := [head] + s, 0;
      assert next[ring[0]] == After(ring, 0);
      pos := next[head];
      while pos != head && Key(key, pos) <= k
        invariant 0 <= i <= |s| && pos == After(ring, i) && Place(key, s, k) == i + Place(key, s[i..], k)
        decreases |s| - i
      {
        assert s[i..][1..] == s[i + 1..];
        assert next[ring[i + 1]] == After(ring, i + 1);
        i := i + 1;
        pos := next[pos];
      }
      assert i < |s| ==> ring[i + 1] != ring[0];
    }

    /** Puts an entry before a node of the ring. */
    method AddBefore(n: nat, pos: nat, head: nat, ghost s: seq<nat>, ghost i: nat)
      requires Holds(head, s) && n != head && n !in s && i <= |s| && pos == After([head] + s, i)
      modifies this
      ensures Holds(head, s[..i] + [n] + s[i..])
    {
      ghost var ring := [head] + s;
      LinkedInsert(next, prev, ring, i, n);
      assert ring[..i + 1] + [n] + ring[i + 1..] == [head] + (s[..i] + [n] + s[i..]);
      assert next[ring[i]] == pos && prev[pos] == ring[i];
      var a := prev[pos];
      Link(n, a, next[a]);
    }

    /** `list_add_sorted`: the entry goes before the first one that comes later, or to the end. */
    method AddSorted(head: nat, n: nat, key: map<nat, nat>, ghost s: seq<nat>)
      requires Holds(head, s) && n != head && n !in s && Sorted(key, s)
      modifies this
      ensures var i := Place(key, s, Key(key, n));
              Holds(head, s[..i] + [n] + s[i..]) && Sorted(key, s[..i] + [n] + s[i..])
    {
      PlaceSorted(key, s, n);
      var pos := FindLater(head, key, Key(key, n), s);
      ghost var i := Place(key, s, Key(key, n));
      if i < |s| {
        NotHead(s, head, i);
      }
      if pos != head {
        AddBefore(n, pos, head, s, i);
      } else {
        AddTail(n, head, s);
        assert s[..i] + [n] + s[i..] == s + [n];
      }
    }

    /** Only the end of the list is followed by its head. */
    lemma NotHead(s: seq<nat>, head: nat, i: nat)
      requires Holds(head, s) && i < |s|
      ensures After([head] + s, i) != head
    {
      var ring := [head] + s;
      assert ring[0] != ring[i + 1];
    }
  }
}
