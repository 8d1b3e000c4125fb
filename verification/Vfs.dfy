/**
 The directory and file lookup cache (fs/vfs.c).

 Entries are named by their addresses; the root has address 0. `nodes` is what the kernel
 keeps. `open` is what it is for: the handles and mount pins that users of the cache hold, each
 at one entry. What kmalloc and the file systems answer is a parameter.
 */
module Vfs {
  import opened Basics
  import opened Wrappers

  const MAX_PATHLEN: nat := 64

  /** Error numbers; NullOps is none: it stands for the read through a missing table of operations, which is a trap. */
  datatype Error =
    | ENOENT | ENOMEM | EBUSY | EEXIST | ENOTDIR | EINVAL | ENOSYS | ENAMETOOLONG
    | Other(code: int)
    | NullOps

  datatype Result<T> = Ok(value: T) | Err(error: Error)

  /** `struct dflc` */
  datatype Node = Node(parent: Option<nat>, name: string, kids: seq<nat>, dir: bool, mount: bool, refs: nat)

  /** What a file system operation answers: a file or directory, or an error. */
  datatype Answer = Done(dir: bool) | Failed(error: Error)

  /** `struct file_operations`: the answers for one path component; an operation that is missing is None. */
  datatype Ops = Ops(open: Option<Answer>, create: Option<Answer>, mkdir: Option<Answer>)

  /** What the parent of one path component offers: memory, and a table of operations if it has one. */
  datatype Fs = Fs(nameMemory: bool, nodeMemory: bool, ops: Option<Ops>)

  datatype Flags = Flags(dir: bool, create: bool)

  // ----- The shape of the cache -----

  ghost predicate NoSlash(s: string, i: nat, j: nat)
    requires i <= j <= |s|
  {
    forall k :: i <= k < j ==> s[k] != '/'
  }

  ghost predicate Plain(name: string) {
    NoSlash(name, 0, |name|) && !(name <= ".") && !(name <= "..")
  }

  ghost predicate ParentOk(ns: map<nat, Node>, depth: map<nat, nat>, e: nat)
    requires e in ns
  {
    && ns[e].parent.Some? && ns[e].parent.value in ns && e in ns[ns[e].parent.value].kids
    && e in depth && ns[e].parent.value in depth && depth[e] == depth[ns[e].parent.value] + 1
    && Plain(ns[e].name)
  }

  ghost predicate KidsOk(ns: map<nat, Node>, p: nat)
    requires p in ns
  {
    && Unique(ns[p].kids)
    && (forall c :: c in ns[p].kids ==> c in ns && c != 0 && ns[c].parent == Some(p))
    && (forall c, d :: c in ns[p].kids && d in ns[p].kids && c != d ==> ns[c].name != ns[d].name)
  }

  /** The entries form a tree under the root, and siblings differ in their names. */
  ghost predicate Tree(ns: map<nat, Node>, depth: map<nat, nat>) {
    && 0 in ns && ns[0].parent == None && ns[0].name == "" && 0 in depth && depth[0] == 0
    && (forall e {:trigger ParentOk(ns, depth, e)} :: e in ns && e != 0 ==> ParentOk(ns, depth, e))
    && (forall e {:trigger KidsOk(ns, e)} :: e in ns ==> KidsOk(ns, e))
  }

  lemma NodeOk(ns: map<nat, Node>, depth: map<nat, nat>, e: nat)
    requires Tree(ns, depth) && e in ns
    ensures KidsOk(ns, e) && (e != 0 ==> ParentOk(ns, depth, e))
  {
  }

  ghost function Sum(ns: map<nat, Node>, kids: seq<nat>): (n: nat) {
    if kids == [] then 0 else (if kids[0] in ns then ns[kids[0]].refs else 0) + Sum(ns, kids[1..])
  }

  ghost function Own(e: nat): (n: nat) {
    if e == 0 then 1 else 0
  }

  /** An entry's count is its handles and pins plus its children's counts; `debt` is one short. */
  ghost predicate CountOk(ns: map<nat, Node>, open: multiset<nat>, debt: Option<nat>, e: nat)
    requires e in ns
  {
    && ns[e].refs + (if debt == Some(e) then 1 else 0) == open[e] + Sum(ns, ns[e].kids) + Own(e)
    && ns[e].refs >= 1
  }

  ghost predicate Counted(ns: map<nat, Node>, open: multiset<nat>, debt: Option<nat>) {
    && (forall e :: e in open ==> e in ns)
    && forall e {:trigger CountOk(ns, open, debt, e)} :: e in ns ==> CountOk(ns, open, debt, e)
  }

  lemma CountAt(ns: map<nat, Node>, open: multiset<nat>, debt: Option<nat>, e: nat)
    requires Counted(ns, open, debt) && e in ns
    ensures CountOk(ns, open, debt, e)
  {
  }

  ghost predicate LookShape(n: int) {
    true
  }

  /** Two states of the cache that differ in their counts alone. */
  ghost predicate SameShape(ns: map<nat, Node>, ns': map<nat, Node>) {
    ns'.Keys == ns.Keys && forall n: int :: LookShape(n) ==> forall e :: e in ns ==>
      ns'[e] == ns[e].(refs := ns'[e].refs)
  }

  lemma ShapeAt(ns: map<nat, Node>, ns': map<nat, Node>, e: nat)
    requires SameShape(ns, ns') && e in ns
    ensures e in ns' && ns'[e] == ns[e].(refs := ns'[e].refs)
  {
    assert LookShape(0);
  }

  lemma ShapeTrans(ns: map<nat, Node>, ns': map<nat, Node>, ns'': map<nat, Node>)
    requires SameShape(ns, ns') && SameShape(ns', ns'')
    ensures SameShape(ns, ns'')
  {
    assert LookShape(0);
  }

  lemma SameTree(ns: map<nat, Node>, ns': map<nat, Node>, depth: map<nat, nat>)
    requires Tree(ns, depth) && SameShape(ns, ns')
    ensures Tree(ns', depth)
  {
    assert LookShape(0);
    forall e | e in ns'
      ensures KidsOk(ns', e) && (e != 0 ==> ParentOk(ns', depth, e))
    {
      NodeOk(ns, depth, e);
    }
  }

  lemma ParentIn(ns: map<nat, Node>, depth: map<nat, nat>, e: nat)
    requires Tree(ns, depth) && e in ns
    ensures e in depth && (e == 0 <==> ns[e].parent.None?)
    ensures e != 0 ==> ns[e].parent.value in ns && ns[e].parent.value in depth && depth[ns[e].parent.value] < depth[e]
  {
    NodeOk(ns, depth, e);
  }

  lemma KidsIn(ns: map<nat, Node>, depth: map<nat, nat>, e: nat)
    requires Tree(ns, depth) && e in ns
    ensures forall c :: c in ns[e].kids ==> c in ns && ns[c].parent == Some(e)
  {
    NodeOk(ns, depth, e);
  }

  // ----- Sums of counts -----

  /** One child's count changes. */
  lemma {:induction false} SumSet(ns: map<nat, Node>, kids: seq<nat>, c: nat, n: Node)
    requires Unique(kids) && c in ns
    ensures Sum(ns[c := n], kids) == Sum(ns, kids) + if c in kids then n.refs - ns[c].refs else 0
  {
    if kids != [] {
      var rest := kids[1..];
      assert forall i, j :: 0 <= i < j < |rest| ==> rest[i] == kids[i + 1] && rest[j] == kids[j + 1];
      assert c in kids <==> c == kids[0] || c in rest;
      assert c == kids[0] ==> c !in rest;
      SumSet(ns, rest, c, n);
    }
  }

  /** What is not a child does not matter. */
  lemma {:induction false} SumFrame(ns: map<nat, Node>, ns': map<nat, Node>, kids: seq<nat>)
    requires forall c :: c in kids ==> c in ns && c in ns' && ns'[c].refs == ns[c].refs
    ensures Sum(ns', kids) == Sum(ns, kids)
  {
    if kids != [] {
      SumFrame(ns, ns', kids[1..]);
    }
  }

  function Without(s: seq<nat>, x: nat): (r: seq<nat>)
    ensures forall y :: y in r <==> y in s && y != x
    ensures |r| <= |s|
  {
    if s == [] then [] else (if s[0] == x then [] else [s[0]]) + Without(s[1..], x)
  }

  lemma {:induction false} WithoutUnique(s: seq<nat>, x: nat)
    requires Unique(s)
    ensures Unique(Without(s, x))
  {
    if s != [] {
      var rest := s[1..];
      assert forall i, j :: 0 <= i < j < |rest| ==> rest[i] == s[i + 1] && rest[j] == s[j + 1];
      assert s[0] !in rest;
      WithoutUnique(rest, x);
    }
  }

  lemma {:induction false} SumWithout(ns: map<nat, Node>, kids: seq<nat>, c: nat)
    requires Unique(kids) && c in kids && c in ns
    ensures Sum(ns, Without(kids, c)) + ns[c].refs == Sum(ns, kids)
  {
    var rest := kids[1..];
    assert forall i, j :: 0 <= i < j < |rest| ==> rest[i] == kids[i + 1] && rest[j] == kids[j + 1];
    if kids[0] == c {
      assert c !in rest;
      NotThere(rest, c);
      assert Without(kids, c) == [] + rest == rest;
    } else {
      SumWithout(ns, rest, c);
      var left := Without(rest, c);
      assert ([kids[0]] + left)[1..] == left;
    }
  }

  lemma {:induction false} NotThere(s: seq<nat>, x: nat)
    requires x !in s
    ensures Without(s, x) == s
  {
    if s != [] {
      NotThere(s[1..], x);
    }
  }

  lemma {:induction false} SumPositive(ns: map<nat, Node>, kids: seq<nat>)
    requires forall c :: c in kids ==> c in ns && ns[c].refs >= 1
    ensures Sum(ns, kids) >= |kids|
  {
    if kids != [] {
      SumPositive(ns, kids[1..]);
    }
  }

  // ----- The steps of a handle -----

  function Set(ns: map<nat, Node>, e: nat, refs: nat): (r: map<nat, Node>)
    requires e in ns
  {
    ns[e := ns[e].(refs := refs)]
  }

  /** The count of one entry changes, and with it the sum that its parent keeps. */
  lemma SetSums(ns: map<nat, Node>, depth: map<nat, nat>, e: nat, refs: nat, p: nat)
    requires Tree(ns, depth) && e in ns && p in ns
    ensures Sum(Set(ns, e, refs), ns[p].kids) == Sum(ns, ns[p].kids) + if ns[e].parent == Some(p) then refs - ns[e].refs
            else 0
  {
    NodeOk(ns, depth, p);
    NodeOk(ns, depth, e);
    SumSet(ns, ns[p].kids, e, ns[e].(refs := refs));
  }

  ghost function Debt(debt: Option<nat>, e: nat): (n: nat) {
    if debt == Some(e) then 1 else 0
  }

  /** One count changes as the handles do. */
  lemma SetStep(ns: map<nat, Node>, open: multiset<nat>, debt: Option<nat>, depth: map<nat, nat>, e: nat, refs: nat,
                open': multiset<nat>, debt': Option<nat>)
    requires Tree(ns, depth) && Counted(ns, open, debt) && e in ns && refs >= 1 && forall x :: x in open' ==> x in ns
    requires forall x :: x in ns ==>
      (if x == e then refs - ns[e].refs else 0) + Debt(debt', x) - Debt(debt, x)
      == open'[x] - open[x] + if ns[e].parent == Some(x) then refs - ns[e].refs else 0
    ensures SameShape(ns, Set(ns, e, refs)) && Tree(Set(ns, e, refs), depth) && Counted(Set(ns, e, refs), open', debt')
  {
    var ns' := Set(ns, e, refs);
    SameTree(ns, ns', depth);
    forall x | x in ns'
      ensures CountOk(ns', open', debt', x)
    {
      CountAt(ns, open, debt, x);
      SetSums(ns, depth, e, refs, x);
    }
  }

  /** `_dflc_get` moves the missing count one entry up. */
  lemma GetStep(ns: map<nat, Node>, open: multiset<nat>, depth: map<nat, nat>, e: nat)
    requires Tree(ns, depth) && Counted(ns, open, Some(e)) && e in ns
    ensures var ns' := Set(ns, e, ns[e].refs + 1);
            SameShape(ns, ns') && Tree(ns', depth) && Counted(ns', open, ns[e].parent)
  {
    NodeOk(ns, depth, e);
    SetStep(ns, open, Some(e), depth, e, ns[e].refs + 1, open, ns[e].parent);
  }

  /** A handle enters a child that is cached. */
  lemma DownStep(ns: map<nat, Node>, open: multiset<nat>, depth: map<nat, nat>, e: nat, c: nat)
    requires Tree(ns, depth) && Counted(ns, open, None) && e in open && c in ns && ns[c].parent == Some(e)
    ensures var ns' := Set(ns, c, ns[c].refs + 1);
            SameShape(ns, ns') && Tree(ns', depth) && Counted(ns', open - multiset{e} + multiset{c}, None)
  {
    NodeOk(ns, depth, c);
    SetStep(ns, open, None, depth, c, ns[c].refs + 1, open - multiset{e} + multiset{c}, None);
  }

  /** `_dflc_put` takes a handle to the parent; others stay at or below. */
  lemma UpStep(ns: map<nat, Node>, open: multiset<nat>, depth: map<nat, nat>, c: nat, p: nat)
    requires Tree(ns, depth) && Counted(ns, open, None) && c in open && c in ns && ns[c].parent == Some(p)
             && ns[c].refs > 1
    ensures var ns' := Set(ns, c, ns[c].refs - 1);
            SameShape(ns, ns') && Tree(ns', depth) && Counted(ns', open - multiset{c} + multiset{p}, None)
  {
    NodeOk(ns, depth, c);
    SetStep(ns, open, None, depth, c, ns[c].refs - 1, open - multiset{c} + multiset{p}, None);
  }

  /** The root's count never falls to zero. */
  lemma RootHeld(ns: map<nat, Node>, open: multiset<nat>, depth: map<nat, nat>)
    requires Tree(ns, depth) && Counted(ns, open, None) && 0 in open
    ensures ns[0].refs >= 2
  {
    CountAt(ns, open, None, 0);
  }

  /** A handle leaves the root. */
  lemma LeaveStep(ns: map<nat, Node>, open: multiset<nat>, depth: map<nat, nat>)
    requires Tree(ns, depth) && Counted(ns, open, None) && 0 in open && ns[0].refs >= 2
    ensures var ns' := Set(ns, 0, ns[0].refs - 1);
            SameShape(ns, ns') && Tree(ns', depth) && Counted(ns', open - multiset{0}, None)
  {
    SetStep(ns, open, None, depth, 0, ns[0].refs - 1, open - multiset{0}, None);
  }

  /** The state without an entry that nothing holds any more. */
  function Removed(ns: map<nat, Node>, c: nat, p: nat): (r: map<nat, Node>)
    requires p in ns
  {
    ns[p := ns[p].(kids := Without(ns[p].kids, c))] - {c}
  }

  /** The last handle of an entry goes to the parent, and the entry is freed: it has no children. */
  lemma FreeStep(ns: map<nat, Node>, open: multiset<nat>, depth: map<nat, nat>, c: nat, p: nat)
    requires Tree(ns, depth) && Counted(ns, open, None) && c in open && c in ns && ns[c].parent == Some(p)
             && ns[c].refs == 1
    ensures p in ns && ns[c].kids == []
    ensures Tree(Removed(ns, c, p), depth) && Counted(Removed(ns, c, p), open - multiset{c} + multiset{p}, None)
  {
    LastHandle(ns, open, depth, c);
    var ns', open' := Removed(ns, c, p), open - multiset{c} + multiset{p};
    RemovedTree(ns, depth, c, p);
    NodeOk(ns, depth, c);
    forall x | x in ns'
      ensures CountOk(ns', open', None, x)
    {
      CountAt(ns, open, None, x);
      RemovedSum(ns, depth, c, p, x);
    }
  }

  lemma LastHandle(ns: map<nat, Node>, open: multiset<nat>, depth: map<nat, nat>, c: nat)
    requires Tree(ns, depth) && Counted(ns, open, None) && c in open && c in ns && c != 0 && ns[c].refs == 1
    ensures ns[c].kids == [] && open[c] == 1 && ns[c].parent.Some? && ns[c].parent.value in ns
  {
    NodeOk(ns, depth, c);
    CountAt(ns, open, None, c);
    forall k | k in ns[c].kids
      ensures ns[k].refs >= 1
    {
      CountAt(ns, open, None, k);
    }
    SumPositive(ns, ns[c].kids);
  }

  lemma RemovedTree(ns: map<nat, Node>, depth: map<nat, nat>, c: nat, p: nat)
    requires Tree(ns, depth) && c in ns && c != 0 && p in ns && ns[c].parent == Some(p) && ns[c].kids == []
    ensures Tree(Removed(ns, c, p), depth)
  {
    var ns' := Removed(ns, c, p);
    NodeOk(ns, depth, c);
    NodeOk(ns, depth, p);
    WithoutUnique(ns[p].kids, c);
    forall e | e in ns'
      ensures KidsOk(ns', e) && (e != 0 ==> ParentOk(ns', depth, e))
    {
      NodeOk(ns, depth, e);
    }
  }

  lemma RemovedSum(ns: map<nat, Node>, depth: map<nat, nat>, c: nat, p: nat, x: nat)
    requires Tree(ns, depth) && c in ns && c != 0 && p in ns && ns[c].parent == Some(p) && ns[c].kids == []
    requires x in Removed(ns, c, p)
    ensures Sum(Removed(ns, c, p), Removed(ns, c, p)[x].kids) + (if x == p then ns[c].refs else 0) ==
            Sum(ns, ns[x].kids)
  {
    var ns' := Removed(ns, c, p);
    NodeOk(ns, depth, x);
    NodeOk(ns, depth, c);
    SumFrame(ns, ns', ns'[x].kids);
    if x == p {
      SumWithout(ns, ns[p].kids, c);
    }
  }

  /** `dflc_init`: a new entry stands first among its siblings. */
  function Added(ns: map<nat, Node>, e: nat, n: nat, name: string, dir: bool): (r: map<nat, Node>)
    requires e in ns
  {
    ns[e := ns[e].(kids := [n] + ns[e].kids)][n := Node(Some(e), name, [], dir, false, 1)]
  }

  /** A handle enters a new entry. */
  lemma AddStep(ns: map<nat, Node>, open: multiset<nat>, depth: map<nat, nat>, e: nat, n: nat, name: string, dir: bool)
    requires Tree(ns, depth) && Counted(ns, open, None) && e in open && e in ns && e in depth && n !in ns && Plain(name)
    requires forall c :: c in ns[e].kids ==> c in ns && ns[c].name != name
    ensures var ns' := Added(ns, e, n, name, dir);
            Tree(ns', depth[n := depth[e] + 1]) && Counted(ns', open - multiset{e} + multiset{n}, None)
  {
    var ns', open' := Added(ns, e, n, name, dir), open - multiset{e} + multiset{n};
    AddedTree(ns, depth, e, n, name, dir);
    forall x | x in ns'
      ensures CountOk(ns', open', None, x)
    {
      if x != n {
        CountAt(ns, open, None, x);
        AddedSum(ns, depth, e, n, name, dir, x);
      }
    }
  }

  lemma AddedTree(ns: map<nat, Node>, depth: map<nat, nat>, e: nat, n: nat, name: string, dir: bool)
    requires Tree(ns, depth) && e in ns && e in depth && n !in ns && Plain(name)
    requires forall c :: c in ns[e].kids ==> c in ns && ns[c].name != name
    ensures Tree(Added(ns, e, n, name, dir), depth[n := depth[e] + 1])
  {
    var ns', depth' := Added(ns, e, n, name, dir), depth[n := depth[e] + 1];
    forall x | x in ns'
      ensures KidsOk(ns', x) && (x != 0 ==> ParentOk(ns', depth', x))
    {
      if x != n {
        NodeOk(ns, depth, x);
      }
    }
  }

  lemma AddedSum(ns: map<nat, Node>, depth: map<nat, nat>, e: nat, n: nat, name: string, dir: bool, x: nat)
    requires Tree(ns, depth) && e in ns && n !in ns && x in ns
    ensures var ns' := Added(ns, e, n, name, dir);
            Sum(ns', ns'[x].kids) == Sum(ns, ns[x].kids) + if x == e then 1 else 0
  {
    var ns' := Added(ns, e, n, name, dir);
    NodeOk(ns, depth, x);
    SumFrame(ns, ns', ns[x].kids);
    if x == e {
      assert ([n] + ns[e].kids)[1..] == ns[e].kids;
    }
  }

  // ----- What is cached is what is open -----

  /** e is x or an ancestor of x. */
  ghost predicate Above(ns: map<nat, Node>, depth: map<nat, nat>, x: nat, e: nat)
    requires Tree(ns, depth) && x in ns
    decreases if x in depth then depth[x] else 0
  {
    NodeOk(ns, depth, x);
    x == e || (x != 0 && Above(ns, depth, ns[x].parent.value, e))
  }

  lemma {:induction false} AboveTrans(ns: map<nat, Node>, depth: map<nat, nat>, x: nat, k: nat, e: nat)
    requires Tree(ns, depth) && x in ns && k in ns && k != 0 && ns[k].parent == Some(e) && Above(ns, depth, x, k)
    ensures Above(ns, depth, x, e) && x != 0
    decreases if x in depth then depth[x] else 0
  {
    NodeOk(ns, depth, x);
    NodeOk(ns, depth, k);
    if x == k {
      assert Above(ns, depth, e, e);
    } else {
      AboveTrans(ns, depth, ns[x].parent.value, k, e);
    }
  }

  lemma {:induction false} AboveKids(ns: map<nat, Node>, depth: map<nat, nat>, x: nat, e: nat)
    requires Tree(ns, depth) && x in ns && e in ns && Above(ns, depth, x, e) && x != e
    ensures ns[e].kids != []
    decreases if x in depth then depth[x] else 0
  {
    NodeOk(ns, depth, x);
    if ns[x].parent.value != e {
      AboveKids(ns, depth, ns[x].parent.value, e);
    }
  }

  ghost function Deeper(ns: map<nat, Node>, depth: map<nat, nat>, d: nat): (s: set<nat>) {
    set x | x in ns && x in depth && depth[x] > d
  }

  /** Every cached entry but the root has a handle at or below it. */
  lemma {:induction false} HeldBelow(ns: map<nat, Node>, open: multiset<nat>, depth: map<nat, nat>, e: nat)
    returns (h: nat)
    requires Tree(ns, depth) && Counted(ns, open, None) && e in ns && e != 0
    ensures h in open && h in ns && Above(ns, depth, h, e)
    decreases Deeper(ns, depth, if e in depth then depth[e] else 0)
  {
    NodeOk(ns, depth, e);
    CountAt(ns, open, None, e);
    if open[e] > 0 {
      h := e;
    } else {
      var k := ns[e].kids[0];
      NodeOk(ns, depth, k);
      assert k in Deeper(ns, depth, depth[e]) && k !in Deeper(ns, depth, depth[k]);
      h := HeldBelow(ns, open, depth, k);
      AboveTrans(ns, depth, h, k, e);
    }
  }

  /** A handle that leaves an entry frees it exactly if no other is at or below it. */
  lemma FreedIfUnheld(ns: map<nat, Node>, open: multiset<nat>, depth: map<nat, nat>, c: nat)
    requires Tree(ns, depth) && Counted(ns, open, None) && c in open && c in ns && c != 0
    ensures ns[c].refs == 1 <==> forall h :: h in open - multiset{c} ==> h in ns && !Above(ns, depth, h, c)
  {
    if ns[c].refs == 1 {
      LastHandle(ns, open, depth, c);
      forall h | h in open - multiset{c}
        ensures h in ns && !Above(ns, depth, h, c)
      {
        if Above(ns, depth, h, c) {
          AboveKids(ns, depth, h, c);
        }
      }
    } else {
      OtherHandle(ns, open, depth, c);
    }
  }

  lemma OtherHandle(ns: map<nat, Node>, open: multiset<nat>, depth: map<nat, nat>, c: nat)
    requires Tree(ns, depth) && Counted(ns, open, None) && c in open && c in ns && c != 0 && ns[c].refs != 1
    ensures exists h :: h in open - multiset{c} && h in ns && Above(ns, depth, h, c)
  {
    NodeOk(ns, depth, c);
    CountAt(ns, open, None, c);
    if open[c] == 1 {
      var k := ns[c].kids[0];
      NodeOk(ns, depth, k);
      var h := HeldBelow(ns, open, depth, k);
      AboveTrans(ns, depth, h, k, c);
      NotItself(ns, depth, k);
      assert h in open - multiset{c};
    } else {
      assert c in open - multiset{c} && Above(ns, depth, c, c);
    }
  }

  /** No entry is above its own parent. */
  lemma NotItself(ns: map<nat, Node>, depth: map<nat, nat>, k: nat)
    requires Tree(ns, depth) && k in ns && k != 0
    ensures ns[k].parent.Some? && ns[k].parent.value in ns && !Above(ns, depth, ns[k].parent.value, k)
  {
    NodeOk(ns, depth, k);
    AboveDepth(ns, depth, ns[k].parent.value, k);
  }

  lemma {:induction false} AboveDepth(ns: map<nat, Node>, depth: map<nat, nat>, x: nat, e: nat)
    requires Tree(ns, depth) && x in ns && e in ns && x in depth && e in depth
    ensures Above(ns, depth, x, e) ==> depth[e] <= depth[x]
    decreases depth[x]
  {
    NodeOk(ns, depth, x);
    if x != 0 && x != e {
      AboveDepth(ns, depth, ns[x].parent.value, e);
    }
  }
}
