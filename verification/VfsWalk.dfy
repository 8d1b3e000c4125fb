/** Where a lookup stands in the cache: the entries it made hang below a cached one, and nothing else holds them. */
module VfsWalk {
  import opened Wrappers
  import opened Vfs
  import opened VfsPath

  lemma InDepth(ns: map<nat, Node>, depth: map<nat, nat>, e: nat)
    requires Tree(ns, depth) && e in ns
    ensures e in depth
  {
    NodeOk(ns, depth, e);
  }

  lemma ShapeSame(ns: map<nat, Node>)
    ensures SameShape(ns, ns)
  {
  }

  /** What closing leaves of the cache is as it was. */
  ghost predicate KeptNode(a: Node, b: Node) {
    && b.parent == a.parent && b.name == a.name && b.dir == a.dir && b.mount == a.mount
    && forall k :: k in b.kids ==> k in a.kids
  }

  ghost predicate Kept(ns: map<nat, Node>, ns': map<nat, Node>) {
    ns'.Keys <= ns.Keys && forall x {:trigger KeptNode(ns[x], ns'[x])} :: x in ns' ==>
      x in ns && KeptNode(ns[x], ns'[x])
  }

  lemma KeptAt(ns: map<nat, Node>, ns': map<nat, Node>, x: nat)
    requires Kept(ns, ns') && x in ns'
    ensures x in ns && KeptNode(ns[x], ns'[x]) && (ns[x].kids == [] ==> ns'[x].kids == [])
  {
    assert x in ns;
    assert KeptNode(ns[x], ns'[x]);
    assert ns'[x].kids != [] ==> ns'[x].kids[0] in ns'[x].kids;
  }

  lemma KeptShape(ns: map<nat, Node>, ns': map<nat, Node>)
    requires SameShape(ns, ns')
    ensures Kept(ns, ns')
  {
    assert LookShape(0);
  }

  lemma KeptRemoved(ns: map<nat, Node>, c: nat, p: nat)
    requires p in ns
    ensures Kept(ns, Removed(ns, c, p))
  {
  }

  lemma KeptTrans(ns: map<nat, Node>, ns': map<nat, Node>, ns'': map<nat, Node>)
    requires Kept(ns, ns') && Kept(ns', ns'')
    ensures Kept(ns, ns'')
  {
    forall x | x in ns''
      ensures x in ns && KeptNode(ns[x], ns''[x])
    {
      KeptAt(ns', ns'', x);
      KeptAt(ns, ns', x);
    }
  }

  /** The cache after a handle left e. */
  ghost function Put1(ns: map<nat, Node>, e: nat): (r: map<nat, Node>)
    requires e in ns && ns[e].refs >= 1 && (ns[e].parent.Some? ==> ns[e].parent.value in ns)
  {
    if ns[e].refs == 1 && ns[e].parent.Some? then Removed(ns, e, ns[e].parent.value) else Set(ns, e, ns[e].refs - 1)
  }

  lemma PutStep(ns: map<nat, Node>, open: multiset<nat>, depth: map<nat, nat>, e: nat)
    requires Tree(ns, depth) && Counted(ns, open, None) && e in open && e in ns
    ensures ns[e].refs >= 1 && ns[e].parent.Some? == (e != 0) && (e != 0 ==> ns[e].parent.value in ns)
    ensures Tree(Put1(ns, e), depth) && Kept(ns, Put1(ns, e))
    ensures Counted(Put1(ns, e), open - multiset{e} + if e == 0 then multiset{} else multiset{ns[e].parent.value}, None)
    ensures e == 0 || ns[e].refs > 1 ==> SameShape(ns, Put1(ns, e))
  {
    ParentIn(ns, depth, e);
    CountAt(ns, open, None, e);
    if e == 0 {
      RootHeld(ns, open, depth);
      LeaveStep(ns, open, depth);
      assert open - multiset{0} + multiset{} == open - multiset{0};
      KeptShape(ns, Put1(ns, e));
    } else if ns[e].refs == 1 {
      FreeStep(ns, open, depth, e, ns[e].parent.value);
      KeptRemoved(ns, e, ns[e].parent.value);
    } else {
      UpStep(ns, open, depth, e, ns[e].parent.value);
      KeptShape(ns, Put1(ns, e));
    }
  }

  /** `dflc_put`: the cache after a handle at e, at depth d, is gone. */
  ghost function PutAll(ns: map<nat, Node>, e: nat, d: nat): (r: map<nat, Node>)
    decreases d
  {
    if e !in ns || ns[e].refs == 0 || (ns[e].parent.Some? && ns[e].parent.value !in ns) then ns
    else if ns[e].parent.None? || d == 0 then Put1(ns, e)
    else PutAll(Put1(ns, e), ns[e].parent.value, d - 1)
  }

  /**
   The entry is the spot: the entries that were made lie below the cached one, each the only child
   of the one before, and without them the cache is as it was.
   */
  ghost predicate Stands(ns0: map<nat, Node>, ns: map<nat, Node>, at: Spot, cur: nat)
    decreases |at.made|
  {
    if at.made == [] then cur == at.node && SameShape(ns0, ns)
    else
      var last := at.made[|at.made| - 1];
      && cur in ns && cur !in ns0 && ns[cur].kids == [] && ns[cur].name == last.name && ns[cur].dir == last.dir
      && !ns[cur].mount && ns[cur].parent.Some? && ns[cur].parent.value in ns
      && Stands(ns0, Removed(ns, cur, ns[cur].parent.value), Up(ns0, at), ns[cur].parent.value)
  }

  ghost predicate LookThere(n: int) {
    true
  }

  /** The same, opened where it is needed. */
  ghost predicate There(ns0: map<nat, Node>, ns: map<nat, Node>, at: Spot, cur: nat) {
    forall n: int :: LookThere(n) ==> Stands(ns0, ns, at, cur)
  }

  lemma {:induction false} StandsKeys(ns0: map<nat, Node>, ns: map<nat, Node>, at: Spot, cur: nat)
    requires Stands(ns0, ns, at, cur)
    ensures ns0.Keys <= ns.Keys
    decreases |at.made|
  {
    if at.made != [] {
      StandsKeys(ns0, Removed(ns, cur, ns[cur].parent.value), Up(ns0, at), ns[cur].parent.value);
    }
  }

  lemma StandsDir(ns0: map<nat, Node>, ns: map<nat, Node>, at: Spot, cur: nat)
    requires Stands(ns0, ns, at, cur) && cur in ns
    ensures ns[cur].dir == IsDir(ns0, at)
  {
    if at.made == [] {
      ShapeAt(ns0, ns, cur);
    }
  }

  lemma StandsChild(ns0: map<nat, Node>, ns: map<nat, Node>, at: Spot, cur: nat, c: string)
    requires Stands(ns0, ns, at, cur) && cur in ns
    ensures at.made == [] ==> at.node in ns0 && Child(ns, ns[cur].kids, c) == Child(ns0, ns0[at.node].kids, c)
    ensures at.made != [] ==> Child(ns, ns[cur].kids, c) == None
  {
    if at.made == [] {
      ShapeAt(ns0, ns, cur);
      ChildShape(ns0, ns, ns[cur].kids, c);
    }
  }

  /** An entry that was just made goes without a trace. */
  lemma RemovedAdded(ns: map<nat, Node>, e: nat, n: nat, name: string, dir: bool)
    requires e in ns && n !in ns && n !in ns[e].kids
    ensures Removed(Added(ns, e, n, name, dir), n, e) == ns
  {
    var kids := ns[e].kids;
    NotThere(kids, n);
    assert ([n] + kids)[1..] == kids;
    assert Without([n] + kids, n) == kids;
  }

  /** A new entry below the spot. */
  lemma StandsPush(ns0: map<nat, Node>, ns: map<nat, Node>, depth: map<nat, nat>, at: Spot, cur: nat, n: nat,
                   name: string, dir: bool)
    requires Stands(ns0, ns, at, cur) && Tree(ns, depth) && cur in ns && n !in ns
    ensures Stands(ns0, Added(ns, cur, n, name, dir), Spot(at.node, at.made + [Made(name, dir)]), n)
  {
    var to := Spot(at.node, at.made + [Made(name, dir)]);
    KidsIn(ns, depth, cur);
    RemovedAdded(ns, cur, n, name, dir);
    assert to.made[..|to.made| - 1] == at.made;
    StandsKeys(ns0, ns, at, cur);
  }

  /** What the count of the entry at the spot is: one for an entry that was made, more for a cached one. */
  lemma StandsHeld(ns0: map<nat, Node>, open0: multiset<nat>, ns: map<nat, Node>, open: multiset<nat>,
                   depth: map<nat, nat>, at: Spot, cur: nat)
    requires Counted(ns0, open0, None) && Stands(ns0, ns, at, cur)
    requires Tree(ns, depth) && Counted(ns, open, None) && cur in ns && open == open0 + multiset{cur}
    ensures at.made == [] && cur != 0 ==> ns[cur].refs > 1
    ensures at.made != [] ==> ns[cur].refs == 1 && cur != 0
  {
    CountAt(ns, open, None, cur);
    if at.made == [] {
      Held(ns0, open0, ns, open, depth, cur);
    } else {
      ParentIn(ns, depth, cur);
      assert open0[cur] == 0;
    }
  }

  /** A cached entry stays when the walk leaves it: it was held before the walk came. */
  lemma Held(ns0: map<nat, Node>, open0: multiset<nat>, ns: map<nat, Node>, open: multiset<nat>, depth: map<nat, nat>,
             cur: nat)
    requires Counted(ns0, open0, None) && Tree(ns, depth) && Counted(ns, open, None) && cur in ns
             && open == open0 + multiset{cur}
    ensures SameShape(ns0, ns) && cur != 0 ==> ns[cur].refs > 1
  {
    if SameShape(ns0, ns) && cur != 0 {
      ShapeAt(ns0, ns, cur);
      CountAt(ns0, open0, None, cur);
      CountAt(ns, open, None, cur);
      KidsIn(ns, depth, cur);
      forall k | k in ns[cur].kids
        ensures ns[k].refs >= 1
      {
        CountAt(ns, open, None, k);
      }
      SumPositive(ns, ns[cur].kids);
    }
  }

  /** A handle that leaves a cached entry for good leaves the entries as they are. */
  lemma {:induction false} PutShape(ns0: map<nat, Node>, open0: multiset<nat>, ns: map<nat, Node>,
                                    depth: map<nat, nat>, cur: nat)
    requires Counted(ns0, open0, None) && SameShape(ns0, ns) && Tree(ns, depth) && cur in ns && cur in depth
    requires Counted(ns, open0 + multiset{cur}, None)
    ensures SameShape(ns0, PutAll(ns, cur, depth[cur]))
    decreases depth[cur]
  {
    var open := open0 + multiset{cur};
    Held(ns0, open0, ns, open, depth, cur);
    PutStep(ns, open, depth, cur);
    ParentIn(ns, depth, cur);
    NodeOk(ns, depth, cur);
    var ns1 := Put1(ns, cur);
    ShapeTrans(ns0, ns, ns1);
    if cur != 0 {
      var p := ns[cur].parent.value;
      assert open - multiset{cur} + multiset{p} == open0 + multiset{p};
      PutShape(ns0, open0, ns1, depth, p);
    }
  }

  /** A handle that leaves the spot for good takes everything with it that was made. */
  lemma {:induction false} PutStands(ns0: map<nat, Node>, open0: multiset<nat>, ns: map<nat, Node>,
                                     depth: map<nat, nat>, at: Spot, cur: nat)
    requires Counted(ns0, open0, None) && Stands(ns0, ns, at, cur) && Tree(ns, depth) && cur in ns && cur in depth
    requires Counted(ns, open0 + multiset{cur}, None)
    ensures SameShape(ns0, PutAll(ns, cur, depth[cur]))
    decreases |at.made|
  {
    if at.made == [] {
      PutShape(ns0, open0, ns, depth, cur);
    } else {
      var open, p := open0 + multiset{cur}, ns[cur].parent.value;
      StandsHeld(ns0, open0, ns, open, depth, at, cur);
      PutStep(ns, open, depth, cur);
      ParentIn(ns, depth, cur);
      NodeOk(ns, depth, cur);
      assert open - multiset{cur} + multiset{p} == open0 + multiset{p};
      PutStands(ns0, open0, Put1(ns, cur), depth, Up(ns0, at), p);
    }
  }
}
