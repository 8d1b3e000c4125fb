/** The operations of the lookup cache (fs/vfs.c) on the cached entries. */
module VfsCode {
  import opened Wrappers
  import opened Vfs
  import opened VfsPath
  import opened VfsWalk

  /** Where a lookup begins: the entry, and the index in the path. */
  ghost function Start(at: Option<nat>, path: string): (r: Option<(nat, nat)>)
    ensures r.Some? ==> r.value.1 <= |path|
  {
    if |path| > 0 && path[0] == '/' then Some((0, 1)) else if at.Some? then Some((at.value, 0)) else None
  }

  /**
   `dflc_lookup_next`: what makes an entry that is not cached. Only the lookup that makes a
   directory trusts the table.
   */
  method Make(fs: Fs, flags: Flags) returns (r: Result<bool>)
    ensures r == Asked(fs, flags)
  {
    if !fs.nodeMemory {
      return Err(ENOMEM);
    }
    var fun;
    if flags.dir && flags.create {
      if fs.ops.None? {
        return Err(NullOps);
      }
      fun := fs.ops.value.mkdir;
    } else {
      if fs.ops.None? || fs.ops.value.open.None? {
        return Err(ENOSYS);
      }
      match fs.ops.value.open.value
      case Done(dir) =>
        return Ok(dir);
      case Failed(error) =>
        if error != ENOENT || !flags.create {
          return Err(error);
        }
      fun := fs.ops.value.create;
    }
    if fun.None? {
      return Err(ENOSYS);
    }
    match fun.value
    case Done(dir) => r := Ok(dir);
    case Failed(error) => r := Err(error);
  }

  class Cache {
    var nodes: map<nat, Node>
    ghost var open: multiset<nat>
    ghost var depth: map<nat, nat>

    ghost predicate Valid()
      reads this
    {
      Tree(nodes, depth) && Counted(nodes, open, None)
    }

    /** The static `root` */
    constructor ()
      ensures Valid() && open == multiset{} && nodes == map[0 := Node(None, "", [], true, false, 1)]
    {
      nodes := map[0 := Node(None, "", [], true, false, 1)];
      open := multiset{};
      depth := map[0 := 0];
    }

    /** `dflc_get` on the way up: one count is missing, at e. */
    method Climb(e: nat)
      requires Tree(nodes, depth) && Counted(nodes, open, Some(e)) && e in nodes && e in depth
      modifies this`nodes
      ensures Valid() && SameShape(old(nodes), nodes)
      decreases depth[e]
    {
      GetStep(nodes, open, depth, e);
      ParentIn(nodes, depth, e);
      var parent := nodes[e].parent;
      nodes := Set(nodes, e, nodes[e].refs + 1);
      if parent.Some? {
        ghost var ns := nodes;
        Climb(parent.value);
        ShapeTrans(old(nodes), ns, nodes);
      }
    }

    /** `file_dup`: one more handle where there is one. */
    method Dup(e: nat)
      requires Valid() && e in nodes
      modifies this`nodes, this`open
      ensures Valid() && SameShape(old(nodes), nodes) && open == old(open) + multiset{e}
    {
      InDepth(nodes, depth, e);
      OneMore(nodes, open, e);
      open := open + multiset{e};
      Climb(e);
    }

    /** `_dflc_put`: the handle goes to the parent, or leaves the root; an entry that nothing holds is freed. */
    method PutOne(e: nat)
      requires Valid() && e in open && e in nodes
      modifies this`nodes, this`open
      ensures Valid()
      ensures old(nodes)[e].parent.Some? == (e != 0)
      ensures open == old(open) - multiset{e} + if e == 0 then multiset{} else multiset{old(nodes)[e].parent.value}
      ensures Kept(old(nodes), nodes) && (e in nodes <==> e == 0 || old(nodes)[e].refs > 1)
      ensures old(nodes)[e].refs >= 1 && (e != 0 ==> old(nodes)[e].parent.value in old(nodes))
      ensures nodes == Put1(old(nodes), e)
      ensures e == 0 || old(nodes)[e].refs > 1 ==> SameShape(old(nodes), nodes)
      ensures e != 0 && old(nodes)[e].refs == 1 ==> old(nodes)[e].parent.value in old(nodes)
                                                    && nodes == Removed(old(nodes), e, old(nodes)[e].parent.value)
    {
      PutStep(nodes, open, depth, e);
      var refs, parent := nodes[e].refs - 1, nodes[e].parent;
      if refs == 0 && parent.Some? {
        nodes := Removed(nodes, e, parent.value);
      } else {
        nodes := Set(nodes, e, refs);
      }
      open := open - multiset{e} + if parent.None? then multiset{} else multiset{parent.value};
    }

    /** `dflc_put`, and so `file_close`: a handle is gone; every count on its way is positive. */
    method Put(e: nat)
      requires Valid() && e in open && e in nodes && e in depth
      modifies this`nodes, this`open
      ensures Valid() && open == old(open) - multiset{e} && Kept(old(nodes), nodes)
      ensures nodes == PutAll(old(nodes), e, depth[e])
      decreases depth[e]
    {
      CountAt(nodes, open, None, e);
      assert nodes[e].refs != 0;
      ParentIn(nodes, depth, e);
      NodeOk(nodes, depth, e);
      var parent := nodes[e].parent;
      PutOne(e);
      ghost var ns := nodes;
      if parent.Some? {
        Put(parent.value);
        KeptTrans(old(nodes), ns, nodes);
      }
    }

    /** An address that no entry has. */
    method Fresh() returns (n: nat)
      ensures n !in nodes
    {
      n := 0;
      var rest := nodes.Keys;
      while rest != {}
        invariant rest <= nodes.Keys && forall x :: x in nodes && x !in rest ==> x < n
        decreases rest
      {
        var x :| x in rest;
        n := if x < n then n else x + 1;
        rest := rest - {x};
      }
    }

    method FindChild(parent: nat, name: string) returns (r: Option<nat>)
      requires parent in nodes && forall c :: c in nodes[parent].kids ==> c in nodes
      ensures r == Child(nodes, nodes[parent].kids, name)
    {
      var kids, i := nodes[parent].kids, 0;
      while i < |kids|
        invariant 0 <= i <= |kids| && Child(nodes, kids, name) == Child(nodes, kids[i..], name)
      {
        if nodes[kids[i]].name == name {
          return Some(kids[i]);
        }
        i := i + 1;
      }
      return None;
    }

    /** `dflc_lookup_next`: a handle at the parent goes to the child of that name. */
    method LookupNext(parent: nat, name: string, flags: Flags, fs: Fs) returns (r: Result<nat>)
      requires Valid() && parent in open && parent in nodes && Plain(name)
      modifies this
      ensures Valid() && RootSame(old(nodes), nodes)
      ensures r.Ok? ==> open == old(open) - multiset{parent} + multiset{r.value} && r.value in nodes
      ensures r.Err? ==> nodes == old(nodes) && open == old(open) && depth == old(depth)
      ensures if !fs.nameMemory then r == Err(ENOMEM)
              else match Child(old(nodes), old(nodes)[parent].kids, name)
                   case Some(child) => r == Ok(child) && SameShape(old(nodes), nodes)
                   case None =>
                     match Asked(fs, flags)
                     case Ok(dir) =>
                       && r.Ok? && r.value !in old(nodes)
                       && nodes == Added(old(nodes), parent, r.value, name, dir)
                     case Err(error) => r == Err(error)
    {
      if !fs.nameMemory {
        return Err(ENOMEM);
      }
      KidsIn(nodes, depth, parent);
      var next := FindChild(parent, name);
      if next.Some? {
        Enter(parent, next.value);
        ShapeAt(old(nodes), nodes, 0);
        return Ok(next.value);
      }
      var made := Make(fs, flags);
      if made.Err? {
        return Err(made.error);
      }
      var n := Insert(parent, name, made.value);
      return Ok(n);
    }

    /** ".." in a lookup: the handle goes to the parent, which ends an entry that was made. */
    method Ascend(cur: nat, ghost ns0: map<nat, Node>, ghost open0: multiset<nat>, ghost at: Spot) returns (to: nat)
      requires Valid() && open == open0 + multiset{cur} && cur in nodes
      requires Counted(ns0, open0, None) && Stands(ns0, nodes, at, cur)
      modifies this`nodes, this`open
      ensures Valid() && RootSame(old(nodes), nodes)
      ensures open == open0 + multiset{to} && to in nodes && Stands(ns0, nodes, Up(ns0, at), to)
    {
      ParentIn(nodes, depth, cur);
      StandsHeld(ns0, open0, nodes, open, depth, at, cur);
      if at.made == [] {
        ShapeAt(ns0, nodes, cur);
      }
      var parent := nodes[cur].parent;
      if parent.None? {
        return cur;
      }
      ghost var ns := nodes;
      PutOne(cur);
      KeptAt(ns, nodes, 0);
      Swap(open0, cur, parent.value);
      if at.made == [] {
        ShapeTrans(ns0, ns, nodes);
      }
      return parent.value;
    }

    /** A name in a lookup: the handle goes to a cached child, or to an entry that is made. */
    method Descend(cur: nat, c: string, flags: Flags, fs: Fs, ghost ns0: map<nat, Node>, ghost open0: multiset<nat>,
                   ghost at: Spot)
      returns (r: Result<nat>)
      requires Valid() && open == open0 + multiset{cur} && cur in nodes && Plain(c)
      requires Counted(ns0, open0, None) && Stands(ns0, nodes, at, cur)
      modifies this
      ensures Valid() && RootSame(old(nodes), nodes)
      ensures match Moved(ns0, at, c, flags, fs)
              case Ok(to) =>
                r.Ok? && r.value in nodes && open == open0 + multiset{r.value} && Stands(ns0, nodes, to, r.value)
              case Err(error) => r == Err(error) && nodes == old(nodes) && open == old(open) && depth == old(depth)
    {
      ghost var ns := nodes;
      StandsChild(ns0, nodes, at, cur, c);
      r := LookupNext(cur, c, flags, fs);
      if r.Ok? {
        Swap(open0, cur, r.value);
        if Child(ns, ns[cur].kids, c).Some? {
          ShapeTrans(ns0, ns, nodes);
        } else {
          StandsPush(ns0, ns, old(depth), at, cur, r.value, c, Asked(fs, flags).value);
        }
      }
    }

    /** One round of `dflc_lookup_at`: the handle follows one component, or is gone with all that was made. */
    method StepTo(cur: nat, c: string, flags: Flags, fs: Fs, ghost ns0: map<nat, Node>, ghost open0: multiset<nat>,
                  ghost at: Spot)
      returns (r: Result<nat>, ghost to: Result<Spot>)
      requires Valid() && open == open0 + multiset{cur} && cur in nodes && NoSlash(c, 0, |c|)
      requires Counted(ns0, open0, None) && There(ns0, nodes, at, cur)
      modifies this
      ensures Valid() && RootSame(old(nodes), nodes)
      ensures Arrived(ns0, open0, to, r) && Steps(ns0, at, c, flags, fs, to)
    {
      assert LookThere(0);
      to := Stepped(ns0, at, c, flags, fs);
      if c <= "." {
        return Ok(cur), to;
      }
      if c <= ".." {
        var up := Ascend(cur, ns0, open0, at);
        r := Ok(up);
      } else {
        r := Descend(cur, c, flags, fs, ns0, open0, at);
        if r.Err? {
          Abandon(cur, ns0, open0, at);
          return;
        }
      }
      ghost var there := Moved(ns0, at, c, flags, fs).value;
      StandsDir(ns0, nodes, there, r.value);
      if flags.dir && !nodes[r.value].dir {
        Abandon(r.value, ns0, open0, there);
        return Err(ENOTDIR), to;
      }
    }

    /** `dflc_put` where a lookup led: the handle goes, and the cache is as it was before. */
    method Abandon(cur: nat, ghost ns0: map<nat, Node>, ghost open0: multiset<nat>, ghost at: Spot)
      requires Valid() && open == open0 + multiset{cur} && cur in nodes
      requires Counted(ns0, open0, None) && There(ns0, nodes, at, cur)
      modifies this`nodes, this`open
      ensures Valid() && RootSame(old(nodes), nodes) && open == open0 && SameShape(ns0, nodes)
    {
      ghost var ns := nodes;
      assert LookThere(0);
      InDepth(nodes, depth, cur);
      PutStands(ns0, open0, nodes, depth, at, cur);
      Put(cur);
      Swap(open0, cur, cur);
      KeptAt(ns, nodes, 0);
    }

    /**
     `dflc_lookup_at`: a new handle where the lookup leads, on cached entries and past them. After
     an error there is none, and nothing is cached that was not.
     */
    method LookupAt(at: Option<nat>, path: string, flags: Flags, env: nat -> Fs) returns (r: Result<nat>)
      requires Valid() && (at.Some? ==> at.value in nodes)
      modifies this
      ensures Valid() && RootSame(old(nodes), nodes)
      ensures match Start(at, path)
              case None => Arrived(old(nodes), old(open), Err(EINVAL), r)
              case Some((e, i)) =>
                Arrived(old(nodes), old(open), Looked(old(nodes), Spot(e, []), Comps(path, i), 0, flags, env), r)
    {
      var start, cur := 0, 0;
      if |path| > 0 && path[0] == '/' {
        Dup(0);
        start := 1;
      } else {
        if at.None? {
          ShapeSame(nodes);
          return Err(EINVAL);
        }
        Dup(at.value);
        cur := at.value;
      }
      ShapeAt(old(nodes), nodes, 0);
      if start == |path| {
        EmptyLooked(old(nodes), cur, path, flags, env);
        return Ok(cur);
      }
      ghost var goal := Looked(old(nodes), Spot(cur, []), Comps(path, start), 0, flags, env);
      ghost var j := Job(old(nodes), old(nodes), old(open), path, flags, goal);
      assert Going(j, Spot(cur, []), cur, start, 0, env);
      r := Walk(cur, path, start, flags, env, j);
      assert LookAhead(0);
    }

    /** The loop of `dflc_lookup_at` */
    method Walk(from: nat, path: string, first: nat, flags: Flags, env: nat -> Fs, ghost j: Job)
      returns (r: Result<nat>)
      requires j.path == path && j.flags == flags && first <= |path| && Counted(j.ns, j.open, None)
      requires Going(j, Spot(from, []), from, first, 0, env)
      modifies this
      ensures Ended(j, r)
    {
      var start, cur, k := first, from, 0;
      ghost var at := Spot(from, []);
      while true
        invariant start <= |path| && Going(j, at, cur, start, k, env)
        decreases |path| - start
      {
        var end;
        r, end, at := Round(cur, path, start, k, flags, env, j, at);
        if r.Err? || end == |path| {
          return;
        }
        cur, start, k := r.value, end + 1, k + 1;
      }
    }

    /** One round of that loop */
    method Round(cur: nat, path: string, start: nat, k: nat, flags: Flags, env: nat -> Fs, ghost j: Job, ghost at: Spot)
      returns (r: Result<nat>, end: nat, ghost to: Spot)
      requires j.path == path && j.flags == flags && start <= |path| && Counted(j.ns, j.open, None)
      requires Going(j, at, cur, start, k, env)
      modifies this
      ensures start <= end <= |path|
      ensures r.Err? || end == |path| ==> Ended(j, r)
      ensures r.Ok? && end < |path| ==> Going(j, to, r.value, end + 1, k + 1, env)
    {
      assert LookAhead(0);
      end := SlashFrom(path, start);
      var c, step := path[start..end], if end == |path| then flags else Flags(true, false);
      ghost var next;
      r, next := StepTo(cur, c, step, env(k), j.ns, j.open, at);
      to := if next.Ok? then next.value else at;
      AheadStep(j, at, start, k, env, next);
    }

    /** The lookup of j stands at the spot with the path from start on ahead of it. */
    ghost predicate Going(j: Job, at: Spot, cur: nat, start: nat, k: nat, env: nat -> Fs)
      reads this
    {
      forall n: int :: LookAhead(n) ==>
        Valid() && RootSame(j.before, nodes) && Arrived(j.ns, j.open, Ok(at), Ok(cur)) && Ahead(j, at, start, k, env)
    }

    ghost predicate Ended(j: Job, r: Result<nat>)
      reads this
    {
      forall n: int :: LookAhead(n) ==> Valid() && RootSame(j.before, nodes) && Arrived(j.ns, j.open, j.goal, r)
    }

    /** The handle is where a lookup leads; after an error there is none, and the cache is as it was. */
    ghost predicate Arrived(ns0: map<nat, Node>, open0: multiset<nat>, to: Result<Spot>, r: Result<nat>)
      reads this
    {
      match to
      case Ok(spot) =>
        r.Ok? && r.value in nodes && open == open0 + multiset{r.value} && There(ns0, nodes, spot, r.value)
      case Err(error) => r == Err(error) && open == open0 && SameShape(ns0, nodes)
    }

    /** `_file_realpath`: writes while there is room; `left` bytes remain. */
    method WritePath(e: nat) returns (text: string, left: nat, ok: bool)
      requires Valid() && e in nodes && e in depth
      ensures text == Text(nodes, depth, Fitting(nodes, depth, e)) && left == MAX_PATHLEN - |text|
      ensures ok <==> |Text(nodes, depth, e)| <= MAX_PATHLEN
      decreases depth[e]
    {
      text, left, ok := "", MAX_PATHLEN, true;
      ParentIn(nodes, depth, e);
      var parent, name := nodes[e].parent, nodes[e].name;
      if parent.Some? {
        text, left, ok := WritePath(parent.value);
        FittingParent(nodes, depth, e);
        if !ok {
          return;
        }
      }
      if left < |name| + 1 {
        ok := false;
        return;
      }
      text, left := text + name + "/", left - (|name| + 1);
    }

    /** `file_realpath` */
    method RealPathOf(f: nat) returns (r: Result<string>)
      requires Valid() && f in nodes
      ensures r == RealPath(nodes, depth, f)
    {
      InDepth(nodes, depth, f);
      var text, left, ok := WritePath(f);
      if left == 0 {
        return Err(ENAMETOOLONG);
      }
      var pos := MAX_PATHLEN - left;
      pos := if pos == 1 then pos else pos - 1;
      assert pos == |text| ==> text[..pos] == text;
      return Ok(text[..pos]);
    }

    /**
     `vfs_mkdir_at`: answers as the lookup that makes a directory does; an entry that is there is no
     error if it is a directory. It holds nothing, and what it made is not cached afterwards.
     */
    method Mkdir(at: Option<nat>, path: string, env: nat -> Fs) returns (r: Result<()>)
      requires Valid() && (at.Some? ==> at.value in nodes)
      modifies this
      ensures Valid() && open == old(open) && SameShape(old(nodes), nodes)
      ensures match Start(at, path)
              case None => r == Err(EINVAL)
              case Some((e, i)) =>
                match Looked(old(nodes), Spot(e, []), Comps(path, i), 0, Flags(true, true), env)
                case Ok(_) => r == Ok(())
                case Err(error) => r == Err(error)
    {
      var dir := LookupAt(at, path, Flags(true, true), env);
      if dir.Err? {
        return Err(dir.error);
      }
      ghost var (e, i) := Start(at, path).value;
      Abandon(dir.value, old(nodes), old(open),
              Looked(old(nodes), Spot(e, []), Comps(path, i), 0, Flags(true, true), env).value);
      return Ok(());
    }

    /**
     `vfs_mount`: a pin stays at the mountpoint. It is refused if another handle is at or below the
     mountpoint, if that is one already, or by the file system. The root needs no pin, but an error
     takes one reference from it all the same, and the root's count is one short from then on.
     */
    method Mount(path: string, env: nat -> Fs, answer: Answer) returns (r: Result<()>, target: Option<nat>)
      requires Valid()
      modifies this
      ensures Valid() <==> !(target == Some(0) && r.Err?)
      ensures match Start(None, path)
              case None => r == Err(EINVAL) && target == None
              case Some((_, i)) =>
                match Looked(old(nodes), Spot(0, []), Comps(path, i), 0, Flags(true, false), env)
                case Ok(to) =>
                  && r == MountAnswer(old(nodes), old(depth), old(open), to, answer)
                  && target.Some? && (to.made == [] ==> target == Some(to.node))
                  && (to.made != [] ==> target.value !in old(nodes))
                case Err(error) => r == Err(error) && target == None && SameShape(old(nodes), nodes)
      ensures open == old(open) + if r.Ok? && target != Some(0) then multiset{target.value} else multiset{}
      ensures r.Ok? ==>
              target.value in nodes && nodes[target.value].mount && answer.Done? && nodes[target.value].kids == []
                && nodes[target.value].dir == answer.dir && old(open)[target.value] == 0
      ensures r.Err? && target == Some(0) ==>
              Tree(nodes, depth) && nodes[0].refs + 1 == open[0] + Sum(nodes, nodes[0].kids) + 1
    {
      var found := LookupAt(None, path, Flags(true, false), env);
      if found.Err? {
        return Err(found.error), None;
      }
      target := Some(found.value);
      ghost var to := Looked(old(nodes), Spot(0, []), Comps(path, 1), 0, Flags(true, false), env).value;
      StandsBusy(old(nodes), old(depth), old(open), nodes, depth, to, found.value);
      TakeBack(old(open), found.value);
      r := MountAt(found.value, answer);
    }

    method MountAt(t: nat, answer: Answer) returns (r: Result<()>)
      requires Valid() && t in nodes && t in open
      modifies this`nodes, this`open
      ensures Valid() <==> !(r.Err? && t == 0)
      ensures r == Allowed(Busy(old(nodes), depth, old(open) - multiset{t}, t), old(nodes)[t].mount, answer)
      ensures open == if r.Ok? && t != 0 then old(open) else old(open) - multiset{t}
      ensures r.Ok? ==> t in nodes && nodes[t].mount && answer.Done? && nodes[t].kids == [] && old(open)[t] == 1
                        && nodes[t].dir == answer.dir
      ensures r.Err? && t == 0 ==> Tree(nodes, depth) && nodes[0].refs + 1 == open[0] + Sum(nodes, nodes[0].kids) + 1
    {
      TakeBack(old(open), t);
      PinTwice(t);
      assert open == if t == 0 then old(open) else old(open) + multiset{t};
      r := Pin(t, answer);
      ghost var ns := nodes;
      Unpin(t, r.Err?);
      if r.Ok? {
        assert t == 0 || t in open;
        KeptAt(ns, nodes, t);
      }
    }

    /** The extra reference of a mountpoint */
    method PinTwice(t: nat)
      requires Valid() && t in nodes && t in open
      modifies this`nodes, this`open
      ensures Valid() && t in nodes && nodes[t].mount == old(nodes)[t].mount && open[t] + Own(t) >= 2
      ensures open == old(open) + if t == 0 then multiset{} else multiset{t}
      ensures nodes[t].refs == 2 <==> !Busy(old(nodes), depth, old(open) - multiset{t}, t)
    {
      if t != 0 {
        Dup(t);
      } else {
        ShapeSame(nodes);
      }
      ghost var before := old(open) - multiset{t};
      assert open == before + if t == 0 then multiset{0} else multiset{t, t};
      ShapeAt(old(nodes), nodes, t);
      BusyShape(old(nodes), depth, nodes, depth, before, t);
      TwoHandles(nodes, open, depth, before, t);
    }

    /** How `vfs_mount` ends: the handle goes, and after an error the pin too. */
    method Unpin(t: nat, failed: bool)
      requires Valid() && t in nodes && open[t] + Own(t) >= 2
      modifies this`nodes, this`open
      ensures open == old(open) - if failed && t != 0 then multiset{t, t} else multiset{t}
      ensures failed && t == 0 ==>
              !Valid() && Tree(nodes, depth) && nodes[0].refs + 1 == open[0] + Sum(nodes, nodes[0].kids) + 1
      ensures !(failed && t == 0) ==> Valid() && Kept(old(nodes), nodes)
    {
      InDepth(nodes, depth, t);
      Put(t);
      if failed {
        if t != 0 {
          ghost var ns := nodes;
          Put(t);
          KeptTrans(old(nodes), ns, nodes);
        } else {
          DropRoot();
        }
      }
    }

    /** `dflc_put` of the root by someone who holds nothing there */
    method DropRoot()
      requires Valid()
      modifies this`nodes
      ensures !Valid() && Tree(nodes, depth) && nodes[0].refs + 1 == open[0] + Sum(nodes, nodes[0].kids) + 1
    {
      RootShort(nodes, open, depth);
      nodes := Set(nodes, 0, nodes[0].refs - 1);
    }

    /** What `vfs_mount` does under the lock of the mountpoint. */
    method Pin(t: nat, answer: Answer) returns (r: Result<()>)
      requires Valid() && t in nodes && open[t] + Own(t) >= 2
      modifies this`nodes
      ensures Valid() && t in nodes
      ensures r == Allowed(old(nodes)[t].refs != 2, old(nodes)[t].mount, answer)
      ensures r.Ok? ==> answer.Done? && nodes[t].mount && nodes[t].kids == [] && open[t] + Own(t) == 2
                        && nodes[t].dir == answer.dir
    {
      if nodes[t].refs != 2 {
        return Err(EBUSY);
      }
      if nodes[t].mount {
        return Err(EEXIST);
      }
      OnlyHere(nodes, open, depth, t);
      Remount(nodes, open, depth, t, answer.Done? && answer.dir);
      nodes := nodes[t := nodes[t].(mount := true, dir := answer.Done? && answer.dir)];
      return if answer.Done? then Ok(()) else Err(answer.error);
    }

    /** `_dflc_get` on a child */
    method Enter(parent: nat, c: nat)
      requires Valid() && parent in open && c in nodes && nodes[c].parent == Some(parent)
      modifies this`nodes, this`open
      ensures Valid() && SameShape(old(nodes), nodes) && c in nodes
              && nodes[c] == old(nodes)[c].(refs := old(nodes)[c].refs + 1)
      ensures open == old(open) - multiset{parent} + multiset{c}
    {
      DownStep(nodes, open, depth, parent, c);
      nodes := Set(nodes, c, nodes[c].refs + 1);
      open := open - multiset{parent} + multiset{c};
    }

    /** `dflc_init` */
    method Insert(parent: nat, name: string, dir: bool) returns (n: nat)
      requires Valid() && parent in open && parent in nodes && Plain(name)
      requires forall c :: c in nodes[parent].kids ==> c in nodes && nodes[c].name != name
      modifies this
      ensures Valid() && n !in old(nodes) && nodes == Added(old(nodes), parent, n, name, dir)
      ensures open == old(open) - multiset{parent} + multiset{n}
    {
      n := Fresh();
      InDepth(nodes, depth, parent);
      AddStep(nodes, open, depth, parent, n, name, dir);
      nodes := Added(nodes, parent, n, name, dir);
      open := open - multiset{parent} + multiset{n};
      depth := depth[n := depth[parent] + 1];
    }
  }

  lemma EmptyLooked(ns: map<nat, Node>, e: nat, s: string, flags: Flags, env: nat -> Fs)
    ensures Looked(ns, Spot(e, []), Comps(s, |s|), 0, flags, env) == Ok(Spot(e, []))
  {
    OneComp(s, |s|);
    assert s[|s|..] == "";
    assert [""] == [""] + [];
    LookedStep(ns, Spot(e, []), "", [], 0, flags, env);
  }

  ghost predicate LookAhead(n: int) {
    true
  }

  ghost predicate LookGoal(n: int) {
    true
  }

  /** A lookup that began in `before`, when the entries and handles other than its own were `ns` and `open`. */
  datatype Job = Job(before: map<nat, Node>, ns: map<nat, Node>, open: multiset<nat>, path: string, flags: Flags,
                     goal: Result<Spot>)

  /** The rest of the path leads from the spot to the goal. */
  ghost predicate Ahead(j: Job, at: Spot, start: nat, k: nat, env: nat -> Fs) {
    start <= |j.path| && forall n: int :: LookGoal(n) ==>
      j.goal == Looked(j.ns, at, Comps(j.path, start), k, j.flags, env)
  }

  /** One component leads to the spot, or fails. */
  ghost predicate Steps(ns: map<nat, Node>, at: Spot, c: string, flags: Flags, fs: Fs, to: Result<Spot>) {
    forall n: int :: LookGoal(n) ==> to == Stepped(ns, at, c, flags, fs)
  }

  lemma AheadStep(j: Job, at: Spot, start: nat, k: nat, env: nat -> Fs, to: Result<Spot>)
    requires Ahead(j, at, start, k, env)
    requires var end := SlashFrom(j.path, start);
             Steps(j.ns, at, j.path[start..end], if end == |j.path| then j.flags else Flags(true, false), env(k), to)
    ensures var end := SlashFrom(j.path, start);
            if to.Ok? && end < |j.path| then Ahead(j, to.value, end + 1, k + 1, env) else j.goal == to
  {
    assert LookGoal(0);
    var end := SlashFrom(j.path, start);
    CompsAre(j.path, start);
    LookedStep(j.ns, at, j.path[start..end], Rest(j.path, end), k, j.flags, env);
  }

  lemma TakeBack(open: multiset<nat>, t: nat)
    ensures open + multiset{t} - multiset{t} == open && open + multiset{t} - multiset{t, t} == open - multiset{t}
  {
  }

  lemma Swap(open: multiset<nat>, x: nat, y: nat)
    ensures open + multiset{x} - multiset{x} == open
            && open + multiset{x} - multiset{x} + multiset{y} == open + multiset{y}
  {
  }

  /** The root is a mountpoint or not as before. */
  ghost predicate RootSame(ns: map<nat, Node>, ns': map<nat, Node>) {
    0 in ns && 0 in ns' && ns'[0].mount == ns[0].mount
  }

  /** Some handle is at the entry or below it. */
  ghost predicate Busy(ns: map<nat, Node>, depth: map<nat, nat>, open: multiset<nat>, t: nat)
    requires Tree(ns, depth)
  {
    exists h :: h in open && h in ns && Above(ns, depth, h, t)
  }

  /** What `vfs_mount` answers. */
  function Allowed(busy: bool, mounted: bool, answer: Answer): (r: Result<()>) {
    if busy then Err(EBUSY) else if mounted then Err(EEXIST) else if answer.Done? then Ok(()) else Err(answer.error)
  }

  /** What mounting answers where a lookup led: nothing else is at or below an entry that it made. */
  ghost function MountAnswer(ns: map<nat, Node>, depth: map<nat, nat>, open: multiset<nat>, to: Spot, answer: Answer)
    : (r: Result<()>)
    requires Tree(ns, depth)
  {
    if to.made != [] then Allowed(false, false, answer)
    else Allowed(Busy(ns, depth, open, to.node), to.node in ns && ns[to.node].mount, answer)
  }

  lemma {:induction false} AboveShape(ns: map<nat, Node>, depth: map<nat, nat>, ns': map<nat, Node>,
                                      depth': map<nat, nat>, x: nat, e: nat)
    requires Tree(ns, depth) && Tree(ns', depth') && SameShape(ns, ns') && x in ns
    ensures x in ns' && (Above(ns', depth', x, e) <==> Above(ns, depth, x, e))
    decreases if x in depth then depth[x] else 0
  {
    ShapeAt(ns, ns', x);
    NodeOk(ns, depth, x);
    if x != 0 {
      AboveShape(ns, depth, ns', depth', ns[x].parent.value, e);
    }
  }

  lemma BusyShape(ns: map<nat, Node>, depth: map<nat, nat>, ns': map<nat, Node>, depth': map<nat, nat>,
                  open: multiset<nat>, t: nat)
    requires Tree(ns, depth) && Tree(ns', depth') && SameShape(ns, ns')
    ensures Busy(ns', depth', open, t) <==> Busy(ns, depth, open, t)
  {
    forall h | h in ns
      ensures h in ns' && (Above(ns', depth', h, t) <==> Above(ns, depth, h, t))
    {
      AboveShape(ns, depth, ns', depth', h, t);
    }
  }

  /** What a lookup found is as busy as it was before, and what it made is not busy. */
  lemma StandsBusy(ns0: map<nat, Node>, depth0: map<nat, nat>, open0: multiset<nat>, ns: map<nat, Node>,
                   depth: map<nat, nat>, at: Spot, cur: nat)
    requires Tree(ns0, depth0) && Counted(ns0, open0, None) && Tree(ns, depth) && cur in ns && There(ns0, ns, at, cur)
    ensures at.made == [] ==>
              && cur == at.node && cur in ns0 && ns[cur].mount == ns0[cur].mount
              && (Busy(ns, depth, open0, cur) <==> Busy(ns0, depth0, open0, cur))
    ensures at.made != [] ==> cur !in ns0 && !ns[cur].mount && !Busy(ns, depth, open0, cur)
  {
    assert LookThere(0);
    if at.made == [] {
      ShapeAt(ns0, ns, cur);
      BusyShape(ns0, depth0, ns, depth, open0, cur);
    } else if h :| h in open0 && h in ns && Above(ns, depth, h, cur) {
      AboveKids(ns, depth, h, cur);
    }
  }

  /** With two counts more, an entry's count is two exactly if no other handle is at or below it. */
  lemma TwoHandles(ns: map<nat, Node>, open: multiset<nat>, depth: map<nat, nat>, before: multiset<nat>, t: nat)
    requires Tree(ns, depth) && Counted(ns, open, None) && t in ns
    requires open == before + if t == 0 then multiset{0} else multiset{t, t}
    ensures ns[t].refs == 2 <==> !Busy(ns, depth, before, t)
  {
    CountAt(ns, open, None, t);
    if ns[t].refs == 2 {
      OnlyHere(ns, open, depth, t);
      forall h | h in before && h in ns
        ensures !Above(ns, depth, h, t)
      {
        if Above(ns, depth, h, t) {
          AboveKids(ns, depth, h, t);
        }
      }
    } else if t in before {
      assert Above(ns, depth, t, t);
    } else {
      var k := ns[t].kids[0];
      NodeOk(ns, depth, t);
      var h := HeldBelow(ns, open, depth, k);
      AboveTrans(ns, depth, h, k, t);
      NotItself(ns, depth, k);
      assert h in before;
    }
  }

  /** A new cache; the root is mounted, and mounted again: that is refused, and its own reference is gone. */
  method RemountTakesRoot() returns (cache: Cache, first: Result<()>, again: Result<()>)
    ensures first.Ok? && again.Err? && !cache.Valid() && Tree(cache.nodes, cache.depth)
    ensures cache.nodes[0].refs == cache.open[0] + Sum(cache.nodes, cache.nodes[0].kids)
  {
    var env: nat -> Fs := i => Fs(true, true, None);
    var target;
    cache := new Cache();
    EmptyLooked(cache.nodes, 0, "/", Flags(true, false), env);
    first, target := cache.Mount("/", env, Done(true));
    EmptyLooked(cache.nodes, 0, "/", Flags(true, false), env);
    again, target := cache.Mount("/", env, Done(true));
  }

  /** Two counts and two handles, or the root's own and one, leave no room for others. */
  lemma OnlyHere(ns: map<nat, Node>, open: multiset<nat>, depth: map<nat, nat>, t: nat)
    requires Tree(ns, depth) && Counted(ns, open, None) && t in ns && ns[t].refs == 2 && open[t] + Own(t) >= 2
    ensures ns[t].kids == [] && open[t] + Own(t) == 2
  {
    CountAt(ns, open, None, t);
    KidsIn(ns, depth, t);
    forall k | k in ns[t].kids
      ensures ns[k].refs >= 1
    {
      CountAt(ns, open, None, k);
    }
    SumPositive(ns, ns[t].kids);
  }

  lemma Remount(ns: map<nat, Node>, open: multiset<nat>, depth: map<nat, nat>, t: nat, dir: bool)
    requires Tree(ns, depth) && Counted(ns, open, None) && t in ns
    ensures var ns' := ns[t := ns[t].(mount := true, dir := dir)];
            Tree(ns', depth) && Counted(ns', open, None)
  {
    var ns' := ns[t := ns[t].(mount := true, dir := dir)];
    forall e | e in ns'
      ensures KidsOk(ns', e) && (e != 0 ==> ParentOk(ns', depth, e)) && CountOk(ns', open, None, e)
    {
      NodeOk(ns, depth, e);
      CountAt(ns, open, None, e);
      SumFrame(ns, ns', ns[e].kids);
    }
  }

  /** Without its own reference the root's count is wrong. */
  lemma RootShort(ns: map<nat, Node>, open: multiset<nat>, depth: map<nat, nat>)
    requires Tree(ns, depth) && Counted(ns, open, None)
    ensures ns[0].refs >= 1
    ensures var ns' := Set(ns, 0, ns[0].refs - 1);
            && Tree(ns', depth) && !Counted(ns', open, None)
            && ns'[0].refs + 1 == open[0] + Sum(ns', ns'[0].kids) + 1
  {
    CountAt(ns, open, None, 0);
    var ns' := Set(ns, 0, ns[0].refs - 1);
    SetSums(ns, depth, 0, ns[0].refs - 1, 0);
    SameTree(ns, ns', depth);
    assert !CountOk(ns', open, None, 0);
  }

  lemma OneMore(ns: map<nat, Node>, open: multiset<nat>, e: nat)
    requires Counted(ns, open, None) && e in ns
    ensures Counted(ns, open + multiset{e}, Some(e))
  {
    forall x | x in ns
      ensures CountOk(ns, open + multiset{e}, Some(e), x)
    {
      CountAt(ns, open, None, x);
    }
  }

  /** Two directories of 40 characters each, one in the other: the real path of the inner one is that of the outer. */
  method LongPathIsCut() returns (cache: Cache, outer: nat, inner: nat, path: Result<string>)
    ensures cache.Valid() && outer in cache.nodes && inner in cache.nodes && inner != outer
    ensures cache.nodes[outer].dir && cache.nodes[inner].dir && cache.nodes[inner].parent == Some(outer)
    ensures path.Ok? && |path.value| == 41 && Follow(cache.nodes, 0, Comps(path.value, 1), false) == Found(outer)
  {
    var name := seq(40, i => 'a');
    cache := new Cache();
    cache.Dup(0);
    ShapeAt(map[0 := Node(None, "", [], true, false, 1)], cache.nodes, 0);
    outer := cache.Insert(0, name, true);
    inner := cache.Insert(outer, name, true);
    ghost var ns, depth := cache.nodes, cache.depth;
    NodeOk(ns, depth, outer);
    NodeOk(ns, depth, inner);
    FittingParent(ns, depth, outer);
    FittingParent(ns, depth, inner);
    path := cache.RealPathOf(inner);
    PathFinds(ns, depth, outer);
  }
}
