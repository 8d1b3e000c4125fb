/** Paths: what a lookup means on the cached entries, and the text that names an entry. */
module VfsPath {
  import opened Wrappers
  import opened Vfs

  /** `strchrnul` */
  function SlashFrom(s: string, i: nat): (j: nat)
    requires i <= |s|
    ensures i <= j <= |s| && (j < |s| ==> s[j] == '/') && NoSlash(s, i, j)
    decreases |s| - i
  {
    if i == |s| || s[i] == '/' then i else SlashFrom(s, i + 1)
  }

  /** The components of a path from index i on, the empty ones too. */
  ghost function Comps(s: string, i: nat): (c: seq<string>)
    requires i <= |s|
    decreases |s| - i
  {
    [s[i..SlashFrom(s, i)]] + Rest(s, SlashFrom(s, i))
  }

  ghost function Rest(s: string, j: nat): (c: seq<string>)
    requires j <= |s|
    ensures c == [] <==> j == |s|
    decreases |s| - j, 0
  {
    if j == |s| then [] else Comps(s, j + 1)
  }

  lemma CompsAre(s: string, i: nat)
    requires i <= |s|
    ensures var j := SlashFrom(s, i);
            Comps(s, i) == [s[i..j]] + Rest(s, j) && (j < |s| ==> Rest(s, j) == Comps(s, j + 1))
  {
  }

  lemma {:induction false} SlashIs(s: string, i: nat, j: nat)
    requires i <= j <= |s| && (j < |s| ==> s[j] == '/') && NoSlash(s, i, j)
    ensures SlashFrom(s, i) == j
    decreases j - i
  {
    if i < j {
      SlashIs(s, i + 1, j);
    }
  }

  lemma OneComp(s: string, i: nat)
    requires i <= |s| && NoSlash(s, i, |s|)
    ensures Comps(s, i) == [s[i..]]
  {
    SlashIs(s, i, |s|);
    assert s[i..|s|] == s[i..];
  }

  lemma {:induction false} CompsSnoc(s: string, i: nat, name: string)
    requires i <= |s| && NoSlash(name, 0, |name|)
    ensures Comps(s + "/" + name, i) == Comps(s, i) + [name]
    decreases |s| - i
  {
    var j, t := SlashFrom(s, i), s + "/" + name;
    SlashIs(t, i, j);
    assert t[i..j] == s[i..j];
    if j == |s| {
      assert t[j + 1..] == name;
      OneComp(t, j + 1);
    } else {
      CompsSnoc(s, j + 1, name);
    }
  }

  // ----- Lookup on the cached entries -----

  function Child(ns: map<nat, Node>, kids: seq<nat>, name: string): (r: Option<nat>)
    ensures r.Some? ==> r.value in kids && r.value in ns && ns[r.value].name == name
    ensures r.None? ==> forall c :: c in kids && c in ns ==> ns[c].name != name
  {
    if kids == [] then None
    else if kids[0] in ns && ns[kids[0]].name == name then Some(kids[0])
    else Child(ns, kids[1..], name)
  }

  datatype Walk = Found(node: nat) | Missing | NotDirectory

  /** Where a component other than "." leads from e. */
  ghost function Target(ns: map<nat, Node>, e: nat, c: string): (r: Option<nat>)
    requires e in ns
  {
    if c <= ".." then Some(if ns[e].parent.Some? then ns[e].parent.value else e) else Child(ns, ns[e].kids, c)
  }

  ghost function FollowOne(ns: map<nat, Node>, e: nat, c: string, dir: bool): (w: Walk) {
    if c <= "." then Found(e)
    else if e !in ns || Target(ns, e, c).None? || Target(ns, e, c).value !in ns then Missing
    else if dir && !ns[Target(ns, e, c).value].dir then NotDirectory
    else Found(Target(ns, e, c).value)
  }

  /** What a walk from e finds; all but the last component must be directories. */
  ghost function Follow(ns: map<nat, Node>, e: nat, comps: seq<string>, lastDir: bool): (w: Walk)
    decreases |comps|
  {
    if comps == [] then Found(e)
    else
      var w := FollowOne(ns, e, comps[0], |comps| > 1 || lastDir);
      if w.Found? then Follow(ns, w.node, comps[1..], lastDir) else w
  }

  /** A walk goes on where its first component leads. */
  lemma FollowStep(ns: map<nat, Node>, e: nat, c: string, rest: seq<string>, lastDir: bool)
    ensures var w := FollowOne(ns, e, c, rest != [] || lastDir);
            Follow(ns, e, [c] + rest, lastDir) == if w.Found? then Follow(ns, w.node, rest, lastDir) else w
  {
    var comps := [c] + rest;
    assert comps[0] == c && comps[1..] == rest;
  }

  lemma ChildShape(ns: map<nat, Node>, ns': map<nat, Node>, kids: seq<nat>, name: string)
    requires SameShape(ns, ns')
    ensures Child(ns', kids, name) == Child(ns, kids, name)
  {
    assert LookShape(0);
  }

  // ----- Lookup where entries may be missing -----

  /** An entry that a lookup made. */
  datatype Made = Made(name: string, dir: bool)

  /** Where a lookup stands: at a cached entry, or at the last of the entries that it made below one. */
  datatype Spot = Spot(node: nat, made: seq<Made>)

  /** The answer of an operation that may be missing. */
  function Answered(op: Option<Answer>): (r: Result<bool>) {
    match op
    case None => Err(ENOSYS)
    case Some(Done(dir)) => Ok(dir)
    case Some(Failed(error)) => Err(error)
  }

  /**
   What a parent makes of a name that is not cached: a directory to be made, a file or directory
   to be opened, or a file to be made where there is none.
   */
  function Asked(fs: Fs, flags: Flags): (r: Result<bool>) {
    if !fs.nodeMemory then Err(ENOMEM)
    else if fs.ops.None? then Err(if flags.dir && flags.create then NullOps else ENOSYS)
    else if flags.dir && flags.create then Answered(fs.ops.value.mkdir)
    else if flags.create && fs.ops.value.open == Some(Failed(ENOENT)) then Answered(fs.ops.value.create)
    else Answered(fs.ops.value.open)
  }

  ghost predicate IsDir(ns: map<nat, Node>, at: Spot) {
    if at.made != [] then at.made[|at.made| - 1].dir else at.node in ns && ns[at.node].dir
  }

  ghost function Up(ns: map<nat, Node>, at: Spot): (to: Spot) {
    if at.made != [] then Spot(at.node, at.made[..|at.made| - 1])
    else if at.node in ns && ns[at.node].parent.Some? then Spot(ns[at.node].parent.value, [])
    else at
  }

  /** Where a component other than "." leads. */
  ghost function Moved(ns: map<nat, Node>, at: Spot, c: string, flags: Flags, fs: Fs): (r: Result<Spot>) {
    if c <= ".." then Ok(Up(ns, at))
    else if !fs.nameMemory then Err(ENOMEM)
    else if at.made == [] && at.node in ns && Child(ns, ns[at.node].kids, c).Some? then
      Ok(Spot(Child(ns, ns[at.node].kids, c).value, []))
    else
      match Asked(fs, flags)
      case Ok(dir) => Ok(Spot(at.node, at.made + [Made(c, dir)]))
      case Err(error) => Err(error)
  }

  ghost function Stepped(ns: map<nat, Node>, at: Spot, c: string, flags: Flags, fs: Fs): (r: Result<Spot>) {
    if c <= "." then Ok(at)
    else
      var to := Moved(ns, at, c, flags, fs);
      if to.Ok? && flags.dir && !IsDir(ns, to.value) then Err(ENOTDIR) else to
  }

  /** What a lookup comes to; env answers for the component of each number, and all but the last must be directories. */
  ghost function Looked(ns: map<nat, Node>, at: Spot, comps: seq<string>, k: nat, flags: Flags, env: nat -> Fs)
    : (r: Result<Spot>)
    decreases |comps|
  {
    if comps == [] then Ok(at)
    else
      var to := Stepped(ns, at, comps[0], if |comps| == 1 then flags else Flags(true, false), env(k));
      if to.Ok? then Looked(ns, to.value, comps[1..], k + 1, flags, env) else to
  }

  lemma LookedStep(ns: map<nat, Node>, at: Spot, c: string, rest: seq<string>, k: nat, flags: Flags, env: nat -> Fs)
    ensures var to := Stepped(ns, at, c, if rest == [] then flags else Flags(true, false), env(k));
            Looked(ns, at, [c] + rest, k, flags, env) ==
            if to.Ok? then Looked(ns, to.value, rest, k + 1, flags, env) else to
  {
    var comps := [c] + rest;
    assert comps[0] == c && comps[1..] == rest;
  }

  /** No name runs out of memory. */
  ghost predicate Enough(env: nat -> Fs) {
    forall k: nat :: env(k).nameMemory
  }

  /** On cached entries a lookup goes where the entries lead, whatever the file system answers. */
  lemma {:induction false} CachedDecides(ns: map<nat, Node>, e: nat, comps: seq<string>, k: nat, flags: Flags,
                                         env: nat -> Fs)
    requires Enough(env) && forall x :: x in ns && ns[x].parent.Some? ==> ns[x].parent.value in ns
    ensures match Follow(ns, e, comps, flags.dir)
            case Found(x) => Looked(ns, Spot(e, []), comps, k, flags, env) == Ok(Spot(x, []))
            case NotDirectory => Looked(ns, Spot(e, []), comps, k, flags, env) == Err(ENOTDIR)
            case Missing => true
    decreases |comps|
  {
    if comps != [] {
      var w := FollowOne(ns, e, comps[0], |comps| > 1 || flags.dir);
      var to := Stepped(ns, Spot(e, []), comps[0], if |comps| == 1 then flags else Flags(true, false), env(k));
      if w.Found? {
        assert to == Ok(Spot(w.node, []));
        CachedDecides(ns, w.node, comps[1..], k + 1, flags, env);
      }
    }
  }

  // ----- The text of an entry -----

  ghost function Parent(ns: map<nat, Node>, depth: map<nat, nat>, e: nat): (p: nat)
    requires Tree(ns, depth) && e in ns && e != 0
    ensures p in ns && ns[e].parent == Some(p) && e in depth && p in depth && depth[p] < depth[e]
  {
    NodeOk(ns, depth, e);
    ns[e].parent.value
  }

  /** What `_file_realpath` writes: every name from the root down, a slash behind each. */
  ghost function Text(ns: map<nat, Node>, depth: map<nat, nat>, e: nat): (t: string)
    requires Tree(ns, depth) && e in ns
    ensures |t| > 0 && t[0] == '/' && t[|t| - 1] == '/' && (|t| == 1 <==> e == 0)
    decreases if e in depth then depth[e] else 0
  {
    NodeOk(ns, depth, e);
    if e == 0 then "/" else Text(ns, depth, Parent(ns, depth, e)) + ns[e].name + "/"
  }

  ghost function Names(ns: map<nat, Node>, depth: map<nat, nat>, e: nat): (s: seq<string>)
    requires Tree(ns, depth) && e in ns
    decreases if e in depth then depth[e] else 0
  {
    if e == 0 then [] else Names(ns, depth, Parent(ns, depth, e)) + [ns[e].name]
  }

  /** The nearest ancestor-or-self whose text fits the buffer. */
  ghost function Fitting(ns: map<nat, Node>, depth: map<nat, nat>, e: nat): (g: nat)
    requires Tree(ns, depth) && e in ns
    ensures g in ns && |Text(ns, depth, g)| <= MAX_PATHLEN && (g == e <==> |Text(ns, depth, e)| <= MAX_PATHLEN)
    decreases if e in depth then depth[e] else 0
  {
    if |Text(ns, depth, e)| <= MAX_PATHLEN then e else Fitting(ns, depth, Parent(ns, depth, e))
  }

  /** A text that fits is one whose parent's text fits with room for the name. */
  lemma FittingParent(ns: map<nat, Node>, depth: map<nat, nat>, e: nat)
    requires Tree(ns, depth) && e in ns && e != 0
    ensures var p := Parent(ns, depth, e);
            |Text(ns, depth, e)| == |Text(ns, depth, p)| + |ns[e].name| + 1
            && Fitting(ns, depth, e) == if |Text(ns, depth, e)| <= MAX_PATHLEN then e else Fitting(ns, depth, p)
  {
  }

  /** The path without the slash behind it, except the root's. */
  ghost function PathOf(ns: map<nat, Node>, depth: map<nat, nat>, e: nat): (s: string)
    requires Tree(ns, depth) && e in ns
    ensures |s| > 0 && s[0] == '/'
  {
    var t := Text(ns, depth, e);
    if e == 0 then t else t[..|t| - 1]
  }

  lemma {:induction false} PathSplits(ns: map<nat, Node>, depth: map<nat, nat>, e: nat)
    requires Tree(ns, depth) && e in ns && e != 0
    ensures Comps(PathOf(ns, depth, e), 1) == Names(ns, depth, e)
    decreases if e in depth then depth[e] else 0
  {
    NodeOk(ns, depth, e);
    var p, name := Parent(ns, depth, e), ns[e].name;
    PathStep(ns, depth, e);
    if p == 0 {
      OneComp("/" + name, 1);
    } else {
      PathSplits(ns, depth, p);
      CompsSnoc(PathOf(ns, depth, p), 1, name);
    }
  }

  lemma PathStep(ns: map<nat, Node>, depth: map<nat, nat>, e: nat)
    requires Tree(ns, depth) && e in ns && e != 0
    ensures var p := Parent(ns, depth, e);
            PathOf(ns, depth, e) == (if p == 0 then "/" else PathOf(ns, depth, p) + "/") + ns[e].name
  {
    var p, t := Parent(ns, depth, e), Text(ns, depth, Parent(ns, depth, e));
    assert Text(ns, depth, e) == t + ns[e].name + "/";
    if p != 0 {
      assert t == PathOf(ns, depth, p) + "/";
    }
  }

  /** An entry and its ancestors short of the root are directories. */
  ghost predicate DirPath(ns: map<nat, Node>, depth: map<nat, nat>, e: nat)
    requires Tree(ns, depth) && e in ns
    decreases if e in depth then depth[e] else 0
  {
    e == 0 || (ns[e].dir && DirPath(ns, depth, Parent(ns, depth, e)))
  }

  lemma OwnChild(ns: map<nat, Node>, depth: map<nat, nat>, e: nat)
    requires Tree(ns, depth) && e in ns && e != 0
    ensures Child(ns, ns[Parent(ns, depth, e)].kids, ns[e].name) == Some(e)
    ensures !(ns[e].name <= ".") && !(ns[e].name <= "..")
  {
    var p := Parent(ns, depth, e);
    NodeOk(ns, depth, e);
    NodeOk(ns, depth, p);
  }

  /** The names lead down to the entry as long as directories are on the way. */
  lemma {:induction false} FollowNames(ns: map<nat, Node>, depth: map<nat, nat>, e: nat, rest: seq<string>,
                                       lastDir: bool)
    requires Tree(ns, depth) && e in ns && rest != []
    ensures Follow(ns, 0, Names(ns, depth, e) + rest, lastDir) ==
            if DirPath(ns, depth, e) then Follow(ns, e, rest, lastDir) else NotDirectory
    decreases if e in depth then depth[e] else 0
  {
    if e == 0 {
      assert [] + rest == rest;
    } else {
      var p, more := Parent(ns, depth, e), [ns[e].name] + rest;
      FollowNames(ns, depth, p, more, lastDir);
      assert Names(ns, depth, e) + rest == Names(ns, depth, p) + more;
      OwnChild(ns, depth, e);
      FollowStep(ns, p, ns[e].name, rest, lastDir);
    }
  }

  /** What the path of an entry leads to. */
  lemma PathFinds(ns: map<nat, Node>, depth: map<nat, nat>, f: nat)
    requires Tree(ns, depth) && f in ns
    ensures Follow(ns, 0, Comps(PathOf(ns, depth, f), 1), false) ==
            if f == 0 || DirPath(ns, depth, Parent(ns, depth, f)) then Found(f) else NotDirectory
  {
    if f == 0 {
      OneComp("/", 1);
      assert [""] == [""] + [];
      FollowStep(ns, 0, "", [], false);
    } else {
      PathSplits(ns, depth, f);
      var p, last := Parent(ns, depth, f), [ns[f].name];
      FollowNames(ns, depth, p, last, false);
      OwnChild(ns, depth, f);
      assert last == [ns[f].name] + [];
      FollowStep(ns, p, ns[f].name, [], false);
    }
  }

  /** What `file_realpath` answers: an overlong path is cut at an ancestor, not refused. */
  ghost function RealPath(ns: map<nat, Node>, depth: map<nat, nat>, f: nat): (r: Result<string>)
    requires Tree(ns, depth) && f in ns
  {
    var g := Fitting(ns, depth, f);
    if |Text(ns, depth, g)| == MAX_PATHLEN then Err(ENAMETOOLONG) else Ok(PathOf(ns, depth, g))
  }

  /** The real path leads back exactly if it is short enough and runs through directories. */
  lemma RealPathLeadsBack(ns: map<nat, Node>, depth: map<nat, nat>, f: nat)
    requires Tree(ns, depth) && f in ns
    ensures (var r := RealPath(ns, depth, f); r.Ok? && Follow(ns, 0, Comps(r.value, 1), false) == Found(f)) <==>
            |Text(ns, depth, f)| < MAX_PATHLEN && (f == 0 || DirPath(ns, depth, Parent(ns, depth, f)))
  {
    PathFinds(ns, depth, Fitting(ns, depth, f));
  }
}
