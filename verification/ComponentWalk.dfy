/** The reference semantics of symlink resolution: a walk over the list of components.  The
    text-rewriting loop, with buffers that never overflow, computes the same. */
module ComponentWalk {
  import opened PathText
  import opened SymlinkResolver

  /** A component with the number of slashes before it. */
  datatype Component = Component(gap: nat, name: string)

  /** A path text as components and trailing slashes; nothing of the text is lost. */
  datatype Tail = Tail(comps: seq<Component>, trailing: nat)

  function Slashes(n: nat): (r: string)
    ensures |r| == n && forall i :: 0 <= i < n ==> r[i] == '/'
  {
    seq(n, _ => '/')
  }

  function Parse(s: string): (r: Tail)
    decreases |s|
  {
    var p := SkipSlashes(s);
    if p == "" then Tail([], |s|)
    else
      var n := NameLength(p);
      var after := Parse(p[n..]);
      Tail([Component(|s| - |p|, p[..n])] + after.comps, after.trailing)
  }

  function Unparse(t: Tail): (r: string)
    decreases |t.comps|
  {
    if t.comps == [] then Slashes(t.trailing)
    else Slashes(t.comps[0].gap) + t.comps[0].name + Unparse(Tail(t.comps[1..], t.trailing))
  }

  /** The components of a followed by those of b; slashes that meet add up. */
  function Splice(a: Tail, b: Tail): (r: Tail) {
    if b.comps == [] then Tail(a.comps, a.trailing + b.trailing)
    else Tail(a.comps + [Component(a.trailing + b.comps[0].gap, b.comps[0].name)] + b.comps[1..], b.trailing)
  }

  datatype Config = Config(base: string, tail: Tail)

  /** One component of the walk: finished, one component further, or at a link. */
  datatype Move = Done(path: string) | On(next: Config) | Jump(next: Config) | Stuck(rc: ErrorCode)

  ghost function Next(fs: Fs, mount: string, c: Config): (m: Move)
    ensures m.On? ==> |m.next.tail.comps| < |c.tail.comps|
  {
    if c.tail.comps == [] then
      Done(c.base)
    else
      var candidate := Join(c.base, c.tail.comps[0].name);
      var rest := Tail(c.tail.comps[1..], c.tail.trailing);
      match fs(candidate)
      case Missing => Done(candidate + Unparse(rest))
      case NonLink => On(Config(candidate, rest))
      case Link(target) => Jump(Target(mount, c.base, target, rest))
      case Unreadable(rc) => Stuck(rc)
  }

  /** Where a link leads: its components go before the remaining ones, walked from where the
      link stands, or from the mount point or the root if the target is absolute. */
  ghost function Target(mount: string, base: string, target: string, rest: Tail): (c: Config) {
    if !IsAbsolute(target) then Config(base, Splice(Parse(target), rest))
    else if UnderMount(mount, target) then Config(mount, Splice(Parse(target[|mount|..]), rest))
    else Config("/", Splice(Parse(target), rest))
  }

  ghost function Walk(fs: Fs, mount: string, c: Config, total: nat): (r: Outcome)
    requires total <= 7
    decreases 7 - total, |c.tail.comps|
  {
    match Next(fs, mount, c)
    case Done(path) => Path(path)
    case On(next) => Walk(fs, mount, next, total)
    case Jump(next) => if total == 7 then Error(ELOOP) else Walk(fs, mount, next, total + 1)
    case Stuck(rc) => Error(if total == 7 then ELOOP else rc)
  }

  lemma UnparseNone(n: nat)
    ensures Unparse(Tail([], n)) == Slashes(n)
  {
  }

  lemma UnparseCons(c: Component, t: Tail)
    ensures Unparse(Tail([c] + t.comps, t.trailing)) == Slashes(c.gap) + c.name + Unparse(t)
  {
    assert ([c] + t.comps)[1..] == t.comps;
  }

  /** Parsing loses nothing. */
  lemma {:induction false} UnparseParse(s: string)
    ensures Unparse(Parse(s)) == s
  {
    hide Unparse, SkipSlashes, NameLength;
    var p := SkipSlashes(s);
    SkippedAreSlashes(s);
    if p == "" {
      assert Slashes(|s|) == s;
      UnparseNone(|s|);
    } else {
      var n := NameLength(p);
      UnparseParse(p[n..]);
      UnparseCons(Component(|s| - |p|, p[..n]), Parse(p[n..]));
      assert Slashes(|s| - |p|) + p == s;
      assert p == p[..n] + p[n..];
    }
  }

  lemma {:induction false} SkipAppend(a: string, r: string)
    ensures SkipSlashes(a + r) == if SkipSlashes(a) == "" then SkipSlashes(r) else SkipSlashes(a) + r
  {
    if a == "" {
      assert a + r == r;
    } else if a[0] == '/' {
      SkipAppend(a[1..], r);
      assert (a + r)[1..] == a[1..] + r;
    }
  }

  lemma {:induction false} NameAppend(a: string, r: string)
    requires IsRest(r)
    ensures NameLength(a + r) == NameLength(a)
  {
    if a == "" {
      assert a + r == r;
    } else if a[0] != '/' {
      NameAppend(a[1..], r);
      assert (a + r)[1..] == a[1..] + r;
    }
  }

  lemma SpliceCons(c: Component, a: Tail, b: Tail)
    ensures var ab := Splice(a, b);
            Splice(Tail([c] + a.comps, a.trailing), b) == Tail([c] + ab.comps, ab.trailing)
  {
    if b.comps != [] {
      var joint := [Component(a.trailing + b.comps[0].gap, b.comps[0].name)];
      assert [c] + a.comps + joint + b.comps[1..] == [c] + (a.comps + joint + b.comps[1..]);
    }
  }

  /** Slashes before a text only widen its first gap. */
  lemma ParseOfSlashes(a: string, r: string)
    requires SkipSlashes(a) == ""
    ensures Parse(a + r) == Splice(Tail([], |a|), Parse(r))
  {
    hide SkipSlashes, NameLength;
    SkipAppend(a, r);
    var p := SkipSlashes(r);
    if p != "" {
      var n := NameLength(p);
      var later := Parse(p[n..]);
      var c, c' := Component(|r| - |p|, p[..n]), Component(|a| + |r| - |p|, p[..n]);
      assert Parse(r) == Tail([c] + later.comps, later.trailing);
      assert Parse(a + r) == Tail([c'] + later.comps, later.trailing);
      assert ([c] + later.comps)[1..] == later.comps;
    }
  }

  /** Concatenating a target and a rest splices their components. */
  lemma {:induction false} ParseAppend(a: string, r: string)
    requires IsRest(r)
    ensures Parse(a + r) == Splice(Parse(a), Parse(r))
    decreases |a|
  {
    hide Splice, SkipSlashes, NameLength;
    var p := SkipSlashes(a);
    if p == "" {
      ParseOfSlashes(a, r);
    } else {
      var n := NameLength(p);
      SkipAppend(a, r);
      NameAppend(p, r);
      assert (p + r)[..n] == p[..n] && (p + r)[n..] == p[n..] + r;
      ParseAppend(p[n..], r);
      SpliceCons(Component(|a| - |p|, p[..n]), Parse(p[n..]), Parse(r));
    }
  }

  /** The loop is the list walk: same path, same error, for every filesystem, mount point,
      buffers and number of links already followed. */
  lemma {:induction false} LoopIsWalk(fs: Fs, mount: string, w: Work, total: nat)
    requires total < MAX_SYMLINK_DEPTH
    ensures ResolveFrom(fs, mount, Unlimited, w, total)
            == Walk(fs, mount, Config(w.resolved, Parse(w.remaining)), total)
    decreases MAX_SYMLINK_DEPTH - total, |w.remaining|
  {
    hide SkipSlashes, NameLength, Join, Unparse, Splice;
    var p := SkipSlashes(w.remaining);
    if p != "" {
      var n := NameLength(p);
      var rest := p[n..];
      var candidate := Join(w.resolved, p[..n]);
      var t := Parse(w.remaining);
      assert Tail(t.comps[1..], t.trailing) == Parse(rest);
      match fs(candidate)
      case Missing => UnparseParse(rest);
      case NonLink => LoopIsWalk(fs, mount, Work(candidate, rest), total);
      case Link(target) =>
        if total + 1 < MAX_SYMLINK_DEPTH {
          FollowIsTarget(mount, w.resolved, target, rest);
          LoopIsWalk(fs, mount, Follow(mount, Unlimited, w.resolved, target, rest), total + 1);
        }
      case Unreadable(_) =>
    }
  }

  /** From the input: the walk starts at the mount point with what follows it there, if a
      slash or nothing does, and otherwise at the root or the empty path with the input. */
  lemma ResolveIsWalk(fs: Fs, mount: string, path: string)
    ensures forall rest :: mount != "" && IsRest(rest) && path == mount + rest ==>
              Resolve(fs, mount, Unlimited, path) == Walk(fs, mount, Config(mount, Parse(rest)), 0)
    ensures mount == "" || (forall rest :: IsRest(rest) ==> path != mount + rest) ==>
              Resolve(fs, mount, Unlimited, path)
              == Walk(fs, mount, Config(if "/" <= path then "/" else "", Parse(path)), 0)
  {
    hide Parse, Walk, ResolveFrom;
    UnderMountIff(mount, path);
    var w := Seed(mount, Unlimited, path);
    LoopIsWalk(fs, mount, w, 0);
    forall rest | mount != "" && IsRest(rest) && path == mount + rest
      ensures Resolve(fs, mount, Unlimited, path) == Walk(fs, mount, Config(mount, Parse(rest)), 0)
    {
      assert path[|mount|..] == rest;
    }
  }

  lemma FollowIsTarget(mount: string, resolved: string, target: string, rest: string)
    requires IsRest(rest)
    ensures var w := Follow(mount, Unlimited, resolved, target, rest);
            Config(w.resolved, Parse(w.remaining)) == Target(mount, resolved, target, Parse(rest))
  {
    ParseAppend(target, rest);
    if UnderMount(mount, target) {
      ParseAppend(target[|mount|..], rest);
    }
  }
}
