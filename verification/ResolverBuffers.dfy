/** The resolver over its fixed-size buffers: the method, and when nothing is cut off. */
module ResolverBuffers {
  import opened PathText
  import opened SymlinkResolver
  import opened CharBuffers

  const VFS_PATH_BUF_SZ: nat := 320
  const COMPONENT_BUF_SZ: nat := 256
  const MOUNT_POINT_BUF_SZ: nat := 64

  /** The buffers of the C code, for an output buffer of outSize bytes. */
  function CBuffers(outSize: nat): (z: Sizes)
    requires outSize > 0
    ensures z == Buffers(319, 255, outSize - 1)
  {
    Buffers(VFS_PATH_BUF_SZ - 1, COMPONENT_BUF_SZ - 1, outSize - 1)
  }

  /** build_full_path: what the VFS callbacks hand to the resolver for the part of a path
      after the mount point. */
  function FullPath(mount: string, rel: string): (r: string)
    ensures r <= mount + rel && |r| <= 319 && (|r| < 319 ==> r == mount + rel)
  {
    Clip(mount + rel, VFS_PATH_BUF_SZ - 1)
  }

  /** As long as it fits, the resolver takes it apart again: mount point and rest. */
  lemma FullPathSeeds(mount: string, rel: string, outSize: nat)
    requires mount != "" && IsRest(rel) && |mount| + |rel| < 320 && outSize > 0
    ensures Seed(mount, CBuffers(outSize), FullPath(mount, rel)) == Work(mount, rel)
  {
    assert FullPath(mount, rel)[|mount|..] == rel;
  }

  /** resolve_symlink_path.  `fs` stands for lwext4; out holds the path when EOK (0) is
      returned and is left alone otherwise. */
  method ResolveSymlinkPath(fs: Fs, mount: string, path: string, out: CharBuffer) returns (rc: int)
    requires out.cells.Length > 0 && |mount| < 64
    requires NulFree(mount) && NulFree(path) && forall p :: fs(p).Link? ==> NulFree(fs(p).target)
    modifies out.cells
    ensures match Resolve(fs, mount, Buffers(319, 255, out.cells.Length - 1), path)
            case Path(text) => rc == 0 && out.Text() == text
            case Error(code) => rc == code && out.cells[..] == old(out.cells[..])
  {
    hide SkipSlashes, NameLength, Join, Name, Rest, Follow, Seed, UpToNul, CharBuffer.Text, NulFree;
    var z := CBuffers(out.cells.Length);
    ghost var answer := Resolve(fs, mount, z, path);
    var resolved := new CharBuffer(VFS_PATH_BUF_SZ);
    var remaining := new CharBuffer(VFS_PATH_BUF_SZ);
    SeedBuffers(mount, z, resolved, remaining, path);
    var total := 0;
    while true
      invariant total < MAX_SYMLINK_DEPTH
      invariant fresh(resolved.cells) && fresh(remaining.cells) && resolved.cells != remaining.cells
      invariant resolved.cells.Length == remaining.cells.Length == VFS_PATH_BUF_SZ
      invariant out.cells[..] == old(out.cells[..])
      invariant ResolveFrom(fs, mount, z, Work(resolved.Text(), remaining.Text()), total) == answer
      decreases MAX_SYMLINK_DEPTH - total, |remaining.Text()|
    {
      var p := SkipSlashes(remaining.Text());
      if p == "" {
        break;
      }
      var component, rest := Name(z, p), Rest(z, p);
      var candidate := ClipPath(z, Join(resolved.Text(), component));
      NulFreeParts(z, resolved.Text(), remaining.Text());
      match fs(candidate)
      case Missing =>
        out.Set(candidate + rest);
        return 0;
      case NonLink =>
        resolved.Set(candidate);
        remaining.Set(rest);
      case Unreadable(code) =>
        total := total + 1;
        if total >= MAX_SYMLINK_DEPTH {
          return ELOOP;
        }
        return code;
      case Link(linkTarget) =>
        total := total + 1;
        if total >= MAX_SYMLINK_DEPTH {
          return ELOOP;
        }
        FollowLink(mount, z, resolved, remaining, linkTarget, rest);
    }
    out.Set(resolved.Text());
    return 0;
  }

  /** The two working buffers before the loop. */
  method SeedBuffers(mount: string, z: Sizes, resolved: CharBuffer, remaining: CharBuffer, path: string)
    requires resolved.cells != remaining.cells
    requires resolved.cells.Length == remaining.cells.Length == VFS_PATH_BUF_SZ
    requires z.Buffers? && z.path == VFS_PATH_BUF_SZ - 1 && |mount| < MOUNT_POINT_BUF_SZ
    requires NulFree(mount) && NulFree(path)
    modifies resolved.cells, remaining.cells
    ensures Work(resolved.Text(), remaining.Text()) == Seed(mount, z, path)
  {
    hide UpToNul, CharBuffer.Text;
    if UnderMount(mount, path) {
      resolved.Set(mount);
      remaining.Set(path[|mount|..]);
    } else {
      resolved.Set(if IsAbsolute(path) then "/" else "");
      remaining.Set(path);
    }
  }

  /** The two working buffers after a link whose target lwext4 delivered. */
  method FollowLink(mount: string, z: Sizes, resolved: CharBuffer, remaining: CharBuffer, linkTarget: string,
                    rest: string)
    requires resolved.cells != remaining.cells
    requires resolved.cells.Length == remaining.cells.Length == VFS_PATH_BUF_SZ
    requires z.Buffers? && z.path == VFS_PATH_BUF_SZ - 1 && |mount| < MOUNT_POINT_BUF_SZ
    requires NulFree(mount) && NulFree(linkTarget) && NulFree(rest)
    modifies resolved.cells, remaining.cells
    ensures Work(resolved.Text(), remaining.Text())
            == Follow(mount, z, old(resolved.Text()), ClipPath(z, linkTarget), rest)
  {
    hide UpToNul, CharBuffer.Text, NulFree;
    var target := ClipPath(z, linkTarget);
    NulFreeFollow(mount, z, linkTarget, rest);
    var newRemaining := ClipPath(z, target + rest);
    if IsAbsolute(target) {
      if UnderMount(mount, target) {
        resolved.Set(mount);
        newRemaining := ClipPath(z, target[|mount|..] + rest);
      } else {
        resolved.Set("/");
      }
    }
    remaining.Set(newRemaining);
  }

  /** The pieces that one turn cuts and joins are C strings again. */
  lemma NulFreeParts(z: Sizes, resolved: string, remaining: string)
    requires NulFree(resolved) && NulFree(remaining) && SkipSlashes(remaining) != ""
    ensures var p := SkipSlashes(remaining);
            var candidate, rest := ClipPath(z, Join(resolved, Name(z, p))), Rest(z, p);
            NulFree(candidate) && NulFree(rest) && NulFree(candidate + rest)
  {
    hide SkipSlashes, NameLength;
    SkippedAreSlashes(remaining);
    var p := SkipSlashes(remaining);
    assert NulFree(p);
    assert NulFree(Name(z, p));
    assert NulFree(Join(resolved, Name(z, p)));
  }

  lemma NulFreeFollow(mount: string, z: Sizes, linkTarget: string, rest: string)
    requires NulFree(linkTarget) && NulFree(rest)
    ensures var target := ClipPath(z, linkTarget);
            && NulFree(ClipPath(z, target + rest))
            && (UnderMount(mount, target) ==> NulFree(ClipPath(z, target[|mount|..] + rest)))
            && NulFree("/")
  {
    var target := ClipPath(z, linkTarget);
    assert NulFree(target + rest);
    assert UnderMount(mount, target) ==> NulFree(target[|mount|..] + rest);
  }

  /** What the links followed add: for each its target and possibly a separating slash. */
  ghost function LinkCost(fs: Fs, mount: string, w: Work, total: nat): nat
    requires total < MAX_SYMLINK_DEPTH
    decreases MAX_SYMLINK_DEPTH - total, |w.remaining|
  {
    var p := SkipSlashes(w.remaining);
    if p == "" then 0
    else
      var candidate, rest := Join(w.resolved, Name(Unlimited, p)), Rest(Unlimited, p);
      match fs(candidate)
      case NonLink => LinkCost(fs, mount, Work(candidate, rest), total)
      case Link(target) =>
        if total + 1 >= MAX_SYMLINK_DEPTH then 0
        else |target| + 1 + LinkCost(fs, mount, Follow(mount, Unlimited, w.resolved, target, rest), total + 1)
      case _ => 0
  }

  /** No component met is longer than n. */
  ghost predicate NamesFit(fs: Fs, mount: string, n: nat, w: Work, total: nat)
    requires total < MAX_SYMLINK_DEPTH
    decreases MAX_SYMLINK_DEPTH - total, |w.remaining|
  {
    var p := SkipSlashes(w.remaining);
    p == "" ||
    var candidate, rest := Join(w.resolved, Name(Unlimited, p)), Rest(Unlimited, p);
    && NameLength(p) <= n
    && match fs(candidate)
       case NonLink => NamesFit(fs, mount, n, Work(candidate, rest), total)
       case Link(target) =>
         total + 1 >= MAX_SYMLINK_DEPTH ||
         NamesFit(fs, mount, n, Follow(mount, Unlimited, w.resolved, target, rest), total + 1)
       case _ => true
  }

  /** The slash that joining the next component would add beyond those in the text. */
  ghost function Separator(w: Work): nat {
    if w.remaining != "" && w.remaining[0] != '/' && w.resolved != "" && w.resolved[|w.resolved| - 1] != '/' then 1
    else 0
  }

  ghost function Length(w: Work): nat {
    |w.resolved| + |w.remaining| + Separator(w)
  }

  lemma StepLength(w: Work)
    requires SkipSlashes(w.remaining) != ""
    ensures var p := SkipSlashes(w.remaining);
            var candidate, rest := Join(w.resolved, Name(Unlimited, p)), Rest(Unlimited, p);
            && |candidate| + |rest| <= Length(w)
            && Length(Work(candidate, rest)) <= Length(w)
            && |rest| < |w.remaining| <= Length(w)
  {
  }

  lemma FollowLength(mount: string, w: Work, target: string, rest: string)
    requires |rest| < |w.remaining|
    ensures Length(Follow(mount, Unlimited, w.resolved, target, rest)) <= Length(w) + |target| + 1
    ensures |target + rest| <= Length(w) + |target|
  {
  }

  /** One turn cuts nothing off when the text fits. */
  lemma TurnFits(z: Sizes, w: Work)
    requires z.Buffers? && SkipSlashes(w.remaining) != ""
    requires Length(w) <= z.path && NameLength(SkipSlashes(w.remaining)) <= z.name
    ensures var p := SkipSlashes(w.remaining);
            var candidate := Join(w.resolved, Name(Unlimited, p));
            && Name(z, p) == Name(Unlimited, p) && Rest(z, p) == Rest(Unlimited, p)
            && ClipPath(z, candidate) == candidate
            && (z.path <= z.out ==> ClipOut(z, candidate + Rest(Unlimited, p)) == candidate + Rest(Unlimited, p))
  {
    hide SkipSlashes, Join, Length;
    StepLength(w);
  }

  /** Nor does following a link. */
  lemma FollowFits(mount: string, z: Sizes, w: Work, target: string, rest: string)
    requires z.Buffers? && |rest| < |w.remaining| && Length(w) + |target| <= z.path
    ensures ClipPath(z, target) == target
    ensures Follow(mount, z, w.resolved, target, rest) == Follow(mount, Unlimited, w.resolved, target, rest)
  {
    hide Length;
    FollowLength(mount, w, target, rest);
  }

  lemma {:induction false} LoopFits(fs: Fs, mount: string, z: Sizes, w: Work, total: nat)
    requires total < MAX_SYMLINK_DEPTH && z.Buffers? && z.path <= z.out
    requires Length(w) + LinkCost(fs, mount, w, total) <= z.path
    requires NamesFit(fs, mount, z.name, w, total)
    ensures ResolveFrom(fs, mount, z, w, total) == ResolveFrom(fs, mount, Unlimited, w, total)
    decreases MAX_SYMLINK_DEPTH - total, |w.remaining|
  {
    hide SkipSlashes, NameLength, Join, Length, Name, Rest, Follow, ClipPath;
    var p := SkipSlashes(w.remaining);
    if p == "" {
      LengthCovers(w);
    } else {
      var candidate, rest := Join(w.resolved, Name(Unlimited, p)), Rest(Unlimited, p);
      StepLength(w);
      TurnFits(z, w);
      NothingToClip(candidate);
      match fs(candidate)
      case NonLink => LoopFits(fs, mount, z, Work(candidate, rest), total);
      case Link(target) =>
        if total + 1 < MAX_SYMLINK_DEPTH {
          FollowLength(mount, w, target, rest);
          FollowFits(mount, z, w, target, rest);
          NothingToClip(target);
          LoopFits(fs, mount, z, Follow(mount, Unlimited, w.resolved, target, rest), total + 1);
        }
      case _ =>
    }
  }

  lemma NothingToClip(s: string)
    ensures ClipPath(Unlimited, s) == s
  {
  }

  lemma LengthCovers(w: Work)
    ensures |w.resolved| <= Length(w)
  {
  }

  /** Nothing is cut off, and the C function is the unbounded one, if the input, one more
      character, and for each followed link its target and one more character stay below 320
      together, no component reaches 256 and the output buffer is as large as the others. */
  lemma BuffersSuffice(fs: Fs, mount: string, path: string, outSize: nat)
    requires outSize >= 320
    requires var w := Seed(mount, Unlimited, path);
             && |path| + 1 + LinkCost(fs, mount, w, 0) < 320
             && NamesFit(fs, mount, 255, w, 0)
    ensures Resolve(fs, mount, Buffers(319, 255, outSize - 1), path) == Resolve(fs, mount, Unlimited, path)
  {
    var w := Seed(mount, Unlimited, path);
    assert Seed(mount, CBuffers(outSize), path) == w;
    assert Length(w) <= |path| + 1;
    LoopFits(fs, mount, CBuffers(outSize), w, 0);
  }

  /** The cost of at most seven links with targets of at most `longest` characters. */
  lemma {:induction false} LinkCostBound(fs: Fs, mount: string, w: Work, total: nat, longest: nat)
    requires total < MAX_SYMLINK_DEPTH && forall p :: fs(p).Link? ==> |fs(p).target| <= longest
    ensures LinkCost(fs, mount, w, total) <= (7 - total) * (longest + 1)
    decreases MAX_SYMLINK_DEPTH - total, |w.remaining|
  {
    hide SkipSlashes, NameLength, Join;
    var p := SkipSlashes(w.remaining);
    if p != "" {
      var candidate, rest := Join(w.resolved, Name(Unlimited, p)), Rest(Unlimited, p);
      match fs(candidate)
      case NonLink => LinkCostBound(fs, mount, Work(candidate, rest), total, longest);
      case Link(target) =>
        if total + 1 < MAX_SYMLINK_DEPTH {
          LinkCostBound(fs, mount, Follow(mount, Unlimited, w.resolved, target, rest), total + 1, longest);
          assert (7 - total) * (longest + 1) == (7 - (total + 1)) * (longest + 1) + longest + 1;
        }
      case _ =>
    }
  }
}
