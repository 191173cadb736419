/** What the fixed-size buffers of the resolver cut off, and that nothing else depends on what
    is cut. */
module Truncation {
  import opened PathText
  import opened SymlinkResolver
  import opened LinkBudget
  import opened ResolvedPaths
  import opened ComponentWalk

  /** A smaller output buffer changes nothing but the text returned, which it cuts. */
  lemma {:induction false} OutputOnlyClips(fs: Fs, mount: string, path: nat, name: nat, out: nat, out': nat, w: Work,
                                           total: nat)
    requires total < MAX_SYMLINK_DEPTH && out <= out'
    ensures ResolveFrom(fs, mount, Buffers(path, name, out), w, total)
            == match ResolveFrom(fs, mount, Buffers(path, name, out'), w, total)
               case Path(text) => Path(if |text| <= out then text else text[..out])
               case Error(code) => Error(code)
    decreases MAX_SYMLINK_DEPTH - total, |w.remaining|
  {
    hide SkipSlashes, NameLength, Join, ClipPath, ClipOut, Follow, Name, Rest;
    var z, z' := Buffers(path, name, out), Buffers(path, name, out');
    var p := SkipSlashes(w.remaining);
    if p == "" {
      ClipTwice(z, z', w.resolved);
    } else {
      var joined := Join(w.resolved, Name(z, p));
      var candidate, rest := ClipPath(z, joined), Rest(z, p);
      SameCuts(mount, z, z', p, joined, w.resolved, rest);
      match fs(candidate)
      case Missing => ClipTwice(z, z', candidate + rest);
      case NonLink => OutputOnlyClips(fs, mount, path, name, out, out', Work(candidate, rest), total);
      case Link(target) =>
        SameCuts(mount, z, z', p, target, w.resolved, rest);
        if total + 1 < MAX_SYMLINK_DEPTH {
          var next := Follow(mount, z, w.resolved, ClipPath(z, target), rest);
          OutputOnlyClips(fs, mount, path, name, out, out', next, total + 1);
        }
      case Unreadable(_) =>
    }
  }

  lemma SameCuts(mount: string, z: Sizes, z': Sizes, p: string, s: string, resolved: string, rest: string)
    requires z.Buffers? && z'.Buffers? && z' == z.(out := z'.out) && p != "" && p[0] != '/'
    ensures Name(z, p) == Name(z', p) && Rest(z, p) == Rest(z', p) && ClipPath(z, s) == ClipPath(z', s)
    ensures Follow(mount, z, resolved, ClipPath(z, s), rest) == Follow(mount, z', resolved, ClipPath(z, s), rest)
  {
  }

  lemma ClipTwice(z: Sizes, z': Sizes, s: string)
    requires z.Buffers? && z'.Buffers? && z.out <= z'.out
    ensures var text := ClipOut(z', s);
            ClipOut(z, s) == if |text| <= z.out then text else text[..z.out]
  {
  }

  /** Two filesystems that the C code cannot tell apart: they answer alike for every path of
      at most 319 characters, up to what a link target has beyond its first 319. */
  ghost predicate LookAlike(fs: Fs, fs': Fs) {
    forall p {:trigger fs(p)} :: |p| <= 319 ==>
      if fs(p).Link? then fs'(p).Link? && Clip(fs(p).target, 319) == Clip(fs'(p).target, 319) else fs(p) == fs'(p)
  }

  /** lwext4 is asked for no longer path, and no more of a target is used. */
  lemma {:induction false} OnlyShortPathsAsked(fs: Fs, fs': Fs, mount: string, out: nat, w: Work, total: nat)
    requires total < MAX_SYMLINK_DEPTH && LookAlike(fs, fs')
    ensures ResolveFrom(fs, mount, Buffers(319, 255, out), w, total)
            == ResolveFrom(fs', mount, Buffers(319, 255, out), w, total)
    decreases MAX_SYMLINK_DEPTH - total, |w.remaining|
  {
    hide SkipSlashes, NameLength, Join;
    var z := Buffers(319, 255, out);
    var p := SkipSlashes(w.remaining);
    if p != "" {
      var candidate, rest := ClipPath(z, Join(w.resolved, Name(z, p))), Rest(z, p);
      match fs(candidate)
      case NonLink => OnlyShortPathsAsked(fs, fs', mount, out, Work(candidate, rest), total);
      case Link(target) =>
        if total + 1 < MAX_SYMLINK_DEPTH {
          OnlyShortPathsAsked(fs, fs', mount, out, Follow(mount, z, w.resolved, ClipPath(z, target), rest), total + 1);
        }
      case _ =>
    }
  }

  /** Of a component only the first 255 characters count. */
  lemma LongNamesAreCut(fs: Fs, mount: string, out: nat, resolved: string, name: string, name': string, rest: string,
                        total: nat)
    requires total < MAX_SYMLINK_DEPTH && IsName(name) && IsName(name') && IsRest(rest)
    requires |name| >= 255 && |name'| >= 255 && name[..255] == name'[..255]
    ensures ResolveFrom(fs, mount, Buffers(319, 255, out), Work(resolved, name + rest), total)
            == ResolveFrom(fs, mount, Buffers(319, 255, out), Work(resolved, name' + rest), total)
  {
    hide SkipSlashes, NameLength, Join, Follow;
    FirstComponent(name, rest);
    FirstComponent(name', rest);
    var z := Buffers(319, 255, out);
    assert Name(z, name + rest) == name[..255] == name'[..255] == Name(z, name' + rest);
    assert Rest(z, name + rest) == Rest(z, name' + rest);
  }

  lemma FirstComponent(name: string, rest: string)
    requires IsName(name) && IsRest(rest)
    ensures SkipSlashes(name + rest) == name + rest && NameLength(name + rest) == |name|
    ensures (name + rest)[..|name|] == name && (name + rest)[|name|..] == rest
  {
    WholeName(name);
    SkipAppend(name, rest);
    NameAppend(name, rest);
  }

  /** Of an input only the first 319 characters after the mount point count. */
  lemma LongInputsAreCut(fs: Fs, mount: string, out: nat, path: string, path': string)
    requires |path| >= |mount| + 319 && |path'| >= |mount| + 319
    requires path[..|mount| + 319] == path'[..|mount| + 319]
    ensures Resolve(fs, mount, Buffers(319, 255, out), path) == Resolve(fs, mount, Buffers(319, 255, out), path')
  {
    hide ResolveFrom;
    var head, head' := path[..|mount| + 319], path'[..|mount| + 319];
    assert path[..|mount|] == head[..|mount|] == head'[..|mount|] == path'[..|mount|];
    assert path[..319] == head[..319] == head'[..319] == path'[..319];
    assert path[|mount|..][..319] == head[|mount|..] == head'[|mount|..] == path'[|mount|..][..319];
    assert path[0] == head[0] == head'[0] == path'[0] && path[|mount|] == head[|mount|] == path'[|mount|];
    assert Seed(mount, Buffers(319, 255, out), path) == Seed(mount, Buffers(319, 255, out), path');
  }
}
