/** Text of paths as the resolver cuts and joins it. */
module PathText {

  /** Leading slashes dropped. */
  function SkipSlashes(s: string): (r: string)
    ensures |r| <= |s| && (r != "" ==> r[0] != '/')
  {
    if s != "" && s[0] == '/' then SkipSlashes(s[1..]) else s
  }

  /** Length of the component that starts s: up to the first slash or the end. */
  function NameLength(s: string): (n: nat)
    ensures n <= |s| && (n == |s| || s[n] == '/')
    ensures s != "" && s[0] != '/' ==> n > 0
  {
    if s == "" || s[0] == '/' then 0 else 1 + NameLength(s[1..])
  }

  lemma {:induction false} NameHasNoSlash(s: string)
    ensures forall i :: 0 <= i < NameLength(s) ==> s[i] != '/'
  {
    if s != "" && s[0] != '/' {
      NameHasNoSlash(s[1..]);
      forall i | 0 <= i < NameLength(s) ensures s[i] != '/' {
        assert i > 0 ==> s[i] == s[1..][i - 1];
      }
    }
  }

  /** Only slashes are skipped. */
  lemma {:induction false} SkippedAreSlashes(s: string)
    ensures var p := SkipSlashes(s);
            s[|s| - |p|..] == p && forall i :: 0 <= i < |s| - |p| ==> s[i] == '/'
  {
    if s != "" && s[0] == '/' {
      SkippedAreSlashes(s[1..]);
      var p := SkipSlashes(s);
      assert s[|s| - |p|..] == s[1..][|s| - 1 - |p|..];
      forall i | 0 <= i < |s| - |p| ensures s[i] == '/' {
        assert i > 0 ==> s[i] == s[1..][i - 1];
      }
    }
  }

  /** Candidate path: a slash goes between unless the left side is empty or ends in one. */
  function Join(resolved: string, name: string): (r: string) {
    if resolved == "" || resolved[|resolved| - 1] == '/' then resolved + name else resolved + "/" + name
  }

  /** What is left after a component is empty or starts with a slash. */
  predicate IsRest(rest: string) {
    rest == "" || rest[0] == '/'
  }

  predicate IsAbsolute(s: string) {
    s != "" && s[0] == '/'
  }

  /** The first n characters, or all if there are no more. */
  function Clip(s: string, n: nat): (r: string)
    ensures r <= s && |r| <= n && (|r| < n ==> r == s)
  {
    if |s| <= n then s else s[..n]
  }

  /** The prefix test on the mount point, for inputs and for link targets. */
  predicate UnderMount(mount: string, path: string) {
    |mount| > 0 && mount <= path && (|path| == |mount| || path[|mount|] == '/')
  }

  /** It asks for whole components: the mount point, alone or followed by a slash. */
  lemma UnderMountIff(mount: string, path: string)
    ensures UnderMount(mount, path) <==> mount != "" && exists rest :: IsRest(rest) && path == mount + rest
  {
    if UnderMount(mount, path) {
      var rest := path[|mount|..];
      assert IsRest(rest) && path == mount + rest;
    }
  }
}

/** resolve_symlink_path (lwext4_vfs.c): symlinks resolved component by component on text. */
module SymlinkResolver {
  import opened PathText

  const MAX_SYMLINK_DEPTH: nat := 8

  /** errno values; the resolver relies only on their being non-zero. */
  type ErrorCode = c: int | c != 0 witness 1
  const ELOOP: ErrorCode := 92

  /** What lwext4 answers for a path: ext4_mode_get fails, finds something else than a
      link, or finds a link whose target ext4_readlink delivers or fails to deliver. */
  datatype Node = Missing | NonLink | Link(target: string) | Unreadable(rc: ErrorCode)

  type Fs = string -> Node

  datatype Outcome = Path(text: string) | Error(code: ErrorCode)

  /** Buffer capacities in characters, the terminating NUL not counted. */
  datatype Sizes = Unlimited | Buffers(path: nat, name: nat, out: nat)

  function ClipPath(z: Sizes, s: string): (r: string)
    ensures |r| <= |s| && r <= s
  {
    if z.Unlimited? then s else Clip(s, z.path)
  }

  function ClipName(z: Sizes, s: string): (r: string) {
    if z.Unlimited? then s else Clip(s, z.name)
  }

  function ClipOut(z: Sizes, s: string): (r: string) {
    if z.Unlimited? then s else Clip(s, z.out)
  }

  /** The two buffers that the loop rewrites. */
  datatype Work = Work(resolved: string, remaining: string)

  function Seed(mount: string, z: Sizes, path: string): (w: Work) {
    if UnderMount(mount, path) then Work(mount, ClipPath(z, path[|mount|..]))
    else Work(if IsAbsolute(path) then "/" else "", ClipPath(z, path))
  }

  /** The buffers after following a link to `target` with `rest` still to come. */
  function Follow(mount: string, z: Sizes, resolved: string, target: string, rest: string): (w: Work) {
    if !IsAbsolute(target) then Work(resolved, ClipPath(z, target + rest))
    else if UnderMount(mount, target) then Work(mount, ClipPath(z, target[|mount|..] + rest))
    else Work("/", ClipPath(z, target + rest))
  }

  /** The first component of a non-empty text without leading slash, and what follows. */
  function Name(z: Sizes, p: string): (r: string) {
    ClipName(z, p[..NameLength(p)])
  }

  function Rest(z: Sizes, p: string): (r: string)
    requires p != "" && p[0] != '/'
    ensures |r| < |p| && IsRest(r)
  {
    ClipPath(z, p[NameLength(p)..])
  }

  /** The loop from the given buffers with `total` links followed so far. */
  function ResolveFrom(fs: Fs, mount: string, z: Sizes, w: Work, total: nat): (r: Outcome)
    requires total < MAX_SYMLINK_DEPTH
    decreases MAX_SYMLINK_DEPTH - total, |w.remaining|
  {
    var p := SkipSlashes(w.remaining);
    if p == "" then
      Path(ClipOut(z, w.resolved))
    else
      var candidate := ClipPath(z, Join(w.resolved, Name(z, p)));
      var rest := Rest(z, p);
      match fs(candidate)
      case Missing => Path(ClipOut(z, candidate + rest))
      case NonLink => ResolveFrom(fs, mount, z, Work(candidate, rest), total)
      case Link(target) =>
        if total + 1 >= MAX_SYMLINK_DEPTH then Error(ELOOP)
        else ResolveFrom(fs, mount, z, Follow(mount, z, w.resolved, ClipPath(z, target), rest), total + 1)
      case Unreadable(rc) =>
        if total + 1 >= MAX_SYMLINK_DEPTH then Error(ELOOP) else Error(rc)
  }

  function Resolve(fs: Fs, mount: string, z: Sizes, path: string): (r: Outcome) {
    ResolveFrom(fs, mount, z, Seed(mount, z, path), 0)
  }
}
