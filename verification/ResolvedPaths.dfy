/** What a successful resolution returns, that it is stable, and how absolute links restart. */
module ResolvedPaths {
  import opened PathText
  import opened SymlinkResolver
  import opened LinkBudget

  /** A component of s ends at i. */
  predicate Stop(s: string, i: nat) {
    0 < i <= |s| && s[i - 1] != '/' && (i == |s| || s[i] == '/')
  }

  /** Beyond `from`, single slashes separate components and none ends the text. */
  ghost predicate TidyFrom(s: string, from: nat) {
    && (forall i {:trigger s[i]} :: from < i < |s| && i > 0 && s[i - 1] == '/' ==> s[i] != '/')
    && (|s| > from ==> s[|s| - 1] != '/')
  }

  /** Every component prefix of s longer than `from` exists and is not a link. */
  ghost predicate Settled(fs: Fs, s: string, from: nat) {
    forall i {:trigger Stop(s, i)} :: from < i && Stop(s, i) ==> fs(s[..i]).NonLink?
  }

  /** Nothing follows the first k characters of s, or a component does, with one slash. */
  predicate Seam(s: string, k: nat) {
    k == |s| || (k < |s| && if k == 0 then s[0] != '/' else (s[k - 1] == '/') != (s[k] == '/'))
  }

  /** A place where a walk starts: the mount point, the root or the empty path. */
  predicate IsSeed(mount: string, seed: string) {
    seed == mount || seed == "/" || seed == ""
  }

  /** `base` grew from `seed` by components that exist and are not links. */
  ghost predicate Grown(fs: Fs, mount: string, base: string, seed: string) {
    && IsSeed(mount, seed) && seed <= base && Seam(base, |seed|)
    && TidyFrom(base, |seed|) && Settled(fs, base, |seed|)
  }

  /** The text returned from the buffers of the last turn: all components are done and it is
      the path resolved; or it is that with the first component that is missing and, verbatim,
      everything after it. */
  ghost predicate IsResultOf(fs: Fs, last: Work, text: string) {
    var p := SkipSlashes(last.remaining);
    if p == "" then text == last.resolved
    else
      var candidate := Join(last.resolved, p[..NameLength(p)]);
      fs(candidate).Missing? && text == candidate + p[NameLength(p)..]
  }

  predicate IsName(name: string) {
    name != "" && forall i :: 0 <= i < |name| ==> name[i] != '/'
  }

  lemma JoinGrows(fs: Fs, mount: string, base: string, seed: string, name: string)
    requires IsName(name) && Grown(fs, mount, base, seed)
    requires fs(Join(base, name)).NonLink?
    ensures Grown(fs, mount, Join(base, name), seed)
  {
    var c := Join(base, name);
    forall i | |seed| < i && Stop(c, i) ensures fs(c[..i]).NonLink? {
      if i <= |base| {
        assert Stop(base, i);
        assert c[..i] == base[..i];
      } else {
        assert c[..i] == c;
      }
    }
  }

  lemma {:induction false} WholeName(name: string)
    requires IsName(name)
    ensures NameLength(name) == |name| && SkipSlashes(name) == name == SkipSlashes("/" + name)
  {
    assert ("/" + name)[1..] == name;
    if |name| > 1 {
      WholeName(name[1..]);
    }
  }

  lemma NextName(p: string)
    requires p != "" && p[0] != '/'
    ensures IsName(p[..NameLength(p)])
  {
    NameHasNoSlash(p);
  }

  /** One turn keeps what is resolved grown, from the old seed or a new one. */
  lemma TurnGrows(fs: Fs, mount: string, w: Work, seed: string) returns (seed': string)
    requires Grown(fs, mount, w.resolved, seed)
    ensures var t := TurnOf(fs, mount, Unlimited, w);
            t.Advanced? || t.Followed? ==> Grown(fs, mount, t.next.resolved, seed')
  {
    hide Grown, SkipSlashes, NameLength, Join, IsName;
    seed' := seed;
    var p := SkipSlashes(w.remaining);
    if p != "" {
      NextName(p);
      var name, rest := Name(Unlimited, p), Rest(Unlimited, p);
      match fs(Join(w.resolved, name))
      case NonLink => JoinGrows(fs, mount, w.resolved, seed, name);
      case Link(target) =>
        var w' := Follow(mount, Unlimited, w.resolved, target, rest);
        SeedGrown(fs, mount, w'.resolved);
        seed' := if IsAbsolute(target) then w'.resolved else seed;
      case _ =>
    }
  }

  lemma FinishedIsResult(fs: Fs, mount: string, w: Work, total: nat)
    requires total < MAX_SYMLINK_DEPTH && TurnOf(fs, mount, Unlimited, w).Finished?
    ensures var r := ResolveFrom(fs, mount, Unlimited, w, total);
            r.Path? && IsResultOf(fs, w, r.text)
  {
    hide SkipSlashes, NameLength, Join;
  }

  lemma {:induction false} LastTurn(fs: Fs, mount: string, w: Work, total: nat, seed: string)
    returns (last: Work, n: nat, seed': string)
    requires total < MAX_SYMLINK_DEPTH && Grown(fs, mount, w.resolved, seed)
    requires ResolveFrom(fs, mount, Unlimited, w, total).Path?
    ensures Leads(fs, mount, Unlimited, w, last, n) && Grown(fs, mount, last.resolved, seed')
    ensures IsResultOf(fs, last, ResolveFrom(fs, mount, Unlimited, w, total).text)
    decreases MAX_SYMLINK_DEPTH - total, |w.remaining|
  {
    hide TurnOf, ResolveFrom, Grown, IsResultOf;
    TurnDecides(fs, mount, Unlimited, w, total);
    var from := TurnGrows(fs, mount, w, seed);
    match TurnOf(fs, mount, Unlimited, w)
    case Finished =>
      FinishedIsResult(fs, mount, w, total);
      return w, 0, seed;
    case Advanced(next) =>
      last, n, seed' := LastTurn(fs, mount, next, total, from);
      n := n + 1;
    case Followed(next) =>
      last, n, seed' := LastTurn(fs, mount, next, total + 1, from);
      n := n + 1;
    case Broken(_) =>
  }

  lemma SeedGrown(fs: Fs, mount: string, seed: string)
    ensures IsSeed(mount, seed) ==> Grown(fs, mount, seed, seed)
  {
  }

  lemma JoinPrefix(text: string, k: nat, skip: nat, n: nat)
    requires k < |text| && Seam(text, k) && skip == (if text[k] == '/' then 1 else 0) && k + skip + n <= |text|
    ensures Join(text[..k], text[k + skip..][..n]) == text[..k + skip + n]
  {
    var base, name := text[..k], text[k + skip..][..n];
    var joined, whole := Join(base, name), text[..k + skip + n];
    assert k > 0 ==> base[|base| - 1] == text[k - 1];
    assert joined == if skip == 1 then base + "/" + name else base + name;
    forall i | 0 <= i < |whole| ensures joined[i] == whole[i] {
      if i >= k + skip {
        assert joined[i] == name[i - (k + skip)] == text[k + skip..][i - (k + skip)];
      }
    }
  }

  lemma NextComponent(text: string, k: nat) returns (k': nat)
    requires k < |text| && TidyFrom(text, k) && Seam(text, k)
    ensures k < k' <= |text| && Stop(text, k') && Seam(text, k')
    ensures var p := SkipSlashes(text[k..]);
            p != "" && Join(text[..k], p[..NameLength(p)]) == text[..k'] && p[NameLength(p)..] == text[k'..]
  {
    hide Join;
    var skip := if text[k] == '/' then 1 else 0;
    var p := text[k + skip..];
    assert p != "" && p[0] != '/';
    assert SkipSlashes(text[k..]) == p by {
      assert skip == 1 ==> text[k..][1..] == p;
    }
    var n := NameLength(p);
    NextName(p);
    k' := k + skip + n;
    assert text[k' - 1] == p[n - 1];
    assert n < |p| ==> text[k'] == p[n];
    JoinPrefix(text, k, skip, n);
  }

  /** Walking along a text that is settled beyond k gives the text itself, with any number of
      links already followed: so no link is met. */
  lemma {:induction false} WalkAlong(fs: Fs, mount: string, text: string, k: nat, remaining: string, total: nat)
    requires total < MAX_SYMLINK_DEPTH && k <= |text|
    requires TidyFrom(text, k) && Settled(fs, text, k) && Seam(text, k)
    requires SkipSlashes(remaining) == SkipSlashes(text[k..])
    ensures ResolveFrom(fs, mount, Unlimited, Work(text[..k], remaining), total) == Path(text)
    decreases |text| - k
  {
    if k == |text| {
      assert text[..k] == text;
    } else {
      hide SkipSlashes, Join, NameLength, Seam;
      var k' := NextComponent(text, k);
      WalkAlong(fs, mount, text, k', text[k'..], total);
    }
  }

  /** The mount points for which the resolver is stable: all but those that end in a slash
      and are longer than it. */
  predicate StableMount(mount: string) {
    |mount| <= 1 || mount[|mount| - 1] != '/'
  }

  lemma CompleteIsStable(fs: Fs, mount: string, text: string, seed: string, total: nat)
    requires StableMount(mount) && Grown(fs, mount, text, seed) && total < MAX_SYMLINK_DEPTH
    ensures ResolveFrom(fs, mount, Unlimited, Seed(mount, Unlimited, text), total) == Path(text)
  {
    var w := Seed(mount, Unlimited, text);
    var k := |w.resolved|;
    assert text[..k] == w.resolved;
    assert SkipSlashes(w.remaining) == SkipSlashes(text[k..]);
    assert |seed| <= k;
    WalkAlong(fs, mount, text, k, w.remaining, total);
  }

  /** What every successful result is.  The loop, which met at most seven links, ended its
      last turn with buffers `last`: what is resolved there grew from a seed by components
      that exist and are not links, and the result is that, or that with the first missing
      component and the unprocessed rest.  If nothing is missing it resolves to itself, even
      when no further link may be followed. */
  lemma ShapeOfSuccess(fs: Fs, mount: string, path: string) returns (last: Work, n: nat, seed: string)
    requires Resolve(fs, mount, Unlimited, path).Path?
    ensures var text := Resolve(fs, mount, Unlimited, path).text;
            && Leads(fs, mount, Unlimited, Seed(mount, Unlimited, path), last, n)
            && LinksMet(fs, mount, Unlimited, Seed(mount, Unlimited, path), n) <= 7
            && Grown(fs, mount, last.resolved, seed)
            && IsResultOf(fs, last, text)
            && (SkipSlashes(last.remaining) == "" && StableMount(mount) ==>
                  forall total :: 0 <= total <= 7 ==>
                    ResolveFrom(fs, mount, Unlimited, Seed(mount, Unlimited, text), total) == Path(text))
  {
    hide Grown, ResolveFrom, SkipSlashes;
    var w := Seed(mount, Unlimited, path);
    SeedGrown(fs, mount, w.resolved);
    last, n, seed := LastTurn(fs, mount, w, 0, w.resolved);
    if LinksMet(fs, mount, Unlimited, w, n) >= 8 {
      LinksExhaust(fs, mount, Unlimited, w, 0, n);
    }
    var text := Resolve(fs, mount, Unlimited, path).text;
    if SkipSlashes(last.remaining) == "" && StableMount(mount) {
      forall total | 0 <= total <= 7
        ensures ResolveFrom(fs, mount, Unlimited, Seed(mount, Unlimited, text), total) == Path(text)
      {
        CompleteIsStable(fs, mount, text, seed, total);
      }
    }
  }

  /** For every other mount point stability fails: the path `mount` + "/x" resolves, with
      nothing missing and no link, to a path that does not resolve again. */
  lemma TrailingSlashUnstable(mount: string) returns (fs: Fs, path: string)
    requires !StableMount(mount)
    ensures Resolve(fs, mount, Unlimited, path) == Path(mount + "x")
    ensures fs(mount + "x").NonLink?
    ensures Resolve(fs, mount, Unlimited, mount + "x").Error?
  {
    hide SkipSlashes, NameLength, Join;
    var out := mount + "x";
    fs := p => if p == out then NonLink else Unreadable(5);
    assert Join(mount, "x") == out by { JoinAfterSlash(mount); }
    path := mount + "/x";
    OneComponent(fs, mount, out);
    assert path[|mount|..] == "/x";
    FirstCandidateDiffers(mount);
  }

  lemma JoinAfterSlash(mount: string)
    requires !StableMount(mount)
    ensures Join(mount, "x") == mount + "x"
  {
  }

  lemma OneComponent(fs: Fs, mount: string, out: string)
    requires out == mount + "x" && Join(mount, "x") == out && fs(out).NonLink?
    ensures ResolveFrom(fs, mount, Unlimited, Work(mount, "/x"), 0) == Path(out)
  {
    assert "/x"[1..] == "x" && "x"[..1] == "x" && "x"[1..] == "";
    WholeName("x");
    assert ResolveFrom(fs, mount, Unlimited, Work(out, ""), 0) == Path(out);
  }

  lemma FirstCandidateDiffers(mount: string)
    requires !StableMount(mount)
    ensures var out := mount + "x";
            var w, p := Seed(mount, Unlimited, out), SkipSlashes(out);
            w.remaining == out && p != "" && Join(w.resolved, Name(Unlimited, p)) != out
  {
    hide SkipSlashes, NameLength;
    var out := mount + "x";
    var p := SkipSlashes(out);
    SkippedAreSlashes(out);
    assert out[|out| - 1] == 'x';
    NameHasNoSlash(p);
    assert out[|mount| - 1] == '/';
  }

  ghost predicate AbsoluteTargetsUnder(fs: Fs, mount: string) {
    forall p :: fs(p).Link? && IsAbsolute(fs(p).target) ==> UnderMount(mount, fs(p).target)
  }

  /** A component below the mount point, and anything after it, is below it. */
  lemma JoinStaysUnder(mount: string, base: string, name: string, rest: string)
    requires UnderMount(mount, base) && mount[|mount| - 1] != '/' && name != ""
    ensures UnderMount(mount, Join(base, name)) && UnderMount(mount, Join(base, name) + rest)
  {
    var c := Join(base, name);
    assert base <= c && |base| < |c|;
    assert c[|mount|] == '/';
  }

  lemma {:induction false} StaysUnderMount(fs: Fs, mount: string, w: Work, total: nat)
    requires total < MAX_SYMLINK_DEPTH && UnderMount(mount, w.resolved) && mount[|mount| - 1] != '/'
    requires AbsoluteTargetsUnder(fs, mount)
    requires ResolveFrom(fs, mount, Unlimited, w, total).Path?
    ensures UnderMount(mount, ResolveFrom(fs, mount, Unlimited, w, total).text)
    decreases MAX_SYMLINK_DEPTH - total, |w.remaining|
  {
    hide SkipSlashes, NameLength, Join;
    var p := SkipSlashes(w.remaining);
    if p != "" {
      NextName(p);
      var candidate, rest := Join(w.resolved, Name(Unlimited, p)), Rest(Unlimited, p);
      JoinStaysUnder(mount, w.resolved, Name(Unlimited, p), rest);
      match fs(candidate)
      case Missing =>
      case NonLink => StaysUnderMount(fs, mount, Work(candidate, rest), total);
      case Link(target) =>
        StaysUnderMount(fs, mount, Follow(mount, Unlimited, w.resolved, target, rest), total + 1);
    }
  }

  /** An input under the mount point gives a result under it. */
  ghost predicate OutputUnder(fs: Fs, mount: string, path: string) {
    UnderMount(mount, path) && Resolve(fs, mount, Unlimited, path).Path? ==>
      UnderMount(mount, Resolve(fs, mount, Unlimited, path).text)
  }

  /** If every absolute target lies under the mount point, so does every result for an input
      under it: for all filesystems and inputs exactly when the mount point does not end in a
      slash. */
  lemma OutputUnderMountIff(mount: string)
    requires mount != ""
    ensures (forall fs: Fs, path :: AbsoluteTargetsUnder(fs, mount) ==> OutputUnder(fs, mount, path))
            <==> mount[|mount| - 1] != '/'
  {
    hide ResolveFrom;
    if mount[|mount| - 1] != '/' {
      forall fs: Fs, path | AbsoluteTargetsUnder(fs, mount) ensures OutputUnder(fs, mount, path) {
        if UnderMount(mount, path) && Resolve(fs, mount, Unlimited, path).Path? {
          StaysUnderMount(fs, mount, Seed(mount, Unlimited, path), 0);
        }
      }
    } else {
      var fs: Fs := _ => NonLink;
      var out := mount + "x";
      OneComponent(fs, mount, out);
      assert (mount + "/x")[|mount|..] == "/x";
      assert AbsoluteTargetsUnder(fs, mount) && !OutputUnder(fs, mount, mount + "/x");
    }
  }

  /** Following an absolute link restarts as if its target with the rest were the input. */
  ghost predicate RestartsAfresh(mount: string, resolved: string, target: string, rest: string) {
    Follow(mount, Unlimited, resolved, target, rest) == Seed(mount, Unlimited, target + rest)
  }

  /** For which mount points that is so, for all absolute targets and rests: those with no
      slash but a leading one, and those that no absolute path can be under. */
  lemma RestartsAfreshIff(mount: string, resolved: string)
    ensures (forall target, rest :: IsAbsolute(target) && IsRest(rest) ==>
               RestartsAfresh(mount, resolved, target, rest))
            <==> !IsAbsolute(mount) || '/' !in mount[1..]
  {
    hide RestartsAfresh;
    if IsAbsolute(mount) && '/' in mount[1..] {
      var i :| 0 <= i < |mount[1..]| && mount[1..][i] == '/';
      NoFreshRestart(mount, resolved, i + 1);
    } else {
      forall target, rest | IsAbsolute(target) && IsRest(rest) ensures RestartsAfresh(mount, resolved, target, rest) {
        RestartAfresh(mount, resolved, target, rest);
      }
    }
  }

  lemma NoFreshRestart(mount: string, resolved: string, i: nat)
    requires IsAbsolute(mount) && 0 < i < |mount| && mount[i] == '/'
    ensures IsAbsolute(mount[..i]) && IsRest(mount[i..]) && !RestartsAfresh(mount, resolved, mount[..i], mount[i..])
  {
    assert mount[..i] + mount[i..] == mount;
  }

  lemma RestartAfresh(mount: string, resolved: string, target: string, rest: string)
    requires IsAbsolute(target) && IsRest(rest)
    requires !IsAbsolute(mount) || '/' !in mount[1..]
    ensures RestartsAfresh(mount, resolved, target, rest)
  {
    var path := target + rest;
    assert IsAbsolute(mount) ==> forall j {:trigger mount[j]} :: 1 <= j < |mount| ==> mount[j] == mount[1..][j - 1];
    assert rest != "" ==> path[|target|] == '/';
    if UnderMount(mount, target) {
      assert path[|mount|..] == target[|mount|..] + rest;
    }
  }

  /** Seen from the whole resolution: at an absolute link, resolving goes on as for the fresh
      input `target` + `rest` with one link less to follow. */
  lemma AbsoluteLinkRestarts(fs: Fs, mount: string, w: Work, total: nat)
    requires total + 1 < MAX_SYMLINK_DEPTH && SkipSlashes(w.remaining) != ""
    requires !IsAbsolute(mount) || '/' !in mount[1..]
    requires var p := SkipSlashes(w.remaining);
             var node := fs(Join(w.resolved, Name(Unlimited, p)));
             node.Link? && IsAbsolute(node.target)
    ensures var p := SkipSlashes(w.remaining);
            var target := fs(Join(w.resolved, Name(Unlimited, p))).target;
            ResolveFrom(fs, mount, Unlimited, w, total)
            == ResolveFrom(fs, mount, Unlimited, Seed(mount, Unlimited, target + Rest(Unlimited, p)), total + 1)
  {
    var p := SkipSlashes(w.remaining);
    var target := fs(Join(w.resolved, Name(Unlimited, p))).target;
    RestartAfresh(mount, w.resolved, target, Rest(Unlimited, p));
  }
}
