/** The link budget: the resolver ends for every filesystem, cyclic links and truncating
    buffers included, and reports ELOOP exactly when an eighth link is met. */
module LinkBudget {
  import opened PathText
  import opened SymlinkResolver

  /** One turn of the loop, were there no budget. */
  datatype Turn = Finished | Advanced(next: Work) | Followed(next: Work) | Broken(rc: ErrorCode)

  ghost function TurnOf(fs: Fs, mount: string, z: Sizes, w: Work): (t: Turn)
    ensures t.Advanced? ==> |t.next.remaining| < |w.remaining|
    ensures t.Broken? ==> exists p :: fs(p) == Unreadable(t.rc)
  {
    var p := SkipSlashes(w.remaining);
    if p == "" then Finished
    else
      var candidate, rest := ClipPath(z, Join(w.resolved, Name(z, p))), Rest(z, p);
      match fs(candidate)
      case Missing => Finished
      case NonLink => Advanced(Work(candidate, rest))
      case Link(target) => Followed(Follow(mount, z, w.resolved, ClipPath(z, target), rest))
      case Unreadable(rc) => Broken(rc)
  }

  /** What the budget makes of a turn. */
  lemma TurnDecides(fs: Fs, mount: string, z: Sizes, w: Work, total: nat)
    requires total < MAX_SYMLINK_DEPTH
    ensures var r := ResolveFrom(fs, mount, z, w, total);
            match TurnOf(fs, mount, z, w)
            case Finished => r.Path?
            case Advanced(next) => r == ResolveFrom(fs, mount, z, next, total)
            case Followed(next) =>
              r == if total + 1 >= MAX_SYMLINK_DEPTH then Error(ELOOP) else ResolveFrom(fs, mount, z, next, total + 1)
            case Broken(rc) => r == Error(if total + 1 >= MAX_SYMLINK_DEPTH then ELOOP else rc)
  {
  }

  /** n turns without a budget lead from w to w'. */
  ghost predicate Leads(fs: Fs, mount: string, z: Sizes, w: Work, w': Work, n: nat)
    decreases n
  {
    if n == 0 then w == w'
    else
      match TurnOf(fs, mount, z, w)
      case Advanced(next) => Leads(fs, mount, z, next, w', n - 1)
      case Followed(next) => Leads(fs, mount, z, next, w', n - 1)
      case _ => false
  }

  /** The links met in the first n turns without a budget. */
  ghost function LinksMet(fs: Fs, mount: string, z: Sizes, w: Work, n: nat): nat
    decreases n
  {
    if n == 0 then 0
    else
      match TurnOf(fs, mount, z, w)
      case Finished => 0
      case Advanced(next) => LinksMet(fs, mount, z, next, n - 1)
      case Followed(next) => 1 + LinksMet(fs, mount, z, next, n - 1)
      case Broken(_) => 1
  }

  /** Without a budget the loop makes at least n turns. */
  ghost predicate Lasts(fs: Fs, mount: string, z: Sizes, w: Work, n: nat)
    decreases n
  {
    n == 0 ||
    match TurnOf(fs, mount, z, w)
    case Advanced(next) => Lasts(fs, mount, z, next, n - 1)
    case Followed(next) => Lasts(fs, mount, z, next, n - 1)
    case _ => false
  }

  lemma {:induction false} EloopMeetsLinks(fs: Fs, mount: string, z: Sizes, w: Work, total: nat) returns (n: nat)
    requires total < MAX_SYMLINK_DEPTH && forall p :: fs(p) != Unreadable(ELOOP)
    requires ResolveFrom(fs, mount, z, w, total) == Error(ELOOP)
    ensures total + LinksMet(fs, mount, z, w, n) >= MAX_SYMLINK_DEPTH
    decreases MAX_SYMLINK_DEPTH - total, |w.remaining|
  {
    hide TurnOf, ResolveFrom;
    TurnDecides(fs, mount, z, w, total);
    n := 1;
    match TurnOf(fs, mount, z, w)
    case Advanced(next) =>
      var k := EloopMeetsLinks(fs, mount, z, next, total);
      n := k + 1;
    case Followed(next) =>
      var k := 0;
      if total + 1 < MAX_SYMLINK_DEPTH {
        k := EloopMeetsLinks(fs, mount, z, next, total + 1);
      }
      n := k + 1;
    case _ =>
  }

  lemma {:induction false} LinksExhaust(fs: Fs, mount: string, z: Sizes, w: Work, total: nat, n: nat)
    requires total < MAX_SYMLINK_DEPTH
    requires total + LinksMet(fs, mount, z, w, n) >= MAX_SYMLINK_DEPTH
    ensures ResolveFrom(fs, mount, z, w, total) == Error(ELOOP)
    decreases n
  {
    hide TurnOf, ResolveFrom;
    TurnDecides(fs, mount, z, w, total);
    match TurnOf(fs, mount, z, w)
    case Advanced(next) => LinksExhaust(fs, mount, z, next, total, n - 1);
    case Followed(next) =>
      if total + 1 < MAX_SYMLINK_DEPTH {
        LinksExhaust(fs, mount, z, next, total + 1, n - 1);
      }
    case _ =>
  }

  /** Unless readlink itself reports it, ELOOP is returned exactly when an eighth link is
      met: a resolution that meets at most seven is never refused with it. */
  lemma EloopIff(fs: Fs, mount: string, z: Sizes, path: string)
    requires forall p :: fs(p) != Unreadable(ELOOP)
    ensures Resolve(fs, mount, z, path) == Error(ELOOP) <==>
              exists n :: LinksMet(fs, mount, z, Seed(mount, z, path), n) >= 8
    ensures (forall n :: LinksMet(fs, mount, z, Seed(mount, z, path), n) <= 7) ==>
              Resolve(fs, mount, z, path) != Error(ELOOP)
  {
    hide TurnOf, ResolveFrom;
    var w := Seed(mount, z, path);
    if Resolve(fs, mount, z, path) == Error(ELOOP) {
      var n := EloopMeetsLinks(fs, mount, z, w, 0);
    }
    if n :| LinksMet(fs, mount, z, w, n) >= 8 {
      LinksExhaust(fs, mount, z, w, 0, n);
    }
  }

  /** Every other error is one that readlink reported, of a link met before the eighth. */
  lemma {:induction false} ErrorIsReported(fs: Fs, mount: string, z: Sizes, w: Work, total: nat)
    returns (last: Work, n: nat)
    requires total < MAX_SYMLINK_DEPTH
    requires ResolveFrom(fs, mount, z, w, total).Error? && ResolveFrom(fs, mount, z, w, total) != Error(ELOOP)
    ensures Leads(fs, mount, z, w, last, n) && TurnOf(fs, mount, z, last).Broken?
    ensures ResolveFrom(fs, mount, z, w, total) == Error(TurnOf(fs, mount, z, last).rc)
    ensures total + LinksMet(fs, mount, z, w, n + 1) <= 7
    decreases MAX_SYMLINK_DEPTH - total, |w.remaining|
  {
    hide TurnOf, ResolveFrom;
    TurnDecides(fs, mount, z, w, total);
    match TurnOf(fs, mount, z, w)
    case Advanced(next) =>
      last, n := ErrorIsReported(fs, mount, z, next, total);
      n := n + 1;
    case Followed(next) =>
      last, n := ErrorIsReported(fs, mount, z, next, total + 1);
      n := n + 1;
    case Broken(_) =>
      last, n := w, 0;
  }

  /** A resolution that does not end in ELOOP would end by itself. */
  lemma {:induction false} EndsByItself(fs: Fs, mount: string, z: Sizes, w: Work, total: nat) returns (n: nat)
    requires total < MAX_SYMLINK_DEPTH
    requires ResolveFrom(fs, mount, z, w, total) != Error(ELOOP)
    ensures !Lasts(fs, mount, z, w, n)
    decreases MAX_SYMLINK_DEPTH - total, |w.remaining|
  {
    hide TurnOf, ResolveFrom;
    TurnDecides(fs, mount, z, w, total);
    match TurnOf(fs, mount, z, w)
    case Advanced(next) =>
      var k := EndsByItself(fs, mount, z, next, total);
      n := k + 1;
    case Followed(next) =>
      var k := EndsByItself(fs, mount, z, next, total + 1);
      n := k + 1;
    case _ => n := 1;
  }

  /** Every endless chain of links yields ELOOP. */
  lemma EndlessMeansEloop(fs: Fs, mount: string, z: Sizes, path: string)
    requires forall n: nat :: Lasts(fs, mount, z, Seed(mount, z, path), n)
    ensures Resolve(fs, mount, z, path) == Error(ELOOP)
  {
    hide ResolveFrom;
    if Resolve(fs, mount, z, path) != Error(ELOOP) {
      var n := EndsByItself(fs, mount, z, Seed(mount, z, path), 0);
      assert false;
    }
  }
}
