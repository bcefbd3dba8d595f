/** What every run of the provider keeps. */
module ProviderRuns {
  import opened Decimal
  import opened ProviderSpec

  // The invariant of a world

  /** Change request numbers are the seeded 1 and the numbers handed out so far. */
  predicate NumberKnown(n: string, nextID: nat) {
    n == "1" || exists k :: 100 < k <= 100 + nextID && n == Itoa(k)
  }

  /** An identifier with this prefix and one of the numbers used so far. */
  ghost predicate Issued(id: string, prefix: string, counter: nat) {
    exists i: nat :: 1 <= i <= counter && id == Id(prefix, i)
  }

  predicate SeededSha(sha: string) {
    sha == "base000" || sha == "abc123"
  }

  ghost predicate RepoInv(r: Repo, counter: nat) {
    && (forall n :: n in r.crs ==> NumberKnown(n, r.nextID))
    && (forall id :: id in r.hooks ==> Issued(id, "hook", counter))
    && (forall a, b :: a in r.hooks && b in r.hooks && r.hooks[a] == r.hooks[b] ==> a == b)
    && (forall b :: b in r.branches ==> SeededSha(r.branches[b]))
  }

  ghost predicate Inv(w: World) {
    && (forall p :: p in w.repos ==> RepoInv(w.repos[p], w.counter))
    && (forall g :: g in w.grants ==> Issued(g, "grant", w.counter))
  }

  // How a world may change

  /** What a change request never loses: its branch, its commit, its base and its author. */
  predicate SameOrigin(x: ChangeRequest, y: ChangeRequest) {
    x.head == y.head && x.headSha == y.headSha && x.base == y.base && x.author == y.author
  }

  ghost predicate RepoGrows(r: Repo, s: Repo) {
    && r.nextID <= s.nextID
    && (forall n :: n in r.crs ==> n in s.crs && SameOrigin(r.crs[n], s.crs[n]))
    && (forall b :: b in r.branches ==> b in s.branches && s.branches[b] == r.branches[b])
  }

  ghost predicate Grows(w: World, v: World) {
    && w.counter <= v.counter
    && w.repos.Keys == v.repos.Keys
    && (forall p :: p in w.repos ==> RepoGrows(w.repos[p], v.repos[p]))
    && (forall k :: k in w.idem ==> k in v.idem && v.idem[k] == w.idem[k])
    && (forall g :: g in w.grants ==> g in v.grants && (w.grants[g] ==> v.grants[g]))
  }

  lemma Unchanged(w: World, v: World)
    requires Inv(w) && v == w
    ensures Inv(v) && Grows(w, v)
  {
  }

  lemma RepoGrowsTransitively(a: Repo, b: Repo, c: Repo)
    requires RepoGrows(a, b) && RepoGrows(b, c)
    ensures RepoGrows(a, c)
  {
  }

  lemma GrowsTransitively(a: World, b: World, c: World)
    requires Grows(a, b) && Grows(b, c)
    ensures Grows(a, c)
  {
    forall p | p in a.repos
      ensures RepoGrows(a.repos[p], c.repos[p])
    {
      RepoGrowsTransitively(a.repos[p], b.repos[p], c.repos[p]);
    }
  }

  // One step

  lemma RepoInvLater(r: Repo, counter: nat, later: nat)
    requires RepoInv(r, counter) && counter <= later
    ensures RepoInv(r, later)
  {
  }

  /** The next number is beyond all numbers handed out, and it is not the seeded 1. */
  lemma NextNumberIsNew(nextID: nat)
    ensures !NumberKnown(Itoa(100 + (nextID + 1)), nextID)
  {
    var n := Itoa(100 + (nextID + 1));
    ValueOfItoa(100 + (nextID + 1));
    assert Value("1") == 1 by {
      ValueOfItoa(1);
      assert Itoa(1) == "1";
    }
    forall k | 100 < k <= 100 + nextID
      ensures n != Itoa(k)
    {
      ValueOfItoa(k);
    }
  }

  /** So it is not in use. */
  lemma NumberIsFresh(r: Repo, counter: nat)
    requires RepoInv(r, counter)
    ensures Itoa(100 + (r.nextID + 1)) !in r.crs
  {
    NextNumberIsNew(r.nextID);
  }

  lemma OthersLater(w: World, counter: nat)
    requires Inv(w) && w.counter <= counter
    ensures forall p :: p in w.repos ==> RepoInv(w.repos[p], counter)
    ensures forall g :: g in w.grants ==> Issued(g, "grant", counter)
  {
    forall p | p in w.repos
      ensures RepoInv(w.repos[p], counter)
    {
      RepoInvLater(w.repos[p], w.counter, counter);
    }
  }

  /** Replacing one repository by a grown one. */
  lemma ReplaceRepo(w: World, path: string, s: Repo, v: World)
    requires Inv(w) && path in w.repos && w.counter <= v.counter
    requires RepoInv(s, v.counter) && RepoGrows(w.repos[path], s)
    requires v.repos == w.repos[path := s] && v.idem == w.idem && v.grants == w.grants
    ensures Inv(v) && Grows(w, v)
  {
    OthersLater(w, v.counter);
    InvOfParts(w, path, s, v);
    GrowsOfParts(w, path, s, v);
  }

  lemma GrowsOfParts(w: World, path: string, s: Repo, v: World)
    requires path in w.repos && v.repos == w.repos[path := s] && RepoGrows(w.repos[path], s)
    ensures v.repos.Keys == w.repos.Keys
    ensures forall p :: p in w.repos ==> RepoGrows(w.repos[p], v.repos[p])
  {
  }

  lemma InvOfParts(w: World, path: string, s: Repo, v: World)
    requires path in w.repos && v.repos == w.repos[path := s]
    requires forall p :: p in w.repos ==> RepoInv(w.repos[p], v.counter)
    requires RepoInv(s, v.counter)
    ensures forall p :: p in v.repos ==> RepoInv(v.repos[p], v.counter)
  {
  }

  /** Changing one change request without changing where it came from. */
  lemma ReplaceCr(w: World, path: string, number: string, x: ChangeRequest, v: World)
    requires Inv(w) && path in w.repos && w.counter <= v.counter
    requires number in w.repos[path].crs && SameOrigin(w.repos[path].crs[number], x)
    requires v.repos == w.repos[path := w.repos[path].(crs := w.repos[path].crs[number := x])] && v.idem == w.idem && v.grants == w.grants
    ensures Inv(v) && Grows(w, v)
  {
    var r := w.repos[path];
    ChangeCr(r, number, x, w.counter, v.counter);
    ReplaceRepo(w, path, r.(crs := r.crs[number := x]), v);
  }

  lemma ChangeCr(r: Repo, number: string, x: ChangeRequest, counter: nat, later: nat)
    requires RepoInv(r, counter) && counter <= later
    requires number in r.crs && SameOrigin(r.crs[number], x)
    ensures var s := r.(crs := r.crs[number := x]); RepoInv(s, later) && RepoGrows(r, s)
  {
    RepoInvLater(r, counter, later);
  }

  /** Comments and statuses are not part of what the invariant speaks about. */
  lemma ChangeText(r: Repo, s: Repo, counter: nat, later: nat)
    requires RepoInv(r, counter) && counter <= later
    requires s == r.(comments := s.comments, statuses := s.statuses)
    ensures RepoInv(s, later) && RepoGrows(r, s)
  {
    RepoInvLater(r, counter, later);
  }

  lemma AddBranch(r: Repo, name: string, source: string, counter: nat)
    requires RepoInv(r, counter) && source in r.branches && name !in r.branches
    ensures var s := r.(branches := r.branches[name := r.branches[source]]); RepoInv(s, counter) && RepoGrows(r, s)
  {
  }

  lemma CountOnly(w: World, v: World)
    requires Inv(w) && w.counter <= v.counter && v == w.(counter := v.counter)
    ensures Inv(v) && Grows(w, v)
  {
    OthersLater(w, v.counter);
  }

  lemma NumberKnownLater(n: string, nextID: nat, later: nat)
    requires NumberKnown(n, nextID) && nextID <= later
    ensures NumberKnown(n, later)
  {
  }

  lemma AddCr(r: Repo, x: ChangeRequest, counter: nat)
    requires RepoInv(r, counter)
    ensures var s := r.(nextID := r.nextID + 1, crs := r.crs[Itoa(100 + (r.nextID + 1)) := x]);
      RepoInv(s, counter) && RepoGrows(r, s)
  {
    NumberIsFresh(r, counter);
    var s := r.(nextID := r.nextID + 1, crs := r.crs[Itoa(100 + (r.nextID + 1)) := x]);
    forall n | n in s.crs
      ensures NumberKnown(n, s.nextID)
    {
      if n in r.crs {
        NumberKnownLater(n, r.nextID, s.nextID);
      }
    }
  }

  lemma OpenKeeps(w: World, q: Request, v: World)
    requires Inv(w) && q.OpenChangeRequest? && v == Effect(w, q).0
    ensures Inv(v) && Grows(w, v)
  {
    if Effect(w, q).1.Opened? {
      var r := w.repos[q.target.path];
      AddCr(r, Effect(w, q).1.cr, w.counter);
      ReplaceRepo(w, q.target.path, v.repos[q.target.path], v);
    } else {
      Unchanged(w, v);
    }
  }

  lemma BranchKeeps(w: World, q: Request, v: World)
    requires Inv(w) && q.CreateBranch? && v == Effect(w, q).0
    ensures Inv(v) && Grows(w, v)
  {
    if Effect(w, q).1.Branched? {
      AddBranch(w.repos[q.target.path], q.name, if q.from == "" then "main" else q.from, w.counter);
      ReplaceRepo(w, q.target.path, v.repos[q.target.path], v);
    } else {
      Unchanged(w, v);
    }
  }

  lemma CommentKeeps(w: World, q: Request, v: World)
    requires Inv(w) && q.AddComment? && v == Effect(w, q).0
    ensures Inv(v) && Grows(w, v)
  {
    if Effect(w, q).1.Commented? {
      ChangeText(w.repos[q.target.path], v.repos[q.target.path], w.counter, v.counter);
      ReplaceRepo(w, q.target.path, v.repos[q.target.path], v);
    } else {
      Unchanged(w, v);
    }
  }

  lemma ReplyKeeps(w: World, q: Request, v: World)
    requires Inv(w) && q.ReplyThread? && v == Effect(w, q).0
    ensures Inv(v) && Grows(w, v)
  {
    if Effect(w, q).1.Commented? {
      ReplaceCr(w, q.target.path, q.number, v.repos[q.target.path].crs[q.number], v);
    } else {
      Unchanged(w, v);
    }
  }

  lemma EffectKeeps(w: World, q: Request, v: World)
    requires Inv(w) && Guarded(q) && v == Effect(w, q).0
    ensures Inv(v) && Grows(w, v)
  {
    match q
    case OpenChangeRequest(_, _, _, _, _, _, _) => OpenKeeps(w, q, v);
    case CreateBranch(_, _, _, _) => BranchKeeps(w, q, v);
    case AddComment(_, _, _, _, _) => CommentKeeps(w, q, v);
    case ReplyThread(_, _, _, _, _) => ReplyKeeps(w, q, v);
    case SubmitReview(_, _, _, _, _, _) => CountOnly(w, v);
  }

  /** A failed effect changes nothing. */
  lemma FailureChangesNothing(w: World, q: Request)
    requires Guarded(q) && Effect(w, q).1.Failed?
    ensures Effect(w, q).0 == w
  {
  }

  lemma IdemUntouched(w: World, q: Request)
    requires Guarded(q)
    ensures Effect(w, q).0.idem == w.idem
  {
  }

  lemma RememberKeeps(w: World, key: string, o: Outcome, v: World)
    requires Inv(w) && key !in w.idem && v == w.(idem := w.idem[key := o])
    ensures Inv(v) && Grows(w, v)
  {
  }

  lemma OnceKeeps(caps: Capabilities, w: World, q: Request, v: World)
    requires Inv(w) && Guarded(q) && v == Once(caps, w, Guard(q), Effect(w, q)).0
    ensures Inv(v) && Grows(w, v)
  {
    var (u, o) := Effect(w, q);
    EffectKeeps(w, q, u);
    IdemUntouched(w, q);
    if Guard(q) != "" && caps.idempotentWrites && Guard(q) !in w.idem && !o.Failed? {
      RememberKeeps(u, Guard(q), o, v);
      GrowsTransitively(w, u, v);
    }
  }

  lemma HookIsFresh(r: Repo, counter: nat)
    requires RepoInv(r, counter)
    ensures Id("hook", counter + 1) !in r.hooks
  {
    var id := Id("hook", counter + 1);
    if id in r.hooks {
      var i: nat :| 1 <= i <= counter && id == Id("hook", i);
      IdIsInjective("hook", counter + 1, "hook", i);
      assert false;
    }
  }

  lemma AddHook(r: Repo, url: string, counter: nat)
    requires RepoInv(r, counter) && forall id :: id in r.hooks ==> r.hooks[id] != url
    ensures RepoInv(r.(hooks := r.hooks[Id("hook", counter + 1) := url]), counter + 1)
  {
    RepoInvLater(r, counter, counter + 1);
    HookIsFresh(r, counter);
    assert Issued(Id("hook", counter + 1), "hook", counter + 1);
  }

  lemma EnsureKeeps(caps: Capabilities, w: World, q: Request, v: World)
    requires Inv(w) && q.EnsureWebhook? && v == Apply(caps, w, q).0
    ensures Inv(v) && Grows(w, v)
  {
    if v != w {
      AddHook(w.repos[q.target.path], q.url, w.counter);
      ReplaceRepo(w, q.target.path, v.repos[q.target.path], v);
    } else {
      Unchanged(w, v);
    }
  }

  lemma RemoveKeeps(caps: Capabilities, w: World, q: Request, v: World)
    requires Inv(w) && q.RemoveWebhook? && v == Apply(caps, w, q).0
    ensures Inv(v) && Grows(w, v)
  {
    if RepoOf(w, q.target).Some? {
      ReplaceRepo(w, q.target.path, v.repos[q.target.path], v);
    } else {
      Unchanged(w, v);
    }
  }

  lemma GrantIsFresh(w: World)
    requires Inv(w)
    ensures Id("grant", w.counter + 1) !in w.grants
  {
    var id := Id("grant", w.counter + 1);
    if id in w.grants {
      var i: nat :| 1 <= i <= w.counter && id == Id("grant", i);
      IdIsInjective("grant", w.counter + 1, "grant", i);
      assert false;
    }
  }

  /** Issuing a grant, or using one up. */
  lemma ReplaceGrant(w: World, g: string, used: bool, v: World)
    requires Inv(w) && w.counter <= v.counter && Issued(g, "grant", v.counter)
    requires g in w.grants && w.grants[g] ==> used
    requires v == w.(counter := v.counter, grants := w.grants[g := used])
    ensures Inv(v) && Grows(w, v)
  {
    OthersLater(w, v.counter);
  }

  lemma BeginKeeps(caps: Capabilities, w: World, q: Request, v: World)
    requires Inv(w) && q.BeginAccessGrant? && v == Apply(caps, w, q).0
    ensures Inv(v) && Grows(w, v)
  {
    if Apply(caps, w, q).1.Granting? {
      GrantIsFresh(w);
      assert Issued(Id("grant", w.counter + 1), "grant", w.counter + 1);
      ReplaceGrant(w, Id("grant", w.counter + 1), false, v);
    } else {
      Unchanged(w, v);
    }
  }

  lemma CompleteKeeps(caps: Capabilities, w: World, q: Request, v: World)
    requires Inv(w) && q.CompleteAccessGrant? && v == Apply(caps, w, q).0
    ensures Inv(v) && Grows(w, v)
  {
    if Apply(caps, w, q).1.Granted? {
      ReplaceGrant(w, q.grant, true, v);
    } else {
      Unchanged(w, v);
    }
  }

  lemma StatusKeeps(caps: Capabilities, w: World, q: Request, v: World)
    requires Inv(w) && q.SetStatus? && v == Apply(caps, w, q).0
    ensures Inv(v) && Grows(w, v)
  {
    if Apply(caps, w, q).1.StatusSet? {
      ChangeText(w.repos[q.target.path], v.repos[q.target.path], w.counter, v.counter);
      ReplaceRepo(w, q.target.path, v.repos[q.target.path], v);
    } else {
      Unchanged(w, v);
    }
  }

  lemma UpdateKeeps(caps: Capabilities, w: World, q: Request, v: World)
    requires Inv(w) && q.UpdateChangeRequest? && v == Apply(caps, w, q).0
    ensures Inv(v) && Grows(w, v)
  {
    if CrOf(w, q.target, q.number).Some? {
      ReplaceCr(w, q.target.path, q.number, v.repos[q.target.path].crs[q.number], v);
    } else {
      Unchanged(w, v);
    }
  }

  lemma MergeKeeps(caps: Capabilities, w: World, q: Request, v: World)
    requires Inv(w) && q.MergeChangeRequest? && v == Apply(caps, w, q).0
    ensures Inv(v) && Grows(w, v)
  {
    if v != w {
      ReplaceCr(w, q.target.path, q.number, v.repos[q.target.path].crs[q.number], v);
    } else {
      Unchanged(w, v);
    }
  }

  /** Every request keeps the invariant and only grows the world. */
  lemma StepKeeps(caps: Capabilities, w: World, q: Request, v: World)
    requires Inv(w) && v == Apply(caps, w, q).0
    ensures Inv(v) && Grows(w, v)
  {
    match q
    case EnsureWebhook(_, _) => EnsureKeeps(caps, w, q, v);
    case RemoveWebhook(_, _) => RemoveKeeps(caps, w, q, v);
    case BeginAccessGrant(_, _) => BeginKeeps(caps, w, q, v);
    case CompleteAccessGrant(_, _) => CompleteKeeps(caps, w, q, v);
    case SetStatus(_, _, _) => StatusKeeps(caps, w, q, v);
    case MintCredential(_, _) => CountOnly(w, v);
    case UpdateChangeRequest(_, _, _, _, _, _) => UpdateKeeps(caps, w, q, v);
    case MergeChangeRequest(_, _, _) => MergeKeeps(caps, w, q, v);
    case _ =>
      ApplyGuarded(caps, w, q);
      if Refusal(caps, w, q).None? {
        OnceKeeps(caps, w, q, v);
      } else {
        Unchanged(w, v);
      }
  }

  // What the memo holds

  /** A key stands for one operation and one caller's key. */
  lemma IdemKeyIsInjective(op1: string, key1: string, op2: string, key2: string)
    requires ':' !in op1 && ':' !in op2
    requires IdemKey(op1, key1) == IdemKey(op2, key2) != ""
    ensures op1 == op2 && key1 == key2
  {
    var s := IdemKey(op1, key1);
    assert s[|op1|] == ':' && s[|op2|] == ':';
    assert forall i :: 0 <= i < |op1| ==> s[i] == op1[i];
    assert forall i :: 0 <= i < |op2| ==> s[i] == op2[i];
    assert |op1| == |op2|;
    assert s[..|op1|] == op1 && s[..|op2|] == op2;
    assert s[|op1| + 1..] == key1 && s[|op2| + 1..] == key2;
  }

  function Operation(q: Request): string
    requires Guarded(q)
  {
    match q
    case OpenChangeRequest(_, _, _, _, _, _, _) => "open"
    case AddComment(_, _, _, _, _) => "comment"
    case ReplyThread(_, _, _, _, _) => "reply"
    case SubmitReview(_, _, _, _, _, _) => "review"
    case CreateBranch(_, _, _, _) => "branch"
  }

  /** So requests of different operations never share a remembered result. */
  lemma KeysNeverCollide(a: Request, b: Request)
    requires Guarded(a) && Guarded(b) && Guard(a) == Guard(b) != ""
    ensures Operation(a) == Operation(b) && a.key == b.key
  {
    IdemKeyIsInjective(Operation(a), a.key, Operation(b), b.key);
  }

  /** The results a guarded request returns when it does not fail. */
  predicate KindFits(q: Request, o: Outcome)
    requires Guarded(q)
  {
    match q
    case OpenChangeRequest(_, _, _, _, _, _, _) => o.Opened?
    case AddComment(_, _, _, _, _) => o.Commented?
    case ReplyThread(_, _, _, _, _) => o.Commented?
    case SubmitReview(_, _, _, _, _, _) => o.Reviewed?
    case CreateBranch(_, _, _, _) => o.Branched?
  }

  lemma EffectKind(w: World, q: Request)
    requires Guarded(q)
    ensures Effect(w, q).1.Failed? || KindFits(q, Effect(w, q).1)
  {
    match q
    case OpenChangeRequest(_, _, _, _, _, _, _) =>
    case AddComment(_, _, _, _, _) =>
    case ReplyThread(_, _, _, _, _) =>
    case SubmitReview(_, _, _, _, _, _) =>
    case CreateBranch(_, _, _, _) =>
  }

  /** A memo holds the kind of result that requests with its key return. */
  ghost predicate MemoFits(key: string, o: Outcome) {
    key != "" && forall q :: Guarded(q) && Guard(q) == key ==> KindFits(q, o)
  }

  ghost predicate MemoInv(w: World) {
    forall k :: k in w.idem ==> MemoFits(k, w.idem[k])
  }

  lemma SameKind(a: Request, b: Request, o: Outcome)
    requires Guarded(a) && Guarded(b) && Operation(a) == Operation(b) && KindFits(a, o)
    ensures KindFits(b, o)
  {
  }

  /** What a guarded effect returns is what its key may remember. */
  lemma MemoIsRight(w: World, q: Request)
    requires Guarded(q) && Guard(q) != "" && !Effect(w, q).1.Failed?
    ensures MemoFits(Guard(q), Effect(w, q).1)
  {
    var o := Effect(w, q).1;
    EffectKind(w, q);
    forall p | Guarded(p) && Guard(p) == Guard(q)
      ensures KindFits(p, o)
    {
      KeysNeverCollide(q, p);
      SameKind(q, p, o);
    }
  }

  lemma OnceKeepsMemo(caps: Capabilities, w: World, q: Request)
    requires MemoInv(w) && Guarded(q)
    ensures MemoInv(Once(caps, w, Guard(q), Effect(w, q)).0)
  {
    IdemUntouched(w, q);
    if Guard(q) != "" && !Effect(w, q).1.Failed? {
      MemoIsRight(w, q);
    }
  }

  lemma OthersKeepIdem(caps: Capabilities, w: World, q: Request)
    requires !Guarded(q)
    ensures Apply(caps, w, q).0.idem == w.idem
  {
    match q
    case UpdateChangeRequest(_, _, _, _, _, _) =>
    case MergeChangeRequest(_, _, _) =>
    case SetStatus(_, _, _) =>
    case EnsureWebhook(_, _) =>
    case RemoveWebhook(_, _) =>
    case MintCredential(_, _) =>
    case BeginAccessGrant(_, _) =>
    case CompleteAccessGrant(_, _) =>
  }

  /** A guarded request is refused as it stands, or run through once. */
  lemma ApplyGuarded(caps: Capabilities, w: World, q: Request)
    requires Guarded(q)
    ensures Apply(caps, w, q) ==
      if Refusal(caps, w, q).Some? then (w, Failed(Refusal(caps, w, q).value)) else Once(caps, w, Guard(q), Effect(w, q))
  {
  }

  lemma StepKeepsMemo(caps: Capabilities, w: World, q: Request)
    requires MemoInv(w)
    ensures MemoInv(Apply(caps, w, q).0)
  {
    if Guarded(q) {
      ApplyGuarded(caps, w, q);
      OnceKeepsMemo(caps, w, q);
    } else {
      OthersKeepIdem(caps, w, q);
    }
  }
}
