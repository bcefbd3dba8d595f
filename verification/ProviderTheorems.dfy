/** What the provider promises over whole runs. */
module ProviderTheorems {
  import opened Options
  import opened Decimal
  import opened ProviderSpec
  import opened ProviderRuns

  // Runs

  lemma SeedIsGood()
    ensures Inv(Seed()) && MemoInv(Seed())
  {
    assert RepoInv(SeedRepo(), 0);
  }

  lemma {:induction false} RunKeeps(caps: Capabilities, qs: seq<Request>)
    ensures Inv(After(caps, qs)) && MemoInv(After(caps, qs))
  {
    if qs == [] {
      SeedIsGood();
    } else {
      var before := qs[..|qs| - 1];
      RunKeeps(caps, before);
      StepKeeps(caps, After(caps, before), qs[|qs| - 1], After(caps, qs));
      StepKeepsMemo(caps, After(caps, before), qs[|qs| - 1]);
    }
  }

  /** The world after i + 1 requests. */
  lemma NextWorld(caps: Capabilities, qs: seq<Request>, i: nat)
    requires i < |qs|
    ensures After(caps, qs[..i + 1]) == Apply(caps, After(caps, qs[..i]), qs[i]).0
  {
    assert qs[..i + 1][..i] == qs[..i];
  }

  lemma {:induction false} RunGrows(caps: Capabilities, qs: seq<Request>, i: nat, j: nat)
    requires i <= j <= |qs|
    ensures Grows(After(caps, qs[..i]), After(caps, qs[..j]))
    decreases j
  {
    RunKeeps(caps, qs[..i]);
    if i == j {
      Unchanged(After(caps, qs[..i]), After(caps, qs[..j]));
    } else {
      RunGrows(caps, qs, i, j - 1);
      RunKeeps(caps, qs[..j - 1]);
      NextWorld(caps, qs, j - 1);
      StepKeeps(caps, After(caps, qs[..j - 1]), qs[j - 1], After(caps, qs[..j]));
      GrowsTransitively(After(caps, qs[..i]), After(caps, qs[..j - 1]), After(caps, qs[..j]));
    }
  }

  // Idempotency

  /**
   Once a guarded request has succeeded with some key, then in the rest of the run every request with
   that key that is not refused outright returns that first result and changes nothing.
   */
  lemma EffectHappensOnce(caps: Capabilities, qs: seq<Request>, i: nat, j: nat)
    requires caps.idempotentWrites && i < j < |qs|
    requires Guarded(qs[i]) && Guarded(qs[j]) && Guard(qs[i]) == Guard(qs[j]) != ""
    requires !Answer(caps, qs, i).Failed?
    ensures var w := After(caps, qs[..j]);
      var refusal := Refusal(caps, w, qs[j]);
      Apply(caps, w, qs[j]) == (w, if refusal.Some? then Failed(refusal.value) else Answer(caps, qs, i))
  {
    var u := After(caps, qs[..i]);
    RunKeeps(caps, qs[..i]);
    IdemUntouched(u, qs[i]);
    NextWorld(caps, qs, i);
    RememberedSuccess(caps, u, qs[i]);
    RunGrows(caps, qs, i + 1, j);
  }

  lemma RememberedSuccess(caps: Capabilities, w: World, q: Request)
    requires caps.idempotentWrites && Guarded(q) && Guard(q) != "" && !Apply(caps, w, q).1.Failed?
    ensures var (v, o) := Apply(caps, w, q); Guard(q) in v.idem && v.idem[Guard(q)] == o
  {
    ApplyGuarded(caps, w, q);
  }

  lemma GuardedFailure(caps: Capabilities, w: World, q: Request)
    requires MemoInv(w) && Guarded(q) && Apply(caps, w, q).1.Failed?
    ensures Apply(caps, w, q).0 == w
  {
    ApplyGuarded(caps, w, q);
    if Guard(q) in w.idem {
      assert MemoFits(Guard(q), w.idem[Guard(q)]);
    }
    if Effect(w, q).1.Failed? {
      FailureChangesNothing(w, q);
    }
  }

  /** A guarded request that fails changes nothing, so it is not remembered and may be tried again. */
  lemma FailuresAreNotRemembered(caps: Capabilities, qs: seq<Request>, i: nat)
    requires i < |qs| && Guarded(qs[i]) && Answer(caps, qs, i).Failed?
    ensures After(caps, qs[..i + 1]) == After(caps, qs[..i])
  {
    NextWorld(caps, qs, i);
    RunKeeps(caps, qs[..i]);
    GuardedFailure(caps, After(caps, qs[..i]), qs[i]);
  }

  /** A guarded request is refused, replayed or run. */
  lemma GuardedAnswers(caps: Capabilities, w: World, q: Request)
    requires Guarded(q)
    ensures var o := Apply(caps, w, q).1;
      o.Failed? || (Guard(q) != "" && Guard(q) in w.idem && o == w.idem[Guard(q)]) || o == Effect(w, q).1
  {
    ApplyGuarded(caps, w, q);
  }

  /** A replayed result is always of the type the request returns: decoding the memo cannot go wrong. */
  lemma ReplaysHaveTheRightKind(caps: Capabilities, qs: seq<Request>, i: nat)
    requires i < |qs| && Guarded(qs[i])
    ensures Answer(caps, qs, i).Failed? || KindFits(qs[i], Answer(caps, qs, i))
  {
    var w, q := After(caps, qs[..i]), qs[i];
    RunKeeps(caps, qs[..i]);
    GuardedAnswers(caps, w, q);
    EffectKind(w, q);
    assert Guard(q) in w.idem ==> MemoFits(Guard(q), w.idem[Guard(q)]);
  }

  // Identifiers

  function IdIn(o: Outcome): Option<string> {
    match o
    case Commented(id) => Some(id)
    case Reviewed(id, _) => Some(id)
    case StatusSet(ref) => Some(ref)
    case Hooked(id) => Some(id)
    case Granting(state) => Some(state)
    case Minted(secret) => Some(secret)
    case _ => None
  }

  /** The prefix of the identifier a request may be given. */
  function PrefixFor(q: Request): string {
    match q
    case AddComment(_, _, _, _, _) => "cm"
    case ReplyThread(_, _, _, _, _) => "cm"
    case SubmitReview(_, _, _, _, _, _) => "rv"
    case SetStatus(_, _, _) => "st"
    case EnsureWebhook(_, _) => "hook"
    case MintCredential(_, access) => "tok-" + access
    case BeginAccessGrant(_, _) => "grant"
    case _ => ""
  }

  ghost predicate Counted(w: World, q: Request, v: World, o: Outcome) {
    v.counter == w.counter || (v.counter == w.counter + 1 && IdIn(o) == Some(Id(PrefixFor(q), v.counter)))
  }

  lemma EffectCounts(w: World, q: Request)
    requires Guarded(q)
    ensures Counted(w, q, Effect(w, q).0, Effect(w, q).1)
  {
    match q
    case OpenChangeRequest(_, _, _, _, _, _, _) =>
    case AddComment(_, _, _, _, _) =>
    case ReplyThread(_, _, _, _, _) =>
    case SubmitReview(_, _, _, _, _, _) =>
    case CreateBranch(_, _, _, _) =>
  }

  lemma UpdateCounts(caps: Capabilities, w: World, q: Request)
    requires q.UpdateChangeRequest? || q.MergeChangeRequest? || q.RemoveWebhook? || q.CompleteAccessGrant?
    ensures Apply(caps, w, q).0.counter == w.counter
  {
  }

  lemma SetStatusCounts(caps: Capabilities, w: World, q: Request)
    requires q.SetStatus?
    ensures Counted(w, q, Apply(caps, w, q).0, Apply(caps, w, q).1)
  {
  }

  lemma EnsureCounts(caps: Capabilities, w: World, q: Request)
    requires q.EnsureWebhook?
    ensures Counted(w, q, Apply(caps, w, q).0, Apply(caps, w, q).1)
  {
  }

  lemma MintCounts(caps: Capabilities, w: World, q: Request)
    requires q.MintCredential? || q.BeginAccessGrant?
    ensures Counted(w, q, Apply(caps, w, q).0, Apply(caps, w, q).1)
  {
  }

  /** The counter moves by at most one, and then its new value is in the identifier that is returned. */
  lemma CounterSteps(caps: Capabilities, w: World, q: Request)
    ensures Counted(w, q, Apply(caps, w, q).0, Apply(caps, w, q).1)
  {
    if Guarded(q) {
      ApplyGuarded(caps, w, q);
      EffectCounts(w, q);
    } else if q.SetStatus? {
      SetStatusCounts(caps, w, q);
    } else if q.EnsureWebhook? {
      EnsureCounts(caps, w, q);
    } else if q.MintCredential? || q.BeginAccessGrant? {
      MintCounts(caps, w, q);
    } else {
      UpdateCounts(caps, w, q);
    }
  }

  // What one request can change

  /** A change request opened on a branch that had no open one. */
  predicate OpenedAs(r: Repo, x: ChangeRequest, head: string) {
    x.state == "open" && x.head == head && !OpenOn(r, head)
  }

  /** The four ways in which a request can change the change requests of a repository. */
  ghost predicate CrsChangeBy(q: Request, r: Repo, crs: map<string, ChangeRequest>) {
    match q
    case OpenChangeRequest(_, _, _, head, _, _, _) =>
      crs == r.crs || exists x: ChangeRequest :: OpenedAs(r, x, head) && crs == r.crs[Itoa(100 + (r.nextID + 1)) := x]
    case ReplyThread(_, n, _, _, _) =>
      crs == r.crs || (n in r.crs && exists ts: seq<Thread> :: crs == r.crs[n := r.crs[n].(threads := ts)])
    case UpdateChangeRequest(_, n, title, body, draft, state) =>
      crs == r.crs || (n in r.crs && crs == r.crs[n := UpdateSpec(r.crs[n], title, body, draft, state).0])
    case MergeChangeRequest(_, n, _) =>
      crs == r.crs || (n in r.crs && r.crs[n].state == "open" && crs == r.crs[n := r.crs[n].(state := "merged")])
    case _ => crs == r.crs
  }

  /** What a request can do to the hooks of a repository. */
  ghost predicate HooksChangeBy(q: Request, was: map<string, string>, counter: nat, hooks: map<string, string>) {
    || hooks == was
    || (q.EnsureWebhook? && hooks == was[Id("hook", counter + 1) := q.url])
    || (q.RemoveWebhook? && hooks == was - {q.id})
  }

  predicate Targets(q: Request, path: string) {
    !q.BeginAccessGrant? && !q.CompleteAccessGrant? && q.target == Target(path, IDENTITY_ID)
  }

  /** A request changes at most the repository it targets, and that only so far. */
  ghost predicate Confined(w: World, q: Request, repos: map<string, Repo>) {
    || repos == w.repos
    || exists path, s :: (
        path in w.repos && Targets(q, path) && repos == w.repos[path := s]
        && CrsChangeBy(q, w.repos[path], s.crs) && HooksChangeBy(q, w.repos[path].hooks, w.counter, s.hooks))
  }

  lemma ConfinedTo(w: World, q: Request, path: string, s: Repo, repos: map<string, Repo>)
    requires path in w.repos && Targets(q, path) && repos == w.repos[path := s]
    requires CrsChangeBy(q, w.repos[path], s.crs) && HooksChangeBy(q, w.repos[path].hooks, w.counter, s.hooks)
    ensures Confined(w, q, repos)
  {
  }

  lemma OpenIsConfined(w: World, q: Request, v: World)
    requires q.OpenChangeRequest? && v == Effect(w, q).0
    ensures Confined(w, q, v.repos)
  {
    if Effect(w, q).1.Opened? {
      var r, x := w.repos[q.target.path], Effect(w, q).1.cr;
      assert OpenedAs(r, x, q.head);
      ConfinedTo(w, q, q.target.path, v.repos[q.target.path], v.repos);
    }
  }

  lemma CommentIsConfined(w: World, q: Request, v: World)
    requires q.AddComment? && v == Effect(w, q).0
    ensures Confined(w, q, v.repos)
  {
    if Effect(w, q).1.Commented? {
      ConfinedTo(w, q, q.target.path, v.repos[q.target.path], v.repos);
    }
  }

  lemma ReplyIsConfined(w: World, q: Request, v: World)
    requires q.ReplyThread? && v == Effect(w, q).0
    ensures Confined(w, q, v.repos)
  {
    if Effect(w, q).1.Commented? {
      var r, s := w.repos[q.target.path], v.repos[q.target.path];
      var ts := s.crs[q.number].threads;
      assert s.crs == r.crs[q.number := r.crs[q.number].(threads := ts)];
      ConfinedTo(w, q, q.target.path, s, v.repos);
    }
  }

  lemma BranchIsConfined(w: World, q: Request, v: World)
    requires q.CreateBranch? && v == Effect(w, q).0
    ensures Confined(w, q, v.repos)
  {
    if Effect(w, q).1.Branched? {
      ConfinedTo(w, q, q.target.path, v.repos[q.target.path], v.repos);
    }
  }

  lemma EffectIsConfined(w: World, q: Request, v: World)
    requires Guarded(q) && v == Effect(w, q).0
    ensures Confined(w, q, v.repos)
  {
    match q
    case OpenChangeRequest(_, _, _, _, _, _, _) => OpenIsConfined(w, q, v);
    case AddComment(_, _, _, _, _) => CommentIsConfined(w, q, v);
    case ReplyThread(_, _, _, _, _) => ReplyIsConfined(w, q, v);
    case CreateBranch(_, _, _, _) => BranchIsConfined(w, q, v);
    case SubmitReview(_, _, _, _, _, _) =>
  }

  lemma GuardedIsConfined(caps: Capabilities, w: World, q: Request, v: World)
    requires Guarded(q) && v == Apply(caps, w, q).0
    ensures Confined(w, q, v.repos)
  {
    ApplyGuarded(caps, w, q);
    EffectIsConfined(w, q, Effect(w, q).0);
    assert v.repos == w.repos || v.repos == Effect(w, q).0.repos;
  }

  lemma UpdateIsConfined(caps: Capabilities, w: World, q: Request, v: World)
    requires (q.UpdateChangeRequest? || q.MergeChangeRequest?) && v == Apply(caps, w, q).0
    ensures Confined(w, q, v.repos)
  {
    if v.repos != w.repos {
      ConfinedTo(w, q, q.target.path, v.repos[q.target.path], v.repos);
    }
  }

  lemma StatusIsConfined(caps: Capabilities, w: World, q: Request, v: World)
    requires q.SetStatus? && v == Apply(caps, w, q).0
    ensures Confined(w, q, v.repos)
  {
    if v.repos != w.repos {
      ConfinedTo(w, q, q.target.path, v.repos[q.target.path], v.repos);
    }
  }

  lemma HookIsConfined(caps: Capabilities, w: World, q: Request, v: World)
    requires (q.EnsureWebhook? || q.RemoveWebhook?) && v == Apply(caps, w, q).0
    ensures Confined(w, q, v.repos)
  {
    if v.repos != w.repos {
      ConfinedTo(w, q, q.target.path, v.repos[q.target.path], v.repos);
    }
  }

  lemma ReposUntouched(caps: Capabilities, w: World, q: Request, v: World)
    requires (q.MintCredential? || q.BeginAccessGrant? || q.CompleteAccessGrant?) && v == Apply(caps, w, q).0
    ensures v.repos == w.repos
  {
  }

  lemma StepIsConfined(caps: Capabilities, w: World, q: Request, v: World)
    requires v == Apply(caps, w, q).0
    ensures Confined(w, q, v.repos)
  {
    if Guarded(q) {
      GuardedIsConfined(caps, w, q, v);
    } else if q.UpdateChangeRequest? || q.MergeChangeRequest? {
      UpdateIsConfined(caps, w, q, v);
    } else if q.SetStatus? {
      StatusIsConfined(caps, w, q, v);
    } else if q.EnsureWebhook? || q.RemoveWebhook? {
      HookIsConfined(caps, w, q, v);
    } else {
      ReposUntouched(caps, w, q, v);
    }
  }

  lemma StepChangesCrs(caps: Capabilities, w: World, q: Request, path: string, v: World)
    requires path in w.repos && v == Apply(caps, w, q).0
    ensures path in v.repos && CrsChangeBy(q, w.repos[path], v.repos[path].crs)
  {
    StepIsConfined(caps, w, q, v);
    ConfinedCrs(w, q, path, v.repos);
  }

  lemma ConfinedCrs(w: World, q: Request, path: string, repos: map<string, Repo>)
    requires path in w.repos && Confined(w, q, repos)
    ensures path in repos && CrsChangeBy(q, w.repos[path], repos[path].crs)
  {
  }

  lemma StepChangesHooks(caps: Capabilities, w: World, q: Request, path: string, v: World)
    requires path in w.repos && v == Apply(caps, w, q).0
    ensures path in v.repos
    ensures v.repos[path].hooks == w.repos[path].hooks ||
      (Targets(q, path) && HooksChangeBy(q, w.repos[path].hooks, w.counter, v.repos[path].hooks))
  {
    StepIsConfined(caps, w, q, v);
    ConfinedHooks(w, q, path, v.repos);
  }

  lemma ConfinedHooks(w: World, q: Request, path: string, repos: map<string, Repo>)
    requires path in w.repos && Confined(w, q, repos)
    ensures path in repos
    ensures repos[path].hooks == w.repos[path].hooks || (Targets(q, path) && HooksChangeBy(q, w.repos[path].hooks, w.counter, repos[path].hooks))
  {
  }

  // Change requests

  lemma OpenStep(caps: Capabilities, w: World, q: Request, v: World)
    requires Inv(w) && q.OpenChangeRequest? && v == Apply(caps, w, q).0 && v != w
    ensures var o, path := Apply(caps, w, q).1, q.target.path;
      && o.Opened? && path in w.repos && path in v.repos
      && o.number !in w.repos[path].crs && o.number in v.repos[path].crs && v.repos[path].crs[o.number] == o.cr
  {
    ApplyGuarded(caps, w, q);
    if Effect(w, q).1.Opened? {
      NumberIsFresh(w.repos[q.target.path], w.counter);
    }
  }

  /** Opening takes a number that is not in use. */
  lemma OpenTakesAFreshNumber(caps: Capabilities, qs: seq<Request>, i: nat)
    requires i < |qs| && qs[i].OpenChangeRequest? && After(caps, qs[..i + 1]) != After(caps, qs[..i])
    ensures var w, v, o, path := After(caps, qs[..i]), After(caps, qs[..i + 1]), Answer(caps, qs, i), qs[i].target.path;
      && o.Opened? && path in w.repos && path in v.repos
      && o.number !in w.repos[path].crs && o.number in v.repos[path].crs && v.repos[path].crs[o.number] == o.cr
  {
    NextWorld(caps, qs, i);
    RunKeeps(caps, qs[..i]);
    OpenStep(caps, After(caps, qs[..i]), qs[i], After(caps, qs[..i + 1]));
  }

  /** A number stands for the same change request from then on: its branch, commit, base and author stay. */
  lemma NumberKeepsItsOrigin(caps: Capabilities, qs: seq<Request>, i: nat, j: nat, path: string, number: string)
    requires i <= j <= |qs|
    requires path in After(caps, qs[..i]).repos && number in After(caps, qs[..i]).repos[path].crs
    ensures var later := After(caps, qs[..j]);
      && path in later.repos && number in later.repos[path].crs
      && SameOrigin(After(caps, qs[..i]).repos[path].crs[number], later.repos[path].crs[number])
  {
    RunGrows(caps, qs, i, j);
    assert RepoGrows(After(caps, qs[..i]).repos[path], After(caps, qs[..j]).repos[path]);
  }

  /** So no two openings in a repository are ever given the same number. */
  lemma NumbersNeverRepeat(caps: Capabilities, qs: seq<Request>, i: nat, j: nat)
    requires i < j < |qs| && qs[i].OpenChangeRequest? && qs[j].OpenChangeRequest? && qs[i].target.path == qs[j].target.path
    requires After(caps, qs[..i + 1]) != After(caps, qs[..i]) && After(caps, qs[..j + 1]) != After(caps, qs[..j])
    ensures Answer(caps, qs, i).Opened? && Answer(caps, qs, j).Opened?
    ensures Answer(caps, qs, i).number != Answer(caps, qs, j).number
  {
    OpenTakesAFreshNumber(caps, qs, i);
    OpenTakesAFreshNumber(caps, qs, j);
    NumberKeepsItsOrigin(caps, qs, i + 1, j, qs[i].target.path, Answer(caps, qs, i).number);
  }

  /** A request that addresses this change request with this identity. */
  predicate Addresses(w: World, q: Request, path: string, number: string) {
    q.UpdateChangeRequest? && q.target == Target(path, IDENTITY_ID) && q.number == number
    && path in w.repos && number in w.repos[path].crs
  }

  /** An update that reaches a change request does what UpdateSpec says, one that does not does nothing. */
  lemma UpdateReaches(caps: Capabilities, w: World, q: Request, path: string, v: World)
    requires q.UpdateChangeRequest? && path in w.repos && v == Apply(caps, w, q).0
    ensures path in v.repos
    ensures var r := w.repos[path];
      v.repos[path].crs ==
        if Addresses(w, q, path, q.number)
        then r.crs[q.number := UpdateSpec(r.crs[q.number], q.newTitle, q.newBody, q.newDraft, q.newState).0]
        else r.crs
  {
  }

  /** Merged is left exactly by an update to open or closed; nothing else, and no merge, ends it. */
  lemma MergedIsLeftIff(caps: Capabilities, w: World, q: Request, path: string, number: string)
    requires Inv(w) && path in w.repos && number in w.repos[path].crs && w.repos[path].crs[number].state == "merged"
    ensures var v := Apply(caps, w, q).0;
      && path in v.repos && number in v.repos[path].crs
      && (v.repos[path].crs[number].state != "merged" <==>
            Addresses(w, q, path, number) && (q.newState == Some("open") || q.newState == Some("closed")))
  {
    var v := Apply(caps, w, q).0;
    if q.UpdateChangeRequest? {
      UpdateReaches(caps, w, q, path, v);
    } else {
      StepChangesCrs(caps, w, q, path, v);
      MergedStays(w.repos[path], w.counter, q, v.repos[path].crs, number);
    }
  }

  lemma MergedStays(r: Repo, counter: nat, q: Request, crs: map<string, ChangeRequest>, number: string)
    requires RepoInv(r, counter) && !q.UpdateChangeRequest? && CrsChangeBy(q, r, crs)
    requires number in r.crs && r.crs[number].state == "merged"
    ensures number in crs && crs[number].state == "merged"
  {
    NumberIsFresh(r, counter);
  }

  ghost predicate OneOpenPerHead(crs: map<string, ChangeRequest>) {
    forall a, b :: (a in crs && b in crs && crs[a].state == "open" && crs[b].state == "open" && crs[a].head == crs[b].head) ==> a == b
  }

  /** An update that reopens a change request whose branch has another open one. */
  ghost predicate ReopensOver(w: World, q: Request, path: string) {
    && q.UpdateChangeRequest? && Addresses(w, q, path, q.number) && q.newState == Some("open")
    && var x := w.repos[path].crs[q.number];
      x.state != "open" && OpenOn(w.repos[path], x.head)
  }

  /** At most one open change request per branch: kept by every request but such a reopening. */
  lemma OneOpenPerHeadIff(caps: Capabilities, w: World, q: Request, path: string)
    requires Inv(w) && path in w.repos && OneOpenPerHead(w.repos[path].crs)
    ensures path in Apply(caps, w, q).0.repos
    ensures OneOpenPerHead(Apply(caps, w, q).0.repos[path].crs) <==> !ReopensOver(w, q, path)
  {
    var v := Apply(caps, w, q).0;
    StepChangesCrs(caps, w, q, path, v);
    if q.UpdateChangeRequest? {
      UpdateReaches(caps, w, q, path, v);
      if Addresses(w, q, path, q.number) {
        UpdateAndHeads(w.repos[path], q.number, UpdateSpec(w.repos[path].crs[q.number], q.newTitle, q.newBody, q.newDraft, q.newState).0);
      }
    } else {
      OthersAndHeads(w.repos[path], w.counter, q, v.repos[path].crs);
    }
  }

  ghost predicate OneOpenEverywhere(w: World) {
    forall path :: path in w.repos ==> OneOpenPerHead(w.repos[path].crs)
  }

  ghost predicate Reopens(w: World, q: Request) {
    exists path :: path in w.repos && ReopensOver(w, q, path)
  }

  lemma SeedHasOneOpen()
    ensures OneOpenEverywhere(Seed())
  {
  }

  lemma StepKeepsOneOpenIff(caps: Capabilities, w: World, q: Request)
    requires Inv(w) && OneOpenEverywhere(w)
    ensures OneOpenEverywhere(Apply(caps, w, q).0) <==> !Reopens(w, q)
  {
    var v := Apply(caps, w, q).0;
    StepKeeps(caps, w, q, v);
    assert v.repos.Keys == w.repos.Keys;
    forall path | path in w.repos
      ensures OneOpenPerHead(v.repos[path].crs) <==> !ReopensOver(w, q, path)
    {
      OneOpenPerHeadIff(caps, w, q, path);
    }
  }

  /** At this point of the run and at every point before it. */
  ghost predicate AlwaysOneOpen(caps: Capabilities, qs: seq<Request>) {
    OneOpenEverywhere(After(caps, qs)) && (qs == [] || AlwaysOneOpen(caps, qs[..|qs| - 1]))
  }

  /** No request of the run reopens a change request over another. */
  ghost predicate NeverReopens(caps: Capabilities, qs: seq<Request>) {
    qs == [] || var n := |qs| - 1; NeverReopens(caps, qs[..n]) && !Reopens(After(caps, qs[..n]), qs[n])
  }

  lemma {:induction false} AlwaysAt(caps: Capabilities, qs: seq<Request>, j: nat)
    requires AlwaysOneOpen(caps, qs) && j <= |qs|
    ensures OneOpenEverywhere(After(caps, qs[..j]))
  {
    if j == |qs| {
      assert qs[..j] == qs;
    } else {
      assert qs[..|qs| - 1][..j] == qs[..j];
      AlwaysAt(caps, qs[..|qs| - 1], j);
    }
  }

  /** A run has at most one open change request per branch at every point exactly if no request in it reopens one over another. */
  lemma {:induction false} RunHasOneOpenIff(caps: Capabilities, qs: seq<Request>)
    ensures AlwaysOneOpen(caps, qs) <==> NeverReopens(caps, qs)
  {
    if qs == [] {
      SeedHasOneOpen();
    } else {
      var n := |qs| - 1;
      RunHasOneOpenIff(caps, qs[..n]);
      if AlwaysOneOpen(caps, qs[..n]) {
        RunKeeps(caps, qs[..n]);
        StepKeepsOneOpenIff(caps, After(caps, qs[..n]), qs[n]);
      }
    }
  }

  lemma UpdateAndHeads(r: Repo, n: string, y: ChangeRequest)
    requires n in r.crs && y.head == r.crs[n].head && OneOpenPerHead(r.crs)
    ensures OneOpenPerHead(r.crs[n := y]) <==> !(y.state == "open" && r.crs[n].state != "open" && OpenOn(r, y.head))
  {
    var crs := r.crs[n := y];
    if y.state == "open" && r.crs[n].state != "open" && OpenOn(r, y.head) {
      var m :| m in r.crs && r.crs[m].head == y.head && r.crs[m].state == "open";
      assert crs[m].state == "open" && crs[n].state == "open" && crs[m].head == crs[n].head && m != n;
    }
  }

  lemma OthersAndHeads(r: Repo, counter: nat, q: Request, crs: map<string, ChangeRequest>)
    requires RepoInv(r, counter) && OneOpenPerHead(r.crs) && !q.UpdateChangeRequest? && CrsChangeBy(q, r, crs)
    ensures OneOpenPerHead(crs)
  {
    NumberIsFresh(r, counter);
  }

  // Access grants

  predicate Used(w: World, state: string) {
    state in w.grants && w.grants[state]
  }

  lemma CompletingUses(caps: Capabilities, w: World, q: Request)
    requires q.CompleteAccessGrant?
    ensures Apply(caps, w, q).1 == Granted ==> !Used(w, q.grant) && Used(Apply(caps, w, q).0, q.grant)
    ensures Apply(caps, w, q).1 == Granted || Apply(caps, w, q).1.Failed?
  {
  }

  /** A state that was used stays used: it completes at most once. */
  lemma GrantCompletesOnce(caps: Capabilities, qs: seq<Request>, i: nat, j: nat)
    requires i < j < |qs| && qs[i].CompleteAccessGrant? && qs[j].CompleteAccessGrant? && qs[i].grant == qs[j].grant
    requires Answer(caps, qs, i) == Granted
    ensures Answer(caps, qs, j).Failed?
  {
    NextWorld(caps, qs, i);
    RunGrows(caps, qs, i + 1, j);
    CompletingUses(caps, After(caps, qs[..i]), qs[i]);
    CompletingUses(caps, After(caps, qs[..j]), qs[j]);
    assert Used(After(caps, qs[..j]), qs[j].grant);
  }

  lemma {:induction false} GrantWasBegun(caps: Capabilities, qs: seq<Request>, n: nat, state: string) returns (k: nat)
    requires n <= |qs| && state in After(caps, qs[..n]).grants
    ensures k < n && qs[k].BeginAccessGrant? && Answer(caps, qs, k) == Granting(state)
  {
    NoGrantAtFirst(caps, qs);
    k := n - 1;
    NextWorld(caps, qs, k);
    if state in After(caps, qs[..k]).grants {
      k := GrantWasBegun(caps, qs, k, state);
    } else {
      NewGrant(caps, After(caps, qs[..k]), qs[k], state);
    }
  }

  lemma NoGrantAtFirst(caps: Capabilities, qs: seq<Request>)
    ensures After(caps, qs[..0]).grants == map[]
  {
    assert qs[..0] == [];
  }

  lemma GrantsUntouched(caps: Capabilities, w: World, q: Request)
    requires !Guarded(q) && !q.BeginAccessGrant? && !q.CompleteAccessGrant?
    ensures Apply(caps, w, q).0.grants == w.grants
  {
    match q
    case UpdateChangeRequest(_, _, _, _, _, _) =>
    case MergeChangeRequest(_, _, _) =>
    case SetStatus(_, _, _) =>
    case EnsureWebhook(_, _) =>
    case RemoveWebhook(_, _) =>
    case MintCredential(_, _) =>
  }

  lemma NewGrant(caps: Capabilities, w: World, q: Request, state: string)
    requires state !in w.grants && state in Apply(caps, w, q).0.grants
    ensures q.BeginAccessGrant? && Apply(caps, w, q).1 == Granting(state)
  {
    if Guarded(q) {
      ApplyGuarded(caps, w, q);
      EffectGrants(w, q);
    } else if !q.BeginAccessGrant? && !q.CompleteAccessGrant? {
      GrantsUntouched(caps, w, q);
    }
  }

  lemma EffectGrants(w: World, q: Request)
    requires Guarded(q)
    ensures Effect(w, q).0.grants == w.grants
  {
  }

  /** And it completes only if an earlier request issued it. */
  lemma GrantIsIssuedFirst(caps: Capabilities, qs: seq<Request>, i: nat) returns (k: nat)
    requires i < |qs| && qs[i].CompleteAccessGrant? && Answer(caps, qs, i) == Granted
    ensures k < i && qs[k].BeginAccessGrant? && Answer(caps, qs, k) == Granting(qs[i].grant)
  {
    k := GrantWasBegun(caps, qs, i, qs[i].grant);
  }

  // Webhooks and branches

  /** In every run a URL has at most one hook, so the order of the map does not matter when looking it up. */
  lemma HookLookupIsDetermined(caps: Capabilities, qs: seq<Request>, path: string, url: string, id: string)
    requires path in After(caps, qs).repos
    ensures var hooks := After(caps, qs).repos[path].hooks;
      HookFor(hooks, url) == Some(id) <==> id in hooks && hooks[id] == url
  {
    RunKeeps(caps, qs);
    assert RepoInv(After(caps, qs).repos[path], After(caps, qs).counter);
  }

  /** The requests from i on leave the hook alone. */
  ghost predicate NotRemoved(qs: seq<Request>, i: nat, j: nat, target: Target, id: string) {
    forall k :: i < k < j && k < |qs| ==> qs[k] != RemoveWebhook(target, id)
  }

  lemma HookStays(caps: Capabilities, w: World, q: Request, target: Target, id: string, url: string)
    requires Inv(w) && HookIs(w, target, id, url) && q != RemoveWebhook(target, id)
    ensures HookIs(Apply(caps, w, q).0, target, id, url)
  {
    var v := Apply(caps, w, q).0;
    StepChangesHooks(caps, w, q, target.path, v);
    HookIsKept(w.repos[target.path], w.counter, q, target, v.repos[target.path].hooks, id);
  }

  lemma HookIsKept(r: Repo, counter: nat, q: Request, target: Target, hooks: map<string, string>, id: string)
    requires RepoInv(r, counter) && id in r.hooks && q != RemoveWebhook(target, id) && target.identity == IDENTITY_ID
    requires hooks == r.hooks || (Targets(q, target.path) && HooksChangeBy(q, r.hooks, counter, hooks))
    ensures id in hooks && hooks[id] == r.hooks[id]
  {
    HookIsFresh(r, counter);
  }

  ghost predicate HookIs(w: World, target: Target, id: string, url: string) {
    RepoOf(w, target).Some? && id in w.repos[target.path].hooks && w.repos[target.path].hooks[id] == url
  }

  lemma {:induction false} HookStaysThrough(caps: Capabilities, qs: seq<Request>, i: nat, j: nat, target: Target, id: string, url: string)
    requires i < j <= |qs| && NotRemoved(qs, i, j, target, id)
    requires HookIs(After(caps, qs[..i + 1]), target, id, url)
    ensures HookIs(After(caps, qs[..j]), target, id, url)
    decreases j
  {
    if j > i + 1 {
      HookStaysThrough(caps, qs, i, j - 1, target, id, url);
      RunKeeps(caps, qs[..j - 1]);
      NextWorld(caps, qs, j - 1);
      HookStays(caps, After(caps, qs[..j - 1]), qs[j - 1], target, id, url);
    }
  }

  /** Ensuring the same URL again, with the hook not removed in between, gives the same hook and adds none. */
  lemma EnsureIsStable(caps: Capabilities, qs: seq<Request>, i: nat, j: nat, id: string)
    requires i < j < |qs| && qs[i].EnsureWebhook? && qs[j] == qs[i]
    requires Answer(caps, qs, i) == Hooked(id) && NotRemoved(qs, i, j, qs[i].target, id)
    ensures Answer(caps, qs, j) == Hooked(id) && After(caps, qs[..j + 1]) == After(caps, qs[..j])
  {
    NextWorld(caps, qs, i);
    EnsureHooks(caps, After(caps, qs[..i]), qs[i], id);
    HookStaysThrough(caps, qs, i, j, qs[i].target, id, qs[i].url);
    HookLookupIsDetermined(caps, qs[..j], qs[i].target.path, qs[i].url, id);
    NextWorld(caps, qs, j);
    EnsureFinds(caps, After(caps, qs[..j]), qs[j], id);
  }

  lemma EnsureHooks(caps: Capabilities, w: World, q: Request, id: string)
    requires q.EnsureWebhook? && Apply(caps, w, q).1 == Hooked(id)
    ensures q.url != "" && HookIs(Apply(caps, w, q).0, q.target, id, q.url)
  {
  }

  lemma EnsureFinds(caps: Capabilities, w: World, q: Request, id: string)
    requires q.EnsureWebhook? && q.url != "" && RepoOf(w, q.target).Some?
    requires HookFor(w.repos[q.target.path].hooks, q.url) == Some(id)
    ensures Apply(caps, w, q) == (w, Hooked(id))
  {
  }

  /** A branch never moves once it exists, and its commit is always one of the seeded ones. */
  lemma BranchNeverMoves(caps: Capabilities, qs: seq<Request>, i: nat, j: nat, path: string, name: string)
    requires i <= j <= |qs|
    requires path in After(caps, qs[..i]).repos && name in After(caps, qs[..i]).repos[path].branches
    ensures path in After(caps, qs[..j]).repos && name in After(caps, qs[..j]).repos[path].branches
    ensures After(caps, qs[..j]).repos[path].branches[name] == After(caps, qs[..i]).repos[path].branches[name]
    ensures SeededSha(After(caps, qs[..j]).repos[path].branches[name])
  {
    RunGrows(caps, qs, i, j);
    RunKeeps(caps, qs[..j]);
    assert RepoGrows(After(caps, qs[..i]).repos[path], After(caps, qs[..j]).repos[path]);
    assert RepoInv(After(caps, qs[..j]).repos[path], After(caps, qs[..j]).counter);
  }
}
