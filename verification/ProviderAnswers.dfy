/** What the provider answers, operation by operation, told by the worlds before and after the request. */
module ProviderAnswers {
  import opened Options
  import opened Decimal
  import opened ProviderSpec
  import opened ProviderRuns
  import opened ProviderTheorems
  import Text

  /** The repository is there, and the identity is the one it is shown to. */
  predicate Visible(w: World, t: Target) {
    t.path in w.repos && t.identity == "ident-1"
  }

  predicate HasCr(w: World, t: Target, number: string) {
    Visible(w, t) && number in w.repos[t.path].crs
  }

  /** Other repositories and the grants are as they were. */
  predicate SameElsewhere(w: World, v: World, path: string) {
    v.grants == w.grants && v.repos.Keys == w.repos.Keys && forall p :: p in w.repos && p != path ==> v.repos[p] == w.repos[p]
  }

  /** Only this change request differs. */
  predicate OnlyCr(w: World, v: World, path: string, number: string)
    requires path in w.repos
  {
    && SameElsewhere(w, v, path)
    && var (r, s) := (w.repos[path], v.repos[path]);
      && s == r.(crs := s.crs) && s.crs.Keys == r.crs.Keys + {number}
      && forall n :: n in r.crs && n != number ==> s.crs[n] == r.crs[n]
  }

  lemma PutCr(w: World, v: World, path: string, number: string, y: ChangeRequest)
    requires path in w.repos && v.grants == w.grants
    requires v.repos == w.repos[path := w.repos[path].(crs := w.repos[path].crs[number := y])]
    ensures OnlyCr(w, v, path, number) && v.repos[path].crs[number] == y
  {
  }

  // Merging

  /**
   A merge succeeds exactly when the change request is there and open and the expected commit is given and
   is its head. Then its state is merged and nothing else has changed; a refused merge changes nothing.
   */
  lemma MergeAnswers(caps: Capabilities, w: World, q: Request, v: World, o: Outcome)
    requires q.MergeChangeRequest? && (v, o) == Apply(caps, w, q)
    ensures o.Merged? <==>
      HasCr(w, q.target, q.number)
      && var x := w.repos[q.target.path].crs[q.number];
        x.state == "open" && q.expectedSha != "" && q.expectedSha == x.headSha
    ensures o.Merged? ==>
      && o.sha == "merge-" + q.expectedSha && v.idem == w.idem && v.counter == w.counter
      && OnlyCr(w, v, q.target.path, q.number)
      && v.repos[q.target.path].crs[q.number] == w.repos[q.target.path].crs[q.number].(state := "merged")
    ensures !o.Merged? ==> v == w && o == Failed(
      if !HasCr(w, q.target, q.number) then NotFound else if q.expectedSha == "" then Validation else Conflict)
  {
    if o.Merged? {
      PutCr(w, v, q.target.path, q.number, w.repos[q.target.path].crs[q.number].(state := "merged"));
    }
  }

  /** In a run, a merge that names another commit than the head, or none, is refused. */
  lemma MergeInRun(caps: Capabilities, qs: seq<Request>, i: nat)
    requires i < |qs| && qs[i].MergeChangeRequest?
    ensures var w, v, q := After(caps, qs[..i]), After(caps, qs[..i + 1]), qs[i];
      if HasCr(w, q.target, q.number)
         && w.repos[q.target.path].crs[q.number].state == "open"
         && q.expectedSha != "" && q.expectedSha == w.repos[q.target.path].crs[q.number].headSha
      then
        && Answer(caps, qs, i) == Merged("merge-" + q.expectedSha)
        && OnlyCr(w, v, q.target.path, q.number) && v.idem == w.idem && v.counter == w.counter
        && v.repos[q.target.path].crs[q.number] == w.repos[q.target.path].crs[q.number].(state := "merged")
      else Answer(caps, qs, i).Failed? && v == w
  {
    NextWorld(caps, qs, i);
    MergeAnswers(caps, After(caps, qs[..i]), qs[i], After(caps, qs[..i + 1]), Answer(caps, qs, i));
  }

  predicate IsMerged(w: World, path: string, number: string) {
    path in w.repos && number in w.repos[path].crs && w.repos[path].crs[number].state == "merged"
  }

  lemma MergedByMerge(q: Request, r: Repo, crs: map<string, ChangeRequest>, number: string)
    requires CrsChangeBy(q, r, crs) && number in crs && crs[number].state == "merged"
    requires number !in r.crs || r.crs[number].state != "merged"
    ensures q.MergeChangeRequest? && q.number == number
  {
  }

  lemma MergeHits(caps: Capabilities, w: World, q: Request, v: World, o: Outcome, path: string, number: string)
    requires q.MergeChangeRequest? && (v, o) == Apply(caps, w, q)
    requires !IsMerged(w, path, number) && IsMerged(v, path, number)
    ensures q.target == Target(path, "ident-1") && o == Merged("merge-" + q.expectedSha)
  {
    MergeAnswers(caps, w, q, v, o);
  }

  /** And a change request becomes merged only through a merge of it that succeeds. */
  lemma OnlyMergeMerges(caps: Capabilities, qs: seq<Request>, i: nat, path: string, number: string)
    requires i < |qs| && !IsMerged(After(caps, qs[..i]), path, number) && IsMerged(After(caps, qs[..i + 1]), path, number)
    ensures var q := qs[i];
      && q.MergeChangeRequest? && q.target == Target(path, "ident-1") && q.number == number
      && Answer(caps, qs, i) == Merged("merge-" + q.expectedSha)
  {
    var w, v, q := After(caps, qs[..i]), After(caps, qs[..i + 1]), qs[i];
    NextWorld(caps, qs, i);
    SameRepositories(caps, w, q, v);
    StepChangesCrs(caps, w, q, path, v);
    MergedByMerge(q, w.repos[path], v.repos[path].crs, number);
    MergeHits(caps, w, q, v, Answer(caps, qs, i), path, number);
  }

  lemma SameRepositories(caps: Capabilities, w: World, q: Request, v: World)
    requires v == Apply(caps, w, q).0
    ensures v.repos.Keys == w.repos.Keys
  {
    StepIsConfined(caps, w, q, v);
  }

  // Updating

  predicate NewValue<T(==)>(given: Option<T>, was: T, now: T) {
    now == match given case None => was case Some(x) => x
  }

  /**
   An update writes the title, the body and the draft mark it is given, and its state when that is open or
   closed; any other state is refused, after the rest has been written.
   */
  lemma UpdateAnswers(caps: Capabilities, w: World, q: Request, v: World, o: Outcome)
    requires q.UpdateChangeRequest? && (v, o) == Apply(caps, w, q)
    ensures !HasCr(w, q.target, q.number) ==> o == Failed(NotFound) && v == w
    ensures HasCr(w, q.target, q.number) ==>
      && OnlyCr(w, v, q.target.path, q.number) && v.idem == w.idem && v.counter == w.counter
      && var (x, y) := (w.repos[q.target.path].crs[q.number], v.repos[q.target.path].crs[q.number]);
        && NewValue(q.newTitle, x.title, y.title) && NewValue(q.newBody, x.body, y.body) && NewValue(q.newDraft, x.draft, y.draft)
        && y == x.(title := y.title, body := y.body, draft := y.draft, state := y.state)
        && (if q.newState in {None, Some("open"), Some("closed")}
            then o == Updated(q.number, y) && NewValue(q.newState, x.state, y.state)
            else o == Failed(Validation) && y.state == x.state)
  {
    if HasCr(w, q.target, q.number) {
      PutCr(w, v, q.target.path, q.number, UpdateSpec(w.repos[q.target.path].crs[q.number], q.newTitle, q.newBody, q.newDraft, q.newState).0);
    }
  }

  // Statuses, hooks and credentials

  /** Of this repository only the part that is replaced differs. */
  lemma PutRepo(w: World, v: World, path: string, s: Repo)
    requires path in w.repos && v.repos == w.repos[path := s] && v.grants == w.grants
    ensures SameElsewhere(w, v, path) && v.repos[path] == s
  {
  }

  /**
   A status without a reference is stored under a new one, and a status with one under it if there is a
   status to replace.
   */
  lemma StatusAnswers(caps: Capabilities, w: World, q: Request, v: World, o: Outcome)
    requires q.SetStatus? && (v, o) == Apply(caps, w, q)
    ensures o.StatusSet? <==> Visible(w, q.target) && (q.ref == "" || q.ref in w.repos[q.target.path].statuses)
    ensures o.StatusSet? ==>
      && o.ref == (if q.ref == "" then "st-" + Itoa(w.counter + 1) else q.ref)
      && v.counter == (if q.ref == "" then w.counter + 1 else w.counter) && v.idem == w.idem
      && SameElsewhere(w, v, q.target.path)
      && var (r, s) := (w.repos[q.target.path], v.repos[q.target.path]);
        && s == r.(statuses := s.statuses) && o.ref in s.statuses && s.statuses[o.ref] == q.state
        && s.statuses.Keys == r.statuses.Keys + {o.ref}
        && forall ref :: ref in r.statuses && ref != o.ref ==> s.statuses[ref] == r.statuses[ref]
    ensures !o.StatusSet? ==> o == Failed(NotFound) && v == w
  {
    if o.StatusSet? {
      var r := w.repos[q.target.path];
      assert "st" + "-" == "st-";
      PutRepo(w, v, q.target.path, r.(statuses := r.statuses[o.ref := q.state]));
    }
  }

  predicate HasHook(w: World, path: string, url: string) {
    path in w.repos && exists id :: id in w.repos[path].hooks && w.repos[path].hooks[id] == url
  }

  /** Ensuring a URL that a hook has gives such a hook and changes nothing; otherwise a new hook has it. */
  lemma EnsureAnswers(caps: Capabilities, w: World, q: Request, v: World, o: Outcome)
    requires q.EnsureWebhook? && (v, o) == Apply(caps, w, q)
    ensures !Visible(w, q.target) ==> o == Failed(NotFound) && v == w
    ensures Visible(w, q.target) && q.url == "" ==> o == Failed(Validation) && v == w
    ensures Visible(w, q.target) && q.url != "" ==>
      && o.Hooked? && o.id in v.repos[q.target.path].hooks && v.repos[q.target.path].hooks[o.id] == q.url
      && (if HasHook(w, q.target.path, q.url) then v == w
          else
            && o.id == "hook-" + Itoa(w.counter + 1) && v.counter == w.counter + 1 && v.idem == w.idem
            && SameElsewhere(w, v, q.target.path)
            && var (r, s) := (w.repos[q.target.path], v.repos[q.target.path]);
              && s == r.(hooks := s.hooks) && s.hooks.Keys == r.hooks.Keys + {o.id}
              && forall id :: id in r.hooks && id != o.id ==> s.hooks[id] == r.hooks[id])
  {
    if Visible(w, q.target) && q.url != "" && !HasHook(w, q.target.path, q.url) {
      var r := w.repos[q.target.path];
      assert "hook" + "-" == "hook-";
      PutRepo(w, v, q.target.path, r.(hooks := r.hooks[o.id := q.url]));
    }
  }

  /** Removing a hook, there or not: it is gone, and every other is as it was. */
  lemma RemoveAnswers(caps: Capabilities, w: World, q: Request, v: World, o: Outcome)
    requires q.RemoveWebhook? && (v, o) == Apply(caps, w, q)
    ensures !Visible(w, q.target) ==> o == Failed(NotFound) && v == w
    ensures Visible(w, q.target) ==>
      && o == Done && v.counter == w.counter && v.idem == w.idem && SameElsewhere(w, v, q.target.path)
      && var (r, s) := (w.repos[q.target.path], v.repos[q.target.path]);
        && s == r.(hooks := s.hooks) && q.id !in s.hooks
        && (forall id :: id in r.hooks && id != q.id ==> id in s.hooks && s.hooks[id] == r.hooks[id])
        && (forall id :: id in s.hooks ==> id in r.hooks)
  {
    if Visible(w, q.target) {
      var r := w.repos[q.target.path];
      PutRepo(w, v, q.target.path, r.(hooks := r.hooks - {q.id}));
    }
  }

  /** A credential is for reading or for writing; its secret is new each time, or always the one fixed secret. */
  lemma MintAnswers(caps: Capabilities, w: World, q: Request, v: World, o: Outcome)
    requires q.MintCredential? && (v, o) == Apply(caps, w, q)
    ensures !Visible(w, q.target) ==> o == Failed(NotFound) && v == w
    ensures Visible(w, q.target) && q.access !in {"read", "write"} ==> o == Failed(Validation) && v == w
    ensures Visible(w, q.target) && q.access in {"read", "write"} && !caps.ephemeral ==> o == Minted("static_fake_secret_value") && v == w
    ensures Visible(w, q.target) && q.access in {"read", "write"} && caps.ephemeral ==>
      o == Minted("tok-" + q.access + "-" + Itoa(w.counter + 1)) && v == w.(counter := w.counter + 1)
  {
  }

  // Access grants

  /** A grant that is begun gets a new state, which is not used yet. */
  lemma BeginAnswers(caps: Capabilities, w: World, q: Request, v: World, o: Outcome)
    requires q.BeginAccessGrant? && (v, o) == Apply(caps, w, q)
    ensures q.identity != "ident-1" ==> o == Failed(NotFound) && v == w
    ensures q.identity == "ident-1" && q.callback == "" ==> o == Failed(Validation) && v == w
    ensures q.identity == "ident-1" && q.callback != "" ==>
      && o == Granting("grant-" + Itoa(w.counter + 1))
      && v.repos == w.repos && v.idem == w.idem && v.counter == w.counter + 1
      && o.state in v.grants && !v.grants[o.state] && v.grants.Keys == w.grants.Keys + {o.state}
      && forall g :: g in w.grants && g != o.state ==> v.grants[g] == w.grants[g]
  {
    assert "grant" + "-" == "grant-";
  }

  /** A grant is completed exactly when its state is known and not used, and then it is used. */
  lemma CompleteAnswers(caps: Capabilities, w: World, q: Request, v: World, o: Outcome)
    requires q.CompleteAccessGrant? && (v, o) == Apply(caps, w, q)
    ensures o.Granted? <==> q.identity == "ident-1" && q.grant != "" && q.grant in w.grants && !w.grants[q.grant]
    ensures o.Granted? ==>
      && v.repos == w.repos && v.idem == w.idem && v.counter == w.counter
      && v.grants.Keys == w.grants.Keys && v.grants[q.grant]
      && forall g :: g in w.grants && g != q.grant ==> v.grants[g] == w.grants[g]
    ensures !o.Granted? ==> v == w && o == Failed(
      if q.identity != "ident-1" then NotFound else if q.grant == "" then Validation else Forbidden)
  {
  }
}
