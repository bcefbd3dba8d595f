/** Where the provider does less than its operations suggest: exactly when, and a run from the seed in which it happens. */
module ProviderFailures {
  import opened Options
  import opened ProviderSpec
  import opened ProviderRuns
  import opened ProviderTheorems
  import Text

  // A failed request that has changed something

  predicate Differs<T(==)>(given: Option<T>, was: T) {
    given.Some? && given.value != was
  }

  /** An update of a change request there is, to a state there is not, with another field that is new. */
  predicate WritesThenRefuses(w: World, q: Request) {
    && q.UpdateChangeRequest? && CrOf(w, q.target, q.number).Some?
    && q.newState.Some? && q.newState.value != "open" && q.newState.value != "closed"
    && var x := CrOf(w, q.target, q.number).value;
      Differs(q.newTitle, x.title) || Differs(q.newBody, x.body) || Differs(q.newDraft, x.draft)
  }

  lemma FailedUpdate(caps: Capabilities, w: World, q: Request)
    requires q.UpdateChangeRequest? && Apply(caps, w, q).1.Failed?
    ensures Apply(caps, w, q).0 == w <==> !WritesThenRefuses(w, q)
  {
    if CrOf(w, q.target, q.number).Some? {
      var r := w.repos[q.target.path];
      var x, y := r.crs[q.number], UpdateSpec(r.crs[q.number], q.newTitle, q.newBody, q.newDraft, q.newState).0;
      assert y == x <==> !WritesThenRefuses(w, q);
      SameAfterPut(w.repos, q.target.path, r, q.number, y);
      assert Apply(caps, w, q).0 == WithRepo(w, q.target.path, r.(crs := r.crs[q.number := y]));
    }
  }

  lemma SameAfterPut(repos: map<string, Repo>, path: string, r: Repo, number: string, y: ChangeRequest)
    requires path in repos && repos[path] == r && number in r.crs
    ensures repos[path := r.(crs := r.crs[number := y])] == repos <==> y == r.crs[number]
  {
    var s := r.(crs := r.crs[number := y]);
    assert repos[path := s][path] == s && s.crs[number] == y;
    if y == r.crs[number] {
      assert s.crs == r.crs;
    }
  }

  lemma OtherFailures(caps: Capabilities, w: World, q: Request)
    requires !Guarded(q) && !q.UpdateChangeRequest? && Apply(caps, w, q).1.Failed?
    ensures Apply(caps, w, q).0 == w
  {
    match q
    case MergeChangeRequest(_, _, _) =>
    case SetStatus(_, _, _) =>
    case EnsureWebhook(_, _) =>
    case RemoveWebhook(_, _) =>
    case MintCredential(_, _) =>
    case BeginAccessGrant(_, _) =>
    case CompleteAccessGrant(_, _) =>
  }

  /** A failed request leaves everything as it was, unless it is an update that writes before it refuses. */
  lemma FailureIsAtomicIff(caps: Capabilities, qs: seq<Request>, i: nat)
    requires i < |qs| && Answer(caps, qs, i).Failed?
    ensures After(caps, qs[..i + 1]) == After(caps, qs[..i]) <==> !WritesThenRefuses(After(caps, qs[..i]), qs[i])
  {
    var w := After(caps, qs[..i]);
    NextWorld(caps, qs, i);
    RunKeeps(caps, qs[..i]);
    if Guarded(qs[i]) {
      GuardedFailure(caps, w, qs[i]);
    } else if qs[i].UpdateChangeRequest? {
      FailedUpdate(caps, w, qs[i]);
    } else {
      OtherFailures(caps, w, qs[i]);
    }
  }

  // Runs from the seed

  function Web(): Target {
    Target("acme/web", IDENTITY_ID)
  }

  function SetState(state: string): Request {
    UpdateChangeRequest(Web(), "1", None, None, None, Some(state))
  }

  lemma FirstWorld(caps: Capabilities, q: Request)
    ensures After(caps, [q]) == Apply(caps, Seed(), q).0 && Answer(caps, [q], 0) == Apply(caps, Seed(), q).1
  {
    assert [q][..0] == [];
  }

  lemma NextOf(caps: Capabilities, qs: seq<Request>, q: Request)
    ensures After(caps, qs + [q]) == Apply(caps, After(caps, qs), q).0
    ensures Answer(caps, qs + [q], |qs|) == Apply(caps, After(caps, qs), q).1
  {
    assert (qs + [q])[..|qs|] == qs;
  }

  /** A new title with the state "merged" is refused, and the title is new. */
  lemma RefusedUpdateHasWritten(caps: Capabilities)
    ensures var q := UpdateChangeRequest(Web(), "1", Some("New title"), None, None, Some("merged"));
      Answer(caps, [q], 0) == Failed(Validation) && After(caps, [q]) != Seed()
  {
    var q := UpdateChangeRequest(Web(), "1", Some("New title"), None, None, Some("merged"));
    FirstWorld(caps, q);
    assert Seed().repos["acme/web"].crs["1"].title == "Add feature";
    assert "Add feature"[0] != "New title"[0];
    FailedUpdate(caps, Seed(), q);
  }

  lemma SetStateReaches(caps: Capabilities, w: World, state: string)
    requires "acme/web" in w.repos && "1" in w.repos["acme/web"].crs && (state == "open" || state == "closed")
    ensures var v, r := Apply(caps, w, SetState(state)).0, w.repos["acme/web"];
      "acme/web" in v.repos && v.repos["acme/web"].crs == r.crs["1" := r.crs["1"].(state := state)]
  {
    UpdateReaches(caps, w, SetState(state), "acme/web", Apply(caps, w, SetState(state)).0);
  }

  /** Merged, then set to open: it is open again. */
  lemma MergedIsReopened(caps: Capabilities)
    ensures var merge := MergeChangeRequest(Web(), "1", "abc123");
      && Answer(caps, [merge], 0) == Merged("merge-abc123")
      && var w, v := After(caps, [merge]), After(caps, [merge] + [SetState("open")]);
        && "acme/web" in w.repos && "1" in w.repos["acme/web"].crs && w.repos["acme/web"].crs["1"].state == "merged"
        && "acme/web" in v.repos && "1" in v.repos["acme/web"].crs && v.repos["acme/web"].crs["1"].state == "open"
  {
    var merge := MergeChangeRequest(Web(), "1", "abc123");
    FirstWorld(caps, merge);
    MergeReaches(caps, Seed());
    NextOf(caps, [merge], SetState("open"));
    SetStateReaches(caps, After(caps, [merge]), "open");
  }

  lemma MergeReaches(caps: Capabilities, w: World)
    requires "acme/web" in w.repos && "1" in w.repos["acme/web"].crs
    requires w.repos["acme/web"].crs["1"].headSha == "abc123" && w.repos["acme/web"].crs["1"].state == "open"
    ensures var (v, o) := Apply(caps, w, MergeChangeRequest(Web(), "1", "abc123"));
      && o == Merged("merge-abc123")
      && "acme/web" in v.repos && v.repos["acme/web"].crs == w.repos["acme/web"].crs["1" := w.repos["acme/web"].crs["1"].(state := "merged")]
  {
    assert "merge-" + "abc123" == "merge-abc123";
  }

  function OpenAgain(): Request {
    OpenChangeRequest(Web(), "Again", "", "feat/x", "main", false, "")
  }

  lemma OpenAgainReaches(caps: Capabilities, w: World)
    requires Inv(w) && "acme/web" in w.repos && !OpenOn(w.repos["acme/web"], "feat/x")
    ensures var (v, o) := Apply(caps, w, OpenAgain());
      && "acme/web" in v.repos && o.Opened? && o.number !in w.repos["acme/web"].crs
      && v.repos["acme/web"].crs == w.repos["acme/web"].crs[o.number := o.cr]
      && o.cr.head == "feat/x" && o.cr.state == "open"
  {
    var q := OpenAgain();
    TitleIsGiven();
    ApplyGuarded(caps, w, q);
    NumberIsFresh(w.repos["acme/web"], w.counter);
  }

  lemma TitleIsGiven()
    ensures Text.TrimSpace("Again") != ""
  {
    assert !Text.IsSpace('A');
    assert Text.TrimLeft("Again", Text.IsSpace) == "Again";
  }

  /** The seeded change request is closed; is there an open one on its branch? */
  ghost predicate ClosedBeside(w: World, open: bool) {
    && Inv(w) && OneOpenEverywhere(w)
    && "acme/web" in w.repos && "1" in w.repos["acme/web"].crs
    && w.repos["acme/web"].crs["1"].state == "closed" && w.repos["acme/web"].crs["1"].head == "feat/x"
    && (OpenOn(w.repos["acme/web"], "feat/x") <==> open)
  }

  lemma ClosingTheSeeded(caps: Capabilities)
    ensures ClosedBeside(Apply(caps, Seed(), SetState("closed")).0, false)
  {
    var w, q := Seed(), SetState("closed");
    var v := Apply(caps, w, q).0;
    SeedIsGood();
    SeedHasOneOpen();
    SetStateReaches(caps, w, "closed");
    StepKeeps(caps, w, q, v);
    StepKeepsOneOpenIff(caps, w, q);
  }

  lemma OpeningBeside(caps: Capabilities, w: World)
    requires ClosedBeside(w, false)
    ensures ClosedBeside(Apply(caps, w, OpenAgain()).0, true)
  {
    var q := OpenAgain();
    var (v, o) := Apply(caps, w, q);
    OpenAgainReaches(caps, w);
    StepKeeps(caps, w, q, v);
    StepKeepsOneOpenIff(caps, w, q);
    var r := v.repos["acme/web"];
    assert o.number in r.crs && r.crs[o.number].head == "feat/x" && r.crs[o.number].state == "open";
  }

  lemma ReopeningBeside(caps: Capabilities, w: World)
    requires ClosedBeside(w, true)
    ensures ReopensOver(w, SetState("open"), "acme/web") && !OneOpenEverywhere(Apply(caps, w, SetState("open")).0)
  {
    assert ReopensOver(w, SetState("open"), "acme/web");
    StepKeepsOneOpenIff(caps, w, SetState("open"));
  }

  /** Closed, the branch opened again, then set to open: two open change requests on one branch. */
  lemma TwoOpenOnOneBranch(caps: Capabilities)
    ensures var qs := [SetState("closed")] + [OpenAgain()];
      && OneOpenEverywhere(After(caps, qs)) && ReopensOver(After(caps, qs), SetState("open"), "acme/web")
      && !OneOpenEverywhere(After(caps, qs + [SetState("open")]))
  {
    var close, again := SetState("closed"), OpenAgain();
    FirstWorld(caps, close);
    ClosingTheSeeded(caps);
    NextOf(caps, [close], again);
    OpeningBeside(caps, After(caps, [close]));
    NextOf(caps, [close] + [again], SetState("open"));
    ReopeningBeside(caps, After(caps, [close] + [again]));
  }
}
