/**
 The provider's methods, against the state machine: on objects that are changed in place they do what it does
 on values.
 */
module Provider {
  import opened Options
  import opened Decimal
  import opened ProviderSpec
  import opened ProviderObjects
  import opened ProviderRuns
  import opened ProviderTheorems
  import Text

  /** The next number of every repository is not in use. */
  ghost predicate FreshNumbers(repos: Repos) {
    forall p :: p in repos ==> Itoa(100 + (repos[p].nextID + 1)) !in repos[p].crs
  }

  ghost predicate OnePerUrl(hooks: map<string, string>) {
    forall a, b :: a in hooks && b in hooks && hooks[a] == hooks[b] ==> a == b
  }

  ghost predicate OnePerUrlEverywhere(repos: Repos) {
    forall p :: p in repos ==> OnePerUrl(repos[p].hooks)
  }

  lemma ReadyAt(r: RepoOver<CrCell>, s: Repo, counter: nat)
    requires SameText(r, s) && RepoInv(s, counter)
    ensures Itoa(100 + (r.nextID + 1)) !in r.crs && OnePerUrl(r.hooks)
  {
    NumberIsFresh(s, counter);
  }

  /** What the invariant of the runs gives the methods. */
  lemma Ready(repos: Repos, shown: map<string, Repo>, w: World)
    requires shown.Keys == repos.Keys && forall p :: p in repos ==> SameText(repos[p], shown[p])
    requires Inv(w) && w.repos == shown
    ensures FreshNumbers(repos) && OnePerUrlEverywhere(repos)
  {
    forall p | p in repos
      ensures Itoa(100 + (repos[p].nextID + 1)) !in repos[p].crs && OnePerUrl(repos[p].hooks)
    {
      ReadyAt(repos[p], shown[p], w.counter);
    }
  }

  lemma ReplyIs(w: World, q: Request, i: nat)
    requires q.ReplyThread? && CrOf(w, q.target, q.number).Some?
    requires var x := CrOf(w, q.target, q.number).value; i < |x.threads| && i == ThreadIndex(x.threads, q.thread)
    ensures var id := Id("cm", w.counter + 1);
      var y := Replied(w.repos[q.target.path].crs[q.number], i, Comment(id, IDENTITY_HANDLE, q.text));
      ReplyOf(w, q) == (w.(counter := w.counter + 1, repos := WithCr(w.repos, q.target.path, q.number, y)), Commented(id))
  {
  }

  lemma OpenIs(w: World, q: Request, x: ChangeRequest, n: string)
    requires q.OpenChangeRequest? && RepoOf(w, q.target).Some? && !OpenOn(w.repos[q.target.path], q.head)
    requires n == Itoa(100 + (w.repos[q.target.path].nextID + 1))
    requires x == ChangeRequest(q.title, q.body, "open", q.draft, q.head, "sha-" + n, q.base, IDENTITY_HANDLE, [], [])
    ensures OpenOf(w, q) == (w.(repos := w.repos[q.target.path := WithNew(w.repos[q.target.path], n, x)]), Outcome.Opened(n, x))
  {
  }

  lemma GoodAtFirst(w: World)
    requires w == Seed()
    ensures Inv(w) && MemoInv(w)
  {
    SeedIsGood();
  }

  class Core {
    const caps: Capabilities
    var repos: Repos
    var idem: map<string, Outcome>
    var counter: nat
    var grants: map<string, bool>
    ghost var home: map<object, Place>
    ghost var shown: map<string, Repo>

    /** `shown` is what the repositories and their objects hold. */
    ghost predicate Linked()
      reads this, home.Keys
    {
      this !in home && Holds(repos, home, shown)
    }

    ghost function State(): World
      reads this
    {
      World(shown, idem, counter, grants)
    }

    ghost predicate Valid()
      reads this, home.Keys
    {
      Linked() && Inv(State()) && MemoInv(State())
    }

    /** The next identifier with a prefix. */
    method Next(prefix: string) returns (id: string)
      modifies this`counter
      ensures counter == old(counter) + 1 && id == Id(prefix, counter)
    {
      counter := counter + 1;
      id := Id(prefix, counter);
    }

    constructor (caps: Capabilities)
      ensures Valid() && this.caps == caps && State() == Seed() && fresh(home.Keys)
    {
      this.caps := caps;
      idem, counter, grants := map[], 0, map[];
      new;
      var seeded;
      ghost var places;
      seeded, places := AddSeeds(SeedRepo());
      Set(seeded, places, Three(SeedRepo()));
      GoodAtFirst(State());
    }

    /** The links move together with what they show. */
    method Set(repos: Repos, ghost home: map<object, Place>, ghost shown: map<string, Repo>)
      requires Holds(repos, home, shown) && this !in home
      modifies this`repos, this`home, this`shown
      ensures Linked() && this.repos == repos && this.home == home && this.shown == shown
    {
      this.repos, this.home, this.shown := repos, home, shown;
    }

    /** Fields of one repository that are values. */
    method Write(path: string, r: RepoOver<CrCell>)
      requires Linked() && path in repos && r.crs == repos[path].crs
      modifies this`repos, this`home, this`shown
      ensures Linked() && home == old(home) && path in old(shown)
      ensures shown == old(shown)[path := Repo(old(shown)[path].crs, r.issues, r.comments, r.hooks, r.nextID, r.statuses, r.branches)]
    {
      TextChanged(repos, home, shown, path, r);
      Set(repos[path := r], home, shown[path := Repo(shown[path].crs, r.issues, r.comments, r.hooks, r.nextID, r.statuses, r.branches)]);
    }

    predicate Known(t: Target)
      reads this
    {
      t.path in repos && t.identity == IDENTITY_ID
    }

    /** The change request of a target, as an object. */
    method FindCr(t: Target, number: string) returns (x: CrCell?)
      requires Linked()
      ensures x == null <==> CrOf(State(), t, number).None?
      ensures x != null ==> Known(t) && At(repos, t.path, number) && x == repos[t.path].crs[number]
      ensures x != null ==> CrOf(State(), t, number) == Some(shown[t.path].crs[number]) && x.Shows(shown[t.path].crs[number])
    {
      if !Known(t) || number !in repos[t.path].crs {
        return null;
      }
      assert At(repos, t.path, number);
      return repos[t.path].crs[number];
    }

    method SetStateAt(path: string, number: string, state: string)
      requires Linked() && At(repos, path, number)
      modifies repos[path].crs[number], this`repos, this`home, this`shown
      ensures Linked() && path in old(shown) && number in old(shown)[path].crs
      ensures home == old(home) && repos == old(repos)
      ensures State() == old(State()).(repos := WithCr(old(shown), path, number, old(shown)[path].crs[number].(state := state)))
    {
      ghost var y := shown[path].crs[number].(state := state);
      SetState(repos, path, number, state, home, shown);
      Set(repos, home, WithCr(shown, path, number, y));
    }

    method ReplyAt(path: string, number: string, i: nat, c: Comment)
      requires Linked() && At(repos, path, number) && i < |repos[path].crs[number].threads|
      modifies repos[path].crs[number].threads[i], this`repos, this`home, this`shown
      ensures Linked() && path in old(shown) && number in old(shown)[path].crs && i < |old(shown)[path].crs[number].threads|
      ensures home == old(home) && repos == old(repos)
      ensures State() == old(State()).(repos := WithCr(old(shown), path, number, Replied(old(shown)[path].crs[number], i, c)))
    {
      assert repos[path].crs[number].Shows(shown[path].crs[number]);
      ghost var y := Replied(shown[path].crs[number], i, c);
      Reply(repos, path, number, i, c, home, shown);
      Set(repos, home, WithCr(shown, path, number, y));
    }

    method UpdateAt(path: string, number: string, title: Option<string>, body: Option<string>, draft: Option<bool>, state: Option<string>)
      returns (ok: bool, copy: ChangeRequest)
      requires Linked() && At(repos, path, number)
      modifies repos[path].crs[number], this`repos, this`home, this`shown
      ensures Linked() && path in old(shown) && number in old(shown)[path].crs
      ensures (copy, ok) == UpdateSpec(old(shown)[path].crs[number], title, body, draft, state)
      ensures home == old(home) && repos == old(repos)
      ensures State() == old(State()).(repos := WithCr(old(shown), path, number, copy))
    {
      ok, copy := Update(repos, path, number, title, body, draft, state, home, shown);
      Set(repos, home, WithCr(shown, path, number, copy));
    }

    method AddAt(path: string, number: string, x: ChangeRequest)
      requires Linked() && path in repos && number !in repos[path].crs && x.threads == []
      modifies this`repos, this`home, this`shown
      ensures Linked() && fresh(home.Keys - old(home.Keys)) && path in old(shown)
      ensures State() == old(State()).(repos := old(shown)[path := WithNew(old(shown)[path], number, x)])
    {
      var cell := Add(repos, path, number, x, home, shown);
      Set(repos[path := WithNew(repos[path], number, cell)], home[cell := (path, number)], shown[path := WithNew(shown[path], number, x)]);
    }

    /** What the checks before once have established. */
    ghost predicate Admitted(q: Request)
      reads this
    {
      && Guarded(q) && (!q.SubmitReview? ==> Known(q.target))
      && (q.ReplyThread? ==> (
            CrOf(State(), q.target, q.number).Some? && ThreadIndex(CrOf(State(), q.target, q.number).value.threads, q.thread) >= 0))
    }

    // The functions handed to once

    /** The conflict scan over the change requests, in whatever order the map has. */
    method HasOpen(path: string, head: string) returns (found: bool)
      requires Linked() && path in repos
      ensures path in shown && found == OpenOn(shown[path], head)
    {
      var r := repos[path];
      ghost var s := shown[path];
      assert forall n :: n in r.crs ==> At(repos, path, n);
      var left := r.crs.Keys;
      while left != {}
        invariant left <= r.crs.Keys
        invariant forall n :: n in r.crs && n !in left ==> s.crs[n].head != head || s.crs[n].state != "open"
        decreases left
      {
        var n :| n in left;
        left := left - {n};
        assert r.crs[n].Shows(s.crs[n]);
        if r.crs[n].head == head && r.crs[n].state == "open" {
          return true;
        }
      }
      return false;
    }

    method OpenEffect(q: Request) returns (o: Outcome)
      requires Linked() && q.OpenChangeRequest? && Known(q.target)
      requires Itoa(100 + (repos[q.target.path].nextID + 1)) !in repos[q.target.path].crs
      modifies this, home.Keys
      ensures Linked() && fresh(home.Keys - old(home.Keys))
      ensures (State(), o) == OpenOf(old(State()), q)
    {
      var r := repos[q.target.path];
      var taken := HasOpen(q.target.path, q.head);
      if taken {
        return Failed(Conflict);
      }
      var n := Itoa(100 + (r.nextID + 1));
      var x := ChangeRequest(q.title, q.body, "open", q.draft, q.head, "sha-" + n, q.base, IDENTITY_HANDLE, [], []);
      OpenIs(State(), q, x, n);
      AddAt(q.target.path, n, x);
      return Opened(n, x);
    }

    method CommentEffect(q: Request) returns (o: Outcome)
      requires Linked() && q.AddComment? && Known(q.target)
      modifies this, home.Keys
      ensures Linked() && fresh(home.Keys - old(home.Keys))
      ensures (State(), o) == CommentOf(old(State()), q)
    {
      var r := repos[q.target.path];
      var id := Next("cm");
      var at := SubjectKey(q.kind, q.number);
      var earlier := if at in r.comments then r.comments[at] else [];
      Write(q.target.path, r.(comments := r.comments[at := earlier + [Comment(id, IDENTITY_HANDLE, q.text)]]));
      return Commented(id);
    }

    /** The loop over the threads, up to the one that is asked for. */
    method FindThread(x: CrCell, id: string, ghost shows: ChangeRequest) returns (i: int)
      requires x.Shows(shows)
      ensures i == ThreadIndex(shows.threads, id)
    {
      for k := 0 to |x.threads|
        invariant forall j :: 0 <= j < k ==> shows.threads[j].id != id
      {
        if x.threads[k].id == id {
          return k;
        }
      }
      return -1;
    }

    method ReplyEffect(q: Request) returns (o: Outcome)
      requires Linked() && q.ReplyThread? && Admitted(q)
      modifies this, home.Keys
      ensures Linked() && fresh(home.Keys - old(home.Keys))
      ensures (State(), o) == ReplyOf(old(State()), q)
    {
      assert At(repos, q.target.path, q.number);
      var i := FindThread(repos[q.target.path].crs[q.number], q.thread, shown[q.target.path].crs[q.number]);
      ReplyIs(State(), q, i);
      var id := ReplyWith(q.target.path, q.number, i, q.text);
      return Commented(id);
    }

    method ReplyWith(path: string, number: string, i: nat, text: string) returns (id: string)
      requires Linked() && At(repos, path, number) && i < |repos[path].crs[number].threads|
      modifies this, repos[path].crs[number].threads[i]
      ensures Linked() && home == old(home) && id == Id("cm", old(counter) + 1)
      ensures path in old(shown) && number in old(shown)[path].crs && i < |old(shown)[path].crs[number].threads|
      ensures State() == old(State()).(counter := old(counter) + 1,
        repos := WithCr(old(shown), path, number, Replied(old(shown)[path].crs[number], i, Comment(id, IDENTITY_HANDLE, text))))
    {
      id := Next("cm");
      ReplyAt(path, number, i, Comment(id, IDENTITY_HANDLE, text));
    }

    method ReviewEffect(q: Request) returns (o: Outcome)
      requires Linked() && q.SubmitReview?
      modifies this`counter
      ensures Linked() && (State(), o) == ReviewOf(old(State()), q)
    {
      var id := Next("rv");
      return Reviewed(id, |q.inline|);
    }

    method BranchEffect(q: Request) returns (o: Outcome)
      requires Linked() && q.CreateBranch? && Known(q.target)
      modifies this, home.Keys
      ensures Linked() && fresh(home.Keys - old(home.Keys))
      ensures (State(), o) == BranchOf(old(State()), q)
    {
      var r := repos[q.target.path];
      var source := if q.from == "" then "main" else q.from;
      if source !in r.branches {
        return Failed(NotFound);
      }
      if q.name in r.branches {
        return Failed(Conflict);
      }
      var sha := r.branches[source];
      Write(q.target.path, r.(branches := r.branches[q.name := sha]));
      return Branched(q.name, sha);
    }

    method RunEffect(q: Request) returns (o: Outcome)
      requires Linked() && Admitted(q)
      requires FreshNumbers(repos)
      modifies this, home.Keys
      ensures Linked() && fresh(home.Keys - old(home.Keys))
      ensures (State(), o) == Effect(old(State()), q)
    {
      match q
      case OpenChangeRequest(_, _, _, _, _, _, _) => o := OpenEffect(q);
      case AddComment(_, _, _, _, _) => o := CommentEffect(q);
      case ReplyThread(_, _, _, _, _) => o := ReplyEffect(q);
      case SubmitReview(_, _, _, _, _, _) => o := ReviewEffect(q);
      case CreateBranch(_, _, _, _) => o := BranchEffect(q);
    }

    /** once: a remembered success is repeated; otherwise the effect runs, and only a success is remembered. */
    method RunOnce(q: Request) returns (o: Outcome)
      requires Linked() && Admitted(q)
      requires FreshNumbers(repos)
      modifies this, home.Keys
      ensures Linked() && fresh(home.Keys - old(home.Keys))
      ensures (State(), o) == Once(caps, old(State()), Guard(q), Effect(old(State()), q))
    {
      var key := Guard(q);
      ghost var run := Effect(State(), q);
      if key == "" || !caps.idempotentWrites {
        o := RunEffect(q);
        return o;
      }
      if key in idem {
        return idem[key];
      }
      o := RunEffect(q);
      assert (State(), o) == run;
      if !o.Failed? {
        idem := idem[key := o];
      }
    }

    // What is checked before

    method CheckOpen(q: Request) returns (refusal: Option<Code>)
      requires Linked() && q.OpenChangeRequest?
      ensures refusal == Refusal(caps, State(), q) && (refusal.None? ==> Admitted(q))
    {
      if !Known(q.target) {
        return Some(NotFound);
      }
      var r := repos[q.target.path];
      if Text.TrimSpace(q.title) == "" || q.head == "" || q.base == "" {
        return Some(Validation);
      }
      if q.draft && !caps.drafts {
        return Some(Validation);
      }
      return None;
    }

    method CheckComment(q: Request) returns (refusal: Option<Code>)
      requires Linked() && q.AddComment?
      ensures refusal == Refusal(caps, State(), q) && (refusal.None? ==> Admitted(q))
    {
      if !Known(q.target) {
        return Some(NotFound);
      }
      var r := repos[q.target.path];
      if Text.TrimSpace(q.text) == "" {
        return Some(Validation);
      }
      if q.kind == "change_request" {
        if q.number !in r.crs {
          return Some(NotFound);
        }
      } else if q.number !in r.issues {
        return Some(NotFound);
      }
      return None;
    }

    method CheckReply(q: Request) returns (refusal: Option<Code>)
      requires Linked() && q.ReplyThread?
      ensures refusal == Refusal(caps, State(), q) && (refusal.None? ==> Admitted(q))
    {
      var x := FindCr(q.target, q.number);
      if x == null {
        return Some(NotFound);
      }
      var i := FindThread(x, q.thread, shown[q.target.path].crs[q.number]);
      return if i < 0 then Some(NotFound) else None;
    }

    /** The loop over the inline comments, up to the first that is not on the diff. */
    method AllOnDiff(files: seq<string>, inline: seq<InlineComment>) returns (ok: bool)
      ensures ok == !(exists i :: 0 <= i < |inline| && (inline[i].path !in files || inline[i].line <= 0))
    {
      for k := 0 to |inline|
        invariant forall i :: 0 <= i < k ==> inline[i].path in files && inline[i].line > 0
      {
        if inline[k].path !in files || inline[k].line <= 0 {
          return false;
        }
      }
      return true;
    }

    method CheckReview(q: Request) returns (refusal: Option<Code>)
      requires Linked() && q.SubmitReview?
      ensures refusal == Refusal(caps, State(), q) && (refusal.None? ==> Admitted(q))
    {
      var x := FindCr(q.target, q.number);
      if x == null {
        return Some(NotFound);
      }
      if q.verdict != "comment" && q.verdict != "approve" && q.verdict != "request_changes" {
        return Some(Validation);
      }
      if q.verdict == "approve" && x.author == IDENTITY_HANDLE {
        return Some(Conflict);
      }
      if q.verdict == "request_changes" && Text.TrimSpace(q.summary) == "" && q.inline == [] {
        return Some(Validation);
      }
      var ok := AllOnDiff(x.files, q.inline);
      return if ok then None else Some(Validation);
    }

    method CheckBranch(q: Request) returns (refusal: Option<Code>)
      requires Linked() && q.CreateBranch?
      ensures refusal == Refusal(caps, State(), q) && (refusal.None? ==> Admitted(q))
    {
      if !Known(q.target) {
        return Some(NotFound);
      }
      var r := repos[q.target.path];
      return if ValidBranchName(q.name) then None else Some(Validation);
    }

    method Check(q: Request) returns (refusal: Option<Code>)
      requires Linked() && Guarded(q)
      ensures refusal == Refusal(caps, State(), q) && (refusal.None? ==> Admitted(q))
    {
      match q {
        case OpenChangeRequest(_, _, _, _, _, _, _) => refusal := CheckOpen(q);
        case AddComment(_, _, _, _, _) => refusal := CheckComment(q);
        case ReplyThread(_, _, _, _, _) => refusal := CheckReply(q);
        case SubmitReview(_, _, _, _, _, _) => refusal := CheckReview(q);
        case CreateBranch(_, _, _, _) => refusal := CheckBranch(q);
      }
    }

    /** OpenChangeRequest, Comment, ReplyThread, SubmitReview and CreateBranch: check, then once. */
    method RunGuarded(q: Request) returns (o: Outcome)
      requires Linked() && Guarded(q)
      requires FreshNumbers(repos)
      modifies this, home.Keys
      ensures Linked() && fresh(home.Keys - old(home.Keys))
      ensures (State(), o) == GuardedOf(caps, old(State()), q)
    {
      var refusal := Check(q);
      ghost var w := State();
      assert GuardedOf(caps, w, q) == if refusal.Some? then (w, Failed(refusal.value)) else Once(caps, w, Guard(q), Effect(w, q));
      if refusal.Some? {
        return Failed(refusal.value);
      }
      o := RunOnce(q);
    }

    // The other operations

    method UpdateChangeRequest(q: Request) returns (o: Outcome)
      requires Linked() && q.UpdateChangeRequest?
      modifies this, home.Keys
      ensures Linked() && fresh(home.Keys - old(home.Keys))
      ensures (State(), o) == UpdateOf(old(State()), q)
    {
      var x := FindCr(q.target, q.number);
      if x == null {
        return Failed(NotFound);
      }
      var ok, copy := UpdateAt(q.target.path, q.number, q.newTitle, q.newBody, q.newDraft, q.newState);
      return if ok then Updated(q.number, copy) else Failed(Validation);
    }

    method MergeChangeRequest(q: Request) returns (o: Outcome)
      requires Linked() && q.MergeChangeRequest?
      modifies this, home.Keys
      ensures Linked() && fresh(home.Keys - old(home.Keys))
      ensures (State(), o) == MergeOf(old(State()), q)
    {
      var x := FindCr(q.target, q.number);
      if x == null {
        return Failed(NotFound);
      }
      if q.expectedSha == "" {
        return Failed(Validation);
      }
      if x.headSha != q.expectedSha {
        return Failed(Conflict);
      }
      if x.state != "open" {
        return Failed(Conflict);
      }
      SetStateAt(q.target.path, q.number, "merged");
      return Merged("merge-" + x.headSha);
    }

    method SetStatus(q: Request) returns (o: Outcome)
      requires Linked() && q.SetStatus?
      modifies this, home.Keys
      ensures Linked() && fresh(home.Keys - old(home.Keys))
      ensures (State(), o) == StatusOf(old(State()), q)
    {
      if !Known(q.target) {
        return Failed(NotFound);
      }
      var r := repos[q.target.path];
      var ref := q.ref;
      if ref == "" {
        ref := Next("st");
      } else if ref !in r.statuses {
        return Failed(NotFound);
      }
      Write(q.target.path, r.(statuses := r.statuses[ref := q.state]));
      return StatusSet(ref);
    }

    /** The scan over the hooks; whichever order the map has, there is at most one to find. */
    method FindHook(hooks: map<string, string>, url: string) returns (id: Option<string>)
      requires OnePerUrl(hooks)
      ensures id == HookFor(hooks, url)
    {
      var left := hooks.Keys;
      while left != {}
        invariant left <= hooks.Keys
        invariant forall h :: h in hooks && h !in left ==> hooks[h] != url
        decreases left
      {
        var h :| h in left;
        left := left - {h};
        if hooks[h] == url {
          return Some(h);
        }
      }
      return None;
    }

    method EnsureWebhook(q: Request) returns (o: Outcome)
      requires Linked() && q.EnsureWebhook? && OnePerUrlEverywhere(repos)
      modifies this, home.Keys
      ensures Linked() && fresh(home.Keys - old(home.Keys))
      ensures (State(), o) == EnsureOf(old(State()), q)
    {
      if !Known(q.target) {
        return Failed(NotFound);
      }
      var r := repos[q.target.path];
      if q.url == "" {
        return Failed(Validation);
      }
      var known := FindHook(r.hooks, q.url);
      if known.Some? {
        return Hooked(known.value);
      }
      var id := Next("hook");
      Write(q.target.path, r.(hooks := r.hooks[id := q.url]));
      return Hooked(id);
    }

    method RemoveWebhook(q: Request) returns (o: Outcome)
      requires Linked() && q.RemoveWebhook?
      modifies this, home.Keys
      ensures Linked() && fresh(home.Keys - old(home.Keys))
      ensures (State(), o) == RemoveOf(old(State()), q)
    {
      if !Known(q.target) {
        return Failed(NotFound);
      }
      var r := repos[q.target.path];
      Write(q.target.path, r.(hooks := r.hooks - {q.id}));
      return Done;
    }

    method MintCredential(q: Request) returns (o: Outcome)
      requires Linked() && q.MintCredential?
      modifies this`counter
      ensures Linked() && (State(), o) == MintOf(caps, old(State()), q)
    {
      if !Known(q.target) {
        return Failed(NotFound);
      }
      var r := repos[q.target.path];
      if q.access != "read" && q.access != "write" {
        return Failed(Validation);
      }
      if !caps.ephemeral {
        return Minted("static_fake_secret_value");
      }
      var secret := Next("tok-" + q.access);
      return Minted(secret);
    }

    method BeginAccessGrant(q: Request) returns (o: Outcome)
      requires Linked() && q.BeginAccessGrant?
      modifies this`counter, this`grants
      ensures Linked() && (State(), o) == BeginOf(old(State()), q)
    {
      if q.identity != IDENTITY_ID {
        return Failed(NotFound);
      }
      if q.callback == "" {
        return Failed(Validation);
      }
      counter := counter + 1;
      var state := Id("grant", counter);
      grants := grants[state := false];
      return Granting(state);
    }

    method CompleteAccessGrant(q: Request) returns (o: Outcome)
      requires Linked() && q.CompleteAccessGrant?
      modifies this`grants
      ensures Linked() && (State(), o) == CompleteOf(old(State()), q)
    {
      if q.identity != IDENTITY_ID {
        return Failed(NotFound);
      }
      if q.grant == "" {
        return Failed(Validation);
      }
      if q.grant !in grants || grants[q.grant] {
        return Failed(Forbidden);
      }
      grants := grants[q.grant := true];
      return Granted;
    }

    method OnRepository(q: Request) returns (o: Outcome)
      requires Linked() && OnePerUrlEverywhere(repos)
      requires q.UpdateChangeRequest? || q.MergeChangeRequest? || q.SetStatus? || q.EnsureWebhook? || q.RemoveWebhook?
      modifies this, home.Keys
      ensures Linked() && fresh(home.Keys - old(home.Keys))
      ensures (State(), o) == Apply(caps, old(State()), q)
    {
      match q {
        case UpdateChangeRequest(_, _, _, _, _, _) => o := UpdateChangeRequest(q);
        case MergeChangeRequest(_, _, _) => o := MergeChangeRequest(q);
        case SetStatus(_, _, _) => o := SetStatus(q);
        case EnsureWebhook(_, _) => o := EnsureWebhook(q);
        case RemoveWebhook(_, _) => o := RemoveWebhook(q);
      }
    }

    /** The methods, by request. */
    method Dispatch(q: Request) returns (o: Outcome)
      requires Linked() && FreshNumbers(repos) && OnePerUrlEverywhere(repos)
      modifies this, home.Keys
      ensures Linked() && fresh(home.Keys - old(home.Keys))
      ensures (State(), o) == Apply(caps, old(State()), q)
    {
      if Guarded(q) {
        o := RunGuarded(q);
      } else if q.MintCredential? {
        o := MintCredential(q);
      } else if q.BeginAccessGrant? {
        o := BeginAccessGrant(q);
      } else if q.CompleteAccessGrant? {
        o := CompleteAccessGrant(q);
      } else {
        o := OnRepository(q);
      }
    }

    /** Any request, in any world a run can reach. */
    method Handle(q: Request) returns (o: Outcome)
      requires Valid()
      modifies this, home.Keys
      ensures Valid() && fresh(home.Keys - old(home.Keys))
      ensures (State(), o) == Apply(caps, old(State()), q)
    {
      ghost var w := State();
      Ready(repos, shown, w);
      o := Dispatch(q);
      StepKeeps(caps, w, q, State());
      StepKeepsMemo(caps, w, q);
    }
  }

  lemma AnswersSoFar(caps: Capabilities, qs: seq<Request>, answers: seq<Outcome>, o: Outcome)
    requires |answers| < |qs| && forall i :: 0 <= i < |answers| ==> answers[i] == Answer(caps, qs, i)
    requires o == Answer(caps, qs, |answers|)
    ensures forall i :: 0 <= i <= |answers| ==> (answers + [o])[i] == Answer(caps, qs, i)
  {
  }

  /** A provider that starts from the seed and serves any requests is a run of the state machine. */
  method Serve(caps: Capabilities, qs: seq<Request>) returns (answers: seq<Outcome>, core: Core)
    ensures core.State() == After(caps, qs)
    ensures |answers| == |qs| && forall i :: 0 <= i < |qs| ==> answers[i] == Answer(caps, qs, i)
  {
    core := new Core(caps);
    answers := [];
    for n := 0 to |qs|
      invariant fresh(core) && core.Valid() && fresh(core.home.Keys) && core.caps == caps
      invariant core.State() == After(caps, qs[..n])
      invariant |answers| == n && forall i :: 0 <= i < n ==> answers[i] == Answer(caps, qs, i)
    {
      NextWorld(caps, qs, n);
      var o := core.Handle(qs[n]);
      AnswersSoFar(caps, qs, answers, o);
      answers := answers + [o];
    }
    assert qs[..|qs|] == qs;
  }
}
