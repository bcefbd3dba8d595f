/**
 The provider's objects. Change requests and threads are reached through pointers and changed in place; no
 object is part of two change requests, so a write through one pointer shows in one place.
 */
module ProviderObjects {
  import opened Options
  import opened ProviderSpec

  class ThreadCell {
    const id: string
    var comments: seq<Comment>

    constructor (t: Thread)
      ensures id == t.id && comments == t.comments
    {
      id, comments := t.id, t.comments;
    }
  }

  class CrCell {
    var title: string
    var body: string
    var state: string
    var draft: bool
    const head: string
    const headSha: string
    const base: string
    const author: string
    const files: seq<string>
    const threads: seq<ThreadCell>

    /** These objects hold this change request. */
    ghost predicate Shows(x: ChangeRequest)
      reads this, threads
    {
      && x == ChangeRequest(title, body, state, draft, head, headSha, base, author, files, x.threads)
      && |x.threads| == |threads|
      && forall i :: 0 <= i < |threads| ==> x.threads[i] == Thread(threads[i].id, threads[i].comments)
    }

    constructor (x: ChangeRequest, threads: seq<ThreadCell>)
      requires |x.threads| == |threads|
      requires forall i :: 0 <= i < |threads| ==> x.threads[i] == Thread(threads[i].id, threads[i].comments)
      ensures Shows(x) && this.threads == threads
    {
      title, body, state, draft := x.title, x.body, x.state, x.draft;
      head, headSha, base, author, files := x.head, x.headSha, x.base, x.author, x.files;
      this.threads := threads;
    }

    method SetState(state: string, ghost x: ChangeRequest)
      requires Shows(x)
      modifies this
      ensures Shows(x.(state := state))
    {
      this.state := state;
    }

    method Reply(i: nat, c: Comment, ghost x: ChangeRequest)
      requires Shows(x) && i < |threads| && forall j :: 0 <= j < |threads| && j != i ==> threads[j] != threads[i]
      modifies threads[i]
      ensures Shows(Replied(x, i, c))
    {
      threads[i].comments := threads[i].comments + [c];
    }

    /** The other fields are already written when a bad state is refused. */
    method Update(newTitle: Option<string>, newBody: Option<string>, newDraft: Option<bool>, newState: Option<string>,
                  ghost x: ChangeRequest) returns (ok: bool, ghost y: ChangeRequest)
      requires Shows(x)
      modifies this
      ensures Shows(y) && (y, ok) == UpdateSpec(x, newTitle, newBody, newDraft, newState)
    {
      y := UpdateSpec(x, newTitle, newBody, newDraft, newState).0;
      if newTitle.Some? {
        title := newTitle.value;
      }
      if newBody.Some? {
        body := newBody.value;
      }
      if newDraft.Some? {
        draft := newDraft.value;
      }
      if newState.Some? {
        if newState.value != "open" && newState.value != "closed" {
          return false, y;
        }
        state := newState.value;
      }
      return true, y;
    }

    /** A copy of what the objects hold, as it is handed to the caller. */
    method Read(ghost x: ChangeRequest) returns (copy: ChangeRequest)
      requires Shows(x)
      ensures copy == x
    {
      var ts: seq<Thread> := [];
      for i := 0 to |threads|
        invariant ts == x.threads[..i]
      {
        ts := ts + [Thread(threads[i].id, threads[i].comments)];
      }
      return ChangeRequest(title, body, state, draft, head, headSha, base, author, files, ts);
    }
  }

  type Place = (string, string)

  type Repos = map<string, RepoOver<CrCell>>

  /** The place of a change request, if there is one. */
  predicate At(repos: Repos, path: string, number: string) {
    path in repos && number in repos[path].crs
  }

  /** Every change request and every thread is an object of its own: it has one place. */
  ghost predicate Housed(repos: Repos, home: map<object, Place>) {
    forall p, n {:trigger At(repos, p, n)} :: At(repos, p, n) ==> HousedAt(repos[p].crs[n], home, (p, n))
  }

  ghost predicate HousedAt(x: CrCell, home: map<object, Place>, place: Place) {
    && x in home && home[x] == place
    && (forall i :: 0 <= i < |x.threads| ==> x.threads[i] in home && home[x.threads[i]] == place)
    && (forall i, j :: 0 <= i < j < |x.threads| ==> x.threads[i] != x.threads[j])
  }

  /** The parts of a repository that are values. */
  ghost predicate SameText(r: RepoOver<CrCell>, s: Repo) {
    s == Repo(s.crs, r.issues, r.comments, r.hooks, r.nextID, r.statuses, r.branches) && s.crs.Keys == r.crs.Keys
  }

  /** What the repositories and their objects hold. */
  ghost predicate Holds(repos: Repos, home: map<object, Place>, shown: map<string, Repo>)
    reads home.Keys
  {
    && Housed(repos, home) && shown.Keys == repos.Keys
    && (forall p :: p in repos ==> SameText(repos[p], shown[p]))
    && (forall p, n {:trigger At(repos, p, n)} :: At(repos, p, n) ==> repos[p].crs[n].Shows(shown[p].crs[n]))
  }

  function WithCr(shown: map<string, Repo>, path: string, number: string, x: ChangeRequest): map<string, Repo>
    requires path in shown
  {
    shown[path := shown[path].(crs := shown[path].crs[number := x])]
  }

  /** The same, but for one change request. */
  ghost predicate HoldsBut(repos: Repos, home: map<object, Place>, shown: map<string, Repo>, path: string, number: string)
    reads home.Keys
  {
    && Housed(repos, home) && shown.Keys == repos.Keys
    && (forall p :: p in repos ==> SameText(repos[p], shown[p]))
    && (forall p, n {:trigger At(repos, p, n)} :: At(repos, p, n) && (p != path || n != number) ==> repos[p].crs[n].Shows(shown[p].crs[n]))
  }

  lemma ShowAnew(repos: Repos, home: map<object, Place>, shown: map<string, Repo>, path: string, number: string, x: ChangeRequest)
    requires At(repos, path, number) && HoldsBut(repos, home, shown, path, number) && repos[path].crs[number].Shows(x)
    ensures Holds(repos, home, WithCr(shown, path, number, x))
  {
    var after := WithCr(shown, path, number, x);
    TextAnew(repos, shown, path, number, x);
    forall p, n | At(repos, p, n)
      ensures repos[p].crs[n].Shows(after[p].crs[n])
    {
      assert p != path || n != number ==> after[p].crs[n] == shown[p].crs[n];
    }
  }

  lemma TextAnew(repos: Repos, shown: map<string, Repo>, path: string, number: string, x: ChangeRequest)
    requires At(repos, path, number) && shown.Keys == repos.Keys && forall p :: p in repos ==> SameText(repos[p], shown[p])
    ensures var after := WithCr(shown, path, number, x);
      after.Keys == repos.Keys && forall p :: p in repos ==> SameText(repos[p], after[p])
  {
  }

  // Writing through the pointers

  method SetState(repos: Repos, path: string, number: string, state: string, ghost home: map<object, Place>, ghost shown: map<string, Repo>)
    requires At(repos, path, number) && Holds(repos, home, shown)
    modifies repos[path].crs[number]
    ensures Holds(repos, home, WithCr(shown, path, number, shown[path].crs[number].(state := state)))
  {
    var x := repos[path].crs[number];
    x.SetState(state, shown[path].crs[number]);
    ShowAnew(repos, home, shown, path, number, shown[path].crs[number].(state := state));
  }

  /** One thread of one change request is written, and nothing else. */
  method Reply(repos: Repos, path: string, number: string, i: nat, c: Comment, ghost home: map<object, Place>, ghost shown: map<string, Repo>)
    requires At(repos, path, number) && Holds(repos, home, shown) && i < |repos[path].crs[number].threads|
    modifies repos[path].crs[number].threads[i]
    ensures i < |shown[path].crs[number].threads|
    ensures Holds(repos, home, WithCr(shown, path, number, Replied(shown[path].crs[number], i, c)))
  {
    var x := repos[path].crs[number];
    x.Reply(i, c, shown[path].crs[number]);
    ShowAnew(repos, home, shown, path, number, Replied(shown[path].crs[number], i, c));
  }

  /** And the change request as it is then, as a copy: later writes do not reach it. */
  method Update(repos: Repos, path: string, number: string, title: Option<string>, body: Option<string>, draft: Option<bool>,
                state: Option<string>, ghost home: map<object, Place>, ghost shown: map<string, Repo>) returns (ok: bool, copy: ChangeRequest)
    requires At(repos, path, number) && Holds(repos, home, shown)
    modifies repos[path].crs[number]
    ensures (copy, ok) == UpdateSpec(shown[path].crs[number], title, body, draft, state)
    ensures Holds(repos, home, WithCr(shown, path, number, copy))
  {
    var x := repos[path].crs[number];
    ghost var y;
    ok, y := x.Update(title, body, draft, state, shown[path].crs[number]);
    ShowAnew(repos, home, shown, path, number, y);
    copy := x.Read(y);
  }

  /** Other fields of a repository: its change requests stay the same objects. */
  lemma TextChanged(repos: Repos, home: map<object, Place>, shown: map<string, Repo>, path: string, r: RepoOver<CrCell>)
    requires Holds(repos, home, shown) && path in repos && r.crs == repos[path].crs
    ensures Holds(repos[path := r], home,
                  shown[path := Repo(shown[path].crs, r.issues, r.comments, r.hooks, r.nextID, r.statuses, r.branches)])
  {
    var more := repos[path := r];
    assert forall p, n {:trigger At(more, p, n)} :: At(more, p, n) ==> At(repos, p, n) && more[p].crs[n] == repos[p].crs[n];
  }

  lemma HousedWith(repos: Repos, home: map<object, Place>, path: string, number: string, cell: CrCell, r: RepoOver<CrCell>)
    requires Housed(repos, home) && path in repos && cell !in home && cell.threads == []
    requires r.crs == repos[path].crs[number := cell]
    ensures Housed(repos[path := r], home[cell := (path, number)])
  {
    forall p, n | At(repos[path := r], p, n)
      ensures HousedAt(repos[path := r][p].crs[n], home[cell := (path, number)], (p, n))
    {
      if p != path || n != number {
        assert At(repos, p, n) && HousedAt(repos[p].crs[n], home, (p, n));
      }
    }
  }

  /** One more change request under the next number. */
  function WithNew<X>(r: RepoOver<X>, number: string, x: X): RepoOver<X> {
    r.(nextID := r.nextID + 1, crs := r.crs[number := x])
  }

  lemma ShownWith(repos: Repos, shown: map<string, Repo>, path: string, number: string, cell: CrCell, x: ChangeRequest)
    requires path in repos && number !in repos[path].crs && shown.Keys == repos.Keys
    requires forall p :: p in repos ==> SameText(repos[p], shown[p])
    requires forall p, n {:trigger At(repos, p, n)} :: At(repos, p, n) ==> n in shown[p].crs && repos[p].crs[n].Shows(shown[p].crs[n])
    requires cell.Shows(x)
    ensures var more, after := repos[path := WithNew(repos[path], number, cell)], shown[path := WithNew(shown[path], number, x)];
      && after.Keys == more.Keys
      && (forall p :: p in more ==> SameText(more[p], after[p]))
      && (forall p, n {:trigger At(more, p, n)} :: At(more, p, n) ==> n in after[p].crs && more[p].crs[n].Shows(after[p].crs[n]))
  {
    var more, after := repos[path := WithNew(repos[path], number, cell)], shown[path := WithNew(shown[path], number, x)];
    assert SameText(more[path], after[path]);
    forall p, n | At(more, p, n)
      ensures more[p].crs[n].Shows(after[p].crs[n])
    {
      assert p != path || n != number ==> At(repos, p, n);
    }
  }

  /** A new object under a new number. */
  lemma CrAdded(repos: Repos, home: map<object, Place>, shown: map<string, Repo>, path: string, number: string, cell: CrCell, x: ChangeRequest)
    requires Holds(repos, home, shown) && path in repos && number !in repos[path].crs
    requires cell !in home && cell.threads == [] && cell.Shows(x)
    ensures Holds(repos[path := WithNew(repos[path], number, cell)], home[cell := (path, number)],
                  shown[path := WithNew(shown[path], number, x)])
  {
    HousedWith(repos, home, path, number, cell, WithNew(repos[path], number, cell));
    ShownWith(repos, shown, path, number, cell, x);
  }

  method Add(repos: Repos, path: string, number: string, x: ChangeRequest, ghost home: map<object, Place>, ghost shown: map<string, Repo>)
    returns (cell: CrCell)
    requires Holds(repos, home, shown) && path in repos && number !in repos[path].crs && x.threads == []
    ensures fresh(cell)
    ensures Holds(repos[path := WithNew(repos[path], number, cell)], home[cell := (path, number)],
                  shown[path := WithNew(shown[path], number, x)])
  {
    cell := new CrCell(x, []);
    CrAdded(repos, home, shown, path, number, cell, x);
  }

  // The seed

  lemma HousedSeed(repos: Repos, home: map<object, Place>, path: string, r: RepoOver<CrCell>, cell: CrCell, thread: ThreadCell)
    requires Housed(repos, home) && path !in repos && cell !in home && thread !in home
    requires cell.threads == [thread] && r.crs == map["1" := cell]
    ensures Housed(repos[path := r], home[cell := (path, "1")][thread := (path, "1")])
  {
    var more, houses := repos[path := r], home[cell := (path, "1")][thread := (path, "1")];
    forall p, n | At(more, p, n)
      ensures HousedAt(more[p].crs[n], houses, (p, n))
    {
      assert p != path ==> At(repos, p, n) && HousedAt(repos[p].crs[n], home, (p, n));
    }
  }

  lemma ShownSeed(repos: Repos, home: map<object, Place>, shown: map<string, Repo>, path: string, r: RepoOver<CrCell>, cell: CrCell, s: Repo)
    requires Holds(repos, home, shown) && path !in repos
    requires r.crs == map["1" := cell] && SameText(r, s) && cell.Shows(s.crs["1"])
    ensures var more, after := repos[path := r], shown[path := s];
      && after.Keys == more.Keys && (forall p :: p in more ==> SameText(more[p], after[p]))
      && (forall p, n {:trigger At(more, p, n)} :: At(more, p, n) ==> n in after[p].crs && more[p].crs[n].Shows(after[p].crs[n]))
  {
    var more, after := repos[path := r], shown[path := s];
    forall p, n | At(more, p, n)
      ensures more[p].crs[n].Shows(after[p].crs[n])
    {
      assert p != path ==> At(repos, p, n);
    }
  }

  lemma Seeded(repos: Repos, home: map<object, Place>, shown: map<string, Repo>, path: string, r: RepoOver<CrCell>, cell: CrCell, thread: ThreadCell,
               s: Repo)
    requires Holds(repos, home, shown) && path !in repos && cell !in home && thread !in home
    requires cell.threads == [thread] && r.crs == map["1" := cell] && SameText(r, s) && cell.Shows(s.crs["1"])
    ensures Holds(repos[path := r], home[cell := (path, "1")][thread := (path, "1")], shown[path := s])
  {
    HousedSeed(repos, home, path, r, cell, thread);
    ShownSeed(repos, home, shown, path, r, cell, s);
  }

  /** seedRepo: the change request and its thread are new objects for every repository. */
  method AddSeed(repos: Repos, path: string, s: Repo, ghost home: map<object, Place>, ghost shown: map<string, Repo>)
    returns (more: Repos, ghost houses: map<object, Place>)
    requires Holds(repos, home, shown) && path !in repos
    requires s.crs.Keys == {"1"} && |s.crs["1"].threads| == 1
    ensures Holds(more, houses, shown[path := s]) && more.Keys == repos.Keys + {path} && fresh(houses.Keys - home.Keys)
  {
    var thread := new ThreadCell(s.crs["1"].threads[0]);
    var cell := new CrCell(s.crs["1"], [thread]);
    var r := Repo(map["1" := cell], s.issues, s.comments, s.hooks, s.nextID, s.statuses, s.branches);
    Seeded(repos, home, shown, path, r, cell, thread, s);
    more, houses := repos[path := r], home[cell := (path, "1")][thread := (path, "1")];
  }

  function AllOf(paths: seq<string>, s: Repo): (m: map<string, Repo>)
    ensures forall p :: p in m <==> p in paths
  {
    if paths == [] then map[] else AllOf(paths[..|paths| - 1], s)[paths[|paths| - 1] := s]
  }

  /** The loop of newCore over the repository paths. */
  method AddAll(paths: seq<string>, s: Repo) returns (repos: Repos, ghost home: map<object, Place>)
    requires forall i, j :: 0 <= i < j < |paths| ==> paths[i] != paths[j]
    requires s.crs.Keys == {"1"} && |s.crs["1"].threads| == 1
    ensures Holds(repos, home, AllOf(paths, s)) && fresh(home.Keys)
  {
    repos, home := map[], map[];
    for k := 0 to |paths|
      invariant Holds(repos, home, AllOf(paths[..k], s)) && fresh(home.Keys)
    {
      assert paths[..k + 1][..k] == paths[..k] && paths[k] !in paths[..k];
      repos, home := AddSeed(repos, paths[k], s, home, AllOf(paths[..k], s));
    }
    assert paths[..|paths|] == paths;
  }

  lemma AllOfThree(s: Repo)
    ensures AllOf(["acme/web", "acme/api", "tools/docs"], s) == Three(s)
  {
    var paths := ["acme/web", "acme/api", "tools/docs"];
    assert paths[..2] == ["acme/web", "acme/api"] && paths[..2][..1] == ["acme/web"] && paths[..2][..1][..0] == [];
    assert AllOf(paths[..2][..1], s) == map["acme/web" := s];
    assert AllOf(paths[..2], s) == map["acme/web" := s, "acme/api" := s];
  }

  method AddSeeds(s: Repo) returns (repos: Repos, ghost home: map<object, Place>)
    requires s.crs.Keys == {"1"} && |s.crs["1"].threads| == 1
    ensures Holds(repos, home, Three(s)) && fresh(home.Keys)
  {
    AllOfThree(s);
    repos, home := AddAll(["acme/web", "acme/api", "tools/docs"], s);
  }
}
