/** The reference Git provider as a state machine: its world, its requests and what each does. */
module ProviderSpec {
  import opened Options
  import opened Decimal
  import Text
  import Listing

  const IDENTITY_ID := "ident-1"
  const IDENTITY_HANDLE := "paca-bot"

  datatype Comment = Comment(id: string, author: string, body: string)

  datatype Thread = Thread(id: string, comments: seq<Comment>)

  datatype ChangeRequest = ChangeRequest(
    title: string, body: string, state: string, draft: bool,
    head: string, headSha: string, base: string, author: string,
    files: seq<string>, threads: seq<Thread>)

  /** A repository, over whatever stands for its change requests. */
  datatype RepoOver<X> = Repo(
    crs: map<string, X>,
    issues: set<string>,
    comments: map<string, seq<Comment>>,
    hooks: map<string, string>,
    nextID: nat,
    statuses: map<string, string>,
    branches: map<string, string>)

  type Repo = RepoOver<ChangeRequest>

  /** The mutable part of the provider. `seq` numbers identifiers, `idem` remembers results by key. */
  datatype World = World(repos: map<string, Repo>, idem: map<string, Outcome>, counter: nat, grants: map<string, bool>)

  datatype Code = NotFound | Forbidden | Conflict | Validation

  datatype Outcome =
    | Opened(number: string, cr: ChangeRequest)
    | Updated(number: string, cr: ChangeRequest)
    | Commented(id: string)
    | Reviewed(id: string, posted: nat)
    | Branched(name: string, sha: string)
    | StatusSet(ref: string)
    | Hooked(id: string)
    | Merged(sha: string)
    | Granting(state: string)
    | Granted
    | Minted(secret: string)
    | Done
    | Failed(code: Code)

  datatype Capabilities = Capabilities(idempotentWrites: bool, drafts: bool, ephemeral: bool)

  datatype Target = Target(path: string, identity: string)

  datatype InlineComment = InlineComment(path: string, line: int)

  datatype Request =
    | OpenChangeRequest(target: Target, title: string, body: string, head: string, base: string, draft: bool, key: string)
    | AddComment(target: Target, kind: string, number: string, text: string, key: string)
    | ReplyThread(target: Target, number: string, thread: string, text: string, key: string)
    | SubmitReview(target: Target, number: string, verdict: string, summary: string, inline: seq<InlineComment>, key: string)
    | CreateBranch(target: Target, name: string, from: string, key: string)
    | UpdateChangeRequest(target: Target, number: string, newTitle: Option<string>, newBody: Option<string>, newDraft: Option<bool>, newState: Option<string>)
    | MergeChangeRequest(target: Target, number: string, expectedSha: string)
    | SetStatus(target: Target, ref: string, state: string)
    | EnsureWebhook(target: Target, url: string)
    | RemoveWebhook(target: Target, id: string)
    | MintCredential(target: Target, access: string)
    | BeginAccessGrant(identity: string, callback: string)
    | CompleteAccessGrant(identity: string, grant: string)

  // The seeded world

  function SeedRepo(): Repo {
    Repo(
      map["1" := ChangeRequest("Add feature", "Implements the feature.", "open", false, "feat/x", "abc123", "main", "octocat",
                               ["src/main.go", "src/util.go", "docs/guide.md"],
                               [Thread("thr-1", [Comment("c-1", "reader", "Why not use a constant here?")])])],
      {"7"}, map[], map[], 0, map[], map["main" := "base000", "feat/x" := "abc123"])
  }

  function Three(r: Repo): map<string, Repo> {
    map["acme/web" := r, "acme/api" := r, "tools/docs" := r]
  }

  function Seed(): World {
    World(Three(SeedRepo()), map[], 0, map[])
  }

  // Looking things up

  function RepoOf(w: World, t: Target): Option<Repo> {
    if t.path in w.repos && t.identity == IDENTITY_ID then Some(w.repos[t.path]) else None
  }

  function CrOf(w: World, t: Target, number: string): Option<ChangeRequest> {
    match RepoOf(w, t)
    case None => None
    case Some(r) => if number in r.crs then Some(r.crs[number]) else None
  }

  /** The first thread with an id. */
  function ThreadIndex(threads: seq<Thread>, id: string): (i: int)
    ensures -1 <= i < |threads|
    ensures i >= 0 ==> threads[i].id == id && forall j :: 0 <= j < i ==> threads[j].id != id
    ensures i < 0 ==> forall j :: 0 <= j < |threads| ==> threads[j].id != id
  {
    if threads == [] then -1
    else if threads[0].id == id then 0
    else
      var i := ThreadIndex(threads[1..], id);
      if i < 0 then -1 else i + 1
  }

  predicate OpenOn(r: Repo, head: string) {
    exists n :: n in r.crs && r.crs[n].head == head && r.crs[n].state == "open"
  }

  /** The hook that already has this URL; when several have, the map order decides. */
  ghost function HookFor(hooks: map<string, string>, url: string): Option<string> {
    if exists id :: id in hooks && hooks[id] == url then
      var id :| id in hooks && hooks[id] == url;
      Some(id)
    else None
  }

  function SubjectKey(kind: string, number: string): string {
    kind + "#" + number
  }

  predicate Prefixed(s: string, prefix: string) {
    prefix <= s
  }

  predicate Suffixed(s: string, suffix: string) {
    |suffix| <= |s| && s[|s| - |suffix|..] == suffix
  }

  /** validBranchName. */
  predicate ValidBranchName(name: string) {
    && name != "" && name != "@" && !Prefixed(name, "-") && !Prefixed(name, "/")
    && !Suffixed(name, "/") && !Suffixed(name, ".")
    && !Listing.Contains(name, "..") && !Listing.Contains(name, "//") && !Listing.Contains(name, "@{")
    && (forall i :: 0 <= i < |name| ==> name[i] as int >= 0x20 && name[i] as int != 0x7f && name[i] !in " ~^:?*[\\")
    && (forall i :: 0 <= i < |Text.Split(name, "/")| ==> !Prefixed(Text.Split(name, "/")[i], ".") && !Suffixed(Text.Split(name, "/")[i], ".lock"))
  }

  // Writing

  function WithRepo(w: World, path: string, r: Repo): World {
    w.(repos := w.repos[path := r])
  }

  function IdemKey(op: string, key: string): string {
    if key == "" then "" else op + ":" + key
  }

  /** The operation name and caller's key of a request that is run at most once per key. */
  function Guard(q: Request): string {
    match q
    case OpenChangeRequest(_, _, _, _, _, _, key) => IdemKey("open", key)
    case AddComment(_, _, _, _, key) => IdemKey("comment", key)
    case ReplyThread(_, _, _, _, key) => IdemKey("reply", key)
    case SubmitReview(_, _, _, _, _, key) => IdemKey("review", key)
    case CreateBranch(_, _, _, key) => IdemKey("branch", key)
    case _ => ""
  }

  predicate Guarded(q: Request) {
    q.OpenChangeRequest? || q.AddComment? || q.ReplyThread? || q.SubmitReview? || q.CreateBranch?
  }

  /** What is refused before the key is looked at. */
  function Refusal(caps: Capabilities, w: World, q: Request): Option<Code>
    requires Guarded(q)
  {
    match q
    case OpenChangeRequest(t, title, _, head, base, draft, _) =>
      if RepoOf(w, t).None? then Some(NotFound)
      else if Text.TrimSpace(title) == "" || head == "" || base == "" then Some(Validation)
      else if draft && !caps.drafts then Some(Validation)
      else None
    case AddComment(t, kind, number, text, _) =>
      if RepoOf(w, t).None? then Some(NotFound)
      else if Text.TrimSpace(text) == "" then Some(Validation)
      else if kind == "change_request" then if number in RepoOf(w, t).value.crs then None else Some(NotFound)
      else if number in RepoOf(w, t).value.issues then None
      else Some(NotFound)
    case ReplyThread(t, number, thread, _, _) =>
      if CrOf(w, t, number).None? then Some(NotFound)
      else if ThreadIndex(CrOf(w, t, number).value.threads, thread) < 0 then Some(NotFound)
      else None
    case SubmitReview(t, number, verdict, summary, inline, _) =>
      if CrOf(w, t, number).None? then Some(NotFound)
      else
        var x := CrOf(w, t, number).value;
        if verdict != "comment" && verdict != "approve" && verdict != "request_changes" then Some(Validation)
        else if verdict == "approve" && x.author == IDENTITY_HANDLE then Some(Conflict)
        else if verdict == "request_changes" && Text.TrimSpace(summary) == "" && inline == [] then Some(Validation)
        else if exists i :: 0 <= i < |inline| && (inline[i].path !in x.files || inline[i].line <= 0) then Some(Validation)
        else None
    case CreateBranch(t, name, _, _) =>
      if RepoOf(w, t).None? then Some(NotFound)
      else if !ValidBranchName(name) then Some(Validation)
      else None
  }

  // The guarded effects

  function OpenOf(w: World, q: Request): (World, Outcome)
    requires q.OpenChangeRequest?
  {
    if RepoOf(w, q.target).None? then (w, Failed(NotFound))
    else
      var r := RepoOf(w, q.target).value;
      if OpenOn(r, q.head) then (w, Failed(Conflict))
      else
        var n := Itoa(100 + (r.nextID + 1));
        var x := ChangeRequest(q.title, q.body, "open", q.draft, q.head, "sha-" + n, q.base, IDENTITY_HANDLE, [], []);
        (WithRepo(w, q.target.path, r.(nextID := r.nextID + 1, crs := r.crs[n := x])), Opened(n, x))
  }

  function CommentOf(w: World, q: Request): (World, Outcome)
    requires q.AddComment?
  {
    if RepoOf(w, q.target).None? then (w, Failed(NotFound))
    else
      var r, id, at := RepoOf(w, q.target).value, Id("cm", w.counter + 1), SubjectKey(q.kind, q.number);
      var earlier := if at in r.comments then r.comments[at] else [];
      (WithRepo(w.(counter := w.counter + 1), q.target.path,
                r.(comments := r.comments[at := earlier + [Comment(id, IDENTITY_HANDLE, q.text)]])), Commented(id))
  }

  function ReplyOf(w: World, q: Request): (World, Outcome)
    requires q.ReplyThread?
  {
    var found := CrOf(w, q.target, q.number);
    if found.None? || ThreadIndex(found.value.threads, q.thread) < 0 then (w, Failed(NotFound))
    else
      var r, x, id := RepoOf(w, q.target).value, found.value, Id("cm", w.counter + 1);
      var y := Replied(x, ThreadIndex(x.threads, q.thread), Comment(id, IDENTITY_HANDLE, q.text));
      (WithRepo(w.(counter := w.counter + 1), q.target.path, r.(crs := r.crs[q.number := y])), Commented(id))
  }

  /** A change request with one more comment in one of its threads. */
  function Replied(x: ChangeRequest, i: nat, c: Comment): ChangeRequest
    requires i < |x.threads|
  {
    x.(threads := x.threads[i := x.threads[i].(comments := x.threads[i].comments + [c])])
  }

  function ReviewOf(w: World, q: Request): (World, Outcome)
    requires q.SubmitReview?
  {
    (w.(counter := w.counter + 1), Reviewed(Id("rv", w.counter + 1), |q.inline|))
  }

  function BranchOf(w: World, q: Request): (World, Outcome)
    requires q.CreateBranch?
  {
    if RepoOf(w, q.target).None? then (w, Failed(NotFound))
    else
      var r, source := RepoOf(w, q.target).value, if q.from == "" then "main" else q.from;
      if source !in r.branches then (w, Failed(NotFound))
      else if q.name in r.branches then (w, Failed(Conflict))
      else (WithRepo(w, q.target.path, r.(branches := r.branches[q.name := r.branches[source]])), Branched(q.name, r.branches[source]))
  }

  function Effect(w: World, q: Request): (World, Outcome)
    requires Guarded(q)
  {
    match q
    case OpenChangeRequest(_, _, _, _, _, _, _) => OpenOf(w, q)
    case AddComment(_, _, _, _, _) => CommentOf(w, q)
    case ReplyThread(_, _, _, _, _) => ReplyOf(w, q)
    case SubmitReview(_, _, _, _, _, _) => ReviewOf(w, q)
    case CreateBranch(_, _, _, _) => BranchOf(w, q)
  }

  /** once: a remembered success is repeated, anything else is run; only successes are remembered. */
  function Once(caps: Capabilities, w: World, key: string, run: (World, Outcome)): (World, Outcome) {
    if key == "" || !caps.idempotentWrites then run
    else if key in w.idem then (w, w.idem[key])
    else if run.1.Failed? then run
    else (run.0.(idem := run.0.idem[key := run.1]), run.1)
  }

  /** UpdateChangeRequest: a bad state is noticed only after the other fields have been written. */
  function UpdateSpec(x: ChangeRequest, title: Option<string>, body: Option<string>, draft: Option<bool>, state: Option<string>): (ChangeRequest, bool) {
    var y := x.(title := if title.Some? then title.value else x.title,
                body := if body.Some? then body.value else x.body,
                draft := if draft.Some? then draft.value else x.draft);
    if state.None? then (y, true)
    else if state.value != "open" && state.value != "closed" then (y, false)
    else (y.(state := state.value), true)
  }

  // The other operations

  function UpdateOf(w: World, q: Request): (World, Outcome)
    requires q.UpdateChangeRequest?
  {
    if CrOf(w, q.target, q.number).None? then (w, Failed(NotFound))
    else
      var r := RepoOf(w, q.target).value;
      var (y, ok) := UpdateSpec(r.crs[q.number], q.newTitle, q.newBody, q.newDraft, q.newState);
      (WithRepo(w, q.target.path, r.(crs := r.crs[q.number := y])), if ok then Updated(q.number, y) else Failed(Validation))
  }

  function MergeOf(w: World, q: Request): (World, Outcome)
    requires q.MergeChangeRequest?
  {
    if CrOf(w, q.target, q.number).None? then (w, Failed(NotFound))
    else
      var r, x := RepoOf(w, q.target).value, CrOf(w, q.target, q.number).value;
      if q.expectedSha == "" then (w, Failed(Validation))
      else if x.headSha != q.expectedSha || x.state != "open" then (w, Failed(Conflict))
      else (WithRepo(w, q.target.path, r.(crs := r.crs[q.number := x.(state := "merged")])), Merged("merge-" + x.headSha))
  }

  function StatusOf(w: World, q: Request): (World, Outcome)
    requires q.SetStatus?
  {
    if RepoOf(w, q.target).None? then (w, Failed(NotFound))
    else
      var r := RepoOf(w, q.target).value;
      if q.ref == "" then
        var ref := Id("st", w.counter + 1);
        (WithRepo(w.(counter := w.counter + 1), q.target.path, r.(statuses := r.statuses[ref := q.state])), StatusSet(ref))
      else if q.ref !in r.statuses then (w, Failed(NotFound))
      else (WithRepo(w, q.target.path, r.(statuses := r.statuses[q.ref := q.state])), StatusSet(q.ref))
  }

  ghost function EnsureOf(w: World, q: Request): (World, Outcome)
    requires q.EnsureWebhook?
  {
    if RepoOf(w, q.target).None? then (w, Failed(NotFound))
    else if q.url == "" then (w, Failed(Validation))
    else
      var r := RepoOf(w, q.target).value;
      var known := HookFor(r.hooks, q.url);
      if known.Some? then (w, Hooked(known.value))
      else
        var id := Id("hook", w.counter + 1);
        (WithRepo(w.(counter := w.counter + 1), q.target.path, r.(hooks := r.hooks[id := q.url])), Hooked(id))
  }

  function RemoveOf(w: World, q: Request): (World, Outcome)
    requires q.RemoveWebhook?
  {
    if RepoOf(w, q.target).None? then (w, Failed(NotFound))
    else
      var r := RepoOf(w, q.target).value;
      (WithRepo(w, q.target.path, r.(hooks := r.hooks - {q.id})), Done)
  }

  function MintOf(caps: Capabilities, w: World, q: Request): (World, Outcome)
    requires q.MintCredential?
  {
    if RepoOf(w, q.target).None? then (w, Failed(NotFound))
    else if q.access != "read" && q.access != "write" then (w, Failed(Validation))
    else if !caps.ephemeral then (w, Minted("static_fake_secret_value"))
    else (w.(counter := w.counter + 1), Minted(Id("tok-" + q.access, w.counter + 1)))
  }

  function BeginOf(w: World, q: Request): (World, Outcome)
    requires q.BeginAccessGrant?
  {
    if q.identity != IDENTITY_ID then (w, Failed(NotFound))
    else if q.callback == "" then (w, Failed(Validation))
    else
      var state := Id("grant", w.counter + 1);
      (w.(counter := w.counter + 1, grants := w.grants[state := false]), Granting(state))
  }

  function CompleteOf(w: World, q: Request): (World, Outcome)
    requires q.CompleteAccessGrant?
  {
    if q.identity != IDENTITY_ID then (w, Failed(NotFound))
    else if q.grant == "" then (w, Failed(Validation))
    else if q.grant !in w.grants || w.grants[q.grant] then (w, Failed(Forbidden))
    else (w.(grants := w.grants[q.grant := true]), Granted)
  }

  function GuardedOf(caps: Capabilities, w: World, q: Request): (World, Outcome)
    requires Guarded(q)
  {
    var refusal := Refusal(caps, w, q);
    if refusal.Some? then (w, Failed(refusal.value)) else Once(caps, w, Guard(q), Effect(w, q))
  }

  ghost function Apply(caps: Capabilities, w: World, q: Request): (World, Outcome) {
    match q
    case UpdateChangeRequest(_, _, _, _, _, _) => UpdateOf(w, q)
    case MergeChangeRequest(_, _, _) => MergeOf(w, q)
    case SetStatus(_, _, _) => StatusOf(w, q)
    case EnsureWebhook(_, _) => EnsureOf(w, q)
    case RemoveWebhook(_, _) => RemoveOf(w, q)
    case MintCredential(_, _) => MintOf(caps, w, q)
    case BeginAccessGrant(_, _) => BeginOf(w, q)
    case CompleteAccessGrant(_, _) => CompleteOf(w, q)
    case _ => GuardedOf(caps, w, q)
  }

  /** The world before the i-th request of a run, and after the last. */
  ghost function After(caps: Capabilities, qs: seq<Request>): World {
    if qs == [] then Seed() else Apply(caps, After(caps, qs[..|qs| - 1]), qs[|qs| - 1]).0
  }

  /** The answer to the i-th request of a run. */
  ghost function Answer(caps: Capabilities, qs: seq<Request>, i: nat): Outcome
    requires i < |qs|
  {
    Apply(caps, After(caps, qs[..i]), qs[i]).1
  }
}
