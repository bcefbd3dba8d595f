/** What the five writes answer that are made at most once per key, told by the worlds before and after. */
module ProviderWrites {
  import opened Options
  import opened Decimal
  import opened ProviderSpec
  import opened ProviderRuns
  import opened ProviderAnswers
  import Text

  /** A result is remembered for this key, under the prefix of its operation. */
  predicate Remembered(caps: Capabilities, w: World, prefix: string, key: string) {
    caps.idempotentWrites && key != "" && prefix + key in w.idem
  }

  /** The results that are remembered once a request has succeeded. */
  function Remembering(caps: Capabilities, w: World, prefix: string, key: string, o: Outcome): map<string, Outcome> {
    if caps.idempotentWrites && key != "" then w.idem[prefix + key := o] else w.idem
  }

  /** A request that is not refused outright is answered from memory, or run and its success remembered. */
  lemma OnceInWords(caps: Capabilities, w: World, op: string, prefix: string, key: string, run: (World, Outcome), v: World, o: Outcome)
    requires prefix == op + ":" && (v, o) == Once(caps, w, IdemKey(op, key), run) && run.0.idem == w.idem
    ensures Remembered(caps, w, prefix, key) ==> v == w && o == w.idem[prefix + key]
    ensures !Remembered(caps, w, prefix, key) ==>
      o == run.1 && v == run.0.(idem := if o.Failed? then w.idem else Remembering(caps, w, prefix, key, o))
  {
  }

  // Opening a change request

  predicate NoneOpenOn(r: Repo, head: string) {
    forall n :: n in r.crs ==> r.crs[n].head != head || r.crs[n].state != "open"
  }

  predicate MayOpen(caps: Capabilities, w: World, q: Request)
    requires q.OpenChangeRequest?
  {
    Visible(w, q.target) && !Text.Blank(q.title) && q.head != "" && q.base != "" && (q.draft ==> caps.drafts)
  }

  lemma OpenRefusal(caps: Capabilities, w: World, q: Request)
    requires q.OpenChangeRequest?
    ensures Refusal(caps, w, q) == if MayOpen(caps, w, q) then None else if Visible(w, q.target) then Some(Validation) else Some(NotFound)
  {
    Text.TrimIsEmptyIff(q.title);
  }

  /** The world after a change request was opened: it alone is new, under the next number. */
  predicate OpenedIn(w: World, q: Request, v: World, o: Outcome)
    requires q.OpenChangeRequest? && q.target.path in w.repos
  {
    var (r, n) := (w.repos[q.target.path], Itoa(101 + w.repos[q.target.path].nextID));
    var x := ChangeRequest(q.title, q.body, "open", q.draft, q.head, "sha-" + n, q.base, "paca-bot", [], []);
    && o == Opened(n, x) && v.counter == w.counter && SameElsewhere(w, v, q.target.path)
    && var s := v.repos[q.target.path];
      && s == r.(crs := s.crs, nextID := r.nextID + 1) && s.crs.Keys == r.crs.Keys + {n} && s.crs[n] == x
      && forall m :: m in r.crs && m != n ==> s.crs[m] == r.crs[m]
  }

  lemma OpenEffect(w: World, q: Request, v: World, o: Outcome)
    requires q.OpenChangeRequest? && Visible(w, q.target) && (v, o) == OpenOf(w, q)
    ensures v.idem == w.idem
    ensures if NoneOpenOn(w.repos[q.target.path], q.head) then OpenedIn(w, q, v, o) else o == Failed(Conflict) && v == w
  {
    var r := w.repos[q.target.path];
    if NoneOpenOn(r, q.head) {
      var n := Itoa(101 + r.nextID);
      var x := ChangeRequest(q.title, q.body, "open", q.draft, q.head, "sha-" + n, q.base, "paca-bot", [], []);
      assert !OpenOn(r, q.head);
      PutRepo(w, v, q.target.path, r.(nextID := r.nextID + 1, crs := r.crs[n := x]));
    } else {
      assert OpenOn(r, q.head);
    }
  }

  /**
   A change request is opened exactly when the repository can be seen, title, head and base are given,
   drafts are allowed if it is one, and no other is open on the branch.
   */
  lemma OpenAnswers(caps: Capabilities, w: World, q: Request, v: World, o: Outcome)
    requires q.OpenChangeRequest? && (v, o) == Apply(caps, w, q)
    ensures !MayOpen(caps, w, q) ==> v == w && o == Failed(if Visible(w, q.target) then Validation else NotFound)
    ensures MayOpen(caps, w, q) && Remembered(caps, w, "open:", q.key) ==> v == w && o == w.idem["open:" + q.key]
    ensures MayOpen(caps, w, q) && !Remembered(caps, w, "open:", q.key) ==>
      if NoneOpenOn(w.repos[q.target.path], q.head)
      then OpenedIn(w, q, v, o) && v.idem == Remembering(caps, w, "open:", q.key, o)
      else o == Failed(Conflict) && v == w
  {
    ApplyGuarded(caps, w, q);
    OpenRefusal(caps, w, q);
    if MayOpen(caps, w, q) {
      var run := OpenOf(w, q);
      OpenEffect(w, q, run.0, run.1);
      OnceInWords(caps, w, "open", "open:", q.key, run, v, o);
    }
  }

  // Comments and replies

  predicate HasSubject(w: World, t: Target, kind: string, number: string) {
    Visible(w, t) && if kind == "change_request" then number in w.repos[t.path].crs else number in w.repos[t.path].issues
  }

  lemma CommentRefusal(caps: Capabilities, w: World, q: Request)
    requires q.AddComment?
    ensures Refusal(caps, w, q) ==
      if !Visible(w, q.target) then Some(NotFound)
      else if Text.Blank(q.text) then Some(Validation)
      else if HasSubject(w, q.target, q.kind, q.number) then None
      else Some(NotFound)
  {
    Text.TrimIsEmptyIff(q.text);
  }

  /** The text is the last of the comments of its subject, under a new identifier and the provider's name. */
  predicate CommentedIn(w: World, q: Request, v: World, o: Outcome)
    requires q.AddComment? && q.target.path in w.repos
  {
    var (r, id, at) := (w.repos[q.target.path], "cm-" + Itoa(w.counter + 1), q.kind + "#" + q.number);
    && o == Commented(id) && v.counter == w.counter + 1 && SameElsewhere(w, v, q.target.path)
    && var s := v.repos[q.target.path];
      && s == r.(comments := s.comments) && s.comments.Keys == r.comments.Keys + {at}
      && s.comments[at] == (if at in r.comments then r.comments[at] else []) + [Comment(id, "paca-bot", q.text)]
      && forall k :: k in r.comments && k != at ==> s.comments[k] == r.comments[k]
  }

  lemma CommentEffect(w: World, q: Request, v: World, o: Outcome)
    requires q.AddComment? && Visible(w, q.target) && (v, o) == CommentOf(w, q)
    ensures v.idem == w.idem && CommentedIn(w, q, v, o)
  {
    var r, id, at := w.repos[q.target.path], "cm-" + Itoa(w.counter + 1), q.kind + "#" + q.number;
    assert "cm" + "-" == "cm-";
    var earlier := if at in r.comments then r.comments[at] else [];
    PutRepo(w, v, q.target.path, r.(comments := r.comments[at := earlier + [Comment(id, "paca-bot", q.text)]]));
  }

  /** A comment that is not blank is added to a change request or issue that is there. */
  lemma CommentAnswers(caps: Capabilities, w: World, q: Request, v: World, o: Outcome)
    requires q.AddComment? && (v, o) == Apply(caps, w, q)
    ensures Visible(w, q.target) && Text.Blank(q.text) ==> v == w && o == Failed(Validation)
    ensures !HasSubject(w, q.target, q.kind, q.number) ==> v == w && (o == Failed(NotFound) || (o == Failed(Validation) && Text.Blank(q.text)))
    ensures HasSubject(w, q.target, q.kind, q.number) && !Text.Blank(q.text) ==>
      if Remembered(caps, w, "comment:", q.key) then v == w && o == w.idem["comment:" + q.key]
      else CommentedIn(w, q, v, o) && v.idem == Remembering(caps, w, "comment:", q.key, o)
  {
    ApplyGuarded(caps, w, q);
    CommentRefusal(caps, w, q);
    if HasSubject(w, q.target, q.kind, q.number) && !Text.Blank(q.text) {
      var run := CommentOf(w, q);
      CommentEffect(w, q, run.0, run.1);
      OnceInWords(caps, w, "comment", "comment:", q.key, run, v, o);
    }
  }

  /** The first thread with an id. */
  predicate ThreadAt(threads: seq<Thread>, id: string, i: int) {
    0 <= i < |threads| && threads[i].id == id && forall j :: 0 <= j < i ==> threads[j].id != id
  }

  predicate HasThread(w: World, q: Request)
    requires q.ReplyThread?
  {
    HasCr(w, q.target, q.number) &&
    var threads := w.repos[q.target.path].crs[q.number].threads;
    exists i :: 0 <= i < |threads| && ThreadAt(threads, q.thread, i)
  }

  lemma ReplyRefusal(caps: Capabilities, w: World, q: Request)
    requires q.ReplyThread?
    ensures Refusal(caps, w, q) == if HasThread(w, q) then None else Some(NotFound)
  {
    if HasCr(w, q.target, q.number) {
      var threads := w.repos[q.target.path].crs[q.number].threads;
      var i := ThreadIndex(threads, q.thread);
      assert i >= 0 ==> ThreadAt(threads, q.thread, i);
    }
  }

  /** A thread once a reply has been made: the first one with the id has the comment, the others are as they were. */
  function AfterReply(threads: seq<Thread>, i: nat, id: string, c: Comment): Thread
    requires i < |threads|
  {
    if ThreadAt(threads, id, i) then Thread(id, threads[i].comments + [c]) else threads[i]
  }

  /** The text is the last comment of the first thread with that id, and nothing else of the change request differs. */
  predicate RepliedIn(w: World, q: Request, v: World, o: Outcome)
    requires q.ReplyThread? && HasCr(w, q.target, q.number)
  {
    && o == Commented("cm-" + Itoa(w.counter + 1)) && v.counter == w.counter + 1
    && OnlyCr(w, v, q.target.path, q.number)
    && var (x, y) := (w.repos[q.target.path].crs[q.number], v.repos[q.target.path].crs[q.number]);
      && y == x.(threads := y.threads) && |y.threads| == |x.threads|
      && forall i :: 0 <= i < |x.threads| ==> y.threads[i] == AfterReply(x.threads, i, q.thread, Comment(o.id, "paca-bot", q.text))
  }

  lemma ReplyEffect(w: World, q: Request, v: World, o: Outcome)
    requires q.ReplyThread? && HasThread(w, q) && (v, o) == ReplyOf(w, q)
    ensures v.idem == w.idem && RepliedIn(w, q, v, o)
  {
    var x := w.repos[q.target.path].crs[q.number];
    var i := ThreadIndex(x.threads, q.thread);
    assert ThreadAt(x.threads, q.thread, i);
    assert "cm" + "-" == "cm-";
    PutCr(w, v, q.target.path, q.number, Replied(x, i, Comment("cm-" + Itoa(w.counter + 1), "paca-bot", q.text)));
  }

  lemma ReplyAnswers(caps: Capabilities, w: World, q: Request, v: World, o: Outcome)
    requires q.ReplyThread? && (v, o) == Apply(caps, w, q)
    ensures !HasThread(w, q) ==> v == w && o == Failed(NotFound)
    ensures HasThread(w, q) ==>
      if Remembered(caps, w, "reply:", q.key) then v == w && o == w.idem["reply:" + q.key]
      else RepliedIn(w, q, v, o) && v.idem == Remembering(caps, w, "reply:", q.key, o)
  {
    ApplyGuarded(caps, w, q);
    ReplyRefusal(caps, w, q);
    if HasThread(w, q) {
      var run := ReplyOf(w, q);
      ReplyEffect(w, q, run.0, run.1);
      OnceInWords(caps, w, "reply", "reply:", q.key, run, v, o);
    }
  }

  // Reviews

  /** Every inline comment is on a line from 1 up of a changed file. */
  predicate OnTheDiff(x: ChangeRequest, inline: seq<InlineComment>) {
    forall i :: 0 <= i < |inline| ==> inline[i].path in x.files && inline[i].line >= 1
  }

  predicate MayReview(x: ChangeRequest, q: Request)
    requires q.SubmitReview?
  {
    && q.verdict in {"comment", "approve", "request_changes"} && OnTheDiff(x, q.inline)
    && (q.verdict == "approve" ==> x.author != "paca-bot")
    && (q.verdict == "request_changes" ==> !Text.Blank(q.summary) || q.inline != [])
  }

  lemma ReviewRefusal(caps: Capabilities, w: World, q: Request)
    requires q.SubmitReview?
    ensures Refusal(caps, w, q) ==
      if !HasCr(w, q.target, q.number) then Some(NotFound)
      else
        var x := w.repos[q.target.path].crs[q.number];
        if MayReview(x, q) then None
        else if q.verdict == "approve" && x.author == "paca-bot" then Some(Conflict)
        else Some(Validation)
  {
    Text.TrimIsEmptyIff(q.summary);
  }

  /**
   A review of one of the three verdicts is accepted with all its inline comments; an approval of its own
   change request, a request for changes that says nothing and a comment that is not on the diff are refused.
   */
  lemma ReviewAnswers(caps: Capabilities, w: World, q: Request, v: World, o: Outcome)
    requires q.SubmitReview? && (v, o) == Apply(caps, w, q)
    ensures !HasCr(w, q.target, q.number) ==> v == w && o == Failed(NotFound)
    ensures HasCr(w, q.target, q.number) ==>
      var x := w.repos[q.target.path].crs[q.number];
      if !MayReview(x, q) then v == w && o == Failed(if q.verdict == "approve" && x.author == "paca-bot" then Conflict else Validation)
      else if Remembered(caps, w, "review:", q.key) then v == w && o == w.idem["review:" + q.key]
      else
        && o == Reviewed("rv-" + Itoa(w.counter + 1), |q.inline|)
        && v.repos == w.repos && v.grants == w.grants && v.counter == w.counter + 1
        && v.idem == Remembering(caps, w, "review:", q.key, o)
  {
    ApplyGuarded(caps, w, q);
    ReviewRefusal(caps, w, q);
    if HasCr(w, q.target, q.number) && MayReview(w.repos[q.target.path].crs[q.number], q) {
      assert "rv" + "-" == "rv-";
      OnceInWords(caps, w, "review", "review:", q.key, ReviewOf(w, q), v, o);
    }
  }

  // Branches

  /** The branch is new and stands at the commit of its source, which is main unless another is given. */
  predicate BranchedIn(w: World, q: Request, v: World, o: Outcome)
    requires q.CreateBranch? && q.target.path in w.repos
  {
    var (r, source) := (w.repos[q.target.path], if q.from == "" then "main" else q.from);
    && source in r.branches && o == Branched(q.name, r.branches[source])
    && v.counter == w.counter && SameElsewhere(w, v, q.target.path)
    && var s := v.repos[q.target.path];
      && s == r.(branches := s.branches) && s.branches.Keys == r.branches.Keys + {q.name}
      && s.branches[q.name] == r.branches[source]
      && forall b :: b in r.branches ==> s.branches[b] == r.branches[b]
  }

  lemma BranchEffect(w: World, q: Request, v: World, o: Outcome)
    requires q.CreateBranch? && Visible(w, q.target) && (v, o) == BranchOf(w, q)
    ensures v.idem == w.idem
    ensures var (r, source) := (w.repos[q.target.path], if q.from == "" then "main" else q.from);
      if source !in r.branches then o == Failed(NotFound) && v == w
      else if q.name in r.branches then o == Failed(Conflict) && v == w
      else BranchedIn(w, q, v, o)
  {
    var r, source := w.repos[q.target.path], if q.from == "" then "main" else q.from;
    if source in r.branches && q.name !in r.branches {
      PutRepo(w, v, q.target.path, r.(branches := r.branches[q.name := r.branches[source]]));
    }
  }

  lemma BranchAnswers(caps: Capabilities, w: World, q: Request, v: World, o: Outcome)
    requires q.CreateBranch? && (v, o) == Apply(caps, w, q)
    ensures !Visible(w, q.target) ==> v == w && o == Failed(NotFound)
    ensures Visible(w, q.target) && !ValidBranchName(q.name) ==> v == w && o == Failed(Validation)
    ensures Visible(w, q.target) && ValidBranchName(q.name) ==>
      var (r, source) := (w.repos[q.target.path], if q.from == "" then "main" else q.from);
      if Remembered(caps, w, "branch:", q.key) then v == w && o == w.idem["branch:" + q.key]
      else if source !in r.branches then o == Failed(NotFound) && v == w
      else if q.name in r.branches then o == Failed(Conflict) && v == w
      else BranchedIn(w, q, v, o) && v.idem == Remembering(caps, w, "branch:", q.key, o)
  {
    ApplyGuarded(caps, w, q);
    if Visible(w, q.target) && ValidBranchName(q.name) {
      var run := BranchOf(w, q);
      BranchEffect(w, q, run.0, run.1);
      OnceInWords(caps, w, "branch", "branch:", q.key, run, v, o);
    }
  }
}
