/** Identifiers: what is handed out anew was never handed out before, in any answer. */
module ProviderIds {
  import opened Options
  import opened Decimal
  import opened ProviderSpec
  import opened ProviderRuns
  import opened ProviderTheorems

  /** The one secret that is not numbered, or an identifier with one of the numbers used so far. */
  ghost predicate HandedOut(id: string, counter: nat) {
    id == "static_fake_secret_value" || exists prefix: string, i: nat :: 1 <= i <= counter && id == Id(prefix, i)
  }

  ghost predicate AnswerIsOld(o: Outcome, counter: nat) {
    IdIn(o).Some? ==> HandedOut(IdIn(o).value, counter)
  }

  ghost predicate StatusesAreOld(r: Repo, counter: nat) {
    forall ref :: ref in r.statuses ==> HandedOut(ref, counter)
  }

  /** Whatever a request could be answered with from memory carries an old identifier. */
  ghost predicate IdsAreOld(w: World) {
    && (forall p :: p in w.repos ==> StatusesAreOld(w.repos[p], w.counter))
    && (forall k :: k in w.idem ==> AnswerIsOld(w.idem[k], w.counter))
  }

  lemma HandedOutLater(id: string, counter: nat, later: nat)
    requires HandedOut(id, counter) && counter <= later
    ensures HandedOut(id, later)
  {
  }

  lemma NextIsHandedOut(prefix: string, counter: nat)
    ensures HandedOut(Id(prefix, counter + 1), counter + 1)
  {
  }

  lemma NextIsNew(prefix: string, counter: nat, id: string)
    requires HandedOut(id, counter)
    ensures id != Id(prefix, counter + 1)
  {
    if id == "static_fake_secret_value" {
      assert Id(prefix, counter + 1)[|prefix|] == '-';
      assert '-' !in "static_fake_secret_value";
    } else {
      var p: string, i: nat :| 1 <= i <= counter && id == Id(p, i);
      if id == Id(prefix, counter + 1) {
        IdIsInjective(p, i, prefix, counter + 1);
        assert false;
      }
    }
  }

  lemma IssuedIsHandedOut(id: string, prefix: string, counter: nat)
    requires Issued(id, prefix, counter)
    ensures HandedOut(id, counter)
  {
  }

  lemma OldLater(w: World, v: World)
    requires IdsAreOld(w) && v.repos == w.repos && v.idem == w.idem && w.counter <= v.counter
    ensures IdsAreOld(v)
  {
    forall p, ref | p in w.repos && ref in w.repos[p].statuses
      ensures HandedOut(ref, v.counter)
    {
      assert StatusesAreOld(w.repos[p], w.counter);
      HandedOutLater(ref, w.counter, v.counter);
    }
    forall k | k in w.idem
      ensures AnswerIsOld(w.idem[k], v.counter)
    {
    }
  }

  /** Changing one repository, its statuses aside, and counting on. */
  lemma OldWithRepo(w: World, path: string, r: Repo, v: World)
    requires IdsAreOld(w) && path in w.repos && StatusesAreOld(r, v.counter)
    requires v.repos == w.repos[path := r] && v.idem == w.idem && w.counter <= v.counter
    ensures IdsAreOld(v)
  {
    OldLater(w, v.(repos := w.repos));
  }

  lemma StatusesLater(w: World, path: string, r: Repo, counter: nat)
    requires IdsAreOld(w) && path in w.repos && r.statuses == w.repos[path].statuses && w.counter <= counter
    ensures StatusesAreOld(r, counter)
  {
    assert StatusesAreOld(w.repos[path], w.counter);
  }

  lemma EffectKeepsIds(w: World, q: Request, v: World, o: Outcome)
    requires IdsAreOld(w) && Guarded(q) && (v, o) == Effect(w, q)
    ensures IdsAreOld(v) && AnswerIsOld(o, v.counter)
  {
    IdemUntouched(w, q);
    EffectStatuses(w, q, v);
    EffectCounts(w, q);
    if v.repos == w.repos {
      OldLater(w, v);
    } else {
      StatusesLater(w, q.target.path, v.repos[q.target.path], v.counter);
      OldWithRepo(w, q.target.path, v.repos[q.target.path], v);
    }
    EffectAnswers(w, q, v, o);
  }

  lemma EffectStatuses(w: World, q: Request, v: World)
    requires Guarded(q) && v == Effect(w, q).0
    ensures v.repos == w.repos ||
      (q.target.path in w.repos && q.target.path in v.repos && v.repos == w.repos[q.target.path := v.repos[q.target.path]]
       && v.repos[q.target.path].statuses == w.repos[q.target.path].statuses)
  {
    match q
    case OpenChangeRequest(_, _, _, _, _, _, _) =>
    case AddComment(_, _, _, _, _) =>
    case ReplyThread(_, _, _, _, _) =>
    case SubmitReview(_, _, _, _, _, _) =>
    case CreateBranch(_, _, _, _) =>
  }

  lemma EffectAnswers(w: World, q: Request, v: World, o: Outcome)
    requires Guarded(q) && (v, o) == Effect(w, q)
    ensures AnswerIsOld(o, v.counter)
  {
    NextIsHandedOut("cm", w.counter);
    NextIsHandedOut("rv", w.counter);
    match q
    case OpenChangeRequest(_, _, _, _, _, _, _) =>
    case AddComment(_, _, _, _, _) =>
    case ReplyThread(_, _, _, _, _) =>
    case SubmitReview(_, _, _, _, _, _) =>
    case CreateBranch(_, _, _, _) =>
  }

  lemma OnceKeepsIds(caps: Capabilities, w: World, q: Request, v: World, o: Outcome)
    requires IdsAreOld(w) && Guarded(q) && (v, o) == Once(caps, w, Guard(q), Effect(w, q))
    ensures IdsAreOld(v) && AnswerIsOld(o, v.counter)
  {
    var (u, e) := Effect(w, q);
    EffectKeepsIds(w, q, u, e);
  }

  lemma StatusKeepsIds(w: World, q: Request, v: World, o: Outcome)
    requires IdsAreOld(w) && q.SetStatus? && (v, o) == StatusOf(w, q)
    ensures IdsAreOld(v) && AnswerIsOld(o, v.counter)
  {
    NextIsHandedOut("st", w.counter);
    if o.StatusSet? {
      var path := q.target.path;
      StatusesLater(w, path, w.repos[path], v.counter);
      OldWithRepo(w, path, v.repos[path], v);
    }
  }

  lemma EnsureKeepsIds(w: World, q: Request, v: World, o: Outcome)
    requires Inv(w) && IdsAreOld(w) && q.EnsureWebhook? && (v, o) == EnsureOf(w, q)
    ensures IdsAreOld(v) && AnswerIsOld(o, v.counter)
  {
    NextIsHandedOut("hook", w.counter);
    if o.Hooked? {
      var path := q.target.path;
      assert RepoInv(w.repos[path], w.counter);
      if HookFor(w.repos[path].hooks, q.url).Some? {
        IssuedIsHandedOut(o.id, "hook", w.counter);
      } else {
        StatusesLater(w, path, v.repos[path], v.counter);
        OldWithRepo(w, path, v.repos[path], v);
      }
    }
  }

  lemma RemoveKeepsIds(w: World, q: Request, v: World, o: Outcome)
    requires IdsAreOld(w) && q.RemoveWebhook? && (v, o) == RemoveOf(w, q)
    ensures IdsAreOld(v) && AnswerIsOld(o, v.counter)
  {
    if v.repos != w.repos {
      StatusesLater(w, q.target.path, v.repos[q.target.path], v.counter);
      OldWithRepo(w, q.target.path, v.repos[q.target.path], v);
    }
  }

  lemma UpdateKeepsIds(w: World, q: Request, v: World, o: Outcome)
    requires IdsAreOld(w) && q.UpdateChangeRequest? && (v, o) == UpdateOf(w, q)
    ensures IdsAreOld(v) && AnswerIsOld(o, v.counter)
  {
    if CrOf(w, q.target, q.number).Some? {
      StatusesLater(w, q.target.path, v.repos[q.target.path], v.counter);
      OldWithRepo(w, q.target.path, v.repos[q.target.path], v);
    }
  }

  lemma MergeKeepsIds(w: World, q: Request, v: World, o: Outcome)
    requires IdsAreOld(w) && q.MergeChangeRequest? && (v, o) == MergeOf(w, q)
    ensures IdsAreOld(v) && AnswerIsOld(o, v.counter)
  {
    if o.Merged? {
      StatusesLater(w, q.target.path, v.repos[q.target.path], v.counter);
      OldWithRepo(w, q.target.path, v.repos[q.target.path], v);
    }
  }

  lemma OthersKeepIds(caps: Capabilities, w: World, q: Request, v: World, o: Outcome)
    requires IdsAreOld(w) && (q.MintCredential? || q.BeginAccessGrant? || q.CompleteAccessGrant?) && (v, o) == Apply(caps, w, q)
    ensures IdsAreOld(v) && AnswerIsOld(o, v.counter)
  {
    NextIsHandedOut(PrefixFor(q), w.counter);
    ReposUntouched(caps, w, q, v);
    OthersKeepIdem(caps, w, q);
    CounterSteps(caps, w, q);
    OldLater(w, v);
  }

  /** Every answer carries an identifier that is old by then. */
  lemma StepKeepsIds(caps: Capabilities, w: World, q: Request, v: World, o: Outcome)
    requires Inv(w) && IdsAreOld(w) && (v, o) == Apply(caps, w, q)
    ensures IdsAreOld(v) && AnswerIsOld(o, v.counter)
  {
    if Guarded(q) {
      ApplyGuarded(caps, w, q);
      if Refusal(caps, w, q).None? {
        OnceKeepsIds(caps, w, q, v, o);
      }
    } else if q.SetStatus? {
      StatusKeepsIds(w, q, v, o);
    } else if q.EnsureWebhook? {
      EnsureKeepsIds(w, q, v, o);
    } else if q.RemoveWebhook? {
      RemoveKeepsIds(w, q, v, o);
    } else if q.UpdateChangeRequest? {
      UpdateKeepsIds(w, q, v, o);
    } else if q.MergeChangeRequest? {
      MergeKeepsIds(w, q, v, o);
    } else {
      OthersKeepIds(caps, w, q, v, o);
    }
  }

  lemma {:induction false} RunKeepsIds(caps: Capabilities, qs: seq<Request>)
    ensures IdsAreOld(After(caps, qs))
  {
    if qs != [] {
      var n := |qs| - 1;
      var w := After(caps, qs[..n]);
      RunKeeps(caps, qs[..n]);
      RunKeepsIds(caps, qs[..n]);
      StepKeepsIds(caps, w, qs[n], After(caps, qs), Apply(caps, w, qs[n]).1);
    }
  }

  /**
   An answer that draws a number carries an identifier that was in no answer before it, whatever those were:
   new identifiers, replays, hooks and statuses that were there already.
   */
  lemma IdentifiersNeverRepeat(caps: Capabilities, qs: seq<Request>, i: nat, j: nat)
    requires i < j < |qs|
    requires After(caps, qs[..j]).counter != After(caps, qs[..j + 1]).counter
    ensures IdIn(Answer(caps, qs, j)).Some? && IdIn(Answer(caps, qs, i)) != IdIn(Answer(caps, qs, j))
  {
    var u, w := After(caps, qs[..i]), After(caps, qs[..j]);
    NextWorld(caps, qs, i);
    NextWorld(caps, qs, j);
    RunKeeps(caps, qs[..i]);
    RunKeepsIds(caps, qs[..i]);
    var (v, o) := Apply(caps, u, qs[i]);
    StepKeepsIds(caps, u, qs[i], v, o);
    CounterSteps(caps, w, qs[j]);
    RunGrows(caps, qs, i + 1, j);
    if IdIn(o).Some? {
      HandedOutLater(IdIn(o).value, v.counter, w.counter);
      NextIsNew(PrefixFor(qs[j]), w.counter, IdIn(o).value);
    }
  }
}
