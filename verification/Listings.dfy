/** What the listings show, told by the items. */
module Listings {
  import opened Options
  import opened Decimal
  import opened Listing

  predicate StandsAt(s: string, part: string, i: int) {
    0 <= i <= |s| - |part| && s[i..i + |part|] == part
  }

  lemma StandsBehind(s: string, part: string, i: nat)
    requires s != ""
    ensures StandsAt(s, part, 0) <==> part <= s
    ensures StandsAt(s, part, i + 1) <==> StandsAt(s[1..], part, i)
  {
    if i + 1 <= |s| - |part| {
      assert s[i + 1..i + 1 + |part|] == s[1..][i..i + |part|];
    }
  }

  /** A text contains the parts that stand somewhere in it. */
  lemma {:induction false} ContainsIff(s: string, part: string)
    ensures Contains(s, part) <==> exists i :: StandsAt(s, part, i)
  {
    assert StandsAt(s, part, 0) <==> part <= s;
    if s != "" {
      ContainsIff(s[1..], part);
      if i :| StandsAt(s, part, i) {
        if i > 0 {
          StandsBehind(s, part, i - 1);
          assert StandsAt(s[1..], part, i - 1);
        }
      }
      if Contains(s[1..], part) {
        var i :| StandsAt(s[1..], part, i);
        StandsBehind(s, part, i);
        assert StandsAt(s, part, i + 1);
      }
    }
  }

  /** The texts agree up to n; there one of them ends, or has the smaller character. */
  predicate PartAt(a: string, b: string, n: int) {
    0 <= n <= |a| && n < |b| && a[..n] == b[..n] && (n == |a| || a[n] < b[n])
  }

  lemma PartBehind(a: string, b: string, n: nat)
    requires a != "" && b != ""
    ensures PartAt(a, b, 0) <==> a[0] < b[0]
    ensures PartAt(a, b, n + 1) <==> a[0] == b[0] && PartAt(a[1..], b[1..], n)
  {
    if n + 1 <= |a| && n + 1 < |b| {
      assert a[..n + 1] == [a[0]] + a[1..][..n] && b[..n + 1] == [b[0]] + b[1..][..n];
      assert a[..n + 1] == b[..n + 1] ==> a[1..][..n] == a[..n + 1][1..] == b[..n + 1][1..] == b[1..][..n];
    }
  }

  /** One text comes before another when it is a proper prefix of it or has the smaller character where they part. */
  lemma {:induction false} LessIff(a: string, b: string)
    ensures Less(a, b) <==> exists n :: PartAt(a, b, n)
  {
    if a == "" || b == "" {
      assert PartAt(a, b, 0) <==> a == "" && b != "";
    } else {
      LessIff(a[1..], b[1..]);
      PartBehind(a, b, 0);
      if n :| PartAt(a, b, n) {
        if n > 0 {
          PartBehind(a, b, n - 1);
          assert PartAt(a[1..], b[1..], n - 1);
        }
      }
      if a[0] == b[0] && Less(a[1..], b[1..]) {
        var n :| PartAt(a[1..], b[1..], n);
        PartBehind(a, b, n);
        assert PartAt(a, b, n + 1);
      }
    }
  }

  /** Each name is listed once, and before every greater one. */
  ghost predicate Lists(s: seq<string>, wanted: string -> bool) {
    && (forall i, j :: 0 <= i < j < |s| ==> Less(s[i], s[j]) && s[i] != s[j])
    && forall k :: k in s <==> wanted(k)
  }

  lemma InOrderLists(keys: set<string>, wanted: string -> bool)
    requires forall k :: k in keys <==> wanted(k)
    ensures Lists(InOrder(keys), wanted)
  {
    var s := InOrder(keys);
    forall i, j | 0 <= i < j < |s|
      ensures Less(s[i], s[j]) && s[i] != s[j]
    {
      LessIsOrder(s[i], s[j], s[i]);
    }
  }

  /** The items of a page are those from its position on, and its cursor says whether any are left. */
  lemma PageShows<T>(list: seq<T>, start: nat, size: nat)
    requires size >= 1
    ensures var page := PageAt(list, start, size);
      && page.Page?
      && |page.items| == (if start >= |list| then 0 else if start + size < |list| then size else |list| - start)
      && (forall k :: 0 <= k < |page.items| ==> start + k < |list| && page.items[k] == list[start + k])
      && (page.next == "" <==> start + |page.items| >= |list|)
      && (page.next != "" ==> Atoi(page.next) == Some(start + size))
  {
    AtoiOfItoa(start + size);
  }

  lemma PageOfRepositories<R>(repos: map<string, R>, list: seq<string>, start: nat, size: nat)
    requires size >= 1 && forall k :: k in list ==> k in repos
    ensures var page := PageAt(Values(repos, list), start, size);
      page.Page? && forall k :: 0 <= k < |page.items| ==>
        start + k < |list| && list[start + k] in repos && page.items[k] == repos[list[start + k]]
  {
    PageShows(Values(repos, list), start, size);
    assert forall k :: 0 <= k < |list| ==> list[k] in list;
  }

  lemma QueryLists<R>(repos: map<string, R>, query: string)
    ensures Lists(InOrder(Selected(repos, ByQuery(query))), path => path in repos && exists i :: StandsAt(path, query, i))
  {
    var wanted := (path: string) => path in repos && exists i :: StandsAt(path, query, i);
    var keys := Selected(repos, ByQuery(query));
    forall k
      ensures k in keys <==> wanted(k)
    {
      ContainsIff(k, query);
      if query == "" {
        assert StandsAt(k, query, 0);
      }
    }
    InOrderLists(keys, wanted);
  }

  /**
   The repositories whose path contains the query, each once and in order of their paths; a page of them
   from the cursor on, 50 at most unless a positive number is asked for.
   */
  method RepositoriesAre<R>(repos: map<string, R>, query: string, cursor: string, pageSize: int)
    returns (page: Page<R>, ghost list: seq<string>)
    ensures Lists(list, path => path in repos && exists i :: StandsAt(path, query, i))
    ensures page == PageAt(Values(repos, list), Position(cursor), if pageSize > 0 then pageSize else 50)
    ensures var start := match Atoi(cursor) case None => 0 case Some(n) => n;
      if start < 0 then page.SliceTrap?
      else page.Page? && forall k :: 0 <= k < |page.items| ==>
        start + k < |list| && list[start + k] in repos && page.items[k] == repos[list[start + k]]
  {
    page := ListRepositories(repos, query, cursor, pageSize);
    list := InOrder(Selected(repos, ByQuery(query)));
    QueryLists(repos, query);
    if Position(cursor) >= 0 {
      PageOfRepositories(repos, list, Position(cursor), if pageSize > 0 then pageSize else 50);
    }
  }

  /** Without a page size there are 50 on a page. */
  method FirstFifty<R>(repos: map<string, R>) returns (page: Page<R>)
    ensures page.Page? && |page.items| == (if |repos| < 50 then |repos| else 50) && (page.next != "" <==> |repos| > 50)
  {
    ghost var list;
    page, list := RepositoriesAre(repos, "", "", 0);
    PageShows(Values(repos, list), 0, 50);
    forall k
      ensures k in list <==> k in repos
    {
      assert StandsAt(k, "", 0);
    }
    DistinctCount(list, repos.Keys);
    assert |repos.Keys| == |repos|;
  }

  lemma {:induction false} DistinctCount(s: seq<string>, keys: set<string>)
    requires forall i, j :: 0 <= i < j < |s| ==> s[i] != s[j]
    requires forall k :: k in s <==> k in keys
    ensures |s| == |keys|
  {
    if s != [] {
      var last := s[|s| - 1];
      var front := s[..|s| - 1];
      assert last in keys && last !in front;
      forall k
        ensures k in front <==> k in keys - {last}
      {
        assert s == front + [last];
      }
      DistinctCount(front, keys - {last});
    } else {
      assert keys == {};
    }
  }

  /** The state a listing of issues is about. */
  predicate Asked(requested: string, state: string) {
    if requested == "" || requested == "open" then state == "open" else requested == "all" || state == "closed"
  }

  /**
   The issues of the state asked for, open ones when none is, each once and in order of their numbers, two
   on a page. Any other state, and any cursor that is not empty and not a number from 0 up, is refused.
   */
  method IssuesAre(issues: map<string, Issue>, requested: string, cursor: string) returns (r: IssueList, ghost list: seq<string>)
    requires ByNumber(issues)
    ensures Lists(list, number => number in issues && Asked(requested, issues[number].state)) || r == InvalidState
    ensures r == InvalidState <==> requested !in ["", "open", "closed", "all"]
    ensures r == InvalidCursor ==> cursor != "" && (Atoi(cursor).None? || Atoi(cursor).value < 0)
    ensures r.Issues? ==> exists start: nat ::
      (if cursor == "" then start == 0 else Atoi(cursor) == Some(start)) && r.page == PageAt(Values(issues, list), start, 2)
  {
    r := ListIssues(issues, requested, cursor);
    list := [];
    if requested in ["", "open", "closed", "all"] {
      var wanted := (number: string) => number in issues && Asked(requested, issues[number].state);
      var keys := Selected(issues, ByState(WantedState(requested)));
      assert forall k :: k in keys <==> wanted(k);
      list := InOrder(keys);
      InOrderLists(keys, wanted);
    }
  }

  /** Two changed files on a page. */
  method FirstTwoFiles<F>(files: seq<F>) returns (page: Page<F>)
    requires |files| > 2
    ensures page.Page? && page.items == files[..2] && Atoi(page.next) == Some(2)
  {
    page := ListChangedFiles(files, "");
    PageShows(files, 0, 2);
    assert page.items == files[..2];
  }
}
