/** Paged listings: sorting what an unordered map holds, cutting pages and following their cursors. */
module Listing {
  import opened Options
  import opened Decimal

  // The order of strings

  /** Go's order on strings. */
  predicate Less(a: string, b: string) {
    b != "" && (a == "" || a[0] < b[0] || (a[0] == b[0] && Less(a[1..], b[1..])))
  }

  lemma {:induction false} LessIsOrder(a: string, b: string, c: string)
    ensures !Less(a, a)
    ensures a == b || Less(a, b) || Less(b, a)
    ensures Less(a, b) && Less(b, c) ==> Less(a, c)
    decreases |a| + |b| + |c|
  {
    if a != "" {
      LessIsOrder(a[1..], if b == "" then "" else b[1..], if c == "" then "" else c[1..]);
      if b != "" && a[0] == b[0] && a[1..] == b[1..] {
        assert a == [a[0]] + a[1..] && b == [b[0]] + b[1..];
      }
    }
  }

  ghost predicate Ascending(s: seq<string>) {
    forall i, j :: 0 <= i < j < |s| ==> Less(s[i], s[j])
  }

  ghost predicate Elements(s: seq<string>, keys: set<string>) {
    forall k :: k in s <==> k in keys
  }

  /** A set of strings has only one ascending listing, so the order of the map cannot show. */
  lemma {:induction false} AscendingIsUnique(s: seq<string>, t: seq<string>, keys: set<string>)
    requires Ascending(s) && Ascending(t) && Elements(s, keys) && Elements(t, keys)
    ensures s == t
  {
    assert s != [] ==> s[0] in keys;
    assert t != [] ==> t[0] in keys;
    if s != [] && t != [] {
      var a, b := s[|s| - 1], t[|t| - 1];
      LessIsOrder(a, b, a);
      assert a in t && b in s;
      var s', t' := s[..|s| - 1], t[..|t| - 1];
      LastIsFresh(s, keys);
      LastIsFresh(t, keys);
      AscendingIsUnique(s', t', keys - {a});
      assert s == s' + [a] && t == t' + [b];
    }
  }

  lemma LastIsFresh(s: seq<string>, keys: set<string>)
    requires s != [] && Ascending(s) && Elements(s, keys)
    ensures Elements(s[..|s| - 1], keys - {s[|s| - 1]})
  {
    var last := s[|s| - 1];
    LessIsOrder(last, last, last);
    assert last !in s[..|s| - 1];
    forall k ensures k in s[..|s| - 1] <==> k in keys - {last} {
      if k in s && k != last {
        var i :| 0 <= i < |s| && s[i] == k;
        assert s[..|s| - 1][i] == k;
      }
    }
  }

  function Insert(s: seq<string>, x: string): seq<string> {
    if s != [] && Less(x, s[|s| - 1]) then Insert(s[..|s| - 1], x) + [s[|s| - 1]] else s + [x]
  }

  /** sort.Strings. */
  function Sorted(s: seq<string>): seq<string> {
    if s == [] then [] else Insert(Sorted(s[..|s| - 1]), s[|s| - 1])
  }

  lemma {:induction false} InsertKeeps(s: seq<string>, x: string)
    requires Ascending(s) && x !in s
    ensures Ascending(Insert(s, x))
    ensures forall k :: k in Insert(s, x) <==> k in s || k == x
  {
    if s != [] {
      var n := |s| - 1;
      assert s == s[..n] + [s[n]];
      forall i | 0 <= i <= n
        ensures Less(x, s[n]) || Less(s[i], x)
      {
        LessIsOrder(x, s[n], x);
        LessIsOrder(s[i], s[n], x);
      }
      if Less(x, s[n]) {
        InsertKeeps(s[..n], x);
        var r := Insert(s[..n], x);
        forall i | 0 <= i < |r|
          ensures Less(r[i], s[n])
        {
          assert r[i] in r;
        }
      }
    }
  }

  lemma {:induction false} SortedIsAscending(s: seq<string>)
    requires forall i, j :: 0 <= i < j < |s| ==> s[i] != s[j]
    ensures Ascending(Sorted(s))
    ensures forall k :: k in Sorted(s) <==> k in s
  {
    if s != [] {
      var n := |s| - 1;
      SortedIsAscending(s[..n]);
      InsertKeeps(Sorted(s[..n]), s[n]);
      assert forall k :: k in s <==> k in s[..n] || k == s[n];
    }
  }

  // Pages

  datatype Page<T> = Page(items: seq<T>, next: string) | SliceTrap

  /** The page a cursor position stands for; a negative position makes the slice panic. */
  function PageAt<T>(list: seq<T>, start: int, size: nat): Page<T>
    requires size >= 1
  {
    if start < 0 then SliceTrap
    else if start + size < |list| then Page(list[start..start + size], Itoa(start + size))
    else Page(if start < |list| then list[start..] else [], "")
  }

  /** ListRepositories and ListChangedFiles ignore a cursor they cannot read. */
  function Position(cursor: string): int {
    match Atoi(cursor)
    case None => 0
    case Some(n) => n
  }

  /** A minus sign and digits that are not all zero. */
  predicate NegativeNumeral(cursor: string) {
    |cursor| > 1 && cursor[0] == '-' && AllDigits(cursor[1..]) && exists i :: 1 <= i < |cursor| && cursor[i] != '0'
  }

  lemma {:induction false} PositiveIff(digits: string)
    requires AllDigits(digits)
    ensures Value(digits) > 0 <==> exists i :: 0 <= i < |digits| && digits[i] != '0'
  {
    if digits != "" {
      var n := |digits| - 1;
      PositiveIff(digits[..n]);
      assert forall i :: 0 <= i < n ==> digits[..n][i] == digits[i];
    }
  }

  /** A cursor makes the slice panic exactly when it is a negative numeral, whatever the list and the size. */
  lemma NegativeCursorTrapsIff<T>(list: seq<T>, cursor: string, size: nat)
    requires size >= 1
    ensures PageAt(list, Position(cursor), size).SliceTrap? <==> NegativeNumeral(cursor)
  {
    if |cursor| > 1 && cursor[0] == '-' && AllDigits(cursor[1..]) {
      PositiveIff(cursor[1..]);
      assert forall i :: 1 <= i < |cursor| ==> cursor[i] == cursor[1..][i - 1];
      if i :| 1 <= i < |cursor| && cursor[i] != '0' {
        assert cursor[1..][i - 1] != '0';
      }
    }
  }

  /** Such a cursor. */
  lemma MinusOneTraps<T>(list: seq<T>, size: nat)
    requires size >= 1
    ensures PageAt(list, Position("-1"), size).SliceTrap?
  {
    assert "-1"[1] == '1' && AllDigits("-1"[1..]);
    NegativeCursorTrapsIff(list, "-1", size);
  }

  /** Every page from a cursor on, as a client sees them that follows NextCursor until it is empty. */
  function Follow<T>(list: seq<T>, size: nat, cursor: string): seq<seq<T>>
    requires size >= 1 && Position(cursor) >= 0
    decreases |list| - Position(cursor)
  {
    var page := PageAt(list, Position(cursor), size);
    if page.next == "" then [page.items]
    else
      AtoiOfItoa(Position(cursor) + size);
      [page.items] + Follow(list, size, page.next)
  }

  function Concat<T>(pages: seq<seq<T>>): seq<T> {
    if pages == [] then [] else pages[0] + Concat(pages[1..])
  }

  /** A page with a cursor is full, and the rest are the pages from that cursor on. */
  lemma FollowStep<T>(list: seq<T>, size: nat, cursor: string)
    requires size >= 1 && Position(cursor) >= 0 && PageAt(list, Position(cursor), size).next != ""
    ensures var start, page := Position(cursor), PageAt(list, Position(cursor), size);
      && start + size < |list| && |page.items| == size && page.items == list[start..start + size]
      && Position(page.next) == start + size
      && Follow(list, size, cursor) == [page.items] + Follow(list, size, page.next)
  {
    AtoiOfItoa(Position(cursor) + size);
  }

  lemma {:induction false} FollowFrom<T>(list: seq<T>, size: nat, cursor: string)
    requires size >= 1 && 0 <= Position(cursor) <= |list|
    ensures Concat(Follow(list, size, cursor)) == list[Position(cursor)..]
    decreases |list| - Position(cursor)
  {
    var start := Position(cursor);
    var page := PageAt(list, start, size);
    var pages := Follow(list, size, cursor);
    assert pages[0] == page.items;
    if page.next == "" {
      assert pages[1..] == [];
    } else {
      FollowStep(list, size, cursor);
      FollowFrom(list, size, page.next);
      assert pages[1..] == Follow(list, size, page.next);
      assert list[start..] == list[start..start + size] + list[start + size..];
    }
  }

  /** How many pages n items take. */
  function PageCount(n: nat, size: nat): nat
    requires size >= 1
  {
    if n <= size then 1 else 1 + PageCount(n - size, size)
  }

  lemma {:induction false} PageCountIsCeiling(n: nat, size: nat)
    requires size >= 1
    ensures var c := PageCount(n, size);
      c >= 1 && n <= c * size && (if n == 0 then c == 1 else (c - 1) * size < n)
  {
    if n > size {
      PageCountIsCeiling(n - size, size);
      var c := PageCount(n - size, size);
      assert c * size == (c - 1) * size + size && (c + 1) * size == c * size + size;
    }
  }

  lemma {:induction false} FollowCounts<T>(list: seq<T>, size: nat, cursor: string)
    requires size >= 1 && 0 <= Position(cursor) <= |list|
    ensures var pages := Follow(list, size, cursor);
      && |pages| == PageCount(|list| - Position(cursor), size)
      && (forall i :: 0 <= i < |pages| - 1 ==> |pages[i]| == size)
    decreases |list| - Position(cursor)
  {
    var start := Position(cursor);
    var page := PageAt(list, start, size);
    if page.next != "" {
      FollowStep(list, size, cursor);
      FollowCounts(list, size, page.next);
      var pages, rest := Follow(list, size, cursor), Follow(list, size, page.next);
      assert forall i :: 0 < i < |pages| ==> pages[i] == rest[i - 1];
    }
  }

  /**
   From the empty cursor, following NextCursor visits the whole list once and in order, in full pages
   and one last one: one page for the empty list, otherwise the n with (n - 1) * size < |list| <= n * size.
   */
  lemma FollowVisitsAll<T>(list: seq<T>, size: nat)
    requires size >= 1
    ensures var pages := Follow(list, size, "");
      && Concat(pages) == list
      && (forall i :: 0 <= i < |pages| - 1 ==> |pages[i]| == size)
      && |pages| >= 1 && |list| <= |pages| * size
      && (if list == [] then |pages| == 1 else (|pages| - 1) * size < |list|)
  {
    FollowFrom(list, size, "");
    FollowCounts(list, size, "");
    PageCountIsCeiling(|list|, size);
  }

  // The listings of the provider

  predicate Contains(s: string, part: string) {
    part <= s || (s != "" && Contains(s[1..], part))
  }

  function Selected<T>(all: map<string, T>, keep: (string, T) -> bool): set<string> {
    set k | k in all && keep(k, all[k])
  }

  /** The ascending listing of a set; AscendingIsUnique says there is no other. */
  ghost function InOrder(keys: set<string>): (s: seq<string>)
    ensures Ascending(s) && Elements(s, keys)
  {
    SomeAscending(keys);
    var s :| Ascending(s) && Elements(s, keys);
    s
  }

  lemma {:induction false} SomeAscending(keys: set<string>)
    ensures exists s :: Ascending(s) && Elements(s, keys)
    decreases keys
  {
    if keys == {} {
      assert Ascending([]) && Elements([], keys);
    } else {
      var k :| k in keys;
      SomeAscending(keys - {k});
      var s :| Ascending(s) && Elements(s, keys - {k});
      InsertKeeps(s, k);
      assert Elements(Insert(s, k), keys);
    }
  }

  /** Collecting the selected keys in whatever order the map has, then sorting them. */
  method Collect<T>(all: map<string, T>, keep: (string, T) -> bool) returns (list: seq<string>)
    ensures list == InOrder(Selected(all, keep))
  {
    var found: seq<string> := [];
    var left := all.Keys;
    while left != {}
      invariant left <= all.Keys
      invariant forall k :: k in found <==> k in Selected(all, keep) - left
      invariant forall i, j :: 0 <= i < j < |found| ==> found[i] != found[j]
      decreases left
    {
      var k :| k in left;
      assert k !in found;
      left := left - {k};
      if keep(k, all[k]) {
        found := found + [k];
      }
    }
    list := Sorted(found);
    SortedIsAscending(found);
    AscendingIsUnique(list, InOrder(Selected(all, keep)), Selected(all, keep));
  }

  function Values<T>(all: map<string, T>, keys: seq<string>): seq<T>
    requires forall k :: k in keys ==> k in all
  {
    seq(|keys|, i requires 0 <= i < |keys| => assert keys[i] in keys; all[keys[i]])
  }

  lemma PageOfValues<T>(all: map<string, T>, keys: seq<string>, start: int, size: nat)
    requires size >= 1 && forall k :: k in keys ==> k in all
    ensures var p := PageAt(keys, start, size);
      if p.SliceTrap? then PageAt(Values(all, keys), start, size).SliceTrap?
      else (forall k :: k in p.items ==> k in all) && PageAt(Values(all, keys), start, size) == Page(Values(all, p.items), p.next)
  {
    var p := PageAt(keys, start, size);
    if p.Page? {
      assert forall k :: k in p.items ==> k in keys;
      assert PageAt(Values(all, keys), start, size).items == Values(all, p.items);
    }
  }

  function ByQuery<R>(query: string): (string, R) -> bool {
    (path, r) => query == "" || Contains(path, query)
  }

  function ByState(state: string): (string, Issue) -> bool {
    (number: string, issue: Issue) => state == "all" || issue.state == state
  }

  /** Core.ListRepositories, after the identity check. */
  method ListRepositories<R>(repos: map<string, R>, query: string, cursor: string, pageSize: int) returns (page: Page<R>)
    ensures var list := InOrder(Selected(repos, ByQuery(query)));
      page == PageAt(Values(repos, list), Position(cursor), if pageSize <= 0 then 50 else pageSize)
  {
    var paths := Collect(repos, ByQuery(query));
    var start := Position(cursor);
    var size := if pageSize <= 0 then 50 else pageSize;
    PageOfValues(repos, paths, start, size);
    if start < 0 {
      return SliceTrap;
    }
    var end := start + size;
    var next := "";
    if end < |paths| {
      next := Itoa(end);
    } else {
      end := |paths|;
    }
    var items: seq<R> := [];
    if start < |paths| {
      items := Values(repos, paths[start..end]);
    }
    return Page(items, next);
  }

  /** Core.ListChangedFiles, after the change request was found. */
  method ListChangedFiles<F>(files: seq<F>, cursor: string) returns (page: Page<F>)
    ensures page == PageAt(files, Position(cursor), 2)
  {
    var start := Position(cursor);
    if start < 0 {
      return SliceTrap;
    }
    var end := start + 2;
    var next := "";
    if end < |files| {
      next := Itoa(end);
    } else {
      end := |files|;
    }
    return Page(if start < |files| then files[start..end] else [], next);
  }

  datatype Issue = Issue(number: string, state: string)

  datatype IssueList = Issues(page: Page<Issue>) | InvalidState | InvalidCursor

  /** ListIssues accepts only the empty cursor and non-negative numbers. */
  function IssuePosition(cursor: string): Option<nat> {
    if cursor == "" then Some(0)
    else
      match Atoi(cursor)
      case None => None
      case Some(n) => if n < 0 then None else Some(n)
  }

  function WantedState(requested: string): string {
    if requested == "" then "open" else requested
  }

  /** Every issue is stored under its own number. */
  ghost predicate ByNumber(issues: map<string, Issue>) {
    forall k :: k in issues ==> issues[k].number == k
  }

  ghost predicate AscendingNumbers(list: seq<Issue>) {
    forall i, j :: 0 <= i < j < |list| ==> Less(list[i].number, list[j].number)
  }

  /** Sorted keys list the issues by number, and so does any page of them. */
  lemma PageIsByNumber(issues: map<string, Issue>, keys: seq<string>, start: nat, size: nat)
    requires ByNumber(issues) && Ascending(keys) && size >= 1 && forall k :: k in keys ==> k in issues
    ensures var page := PageAt(Values(issues, keys), start, size);
      page.Page? && AscendingNumbers(Values(issues, keys)) && AscendingNumbers(page.items)
  {
    assert forall i :: 0 <= i < |keys| ==> keys[i] in keys && Values(issues, keys)[i].number == keys[i];
  }

  /** Full.ListIssues, after the repository was found. */
  method ListIssues(issues: map<string, Issue>, requested: string, cursor: string) returns (r: IssueList)
    requires ByNumber(issues)
    ensures r.Issues? ==> r.page.Page? && AscendingNumbers(r.page.items)
    ensures var state := WantedState(requested);
      var list := InOrder(Selected(issues, ByState(state)));
      r == if state != "open" && state != "closed" && state != "all" then InvalidState
           else if IssuePosition(cursor).None? then InvalidCursor
           else Issues(PageAt(Values(issues, list), IssuePosition(cursor).value, 2))
  {
    var state := WantedState(requested);
    if state != "open" && state != "closed" && state != "all" {
      return InvalidState;
    }
    var start := 0;
    if cursor != "" {
      var parsed := Atoi(cursor);
      if parsed.None? || parsed.value < 0 {
        return InvalidCursor;
      }
      start := parsed.value;
    }
    var numbers := Collect(issues, ByState(state));
    var page := CutTwo(numbers, start);
    PageOfValues(issues, numbers, start, 2);
    PageIsByNumber(issues, numbers, start, 2);
    return Issues(Page(Values(issues, page.items), page.next));
  }

  method CutTwo(items: seq<string>, start: nat) returns (page: Page<string>)
    ensures page == PageAt(items, start, 2)
  {
    page := Page([], "");
    if start < |items| {
      var end := start + 2;
      var next := "";
      if end < |items| {
        next := Itoa(end);
      } else {
        end := |items|;
      }
      page := Page(items[start..end], next);
    }
  }

  /** Every cursor a page hands out is accepted by all three listings, at the position it stands for. */
  lemma NextCursorIsRead<T>(list: seq<T>, start: nat, size: nat)
    requires size >= 1 && PageAt(list, start, size).next != ""
    ensures var next := PageAt(list, start, size).next;
      Position(next) == start + size && IssuePosition(next) == Some(start + size)
  {
    AtoiOfItoa(start + size);
  }
}
