/** Which branch names are accepted, character by character. */
module BranchNames {
  import opened Text
  import opened Listing
  import opened Listings
  import opened ProviderSpec

  /** A dot that starts a part of the name. */
  predicate DotAt(name: string, i: int) {
    0 <= i < |name| && name[i] == '.' && (i == 0 || name[i - 1] == '/')
  }

  /** A ".lock" that ends a part of the name. */
  predicate LockAt(name: string, e: int) {
    5 <= e <= |name| && name[e - 5..e] == ".lock" && (e == |name| || name[e] == '/')
  }

  predicate BadPart(part: string) {
    Prefixed(part, ".") || Suffixed(part, ".lock")
  }

  ghost predicate AnyBad(parts: seq<string>) {
    exists i :: 0 <= i < |parts| && BadPart(parts[i])
  }

  ghost predicate Marked(name: string) {
    (exists i :: DotAt(name, i)) || (exists e :: LockAt(name, e))
  }

  lemma OnePart(part: string)
    requires '/' !in part
    ensures BadPart(part) <==> Marked(part)
  {
    assert forall k :: 0 <= k < |part| ==> part[k] in part;
    assert DotAt(part, 0) <==> Prefixed(part, ".");
    assert LockAt(part, |part|) <==> Suffixed(part, ".lock");
  }

  lemma DotInRest(name: string, n: nat, i: int)
    requires n < |name| && name[n] == '/' && '/' !in name[..n]
    ensures DotAt(name, i) <==> DotAt(name[..n], i) || DotAt(name[n + 1..], i - n - 1)
  {
    assert forall k :: 0 <= k < n ==> name[k] == name[..n][k] && name[..n][k] in name[..n];
  }

  lemma LockInRest(name: string, n: nat, e: int)
    requires n < |name| && name[n] == '/' && '/' !in name[..n]
    ensures LockAt(name, e) <==> LockAt(name[..n], e) || LockAt(name[n + 1..], e - n - 1)
  {
    var first, rest := name[..n], name[n + 1..];
    assert forall k :: 0 <= k < n ==> name[k] == first[k] && first[k] in first;
    if 5 <= e <= n {
      assert name[e - 5..e] == first[e - 5..e];
    } else if n < e <= |name| {
      if n + 6 <= e {
        assert name[e - 5..e] == rest[e - n - 6..e - n - 1];
      } else if 5 <= e {
        assert name[e - 5..e][n - (e - 5)] == '/';
      }
    }
  }

  lemma MarkedCut(name: string, n: nat)
    requires n < |name| && name[n] == '/' && '/' !in name[..n]
    ensures Marked(name) <==> Marked(name[..n]) || Marked(name[n + 1..])
  {
    var first, rest := name[..n], name[n + 1..];
    forall i ensures DotAt(name, i) <==> DotAt(first, i) || DotAt(rest, i - n - 1) {
      DotInRest(name, n, i);
    }
    forall e ensures LockAt(name, e) <==> LockAt(first, e) || LockAt(rest, e - n - 1) {
      LockInRest(name, n, e);
    }
    if i :| DotAt(rest, i) {
      assert DotAt(name, i + n + 1) <==> DotAt(first, i + n + 1) || DotAt(rest, i);
    }
    if e :| LockAt(rest, e) {
      assert LockAt(name, e + n + 1) <==> LockAt(first, e + n + 1) || LockAt(rest, e);
    }
  }

  lemma AnyBadCons(first: string, parts: seq<string>)
    ensures AnyBad([first] + parts) <==> BadPart(first) || AnyBad(parts)
  {
    var all := [first] + parts;
    assert all[0] == first;
    if i :| 0 <= i < |parts| && BadPart(parts[i]) {
      assert all[i + 1] == parts[i];
    }
    if i :| 0 <= i < |all| && BadPart(all[i]) {
      assert i > 0 ==> parts[i - 1] == all[i];
    }
  }

  /** Some part of the name starts with a dot or ends with ".lock" exactly when such a place is in the name. */
  lemma {:induction false} BadPartIff(name: string)
    ensures AnyBad(Split(name, "/")) <==> Marked(name)
    decreases |name|
  {
    IndexOfChar(name, '/');
    var n := Index(name, "/");
    if n < 0 {
      OnePart(name);
      AnyBadCons(name, []);
      assert Split(name, "/") == [name] == [name] + [];
    } else {
      OnePart(name[..n]);
      BadPartIff(name[n + 1..]);
      MarkedCut(name, n);
      AnyBadCons(name[..n], Split(name[n + 1..], "/"));
    }
  }

  /** Two characters in a row. */
  predicate PairAt(s: string, a: char, b: char, i: int) {
    0 <= i < |s| - 1 && s[i] == a && s[i + 1] == b
  }

  lemma PairIff(s: string, a: char, b: char)
    ensures Contains(s, [a, b]) <==> exists i :: PairAt(s, a, b, i)
  {
    ContainsIff(s, [a, b]);
    forall i ensures StandsAt(s, [a, b], i) <==> PairAt(s, a, b, i) {
      if 0 <= i < |s| - 1 {
        assert s[i..i + 2] == [s[i], s[i + 1]];
      }
    }
  }

  /** A character that no branch name may have. */
  predicate Forbidden(c: char) {
    c as int < 32 || c as int == 127 || c in " ~^:?*[\\"
  }

  ghost predicate GoodName(name: string) {
    && name != "" && name != "@"
    && name[0] != '-' && name[0] != '/' && name[|name| - 1] != '/' && name[|name| - 1] != '.'
    && (forall i :: 0 <= i < |name| ==> !Forbidden(name[i]))
    && (forall i :: !PairAt(name, '.', '.', i) && !PairAt(name, '/', '/', i) && !PairAt(name, '@', '{', i))
    && !Marked(name)
  }

  /**
   A branch name is accepted exactly when it is neither empty nor "@", starts with none of "-/." and ends with
   none of "/.", has no forbidden character, none of "..", "//" and "@{", and no part of it between slashes
   starts with a dot or ends with ".lock".
   */
  lemma ValidNameIff(name: string)
    ensures ValidBranchName(name) <==> GoodName(name)
  {
    if name != "" {
      PairIff(name, '.', '.');
      PairIff(name, '/', '/');
      PairIff(name, '@', '{');
      BadPartIff(name);
      NoBadPart(Split(name, "/"));
    }
  }

  lemma NoBadPart(parts: seq<string>)
    ensures !AnyBad(parts) <==> forall i :: 0 <= i < |parts| ==> !Prefixed(parts[i], ".") && !Suffixed(parts[i], ".lock")
  {
  }
}
