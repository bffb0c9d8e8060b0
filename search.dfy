/**
  The search box of the user list: keep the users whose first name, last
  name or email contains the query, ignoring case.  Case folding is the
  abstract character function `lower`; two characters match when they fold
  to the same character.
 */
module Search {
  import opened DirectoryModel

  /** `q` occurs in `s` starting at index `i`. */
  ghost predicate OccursAt(q: string, s: string, i: int) {
    0 <= i && i + |q| <= |s| && s[i..i + |q|] == q
  }

  /** Substring test by scanning the start positions of `s` from the left. */
  function Contains(s: string, q: string): (found: bool)
    ensures found <==> exists i :: OccursAt(q, s, i)
    decreases |s|
  {
    if q <= s then
      assert OccursAt(q, s, 0);
      true
    else if s == [] then
      false
    else
      var rest := Contains(s[1..], q);
      assert forall i :: OccursAt(q, s[1..], i) <==> OccursAt(q, s, i + 1) by {
        forall i ensures OccursAt(q, s[1..], i) <==> OccursAt(q, s, i + 1) {
          if 0 <= i && i + |q| <= |s| - 1 {
            assert s[1..][i..i + |q|] == s[i + 1..i + 1 + |q|];
          }
        }
      }
      assert !OccursAt(q, s, 0);
      assert (exists i :: OccursAt(q, s, i)) ==> exists i :: OccursAt(q, s[1..], i) by {
        if exists i :: OccursAt(q, s, i) {
          var i :| OccursAt(q, s, i);
          assert i != 0;
          assert OccursAt(q, s[1..], i - 1);
        }
      }
      rest
  }

  /** `s` with every character folded by `lower`. */
  function Fold(s: string, lower: char -> char): (r: string)
    ensures |r| == |s| && forall i :: 0 <= i < |s| ==> r[i] == lower(s[i])
  {
    seq(|s|, i requires 0 <= i < |s| => lower(s[i]))
  }

  /** `contains(query, ignoreCase = true)`. */
  predicate ContainsIgnoreCase(s: string, q: string, lower: char -> char) {
    Contains(Fold(s, lower), Fold(q, lower))
  }

  /** The characters of `q` match those of `s` from index `i` on, one by
      one, after folding. */
  ghost predicate MatchesAt(s: string, q: string, i: int, lower: char -> char) {
    0 <= i && i + |q| <= |s| && forall j :: 0 <= j < |q| ==> lower(s[i + j]) == lower(q[j])
  }

  /** The case-insensitive test is Kotlin's per-character region match: some
      start index at which every character of the query matches the text's
      character ignoring case. */
  lemma {:induction false} ContainsIgnoreCaseAt(s: string, q: string, lower: char -> char)
    ensures ContainsIgnoreCase(s, q, lower) <==> exists i :: MatchesAt(s, q, i, lower)
  {
    var fs, fq := Fold(s, lower), Fold(q, lower);
    forall i ensures OccursAt(fq, fs, i) <==> MatchesAt(s, q, i, lower) {
      if 0 <= i && i + |q| <= |s| {
        if OccursAt(fq, fs, i) {
          forall j | 0 <= j < |q| ensures lower(s[i + j]) == lower(q[j]) {
            assert fs[i..i + |q|][j] == fs[i + j];
          }
        }
        if MatchesAt(s, q, i, lower) {
          assert forall j :: 0 <= j < |q| ==> fs[i..i + |q|][j] == fq[j];
          assert fs[i..i + |q|] == fq;
        }
      }
    }
  }

  /** The filter's predicate on one user. */
  predicate Matches(u: UserData, query: string, lower: char -> char) {
    || ContainsIgnoreCase(u.firstName, query, lower)
    || ContainsIgnoreCase(u.lastName, query, lower)
    || ContainsIgnoreCase(u.email, query, lower)
  }

  /** `users.filter { Matches(it) }`: the matching users, in list order. */
  function Filter(users: seq<UserData>, query: string, lower: char -> char): (r: seq<UserData>)
    ensures |r| <= |users|
    ensures forall u :: u in r <==> u in users && Matches(u, query, lower)
    decreases |users|
  {
    if users == [] then []
    else
      var rest := Filter(users[1..], query, lower);
      assert forall u :: u in users <==> u == users[0] || u in users[1..];
      if Matches(users[0], query, lower) then [users[0]] + rest else rest
  }

  /** `a` is an order-preserving subsequence of `b`. */
  predicate IsSubsequence(a: seq<UserData>, b: seq<UserData>)
    decreases |b|
  {
    if a == [] then true
    else if b == [] then false
    else if a[0] == b[0] then IsSubsequence(a[1..], b[1..])
    else IsSubsequence(a, b[1..])
  }

  /** The filter drops users and never reorders the ones it keeps. */
  lemma {:induction false} FilterIsSubsequence(users: seq<UserData>, query: string, lower: char -> char)
    ensures IsSubsequence(Filter(users, query, lower), users)
    decreases |users|
  {
    if users != [] {
      FilterIsSubsequence(users[1..], query, lower);
      var rest := Filter(users[1..], query, lower);
      if !Matches(users[0], query, lower) {
        SubsequenceSkip(rest, users);
      }
    }
  }

  /** Dropping the head of `b` keeps `a` a subsequence of `b`. */
  lemma {:induction false} SubsequenceSkip(a: seq<UserData>, b: seq<UserData>)
    requires b != [] && IsSubsequence(a, b[1..])
    ensures IsSubsequence(a, b)
    decreases 2 * |b|
  {
    if a != [] && a[0] == b[0] {
      // IsSubsequence(a[1..], b[1..]) follows from IsSubsequence(a, b[1..]).
      SubsequenceTail(a, b[1..]);
    }
  }

  /** A subsequence without its head is still a subsequence. */
  lemma {:induction false} SubsequenceTail(a: seq<UserData>, b: seq<UserData>)
    requires a != [] && IsSubsequence(a, b)
    ensures IsSubsequence(a[1..], b)
    decreases 2 * |b| + 1
  {
    if a[0] == b[0] {
      if a[1..] != [] && b[1..] != [] {
        SubsequenceSkip(a[1..], b);
      } else if a[1..] != [] {
        assert false;
      }
    } else {
      SubsequenceTail(a, b[1..]);
      SubsequenceSkip(a[1..], b);
    }
  }

  /** The filter keeps each matching user as often as it occurs, and no
      other user. */
  lemma {:induction false} FilterCounts(users: seq<UserData>, query: string, lower: char -> char, u: UserData)
    ensures multiset(Filter(users, query, lower))[u] == if Matches(u, query, lower) then multiset(users)[u] else 0
    decreases |users|
  {
    if users != [] {
      FilterCounts(users[1..], query, lower, u);
      var rest := Filter(users[1..], query, lower);
      assert users == [users[0]] + users[1..];
      assert multiset(users) == multiset{users[0]} + multiset(users[1..]);
      if Matches(users[0], query, lower) {
        assert multiset(Filter(users, query, lower)) == multiset{users[0]} + multiset(rest);
      } else {
        assert Filter(users, query, lower) == rest;
      }
    }
  }

  /** The empty string occurs in every string, so an empty query keeps the
      whole list unchanged. */
  lemma {:induction false} FilterEmptyQuery(users: seq<UserData>, lower: char -> char)
    ensures Filter(users, "", lower) == users
    decreases |users|
  {
    if users != [] {
      assert Fold(users[0].firstName, lower) == Fold(users[0].firstName, lower)[..0] + Fold(users[0].firstName, lower);
      assert Matches(users[0], "", lower);
      FilterEmptyQuery(users[1..], lower);
    }
  }

  /** Filtering the aggregated list is filtering each page and concatenating. */
  lemma {:induction false} FilterAppend(a: seq<UserData>, b: seq<UserData>, query: string, lower: char -> char)
    ensures Filter(a + b, query, lower) == Filter(a, query, lower) + Filter(b, query, lower)
    decreases |a|
  {
    if a == [] {
      assert a + b == b;
    } else {
      assert (a + b)[0] == a[0];
      assert (a + b)[1..] == a[1..] + b;
      FilterAppend(a[1..], b, query, lower);
    }
  }

  /** Filtering twice with the same query filters once. */
  lemma {:induction false} FilterIdempotent(users: seq<UserData>, query: string, lower: char -> char)
    ensures Filter(Filter(users, query, lower), query, lower) == Filter(users, query, lower)
    decreases |users|
  {
    if users != [] {
      FilterIdempotent(users[1..], query, lower);
      var rest := Filter(users[1..], query, lower);
      if Matches(users[0], query, lower) {
        assert ([users[0]] + rest)[0] == users[0];
        assert ([users[0]] + rest)[1..] == rest;
      }
    }
  }

  /** Only the folded query matters: two queries that differ only in case
      select the same users. */
  lemma {:induction false} FilterIgnoresQueryCase(users: seq<UserData>, q1: string, q2: string, lower: char -> char)
    requires Fold(q1, lower) == Fold(q2, lower)
    ensures Filter(users, q1, lower) == Filter(users, q2, lower)
    decreases |users|
  {
    if users != [] {
      FilterIgnoresQueryCase(users[1..], q1, q2, lower);
    }
  }
}
