/**
 * Lexicographic order on strings (the order of `std::string_view::compare`
 * and of `std::set<std::string>`), and the sort-then-unique step the server
 * applies to query words.
 */
module Lexicographic {

  /** `a` sorts strictly before `b`. */
  predicate Less(a: string, b: string)
    decreases |a|
  {
    if |a| == 0 then |b| > 0
    else if |b| == 0 then false
    else if a[0] != b[0] then a[0] < b[0]
    else Less(a[1..], b[1..])
  }

  lemma {:induction false} LessIrreflexive(a: string)
    ensures !Less(a, a)
    decreases |a|
  {
    if |a| > 0 {
      LessIrreflexive(a[1..]);
    }
  }

  lemma {:induction false} LessTransitive(a: string, b: string, c: string)
    requires Less(a, b) && Less(b, c)
    ensures Less(a, c)
    decreases |a|
  {
    if |a| > 0 && a[0] == b[0] && b[0] == c[0] {
      LessTransitive(a[1..], b[1..], c[1..]);
    }
  }

  lemma {:induction false} LessTotal(a: string, b: string)
    ensures a == b || Less(a, b) || Less(b, a)
    decreases |a|
  {
    if |a| > 0 && |b| > 0 && a[0] == b[0] {
      LessTotal(a[1..], b[1..]);
      if a[1..] == b[1..] {
        assert a == [a[0]] + a[1..] && b == [b[0]] + b[1..];
      }
    }
  }

  lemma LessAsymmetric(a: string, b: string)
    requires Less(a, b)
    ensures !Less(b, a)
  {
    if Less(b, a) {
      LessTransitive(a, b, a);
      LessIrreflexive(a);
    }
  }

  /** Strictly increasing, hence also free of duplicates. */
  predicate StrictlySorted(s: seq<string>)
  {
    forall i, j :: 0 <= i < j < |s| ==> Less(s[i], s[j])
  }

  /** Inserts `x` into a strictly sorted sequence unless it is already there. */
  function InsertUnique(s: seq<string>, x: string): (r: seq<string>)
    requires StrictlySorted(s)
    ensures StrictlySorted(r)
    ensures forall w :: w in r <==> w in s || w == x
  {
    if s == [] then [x]
    else if x == s[0] then s
    else if Less(x, s[0]) then
      assert forall j :: 0 <= j < |s| ==> Less(x, s[j]) by {
        forall j | 0 < j < |s| { LessTransitive(x, s[0], s[j]); }
      }
      [x] + s
    else
      LessTotal(x, s[0]);
      var rest := InsertUnique(s[1..], x);
      assert forall w :: w in rest ==> Less(s[0], w);
      [s[0]] + rest
  }

  /**
   * `std::sort` followed by `std::unique` and `erase`: the strictly sorted
   * sequence of the distinct elements of `s`.
   */
  function SortUnique(s: seq<string>): (r: seq<string>)
    ensures StrictlySorted(r)
    ensures forall w :: w in r <==> w in s
  {
    if s == [] then []
    else
      var r := InsertUnique(SortUnique(s[..|s| - 1]), s[|s| - 1]);
      assert s == s[..|s| - 1] + [s[|s| - 1]];
      r
  }

  /** The head of a strictly sorted sequence precedes every other element. */
  lemma HeadIsLeast(s: seq<string>, w: string)
    requires StrictlySorted(s) && w in s
    ensures w == s[0] || Less(s[0], w)
  {
  }

  /** A strictly sorted sequence is determined by its elements. */
  lemma {:induction false} StrictlySortedUnique(a: seq<string>, b: seq<string>)
    requires StrictlySorted(a) && StrictlySorted(b)
    requires forall w :: w in a <==> w in b
    ensures a == b
    decreases |a|
  {
    if a != [] {
      assert a[0] in b;
    }
    if b != [] {
      assert b[0] in a;
    }
    if a != [] && b != [] {
      HeadIsLeast(a, b[0]);
      HeadIsLeast(b, a[0]);
      assert a[0] == b[0] by {
        if a[0] != b[0] {
          LessAsymmetric(a[0], b[0]);
        }
      }
      assert a == [a[0]] + a[1..] && b == [b[0]] + b[1..];
      forall w
        ensures w in a[1..] <==> w in b[1..]
      {
        LessIrreflexive(a[0]);
        if w in a[1..] {
          var i :| 0 <= i < |a[1..]| && a[1..][i] == w;
          assert Less(a[0], a[i + 1]);
          assert w in b && w != b[0];
        }
        if w in b[1..] {
          var i :| 0 <= i < |b[1..]| && b[1..][i] == w;
          assert Less(b[0], b[i + 1]);
          assert w in a && w != a[0];
        }
      }
      StrictlySortedUnique(a[1..], b[1..]);
    }
  }

  /** Sorting and deduplicating is idempotent. */
  lemma SortUniqueIdempotent(s: seq<string>)
    ensures SortUnique(SortUnique(s)) == SortUnique(s)
  {
    StrictlySortedUnique(SortUnique(SortUnique(s)), SortUnique(s));
  }
}
