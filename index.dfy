/**
 * The two maps of the inverted index as values, `word -> (id -> tf)` and
 * `id -> (word -> tf)`, and how adding and removing one document changes
 * them. The index never looks inside a word, so the word type is a parameter.
 */
module Index {

  type ForwardIndex<W(==,!new)> = map<W, map<int, real>>
  type ReverseIndex<W(==,!new)> = map<int, map<W, real>>

  /**
   * A set of words that is not empty has an element, so `:|` may pick one.
   * The verifier does not derive this from `s != {}` alone; `Ids` keeps the
   * `set<int>` copy, since a generic lemma states it on boxed values, which
   * the `:|` on a set of integers does not match.
   */
  lemma NonEmptyHasWord(s: set<string>)
    requires s != {}
    ensures exists w :: w in s
  {
    if forall w :: w !in s {
      assert false;
    }
  }

  /** Document `id` is posted under `word`. */
  predicate Posted<W(==,!new)>(fwd: ForwardIndex<W>, word: W, id: int)
  {
    word in fwd && id in fwd[word]
  }

  /** Forward and reverse maps hold the same (word, id, tf) triples. */
  ghost predicate Mirrored<W(!new)>(fwd: ForwardIndex<W>, rev: ReverseIndex<W>)
  {
    && (forall w, id :: w in fwd && id in fwd[w] ==> id in rev && w in rev[id] && rev[id][w] == fwd[w][id])
    && (forall id, w :: id in rev && w in rev[id] ==> w in fwd && id in fwd[w])
  }

  /** Occurrences of `w` in `words`. */
  function Count<W(==,!new)>(words: seq<W>, w: W): (n: nat)
    ensures n <= |words|
    ensures n > 0 <==> w in words
  {
    if |words| == 0 then 0
    else
      var init := words[..|words| - 1];
      assert words == init + [words[|words| - 1]];
      Count(init, w) + (if words[|words| - 1] == w then 1 else 0)
  }

  lemma CountSnoc<W(!new)>(prefix: seq<W>, x: W, w: W)
    ensures Count(prefix + [x], w) == Count(prefix, w) + if x == w then 1 else 0
  {
    assert (prefix + [x])[..|prefix|] == prefix;
  }

  /** `1.0 / words.size()`: the share of one occurrence (unused for an empty document). */
  function InvWordCount(n: nat): real
  {
    if n == 0 then 0.0 else 1.0 / (n as real)
  }

  /** `c` shares added up, as the posting loop accumulates them. */
  function Share(c: nat, share: real): real
  {
    if c == 0 then 0.0 else Share(c - 1, share) + share
  }

  lemma {:induction false} ShareIsProduct(c: nat, share: real)
    ensures Share(c, share) == (c as real) * share
  {
    if c > 0 {
      ShareIsProduct(c - 1, share);
    }
  }

  /** Each word of `words` with its occurrences counted in units of `share`. */
  function Shares<W(==,!new)>(words: seq<W>, share: real): (tf: map<W, real>)
    ensures tf.Keys == set w | w in words
  {
    map w | w in words :: Share(Count(words, w), share)
  }

  /** Term frequencies of a document: each word's occurrences, one share of `1 / |words|` each. */
  function TermFrequencies<W(==,!new)>(words: seq<W>): (tf: map<W, real>)
    ensures tf.Keys == set w | w in words
  {
    Shares(words, InvWordCount(|words|))
  }

  /** A term frequency is the word's count over the document length, so it lies in (0, 1]. */
  lemma TermFrequencyValue<W(!new)>(words: seq<W>, w: W)
    requires w in words
    ensures TermFrequencies(words)[w] == (Count(words, w) as real) / (|words| as real)
    ensures 0.0 < TermFrequencies(words)[w] <= 1.0
  {
    ShareOfCount(Count(words, w), |words|);
  }

  /** `c` shares of `1 / n` make `c / n`. */
  lemma ShareOfCount(c: nat, n: nat)
    requires 0 < c <= n
    ensures Share(c, InvWordCount(n)) == (c as real) / (n as real)
    ensures 0.0 < Share(c, InvWordCount(n)) <= 1.0
  {
    var inv := InvWordCount(n);
    assert inv == 1.0 / (n as real);
    ShareIsProduct(c, inv);
    FractionBounds(c as real, n as real);
  }

  lemma FractionBounds(c: real, n: real)
    requires 0.0 < c <= n
    ensures c * (1.0 / n) == c / n
    ensures 0.0 < c / n <= 1.0
  {
  }

  /** The bucket of `word`, empty when the word has none. */
  function Bucket<W(==,!new)>(fwd: ForwardIndex<W>, word: W): map<int, real>
  {
    if word in fwd then fwd[word] else map[]
  }

  /** The forward map after posting document `id` with frequencies `tf`. */
  function AddToIndex<W(==,!new)>(fwd: ForwardIndex<W>, id: int, tf: map<W, real>): (r: ForwardIndex<W>)
    ensures r.Keys == fwd.Keys + tf.Keys
    ensures forall w, d :: Posted(r, w, d) <==> Posted(fwd, w, d) || (d == id && w in tf)
    ensures forall w :: w in tf ==> Posted(r, w, id) && r[w][id] == tf[w]
    ensures forall w, d :: Posted(fwd, w, d) && !(d == id && w in tf) ==> Posted(r, w, d) && r[w][d] == fwd[w][d]
  {
    map w | w in fwd.Keys + tf.Keys :: if w in tf then Bucket(fwd, w)[id := tf[w]] else fwd[w]
  }

  /** The forward map with document `id` erased from every bucket. */
  function RemoveFromIndex<W(==,!new)>(fwd: ForwardIndex<W>, id: int): (r: ForwardIndex<W>)
    ensures r.Keys == fwd.Keys
    ensures forall w, d :: Posted(r, w, d) <==> Posted(fwd, w, d) && d != id
    ensures forall w, d :: Posted(r, w, d) ==> Posted(fwd, w, d) && r[w][d] == fwd[w][d]
  {
    RemoveAllFromIndex(fwd, {id})
  }

  /** The forward map with every document of `ids` erased from every bucket. */
  function RemoveAllFromIndex<W(==,!new)>(fwd: ForwardIndex<W>, ids: set<int>): (r: ForwardIndex<W>)
    ensures r.Keys == fwd.Keys
    ensures forall w, d :: Posted(r, w, d) <==> Posted(fwd, w, d) && d !in ids
    ensures forall w, d :: Posted(r, w, d) ==> Posted(fwd, w, d) && r[w][d] == fwd[w][d]
  {
    map w | w in fwd :: fwd[w] - ids
  }

  lemma RemoveAllStep<W(!new)>(fwd: ForwardIndex<W>, ids: set<int>, id: int)
    ensures RemoveFromIndex(RemoveAllFromIndex(fwd, ids), id) == RemoveAllFromIndex(fwd, ids + {id})
  {
    var a := RemoveFromIndex(RemoveAllFromIndex(fwd, ids), id);
    var b := RemoveAllFromIndex(fwd, ids + {id});
    forall w | w in a
      ensures a[w] == b[w]
    {
      assert a[w] == fwd[w] - ids - {id};
    }
  }

  /** Removing keys one more at a time. */
  lemma MapMinusStep<K, V>(m: map<K, V>, ks: set<K>, k: K)
    ensures (m - ks) - {k} == m - (ks + {k})
  {
  }

  /** Erasing no document changes nothing. */
  lemma RemoveNone<W(!new)>(fwd: ForwardIndex<W>)
    ensures RemoveAllFromIndex(fwd, {}) == fwd
  {
    var r := RemoveAllFromIndex(fwd, {});
    forall w | w in r
      ensures r[w] == fwd[w]
    {
      assert r[w].Keys == fwd[w].Keys;
    }
  }

  /** The same postings with the same frequencies (buckets may differ by empty ones). */
  ghost predicate SamePostings<W(!new)>(f: ForwardIndex<W>, g: ForwardIndex<W>)
  {
    && (forall w, d :: Posted(f, w, d) <==> Posted(g, w, d))
    && (forall w, d :: Posted(f, w, d) ==> f[w][d] == g[w][d])
  }

  /** Adding a document and then removing it restores every other posting. */
  lemma AddThenRemove<W(!new)>(fwd: ForwardIndex<W>, id: int, tf: map<W, real>)
    requires forall w :: w in fwd ==> id !in fwd[w]
    ensures SamePostings(RemoveFromIndex(AddToIndex(fwd, id, tf), id), fwd)
  {
  }

  /** Erasing a document nobody posted changes nothing. */
  lemma RemoveUnposted<W(!new)>(fwd: ForwardIndex<W>, id: int)
    requires forall w :: w in fwd ==> id !in fwd[w]
    ensures RemoveFromIndex(fwd, id) == fwd
  {
    var r := RemoveFromIndex(fwd, id);
    forall w | w in r
      ensures r[w] == fwd[w]
    {
      assert r[w].Keys == fwd[w].Keys;
    }
  }

  /** Posting a new document keeps the two maps mirrored. */
  lemma MirroredAfterAdd<W(!new)>(fwd: ForwardIndex<W>, rev: ReverseIndex<W>, id: int, tf: map<W, real>)
    requires Mirrored(fwd, rev) && id !in rev
    ensures Mirrored(AddToIndex(fwd, id, tf), if tf == map[] then rev else rev[id := tf])
  {
    var f := AddToIndex(fwd, id, tf);
    var r := if tf == map[] then rev else rev[id := tf];
    forall w, d | w in f && d in f[w]
      ensures d in r && w in r[d] && r[d][w] == f[w][d]
    {
      if w in tf && d == id {
      } else {
        assert w in fwd && d in fwd[w];
      }
    }
  }

  /** Erasing a document from both maps keeps them mirrored. */
  lemma MirroredAfterRemove<W(!new)>(fwd: ForwardIndex<W>, rev: ReverseIndex<W>, ids: set<int>)
    requires Mirrored(fwd, rev)
    ensures Mirrored(RemoveAllFromIndex(fwd, ids), rev - ids)
  {
  }
}

/** Ascending enumeration of a set of ids, as iterating a `std::set<int>` gives it. */
module Ids {

  /** A set of ids that is not empty has an element (see `Index.NonEmptyHasWord`). */
  lemma NonEmptyHasElement(s: set<int>)
    requires s != {}
    ensures exists x :: x in s
  {
    if forall x :: x !in s {
      assert false;
    }
  }

  lemma {:induction false} LeastOf(s: set<int>) returns (m: int)
    requires s != {}
    ensures m in s && forall x :: x in s ==> m <= x
    decreases s
  {
    NonEmptyHasElement(s);
    var y :| y in s;
    if s == {y} {
      m := y;
    } else {
      var rest := s - {y};
      var least := LeastOf(rest);
      m := if y < least then y else least;
      forall x | x in s
        ensures m <= x
      {
        if x != y {
          assert x in rest;
        }
      }
    }
  }

  lemma MinExists(s: set<int>)
    requires s != {}
    ensures exists m :: m in s && forall x :: x in s ==> m <= x
  {
    var m := LeastOf(s);
  }

  /** Least element of a non-empty set of ids. */
  function Min(s: set<int>): (m: int)
    requires s != {}
    ensures m in s && forall x :: x in s ==> m <= x
  {
    MinExists(s);
    var m :| m in s && forall x :: x in s ==> m <= x;
    m
  }

  /** A subset is no larger. */
  lemma SubsetSize(a: set<int>, b: set<int>)
    requires a <= b
    ensures |a| <= |b|
  {
    assert b == a + (b - a);
    assert a * (b - a) == {};
  }

  predicate StrictlyIncreasing(s: seq<int>)
  {
    forall i, j :: 0 <= i < j < |s| ==> s[i] < s[j]
  }

  /** The ids of `s` in ascending order, as iterating a `std::set<int>` yields them. */
  function SortedIds(s: set<int>): (r: seq<int>)
    ensures StrictlyIncreasing(r)
    ensures forall x :: x in r <==> x in s
    ensures |r| == |s|
    decreases s
  {
    if s == {} then []
    else
      var m := Min(s);
      [m] + SortedIds(s - {m})
  }
}
