/**
 * The tokenizer (`SplitIntoWords`) and the stop-word set builder
 * (`MakeUniqueNonEmptyStrings`).
 */
module StringProcessing {

  /** `tokens` glued back together with one `' '` between neighbours. */
  function Join(tokens: seq<string>): string
  {
    if |tokens| == 0 then ""
    else if |tokens| == 1 then tokens[0]
    else tokens[0] + " " + Join(tokens[1..])
  }

  /** No token holds a space. */
  predicate SpaceFree(tokens: seq<string>)
  {
    forall i :: 0 <= i < |tokens| ==> ' ' !in tokens[i]
  }

  /** `str.find(' ')`, with `|s|` standing for `npos`. */
  function FindSpace(s: string): (k: nat)
    ensures k <= |s|
    ensures k < |s| ==> s[k] == ' '
    ensures ' ' !in s[..k]
  {
    if |s| == 0 then 0
    else if s[0] == ' ' then 0
    else
      var k := 1 + FindSpace(s[1..]);
      assert s[..k] == [s[0]] + s[1..][..k - 1];
      k
  }

  /**
   * The tokens `SplitIntoWords` returns: the maximal space-free slices
   * between single spaces, empty ones included, read one char at a time.
   */
  function Words(s: string): (r: seq<string>)
    ensures |r| >= 1
  {
    if s == [] then [""]
    else
      var tail := Words(s[1..]);
      if s[0] == ' ' then [""] + tail else [[s[0]] + tail[0]] + tail[1..]
  }

  /** No token holds a space. */
  lemma {:induction false} WordsSpaceFree(s: string)
    ensures SpaceFree(Words(s))
  {
    if s != [] {
      var tail := Words(s[1..]);
      WordsSpaceFree(s[1..]);
      var r := Words(s);
      if s[0] != ' ' {
        assert r[0] == [s[0]] + tail[0];
        assert forall i :: 1 <= i < |r| ==> r[i] == tail[i];
      } else {
        assert forall i :: 1 <= i < |r| ==> r[i] == tail[i - 1];
      }
    }
  }

  /** Joining the tokens gives the input back. */
  lemma {:induction false} WordsJoin(s: string)
    ensures Join(Words(s)) == s
  {
    if s != [] {
      var tail := Words(s[1..]);
      WordsJoin(s[1..]);
      if s[0] == ' ' {
        assert ([""] + tail)[1..] == tail;
        assert s == [' '] + s[1..];
      } else {
        JoinPrepend([s[0]], tail[0], tail[1..]);
        assert [tail[0]] + tail[1..] == tail;
        assert s == [s[0]] + s[1..];
      }
    }
  }

  /** Gluing `x` to the front of the first token glues it to the front of the joined string. */
  lemma JoinPrepend(x: string, first: string, rest: seq<string>)
    ensures Join([x + first] + rest) == x + Join([first] + rest)
  {
    if rest != [] {
      var tail := Join(rest);
      assert ([x + first] + rest)[1..] == rest;
      assert ([first] + rest)[1..] == rest;
      assert (x + first) + " " + tail == x + (first + " " + tail);
    }
  }

  /** One more space-free token in front of a non-empty list. */
  lemma JoinCons(t: string, rest: seq<string>)
    requires ' ' !in t && |rest| >= 1 && SpaceFree(rest)
    ensures SpaceFree([t] + rest)
    ensures Join([t] + rest) == t + " " + Join(rest)
  {
    var x := [t] + rest;
    assert x[0] == t && x[1..] == rest;
    assert forall i :: 1 <= i < |x| ==> x[i] == rest[i - 1];
  }

  /** The first token of `s` runs up to its first space: the step of the `SplitIntoWords` loop. */
  lemma {:induction false} WordsUnfold(s: string)
    ensures FindSpace(s) == |s| ==> Words(s) == [s]
    ensures FindSpace(s) < |s| ==> Words(s) == [s[..FindSpace(s)]] + Words(s[FindSpace(s) + 1..])
  {
    if s != [] && s[0] != ' ' {
      var t := s[1..];
      WordsUnfold(t);
      var k := FindSpace(t);
      assert FindSpace(s) == k + 1;
      if k < |t| {
        assert [s[0]] + t[..k] == s[..k + 1];
        assert t[k + 1..] == s[k + 2..];
      } else {
        assert [s[0]] + t == s;
      }
    }
  }

  /**
   * Splitting is the inverse of joining: any non-empty list of space-free
   * tokens that joins to `s` is `Words(s)`.
   */
  lemma {:induction false} WordsUnique(tokens: seq<string>, s: string)
    requires |tokens| >= 1 && SpaceFree(tokens) && Join(tokens) == s
    ensures tokens == Words(s)
    decreases |tokens|
  {
    var k := FindSpace(s);
    if |tokens| == 1 {
      assert s == tokens[0];
      assert forall j :: 0 <= j < |s| ==> s[j] in tokens[0];
      WordsUnfold(s);
    } else {
      var t := tokens[0];
      assert s == t + " " + Join(tokens[1..]);
      assert s[|t|] == ' ';
      assert s[..|t|] == t;
      assert k == |t|;
      assert s[k + 1..] == Join(tokens[1..]);
      WordsUnique(tokens[1..], s[k + 1..]);
      assert s[..k] == t;
      WordsUnfold(s);
    }
  }

  /** Splitting a string at one of its spaces splits its tokens there. */
  lemma WordsAppend(a: string, b: string)
    ensures Words(a + " " + b) == Words(a) + Words(b)
  {
    var tokens := Words(a) + Words(b);
    WordsJoin(a);
    WordsJoin(b);
    WordsSpaceFree(a);
    WordsSpaceFree(b);
    JoinAppend(Words(a), Words(b));
    WordsUnique(tokens, a + " " + b);
  }

  lemma {:induction false} JoinAppend(x: seq<string>, y: seq<string>)
    requires |x| >= 1 && |y| >= 1
    ensures SpaceFree(x) && SpaceFree(y) ==> SpaceFree(x + y)
    ensures Join(x + y) == Join(x) + " " + Join(y)
    decreases |x|
  {
    if |x| == 1 {
      assert (x + y)[1..] == y;
    } else {
      assert (x + y)[1..] == x[1..] + y;
      JoinAppend(x[1..], y);
    }
  }

  /** Number of spaces in `s`. */
  function SpaceCount(s: string): nat
  {
    if |s| == 0 then 0 else (if s[0] == ' ' then 1 else 0) + SpaceCount(s[1..])
  }

  /** There is exactly one token more than there are spaces. */
  lemma {:induction false} WordsCount(s: string)
    ensures |Words(s)| == SpaceCount(s) + 1
  {
    if s != [] {
      WordsCount(s[1..]);
    }
  }

  /** A string without a space is a single token. */
  lemma {:induction false} WordsOfSpaceFree(t: string)
    requires ' ' !in t
    ensures Words(t) == [t]
  {
    if t != [] {
      assert t[0] in t;
      assert forall c :: c in t[1..] ==> c in t;
      WordsOfSpaceFree(t[1..]);
      assert [t[0]] + t[1..] == t;
    }
  }

  /** Empty input gives one empty token. */
  lemma WordsOfEmpty()
    ensures Words("") == [""]
  {
  }

  /** A leading space gives an empty first token. */
  lemma WordsLeadingSpace(s: string)
    ensures Words(" " + s) == [""] + Words(s)
  {
    WordsAppend("", s);
    assert "" + " " + s == " " + s;
  }

  /** A trailing space gives an empty last token. */
  lemma WordsTrailingSpace(s: string)
    ensures Words(s + " ") == Words(s) + [""]
  {
    WordsAppend(s, "");
    assert s + " " + "" == s + " ";
  }

  /** Two consecutive spaces give an empty token between them. */
  lemma WordsDoubleSpace(a: string, b: string)
    ensures Words(a + "  " + b) == Words(a) + [""] + Words(b)
  {
    var c := " " + b;
    var x := a + " " + c;
    assert x == a + "  " + b by {
      assert |x| == |a + "  " + b|;
      forall i | 0 <= i < |x| ensures x[i] == (a + "  " + b)[i] {
      }
    }
    WordsLeadingSpace(b);
    WordsAppend(a, c);
  }

  /** The tokens found so far, the one just cut off and those still to come. */
  lemma SplitStep(result: seq<string>, token: string, later: seq<string>)
    ensures result + ([token] + later) == (result + [token]) + later
  {
  }

  /** `SplitIntoWords`: the `string_view` loop, proved to return `Words(s)`. */
  method SplitIntoWords(s: string) returns (result: seq<string>)
    ensures result == Words(s)
  {
    var str := s;
    result := [];
    while true
      invariant Words(s) == result + Words(str)
      decreases |str|
    {
      var space := FindSpace(str);
      WordsUnfold(str);
      if space == |str| {
        result := result + [str];
        break;
      }
      SplitStep(result, str[..space], Words(str[space + 1..]));
      result := result + [str[..space]];
      str := str[space + 1..];
    }
  }

  /** The elements of `MakeUniqueNonEmptyStrings(strings)`. */
  function UniqueNonEmpty(strings: seq<string>): set<string>
  {
    set s | s in strings && s != ""
  }

  /** `MakeUniqueNonEmptyStrings`: the set of the non-empty input strings. */
  method MakeUniqueNonEmptyStrings(strings: seq<string>) returns (nonEmptyStrings: set<string>)
    ensures "" !in nonEmptyStrings
    ensures forall s :: s in nonEmptyStrings <==> s in strings && s != ""
  {
    nonEmptyStrings := {};
    for i := 0 to |strings|
      invariant forall s :: s in nonEmptyStrings <==> s in strings[..i] && s != ""
    {
      if strings[i] != "" {
        nonEmptyStrings := nonEmptyStrings + {strings[i]};
      }
      assert strings[..i + 1] == strings[..i] + [strings[i]];
    }
    assert strings[..|strings|] == strings;
  }

  /** Building the set from any listing of a built set gives that set again. */
  lemma UniqueNonEmptyIdempotent(strings: seq<string>, listing: seq<string>)
    requires forall s :: s in listing <==> s in UniqueNonEmpty(strings)
    ensures UniqueNonEmpty(listing) == UniqueNonEmpty(strings)
  {
  }
}
