/**
 * Classifier loading, scoring and top-N selection of classify.py.
 *
 * `GenerateOptions` loads the classifier named in the arguments (failing
 * before any snip is scored when the name is unknown), refuses sub-function
 * mode, scores every candidate function once in input order, sorts the
 * (snip, score) pairs by score descending with a stable sort, and keeps
 * the snips of Python's slice `[:N]` of that order.
 */
module Classify {
  import opened Wrappers

  /** The exception classify.py raises for what it does not implement. */
  datatype Error = Unimplemented

  /** The classifiers classify.py knows: only the constant one. */
  datatype Classifier = DefaultClassifier

  /** The command-line options `generate_options` reads. */
  datatype Args = Args(classificationMode: string, subFunction: bool, numberToGenerate: int)

  /** A candidate snip with its score. */
  type Scored<S> = (S, real)

  /** Likelihood of usefulness of `code`, between 0 and 1; the default classifier says 1 for everything. */
  function Score<S>(c: Classifier, code: S): (r: real)
    ensures 0.0 <= r <= 1.0
    ensures c == DefaultClassifier ==> r == 1.0
  {
    match c
    case DefaultClassifier => 1.0
  }

  /** The classifier called `mode`; any other name is not implemented. */
  function LoadClassifier(mode: string): (r: Result<Classifier, Error>)
    ensures r.Success? <==> mode == "DefaultClassifier"
    ensures r.Failure? ==> r.error == Unimplemented
  {
    if mode == "DefaultClassifier" then Success(DefaultClassifier) else Failure(Unimplemented)
  }

  /** The pairs of `snips` with their scores, in input order. */
  ghost function ScoredPairs<S>(c: Classifier, snips: seq<S>): seq<Scored<S>>
  {
    seq(|snips|, i requires 0 <= i < |snips| => (snips[i], Score(c, snips[i])))
  }

  /** Scores every snip exactly once and records the pairs in input order. */
  method ScoreAll<S>(c: Classifier, snips: seq<S>) returns (pairs: seq<Scored<S>>)
    ensures |pairs| == |snips|
    ensures forall i :: 0 <= i < |snips| ==> pairs[i] == (snips[i], Score(c, snips[i]))
  {
    pairs := [];
    for k := 0 to |snips|
      invariant |pairs| == k
      invariant forall i :: 0 <= i < k ==> pairs[i] == (snips[i], Score(c, snips[i]))
    {
      var score := Score(c, snips[k]);
      pairs := pairs + [(snips[k], score)];
    }
  }

  /** Scores never increase along `s`. */
  ghost predicate Descending<S>(s: seq<Scored<S>>)
  {
    forall i, j :: 0 <= i < j < |s| ==> s[i].1 >= s[j].1
  }

  /** The elements of `s` that have score `v`, in their order in `s`. */
  function WithScore<S>(s: seq<Scored<S>>, v: real): seq<Scored<S>>
  {
    if s == [] then []
    else (if s[0].1 == v then [s[0]] else []) + WithScore(s[1..], v)
  }

  /** Places `p` after the entries scoring strictly more, before all others. */
  function InsertByScore<S>(p: Scored<S>, ranked: seq<Scored<S>>): seq<Scored<S>>
  {
    if ranked == [] || ranked[0].1 <= p.1 then [p] + ranked
    else [ranked[0]] + InsertByScore(p, ranked[1..])
  }

  /** `sorted(pairs, key=score, reverse=True)`: by score descending, ties in input order. */
  function RankByScore<S>(pairs: seq<Scored<S>>): seq<Scored<S>>
  {
    if pairs == [] then [] else InsertByScore(pairs[0], RankByScore(pairs[1..]))
  }

  function Min(a: int, b: int): int { if a <= b then a else b }

  /**
   * Python's `s[:n]`: the first `n` elements when `n` is not negative, and
   * otherwise all but the last `-n` (nothing when `-n` exceeds the length).
   */
  function PrefixSlice<X>(s: seq<X>, n: int): (r: seq<X>)
    ensures r <= s
    ensures n >= 0 ==> |r| == Min(n, |s|)
    ensures n < 0 ==> |r| + Min(-n, |s|) == |s|
  {
    if n >= 0 then s[..Min(n, |s|)] else s[..|s| - Min(-n, |s|)]
  }

  /** The snips of a list of pairs: `[snip[0] for snip in ...]`. */
  function Names<S>(pairs: seq<Scored<S>>): seq<S>
  {
    if pairs == [] then [] else [pairs[0].0] + Names(pairs[1..])
  }

  /** What `generate_options` returns for scored pairs `pairs` and count `n`. */
  function TopN<S>(pairs: seq<Scored<S>>, n: int): seq<S>
  {
    Names(PrefixSlice(RankByScore(pairs), n))
  }

  lemma {:induction false} InsertByScorePermutes<S>(p: Scored<S>, ranked: seq<Scored<S>>)
    ensures multiset(InsertByScore(p, ranked)) == multiset(ranked) + multiset{p}
  {
    if ranked != [] && ranked[0].1 > p.1 {
      InsertByScorePermutes(p, ranked[1..]);
      assert ranked == [ranked[0]] + ranked[1..];
    }
  }

  lemma {:induction false} InsertByScoreNames<S>(p: Scored<S>, ranked: seq<Scored<S>>)
    ensures multiset(Names(InsertByScore(p, ranked))) == multiset(Names(ranked)) + multiset{p.0}
  {
    if ranked == [] || ranked[0].1 <= p.1 {
      assert ([p] + ranked)[1..] == ranked;
    } else {
      var rest := InsertByScore(p, ranked[1..]);
      InsertByScoreNames(p, ranked[1..]);
      assert ([ranked[0]] + rest)[1..] == rest;
    }
  }

  lemma {:induction false} InsertByScoreWithScore<S>(p: Scored<S>, ranked: seq<Scored<S>>, v: real)
    ensures WithScore(InsertByScore(p, ranked), v) == (if p.1 == v then [p] else []) + WithScore(ranked, v)
  {
    var mine: seq<Scored<S>> := if p.1 == v then [p] else [];
    if ranked == [] || ranked[0].1 <= p.1 {
      assert ([p] + ranked)[1..] == ranked;
    } else {
      var head: seq<Scored<S>> := if ranked[0].1 == v then [ranked[0]] else [];
      var rest := InsertByScore(p, ranked[1..]);
      InsertByScoreWithScore(p, ranked[1..], v);
      assert ([ranked[0]] + rest)[1..] == rest;
      calc {
        WithScore(InsertByScore(p, ranked), v);
        WithScore([ranked[0]] + rest, v);
        head + WithScore(rest, v);
        head + (mine + WithScore(ranked[1..], v));
        { assert head == [] || mine == []; }
        mine + (head + WithScore(ranked[1..], v));
        mine + WithScore(ranked, v);
      }
    }
  }

  lemma {:induction false} InsertByScoreDescending<S>(p: Scored<S>, ranked: seq<Scored<S>>)
    requires Descending(ranked)
    ensures Descending(InsertByScore(p, ranked))
  {
    if ranked != [] && ranked[0].1 > p.1 {
      var rest := InsertByScore(p, ranked[1..]);
      InsertByScoreDescending(p, ranked[1..]);
      InsertByScorePermutes(p, ranked[1..]);
      forall j | 0 <= j < |rest| ensures ranked[0].1 >= rest[j].1 {
        assert rest[j] in multiset(rest);
      }
    }
  }

  lemma {:induction false} RankDescending<S>(pairs: seq<Scored<S>>)
    ensures Descending(RankByScore(pairs))
  {
    if pairs != [] {
      RankDescending(pairs[1..]);
      InsertByScoreDescending(pairs[0], RankByScore(pairs[1..]));
    }
  }

  lemma {:induction false} RankPermutes<S>(pairs: seq<Scored<S>>)
    ensures multiset(RankByScore(pairs)) == multiset(pairs)
    ensures multiset(Names(RankByScore(pairs))) == multiset(Names(pairs))
  {
    if pairs != [] {
      RankPermutes(pairs[1..]);
      assert pairs == [pairs[0]] + pairs[1..];
      InsertByScorePermutes(pairs[0], RankByScore(pairs[1..]));
      InsertByScoreNames(pairs[0], RankByScore(pairs[1..]));
    }
  }

  lemma {:induction false} RankKeepsTies<S>(pairs: seq<Scored<S>>, v: real)
    ensures WithScore(RankByScore(pairs), v) == WithScore(pairs, v)
  {
    if pairs != [] {
      RankKeepsTies(pairs[1..], v);
      InsertByScoreWithScore(pairs[0], RankByScore(pairs[1..]), v);
    }
  }

  /**
   * Ranking returns a permutation of its input, sorted by score descending,
   * in which the entries of equal score keep their input order (a stable
   * sort); these three facts determine the result.
   */
  lemma RankIsStableSort<S>(pairs: seq<Scored<S>>)
    ensures Descending(RankByScore(pairs))
    ensures multiset(RankByScore(pairs)) == multiset(pairs)
    ensures multiset(Names(RankByScore(pairs))) == multiset(Names(pairs))
    ensures forall v :: WithScore(RankByScore(pairs), v) == WithScore(pairs, v)
  {
    RankDescending(pairs);
    RankPermutes(pairs);
    forall v ensures WithScore(RankByScore(pairs), v) == WithScore(pairs, v) {
      RankKeepsTies(pairs, v);
    }
  }

  /** When every entry has the same score, ranking keeps the input order. */
  lemma {:induction false} EqualScoresKeepOrder<S>(pairs: seq<Scored<S>>, v: real)
    requires forall i :: 0 <= i < |pairs| ==> pairs[i].1 == v
    ensures RankByScore(pairs) == pairs
  {
    if pairs != [] {
      EqualScoresKeepOrder(pairs[1..], v);
      assert pairs == [pairs[0]] + pairs[1..];
    }
  }

  lemma {:induction false} NamesAppend<S>(a: seq<Scored<S>>, b: seq<Scored<S>>)
    ensures Names(a + b) == Names(a) + Names(b)
  {
    if a == [] {
      assert a + b == b;
    } else {
      assert (a + b)[1..] == a[1..] + b;
      NamesAppend(a[1..], b);
    }
  }

  lemma {:induction false} NamesLength<S>(a: seq<Scored<S>>)
    ensures |Names(a)| == |a|
    ensures forall i :: 0 <= i < |a| ==> Names(a)[i] == a[i].0
  {
    if a != [] {
      NamesLength(a[1..]);
    }
  }

  /** A prefix of a descending sequence is descending and outscores the rest. */
  lemma DescendingPrefix<S>(s: seq<Scored<S>>, m: nat)
    requires Descending(s)
    requires m <= |s|
    ensures Descending(s[..m])
    ensures forall i, j :: 0 <= i < m <= j < |s| ==> s[i].1 >= s[j].1
  {
  }

  /** The snips of a prefix are drawn from the snips of the whole. */
  lemma NamesOfPrefix<S>(s: seq<Scored<S>>, m: nat)
    requires m <= |s|
    ensures multiset(Names(s[..m])) <= multiset(Names(s))
  {
    assert s == s[..m] + s[m..];
    NamesAppend(s[..m], s[m..]);
  }

  /**
   * The selection: its scores never increase, every selected score is at
   * least every unselected one, and its snips are drawn from the input
   * without repetition (a sub-multiset of the input snips).
   */
  lemma SelectionIsBestFirst<S>(pairs: seq<Scored<S>>, n: int)
    ensures var ranked := RankByScore(pairs);
            var chosen := PrefixSlice(ranked, n);
            && Descending(chosen)
            && (forall i, j :: 0 <= i < |chosen| <= j < |ranked| ==> ranked[i].1 >= ranked[j].1)
            && multiset(TopN(pairs, n)) <= multiset(Names(pairs))
  {
    var ranked := RankByScore(pairs);
    var chosen := PrefixSlice(ranked, n);
    assert chosen == ranked[..|chosen|];
    RankDescending(pairs);
    DescendingPrefix(ranked, |chosen|);
    RankPermutes(pairs);
    NamesOfPrefix(ranked, |chosen|);
  }

  /**
   * With the default classifier every score is 1.0, so `generate_options`
   * returns Python's slice `[:N]` of the candidates in their input order.
   */
  lemma DefaultSelectsInputPrefix<S>(snips: seq<S>, n: int)
    ensures TopN(ScoredPairs(DefaultClassifier, snips), n) == PrefixSlice(snips, n)
  {
    var pairs := ScoredPairs(DefaultClassifier, snips);
    EqualScoresKeepOrder(pairs, 1.0);
    var chosen := PrefixSlice(pairs, n);
    NamesLength(chosen);
  }

  /**
   * `generate_options` for the candidate functions `functions`: fails with
   * Unimplemented for an unknown classifier name (before any scoring) and in
   * sub-function mode; otherwise returns the top `numberToGenerate`, which
   * under the default classifier is the first `numberToGenerate` candidates
   * in input order (Python's `functions[:numberToGenerate]`).
   */
  method GenerateOptions<S>(args: Args, functions: seq<S>) returns (r: Result<seq<S>, Error>)
    ensures r.Failure? <==> args.classificationMode != "DefaultClassifier" || args.subFunction
    ensures r.Failure? ==> r.error == Unimplemented
    ensures r.Success? ==> r.value == TopN(ScoredPairs(DefaultClassifier, functions), args.numberToGenerate)
    ensures r.Success? ==> r.value == PrefixSlice(functions, args.numberToGenerate)
  {
    var loaded := LoadClassifier(args.classificationMode);
    if loaded.Failure? {
      return Failure(loaded.error);
    }
    var classifier := loaded.value;
    if args.subFunction {
      return Failure(Unimplemented);
    }
    var snips := functions;
    var pairs := ScoreAll(classifier, snips);
    assert pairs == ScoredPairs(classifier, snips);
    var ranked := RankByScore(pairs);
    r := Success(Names(PrefixSlice(ranked, args.numberToGenerate)));
    DefaultSelectsInputPrefix(functions, args.numberToGenerate);
  }
}
