/**
  The selection rules of WordnetDistance: the Penn Treebank to WordNet
  tag mapping, the best-score/mean aggregation of sentence_similarity
  over abstract path similarities, the symmetric average, and the
  first-maximum searches over a corpus and over a list of corpora.
  Tokenising, tagging, synset lookup and path similarity are parameters.
 */
module WordnetDistance {
  import opened Wrappers
  import opened Strings

  // ---------------------------------------------------------------------------
  // penn_to_wn

  /** The simplified WordNet tag of a Penn Treebank tag, by its first letter. */
  function PennToWn(tag: string): (r: Option<char>)
    ensures r.Some? <==> |tag| > 0 && tag[0] in "NVJR"
    ensures r.Some? ==> r.value == (match tag[0] case 'N' => 'n' case 'V' => 'v' case 'J' => 'a' case _ => 'r')
  {
    if StartsWith(tag, "N") then Some('n')
    else if StartsWith(tag, "V") then Some('v')
    else if StartsWith(tag, "J") then Some('a')
    else if StartsWith(tag, "R") then Some('r')
    else None
  }

  /** Tags sharing a first letter map alike: only the first letter counts. */
  lemma PennToWnFirstLetter(t1: string, t2: string)
    requires |t1| > 0 && |t2| > 0 && t1[0] == t2[0]
    ensures PennToWn(t1) == PennToWn(t2)
  {
  }

  // ---------------------------------------------------------------------------
  // sentence_similarity

  /** Python truthiness of a similarity: present and non-zero. */
  predicate Truthy(v: Option<real>) {
    v.Some? && v.value != 0.0
  }

  /** The inner loop: the greatest truthy value above -1, or -1 itself. */
  function BestOf(vals: seq<Option<real>>): real {
    if vals == [] then -1.0
    else
      var b := BestOf(vals[..|vals| - 1]);
      var v := vals[|vals| - 1];
      if Truthy(v) && v.value > b then v.value else b
  }

  /** BestOf is -1 or one of the truthy values, and no truthy value exceeds it. */
  lemma {:induction false} BestOfSpec(vals: seq<Option<real>>)
    ensures BestOf(vals) >= -1.0
    ensures BestOf(vals) == -1.0 || exists j :: 0 <= j < |vals| && Truthy(vals[j]) && vals[j].value == BestOf(vals)
    ensures forall j :: 0 <= j < |vals| && Truthy(vals[j]) ==> vals[j].value <= BestOf(vals) || vals[j].value <= -1.0
  {
    if vals != [] {
      var init := vals[..|vals| - 1];
      BestOfSpec(init);
      assert forall j :: 0 <= j < |init| ==> vals[j] == init[j];
      if BestOf(init) != -1.0 {
        var j :| 0 <= j < |init| && Truthy(init[j]) && init[j].value == BestOf(init);
        assert vals[j] == init[j];
      }
    }
  }

  /** `best_score`, with the -1 sentinel turned into None. */
  function BestScore(vals: seq<Option<real>>): Option<real> {
    var b := BestOf(vals);
    if b == -1.0 then None else Some(b)
  }

  /** A word contributes exactly when one of its similarities is truthy and
      above -1; it then contributes the greatest of them. */
  lemma BestScoreSpec(vals: seq<Option<real>>)
    ensures BestScore(vals).None? <==>
      forall j :: 0 <= j < |vals| && Truthy(vals[j]) ==> vals[j].value <= -1.0
    ensures BestScore(vals).Some? ==>
      && (exists j :: 0 <= j < |vals| && Truthy(vals[j]) && vals[j].value == BestScore(vals).value)
      && (forall j :: 0 <= j < |vals| && Truthy(vals[j]) ==> vals[j].value <= BestScore(vals).value)
  {
    BestOfSpec(vals);
  }

  /** `[ss for ss in synsets if ss]`: the words for which a synset was found, in order. */
  function Present<S>(synsets: seq<Option<S>>): (r: seq<S>)
    ensures |r| <= |synsets|
    ensures forall k :: 0 <= k < |r| ==> Some(r[k]) in synsets
    ensures forall k :: 0 <= k < |synsets| && synsets[k].Some? ==> synsets[k].value in r
  {
    if synsets == [] then []
    else
      var rest := Present(synsets[..|synsets| - 1]);
      assert synsets == synsets[..|synsets| - 1] + [synsets[|synsets| - 1]];
      match synsets[|synsets| - 1]
      case Some(x) => rest + [x]
      case None => rest
  }

  /** The filter exactly: a found synset is kept, a missing one dropped,
      and filtering distributes over concatenation, so order and repeats
      are kept as they are. */
  lemma {:induction false} PresentAppend<S>(a: seq<Option<S>>, b: seq<Option<S>>)
    ensures Present(a + b) == Present(a) + Present(b)
    ensures forall x: S :: Present([Some(x)]) == [x]
    ensures Present<S>([None]) == []
    decreases |b|
  {
    if b == [] {
      assert a + b == a;
    } else {
      var init := b[..|b| - 1];
      PresentAppend(a, init);
      assert (a + b)[..|a + b| - 1] == a + init;
      assert (a + b)[|a + b| - 1] == b[|b| - 1];
    }
    forall x: S
      ensures Present([Some(x)]) == [x]
    {
      assert [Some(x)][..0] == [];
    }
    var none: seq<Option<S>> := [None];
    assert none[..0] == [];
  }

  /** `[synset.path_similarity(ss) for ss in synsets2]` */
  function Vals<S>(synset: S, synsets2: seq<S>, pathSim: (S, S) -> Option<real>): seq<Option<real>>
  {
    seq(|synsets2|, j requires 0 <= j < |synsets2| => pathSim(synset, synsets2[j]))
  }

  /** The best scores of the words of the first sentence that have one, in order. */
  function Contributions<S>(synsets1: seq<S>, synsets2: seq<S>, pathSim: (S, S) -> Option<real>): seq<real> {
    if synsets1 == [] then []
    else
      Contributions(synsets1[..|synsets1| - 1], synsets2, pathSim) +
        match BestScore(Vals(synsets1[|synsets1| - 1], synsets2, pathSim))
        case Some(b) => [b]
        case None => []
  }

  function Sum(xs: seq<real>): real {
    if xs == [] then 0.0 else Sum(xs[..|xs| - 1]) + xs[|xs| - 1]
  }

  /** The directed score: the mean contribution, or 0.0 without any, and
      the Jaccard index instead whenever at most three words contribute. */
  function SentenceScore<S>(synsets1: seq<S>, synsets2: seq<S>, pathSim: (S, S) -> Option<real>, jaccard: real): real {
    var c := Contributions(synsets1, synsets2, pathSim);
    if |c| <= 3 then jaccard
    else Sum(c) / (|c| as real)
  }

  /** sentence_similarity from the tagged words' synsets on: the None filter
      and the aggregation loop, with the Jaccard index as a parameter. */
  method SentenceSimilarity<S>(tagged1: seq<Option<S>>, tagged2: seq<Option<S>>, pathSim: (S, S) -> Option<real>, jaccard: real)
    returns (score: real)
    ensures score == SentenceScore(Present(tagged1), Present(tagged2), pathSim, jaccard)
  {
    var count;
    score, count := SumContributions(Present(tagged1), Present(tagged2), pathSim);
    if count != 0 {
      score := score / (count as real);
    } else {
      score := 0.0;
    }
    if count <= 3 {
      score := jaccard;
    }
  }

  /** The `for synset in synsets1` loop: the total and the number of the
      best scores it adds up. */
  method SumContributions<S>(synsets1: seq<S>, synsets2: seq<S>, pathSim: (S, S) -> Option<real>)
    returns (score: real, count: nat)
    ensures score == Sum(Contributions(synsets1, synsets2, pathSim))
    ensures count == |Contributions(synsets1, synsets2, pathSim)|
  {
    score := 0.0;
    count := 0;
    var i := 0;
    while i < |synsets1|
      invariant 0 <= i <= |synsets1|
      invariant score == Sum(Contributions(synsets1[..i], synsets2, pathSim))
      invariant count == |Contributions(synsets1[..i], synsets2, pathSim)|
    {
      var synset := synsets1[i];
      var vals := Vals(synset, synsets2, pathSim);
      var bestScore := -1.0;
      var j := 0;
      while j < |vals|
        invariant 0 <= j <= |vals|
        invariant bestScore == BestOf(vals[..j])
      {
        assert vals[..j + 1][..j] == vals[..j];
        var val := vals[j];
        if val.Some? && val.value != 0.0 {
          if val.value > bestScore {
            bestScore := val.value;
          }
        }
        j := j + 1;
      }
      assert vals[..|vals|] == vals;
      var best := if bestScore == -1.0 then None else Some(bestScore);
      assert synsets1[..i + 1][..i] == synsets1[..i];
      ghost var before := Contributions(synsets1[..i], synsets2, pathSim);
      if best.Some? {
        assert Contributions(synsets1[..i + 1], synsets2, pathSim) == before + [best.value];
        assert (before + [best.value])[..|before|] == before;
        score := score + best.value;
        count := count + 1;
      } else {
        assert Contributions(synsets1[..i + 1], synsets2, pathSim) == before;
      }
      i := i + 1;
    }
    assert synsets1[..|synsets1|] == synsets1;
  }

  /** Every contribution of similarities within [0, 1] lies in (0, 1]. */
  lemma {:induction false} ContributionsBounds<S>(synsets1: seq<S>, synsets2: seq<S>, pathSim: (S, S) -> Option<real>)
    requires forall a, b :: pathSim(a, b).Some? ==> 0.0 <= pathSim(a, b).value <= 1.0
    ensures forall k :: 0 <= k < |Contributions(synsets1, synsets2, pathSim)| ==>
      0.0 < Contributions(synsets1, synsets2, pathSim)[k] <= 1.0
  {
    if synsets1 != [] {
      var init := synsets1[..|synsets1| - 1];
      var vals := Vals(synsets1[|synsets1| - 1], synsets2, pathSim);
      ContributionsBounds(init, synsets2, pathSim);
      BestScoreSpec(vals);
    }
  }

  lemma {:induction false} SumBounds(xs: seq<real>)
    requires forall k :: 0 <= k < |xs| ==> 0.0 < xs[k] <= 1.0
    ensures 0.0 <= Sum(xs) <= |xs| as real
  {
    if xs != [] {
      SumBounds(xs[..|xs| - 1]);
    }
  }

  /** A total between 0 and `n`, divided by `n`, lies in [0, 1]. */
  lemma MeanBounds(total: real, n: real)
    requires n > 0.0 && 0.0 <= total <= n
    ensures 0.0 <= total / n <= 1.0
  {
    var q := total / n;
    assert q * n == total;
    assert (1.0 - q) * n == n - total;
  }

  /** The directed score lies in [0, 1] when similarities and the Jaccard index do. */
  lemma SentenceScoreBounds<S>(synsets1: seq<S>, synsets2: seq<S>, pathSim: (S, S) -> Option<real>, jaccard: real)
    requires forall a, b :: pathSim(a, b).Some? ==> 0.0 <= pathSim(a, b).value <= 1.0
    requires 0.0 <= jaccard <= 1.0
    ensures 0.0 <= SentenceScore(synsets1, synsets2, pathSim, jaccard) <= 1.0
  {
    var c := Contributions(synsets1, synsets2, pathSim);
    ContributionsBounds(synsets1, synsets2, pathSim);
    SumBounds(c);
    if |c| > 3 {
      MeanBounds(Sum(c), |c| as real);
    }
  }

  // ---------------------------------------------------------------------------
  // symmetric_sentence_similarity

  /** The mean of the two directed scores. */
  function Symmetric(sim: (string, string) -> real, a: string, b: string): real {
    (sim(a, b) + sim(b, a)) / 2.0
  }

  /** The symmetric score does not depend on argument order and lies between
      the two directed scores; so directed scores in [0, 1] keep it in [0, 1]. */
  lemma SymmetricSpec(sim: (string, string) -> real, a: string, b: string)
    ensures Symmetric(sim, a, b) == Symmetric(sim, b, a)
    ensures Symmetric(sim, a, b) <= sim(a, b) || Symmetric(sim, a, b) <= sim(b, a)
    ensures Symmetric(sim, a, b) >= sim(a, b) || Symmetric(sim, a, b) >= sim(b, a)
    ensures 0.0 <= sim(a, b) <= 1.0 && 0.0 <= sim(b, a) <= 1.0 ==> 0.0 <= Symmetric(sim, a, b) <= 1.0
  {
  }

  // ---------------------------------------------------------------------------
  // max_in_corpus and find_corpus

  /** What raises: `corpus[0]` of an empty corpus, and the final check of find_corpus. */
  datatype CorpusError = IndexError | AllDistancesZero

  /** The greatest symmetric score of the sentence against a corpus entry. */
  function MaxScore(sim: (string, string) -> real, sentence: string, corpus: seq<string>): real
    requires |corpus| > 0
  {
    if |corpus| == 1 then Symmetric(sim, sentence, corpus[0])
    else
      var m := MaxScore(sim, sentence, corpus[..|corpus| - 1]);
      var v := Symmetric(sim, sentence, corpus[|corpus| - 1]);
      if v > m then v else m
  }

  /** MaxScore is attained by some entry and bounds every entry. */
  lemma {:induction false} MaxScoreSpec(sim: (string, string) -> real, sentence: string, corpus: seq<string>)
    requires |corpus| > 0
    ensures exists k :: 0 <= k < |corpus| && Symmetric(sim, sentence, corpus[k]) == MaxScore(sim, sentence, corpus)
    ensures forall k :: 0 <= k < |corpus| ==> Symmetric(sim, sentence, corpus[k]) <= MaxScore(sim, sentence, corpus)
  {
    if |corpus| > 1 {
      var init := corpus[..|corpus| - 1];
      MaxScoreSpec(sim, sentence, init);
      assert forall k :: 0 <= k < |init| ==> corpus[k] == init[k];
      var k :| 0 <= k < |init| && Symmetric(sim, sentence, init[k]) == MaxScore(sim, sentence, init);
      assert corpus[k] == init[k];
      if Symmetric(sim, sentence, corpus[|corpus| - 1]) > MaxScore(sim, sentence, init) {
        assert Symmetric(sim, sentence, corpus[|corpus| - 1]) == MaxScore(sim, sentence, corpus);
      } else {
        assert Symmetric(sim, sentence, corpus[k]) == MaxScore(sim, sentence, corpus);
      }
    } else {
      assert Symmetric(sim, sentence, corpus[0]) == MaxScore(sim, sentence, corpus);
    }
  }

  /** max_in_corpus: the earliest entry with the greatest symmetric score. */
  method MaxInCorpus(sim: (string, string) -> real, sentence: string, corpus: seq<string>)
    returns (r: Result<(nat, real), CorpusError>)
    ensures r.Failure? <==> |corpus| == 0
    ensures r.Failure? ==> r.error == IndexError
    ensures r.Success? ==>
      var (ind, val) := r.value;
      && ind < |corpus|
      && val == Symmetric(sim, sentence, corpus[ind])
      && val == MaxScore(sim, sentence, corpus)
      && (forall k :: 0 <= k < |corpus| ==> Symmetric(sim, sentence, corpus[k]) <= val)
      && (forall k :: 0 <= k < ind ==> Symmetric(sim, sentence, corpus[k]) < val)
  {
    if |corpus| == 0 {
      return Failure(IndexError);
    }
    var maxVal := Symmetric(sim, sentence, corpus[0]);
    var maxInd: nat := 0;
    var i := 0;
    while i < |corpus|
      invariant 0 <= i <= |corpus|
      invariant maxInd < |corpus| && maxInd <= i
      invariant maxVal == Symmetric(sim, sentence, corpus[maxInd])
      invariant forall k :: 0 <= k < i ==> Symmetric(sim, sentence, corpus[k]) <= maxVal
      invariant forall k :: 0 <= k < maxInd ==> Symmetric(sim, sentence, corpus[k]) < maxVal
      invariant i > 0 ==> maxVal == MaxScore(sim, sentence, corpus[..i])
    {
      var val := Symmetric(sim, sentence, corpus[i]);
      assert corpus[..i + 1][..i] == corpus[..i];
      if val > maxVal {
        maxVal := val;
        maxInd := i;
      }
      i := i + 1;
    }
    assert corpus[..|corpus|] == corpus;
    return Success((maxInd, maxVal));
  }

  /** Some corpus of the list is empty, so `corpus[0]` raises on it. */
  predicate SomeEmpty(corpusList: seq<seq<string>>) {
    exists k :: 0 <= k < |corpusList| && |corpusList[k]| == 0
  }

  /** find_corpus: the earliest corpus whose best score is strictly the
      greatest and above 0; an empty corpus raises IndexError, and so does
      every best score being at most 0 (including no corpora at all). */
  method FindCorpus(sim: (string, string) -> real, sentence: string, corpusList: seq<seq<string>>)
    returns (r: Result<(nat, real), CorpusError>)
    ensures r == Failure(IndexError) <==> SomeEmpty(corpusList)
    ensures r == Failure(AllDistancesZero) <==>
      !SomeEmpty(corpusList) && forall k :: 0 <= k < |corpusList| ==> MaxScore(sim, sentence, corpusList[k]) <= 0.0
    ensures r.Success? ==>
      var (index, value) := r.value;
      && index < |corpusList|
      && value == MaxScore(sim, sentence, corpusList[index])
      && value > 0.0
      && (forall k :: 0 <= k < |corpusList| ==> MaxScore(sim, sentence, corpusList[k]) <= value)
      && (forall k :: 0 <= k < index ==> MaxScore(sim, sentence, corpusList[k]) < value)
  {
    var maxVal := 0.0;
    var maxIndex := -1;
    var i := 0;
    while i < |corpusList|
      invariant 0 <= i <= |corpusList|
      invariant forall k :: 0 <= k < i ==> |corpusList[k]| > 0
      invariant -1 <= maxIndex < i
      invariant maxIndex == -1 ==> maxVal == 0.0 && forall k :: 0 <= k < i ==> MaxScore(sim, sentence, corpusList[k]) <= 0.0
      invariant maxIndex >= 0 ==>
        && maxVal == MaxScore(sim, sentence, corpusList[maxIndex])
        && maxVal > 0.0
        && (forall k :: 0 <= k < i ==> MaxScore(sim, sentence, corpusList[k]) <= maxVal)
        && (forall k :: 0 <= k < maxIndex ==> MaxScore(sim, sentence, corpusList[k]) < maxVal)
    {
      var res := MaxInCorpus(sim, sentence, corpusList[i]);
      if res.Failure? {
        return Failure(IndexError);
      }
      var (ind, dist) := res.value;
      if dist > maxVal {
        maxVal := dist;
        maxIndex := i;
      }
      i := i + 1;
    }
    if maxIndex == -1 {
      return Failure(AllDistancesZero);
    }
    return Success((maxIndex as nat, maxVal));
  }
}
