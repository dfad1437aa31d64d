/**
 * The discrete parts of the dependency parser's `syntax/network.py`:
 * head-accuracy evaluation (`evaluate_heads`) and the character-row
 * encoder of words (`StrangeSyntacticParser._recode`).
 */
module Network {
  import opened Wrappers

  // ---------------------------------------------------------------------
  // Head-accuracy evaluation
  // ---------------------------------------------------------------------

  /** A ratio `num / den` kept as its two integers (den > 0 when produced). */
  datatype Ratio = Ratio(num: nat, den: nat)

  /**
   * The six values `evaluate_heads` returns: correct words, compared words,
   * word accuracy, exactly matched sentences, gold sentences, sentence accuracy.
   */
  datatype Scores = Scores(corr: nat, total: nat, wordAccuracy: Ratio,
                           corrSents: nat, sents: nat, sentAccuracy: Ratio)

  /** `ValueError("Different sentence lengths.")` and the `ZeroDivisionError` of the ratios. */
  datatype EvalError = DifferentLengths | ZeroDivision

  /** The running counters after some prefix of the zipped sentence pairs. */
  datatype Counts = Counts(corr: nat, total: nat, corrSents: nat)

  function Min(a: nat, b: nat): nat { if a <= b then a else b }

  /**
   * The gold sentence as it is compared with the prediction: with its boundary
   * entries stripped when it is exactly two longer, and None when the lengths
   * still differ.
   */
  function Compared(gold: seq<int>, pred: seq<int>): (r: Option<seq<int>>)
    ensures r.Some? <==> |gold| == |pred| || |gold| == |pred| + 2
    ensures r.Some? ==> |r.value| == |pred|
    ensures |gold| == |pred| ==> r == Some(gold)
  {
    var g := if |gold| == |pred| + 2 then gold[1..|gold| - 1] else gold;
    if |g| == |pred| then Some(g) else None
  }

  /** A gold sentence two longer than its prediction loses exactly its first and last entries. */
  lemma {:induction false} ComparedStripsBoundary(gold: seq<int>, pred: seq<int>)
    requires |gold| == |pred| + 2
    ensures Compared(gold, pred).Some?
    ensures gold == [gold[0]] + Compared(gold, pred).value + [gold[|gold| - 1]]
  {
    assert gold == [gold[0]] + gold[1..|gold| - 1] + [gold[|gold| - 1]];
  }

  /** Number of positions below `n` at which two equally long head sequences agree. */
  function MatchCount(xs: seq<int>, ys: seq<int>, n: nat): (r: nat)
    requires |xs| == |ys| && n <= |xs|
    ensures r <= n
  {
    if n == 0 then 0
    else MatchCount(xs, ys, n - 1) + (if xs[n - 1] == ys[n - 1] then 1 else 0)
  }

  /** Every position below `n` is counted exactly when the sequences agree on all of them. */
  lemma {:induction false} MatchCountFull(xs: seq<int>, ys: seq<int>, n: nat)
    requires |xs| == |ys| && n <= |xs|
    ensures MatchCount(xs, ys, n) == n <==> forall k :: 0 <= k < n ==> xs[k] == ys[k]
  {
    if n > 0 {
      MatchCountFull(xs, ys, n - 1);
    }
  }

  /** Sum of the lengths of the first `n` sentences. */
  function SumLengths(ss: seq<seq<int>>, n: nat): nat
    requires n <= |ss|
  {
    if n == 0 then 0 else SumLengths(ss, n - 1) + |ss[n - 1]|
  }

  /**
   * One zipped pair added to the counters: the gold sentence is aligned with
   * the prediction, then its agreeing heads, its length and, when it matches
   * exactly, one sentence are counted.
   */
  function AddPair(c: Counts, gold: seq<int>, pred: seq<int>): (r: Result<Counts, EvalError>)
    ensures r.Err? <==> Compared(gold, pred).None?
    ensures r.Err? ==> r.error == DifferentLengths
    ensures r.Ok? ==> r.value.total == c.total + |pred|
    ensures r.Ok? ==> c.corr <= r.value.corr <= c.corr + |pred|
    ensures r.Ok? ==> c.corrSents <= r.value.corrSents <= c.corrSents + 1
  {
    match Compared(gold, pred)
    case None => Err(DifferentLengths)
    case Some(g) =>
      Ok(Counts(c.corr + MatchCount(g, pred, |g|), c.total + |g|,
                c.corrSents + (if g == pred then 1 else 0)))
  }

  /** The counters after the first `n` zipped pairs, or the error raised on the way. */
  function Tally(gold: seq<seq<int>>, pred: seq<seq<int>>, n: nat): (r: Result<Counts, EvalError>)
    requires n <= |gold| && n <= |pred|
    ensures r.Err? ==> r.error == DifferentLengths
    ensures r.Ok? ==> r.value.corr <= r.value.total && r.value.corrSents <= n
  {
    if n == 0 then Ok(Counts(0, 0, 0))
    else
      match Tally(gold, pred, n - 1)
      case Err(e) => Err(e)
      case Ok(c) => AddPair(c, gold[n - 1], pred[n - 1])
  }

  /**
   * `evaluate_heads(corr_heads, pred_heads)` as a value: the sentence pairs are
   * zipped, so only the first `min(|gold|, |pred|)` are compared, while the
   * sentence denominator is always `|gold|`.
   */
  function Evaluate(gold: seq<seq<int>>, pred: seq<seq<int>>): (r: Result<Scores, EvalError>)
    ensures r.Ok? ==> r.value.corr <= r.value.total && r.value.corrSents <= r.value.sents
    ensures r.Ok? ==> r.value.sents == |gold| > 0 && r.value.total > 0
    ensures r.Ok? ==> r.value.wordAccuracy == Ratio(r.value.corr, r.value.total)
    ensures r.Ok? ==> r.value.sentAccuracy == Ratio(r.value.corrSents, r.value.sents)
  {
    var n := Min(|gold|, |pred|);
    match Tally(gold, pred, n)
    case Err(e) => Err(e)
    case Ok(c) =>
      if c.total == 0 then Err(ZeroDivision)
      else Ok(Scores(c.corr, c.total, Ratio(c.corr, c.total),
                     c.corrSents, |gold|, Ratio(c.corrSents, |gold|)))
  }

  /** The word total is the number of predicted heads in the compared pairs. */
  lemma {:induction false} TallyTotal(gold: seq<seq<int>>, pred: seq<seq<int>>, n: nat)
    requires n <= |gold| && n <= |pred|
    ensures Tally(gold, pred, n).Ok? ==> Tally(gold, pred, n).value.total == SumLengths(pred, n)
  {
    if n > 0 {
      TallyTotal(gold, pred, n - 1);
    }
  }

  /** The length error is raised exactly when some compared pair cannot be aligned. */
  lemma {:induction false} TallyFailsIff(gold: seq<seq<int>>, pred: seq<seq<int>>, n: nat)
    requires n <= |gold| && n <= |pred|
    ensures Tally(gold, pred, n).Err? <==> exists i :: 0 <= i < n && Compared(gold[i], pred[i]).None?
  {
    if n > 0 {
      TallyFailsIff(gold, pred, n - 1);
    }
  }

  /** `evaluate_heads` raises the length error exactly when some zipped pair has lengths
      that differ by anything other than gold = predicted + 2. */
  lemma {:induction false} EvaluateLengthError(gold: seq<seq<int>>, pred: seq<seq<int>>)
    ensures Evaluate(gold, pred) == Err(DifferentLengths) <==>
            exists i :: 0 <= i < |gold| && i < |pred| &&
                        |gold[i]| != |pred[i]| && |gold[i]| != |pred[i]| + 2
  {
    TallyFailsIff(gold, pred, Min(|gold|, |pred|));
  }

  /** Without a length error, a zero word total is a division error. */
  lemma {:induction false} EvaluateZeroDivision(gold: seq<seq<int>>, pred: seq<seq<int>>)
    requires forall i :: 0 <= i < |gold| && i < |pred| ==>
               |gold[i]| == |pred[i]| || |gold[i]| == |pred[i]| + 2
    ensures Evaluate(gold, pred).Err? <==> SumLengths(pred, Min(|gold|, |pred|)) == 0
    ensures Evaluate(gold, pred).Err? ==> Evaluate(gold, pred).error == ZeroDivision
    ensures Evaluate(gold, pred).Ok? ==> Evaluate(gold, pred).value.total == SumLengths(pred, Min(|gold|, |pred|))
  {
    TallyFailsIff(gold, pred, Min(|gold|, |pred|));
    TallyTotal(gold, pred, Min(|gold|, |pred|));
  }

  /** Tally reads only the first `n` sentences of either list. */
  lemma {:induction false} TallyPrefix(gold: seq<seq<int>>, pred: seq<seq<int>>,
                                       gold': seq<seq<int>>, pred': seq<seq<int>>, n: nat)
    requires n <= |gold| && n <= |pred| && n <= |gold'| && n <= |pred'|
    requires forall i :: 0 <= i < n ==> gold[i] == gold'[i] && pred[i] == pred'[i]
    ensures Tally(gold, pred, n) == Tally(gold', pred', n)
  {
    if n > 0 {
      TallyPrefix(gold, pred, gold', pred', n - 1);
      assert gold[n - 1] == gold'[n - 1] && pred[n - 1] == pred'[n - 1];
    }
  }

  /** Predictions beyond the last gold sentence are never looked at. */
  lemma {:induction false} ExtraPredictionsIgnored(gold: seq<seq<int>>, pred: seq<seq<int>>, extra: seq<seq<int>>)
    requires |gold| <= |pred|
    ensures Evaluate(gold, pred + extra) == Evaluate(gold, pred)
  {
    TallyPrefix(gold, pred + extra, gold, pred, |gold|);
  }

  /** Gold sentences beyond the last prediction are not compared, but still count
      in the sentence denominator. */
  lemma {:induction false} ExtraGoldNotCompared(gold: seq<seq<int>>, pred: seq<seq<int>>, extra: seq<seq<int>>)
    requires |pred| <= |gold|
    ensures Evaluate(gold + extra, pred).Ok? <==> Evaluate(gold, pred).Ok?
    ensures Evaluate(gold + extra, pred).Ok? ==>
              var r, r' := Evaluate(gold + extra, pred).value, Evaluate(gold, pred).value;
              r.corr == r'.corr && r.total == r'.total && r.corrSents == r'.corrSents &&
              r.sents == |gold| + |extra|
  {
    TallyPrefix(gold + extra, pred, gold, pred, |pred|);
  }

  /** Tally of a list against itself: every word and every sentence is correct. */
  lemma {:induction false} TallySelf(heads: seq<seq<int>>, n: nat)
    requires n <= |heads|
    ensures Tally(heads, heads, n) == Ok(Counts(SumLengths(heads, n), SumLengths(heads, n), n))
  {
    if n > 0 {
      TallySelf(heads, n - 1);
      var h := heads[n - 1];
      MatchCountFull(h, h, |h|);
    }
  }

  /** When gold equals the prediction, word and sentence accuracy are both full. */
  lemma {:induction false} ExactMatch(heads: seq<seq<int>>)
    requires SumLengths(heads, |heads|) > 0
    ensures var t := SumLengths(heads, |heads|);
            Evaluate(heads, heads) == Ok(Scores(t, t, Ratio(t, t), |heads|, |heads|, Ratio(|heads|, |heads|)))
  {
    TallySelf(heads, |heads|);
  }

  /** `[[1, 2, 3]]` against `[[1, 2, 0]]`: two words of three, no sentence. */
  lemma {:induction false} OneWrongHeadExample()
    ensures Evaluate([[1, 2, 3]], [[1, 2, 0]]) == Ok(Scores(2, 3, Ratio(2, 3), 0, 1, Ratio(0, 1)))
  {
    var g, p := [1, 2, 3], [1, 2, 0];
    assert MatchCount(g, p, 3) == 2;
    assert g != p by { assert g[2] != p[2]; }
  }

  /** A gold sentence two longer than its prediction loses its first and last entries. */
  lemma {:induction false} BoundaryStripExample()
    ensures Evaluate([[0, 1, 2, 3, 0]], [[1, 2, 3]]) == Ok(Scores(3, 3, Ratio(3, 3), 1, 1, Ratio(1, 1)))
  {
    var g := [0, 1, 2, 3, 0];
    assert g[1..4] == [1, 2, 3];
  }

  /** A pair that cannot be aligned ends the tally with the length error. */
  lemma {:induction false} TallyStopsAt(gold: seq<seq<int>>, pred: seq<seq<int>>, i: nat, n: nat)
    requires i < n <= |gold| && n <= |pred|
    requires Tally(gold, pred, i).Ok? && Compared(gold[i], pred[i]).None?
    ensures Tally(gold, pred, n) == Err(DifferentLengths)
  {
    if n > i + 1 {
      TallyStopsAt(gold, pred, i, n - 1);
    }
  }

  /** One zipped pair that aligns adds its matches, its length and possibly one exact sentence. */
  lemma {:induction false} TallyStep(gold: seq<seq<int>>, pred: seq<seq<int>>, i: nat, c: Counts,
                                     g: seq<int>, exact: bool, next: Counts)
    requires i < |gold| && i < |pred|
    requires Tally(gold, pred, i) == Ok(c)
    requires Compared(gold[i], pred[i]) == Some(g)
    requires exact <==> g == pred[i]
    requires next == Counts(c.corr + MatchCount(g, pred[i], |g|), c.total + |g|,
                            c.corrSents + (if exact then 1 else 0))
    ensures Tally(gold, pred, i + 1) == Ok(next)
  {
    assert Tally(gold, pred, i + 1) == AddPair(c, gold[i], pred[i]);
  }

  /**
   * The inner loop of `evaluate_heads` over one aligned sentence pair: the
   * number of agreeing positions, and whether some position disagrees.
   */
  method CompareSentence(g: seq<int>, p: seq<int>) returns (matches: nat, hasNonequal: bool)
    requires |g| == |p|
    ensures matches == MatchCount(g, p, |g|)
    ensures hasNonequal <==> g != p
  {
    matches, hasNonequal := 0, false;
    var j := 0;
    while j < |g|
      invariant 0 <= j <= |g|
      invariant matches == MatchCount(g, p, j)
      invariant hasNonequal <==> exists k :: 0 <= k < j && g[k] != p[k]
    {
      matches := matches + (if g[j] == p[j] then 1 else 0);
      hasNonequal := hasNonequal || g[j] != p[j];
      j := j + 1;
    }
    assert !hasNonequal ==> g == p;
  }

  /**
   * The loop of `evaluate_heads`: the counters `corr`, `total` and
   * `corr_sents` are updated pair by pair over the zipped sentence lists.
   */
  method CountPairs(gold: seq<seq<int>>, pred: seq<seq<int>>) returns (r: Result<Counts, EvalError>)
    ensures r == Tally(gold, pred, Min(|gold|, |pred|))
  {
    var corr: nat, total: nat, corrSents: nat := 0, 0, 0;
    var n := Min(|gold|, |pred|);
    var i := 0;
    while i < n
      invariant 0 <= i <= n
      invariant Tally(gold, pred, i) == Ok(Counts(corr, total, corrSents))
    {
      var aligned := Compared(gold[i], pred[i]);
      if aligned.None? {
        TallyStopsAt(gold, pred, i, n);
        return Err(DifferentLengths);
      }
      var g := aligned.value;
      var matches, hasNonequal := CompareSentence(g, pred[i]);
      ghost var before := Counts(corr, total, corrSents);
      corr, total, corrSents := corr + matches, total + |g|, corrSents + (if hasNonequal then 0 else 1);
      TallyStep(gold, pred, i, before, g, !hasNonequal, Counts(corr, total, corrSents));
      i := i + 1;
    }
    return Ok(Counts(corr, total, corrSents));
  }

  /** `evaluate_heads`: the counters, then the two ratios. */
  method EvaluateHeads(gold: seq<seq<int>>, pred: seq<seq<int>>) returns (r: Result<Scores, EvalError>)
    ensures r == Evaluate(gold, pred)
  {
    var counted := CountPairs(gold, pred);
    if counted.Err? {
      return Err(counted.error);
    }
    var Counts(corr, total, corrSents) := counted.value;
    if total == 0 {
      return Err(ZeroDivision);
    }
    return Ok(Scores(corr, total, Ratio(corr, total), corrSents, |gold|, Ratio(corrSents, |gold|)));
  }

  // ---------------------------------------------------------------------
  // Character-row encoder
  // ---------------------------------------------------------------------

  /** Codes of the auxiliary symbols. Their values live in `common/common.py`,
      which is not part of this model; only their being distinct matters. */
  const PAD: int := 0
  const BEGIN: int := 1
  const END: int := 2

  /** The encoder's input: `isinstance(sent[0], str)` tells a single word (a
      sequence of symbols) from a sentence (a sequence of words). */
  datatype Input<S> = Word(symbols: seq<S>) | Sentence(words: seq<seq<S>>)

  /** A single row for a word, a matrix with one row per word for a sentence. */
  datatype Recoded = Row(codes: seq<int>) | Matrix(rows: array2<int>)

  /** `sent[0]` on an empty input, and a row index past the row's width. */
  datatype RecodeError = EmptyInput | RowOverflow

  /**
   * `word[-maxLen:]`: the last `maxLen` symbols. Python reads `-0` as `0`, so
   * a zero length keeps the whole word.
   */
  function Kept<S>(word: seq<S>, maxLen: nat): (k: seq<S>)
    ensures |k| == if maxLen == 0 || |word| <= maxLen then |word| else maxLen
  {
    if maxLen == 0 || |word| <= maxLen then word else word[|word| - maxLen..]
  }

  /** The kept symbols are a suffix of the word. */
  lemma {:induction false} KeptIsSuffix<S>(word: seq<S>, maxLen: nat)
    ensures var k := Kept(word, maxLen); word == word[..|word| - |k|] + k
  {
    var k := Kept(word, maxLen);
    assert word[..|word| - |k|] + word[|word| - |k|..] == word;
  }

  /** `symbol_vocabulary.toidx` applied to every symbol of a word. */
  function Codes<S>(word: seq<S>, toidx: S -> int): (r: seq<int>)
    ensures |r| == |word|
    ensures forall k :: 0 <= k < |word| ==> r[k] == toidx(word[k])
  {
    seq(|word|, k requires 0 <= k < |word| => toidx(word[k]))
  }

  /** A row of `n` PAD codes. */
  function Pads(n: nat): (r: seq<int>)
    ensures |r| == n
  {
    seq(n, k => PAD)
  }

  /** The row the encoder is meant to produce for a word. */
  function WordRow<S>(word: seq<S>, maxLen: nat, toidx: S -> int): seq<int>
    requires Fits(word, maxLen)
  {
    var k := Kept(word, maxLen);
    [BEGIN] + Codes(k, toidx) + [END] + Pads(maxLen - |k|)
  }

  /** Whether the END position of a word's row lies inside a row of width `maxLen + 2`. */
  predicate Fits<S>(word: seq<S>, maxLen: nat)
  {
    |Kept(word, maxLen)| + 1 < maxLen + 2
  }

  /** The code at position `b` of a word's row: BEGIN, the codes of the kept symbols in order, END, then PAD. */
  function Cell<S>(word: seq<S>, maxLen: nat, toidx: S -> int, b: nat): int
  {
    var k := Kept(word, maxLen);
    if b == 0 then BEGIN
    else if b <= |k| then toidx(k[b - 1])
    else if b == |k| + 1 then END
    else PAD
  }

  /** The row of a word, position by position, is the layout `Cell` describes. */
  lemma {:induction false} RowCells<S>(word: seq<S>, maxLen: nat, toidx: S -> int)
    requires Fits(word, maxLen)
    ensures |WordRow(word, maxLen, toidx)| == maxLen + 2
    ensures forall b :: 0 <= b < maxLen + 2 ==> WordRow(word, maxLen, toidx)[b] == Cell(word, maxLen, toidx, b)
  {
    var k := Kept(word, maxLen);
    var row := WordRow(word, maxLen, toidx);
    forall b | 0 <= b < maxLen + 2
      ensures row[b] == Cell(word, maxLen, toidx, b)
    {
      if 1 <= b <= |k| {
        assert row[b] == Codes(k, toidx)[b - 1];
      }
    }
  }

  /** A row fits exactly when the length is positive or the word is empty. */
  lemma {:induction false} FitsIff<S>(word: seq<S>, maxLen: nat)
    ensures Fits(word, maxLen) <==> maxLen > 0 || word == []
  {
  }

  /** The codes of a row before its first END. */
  function BeforeEnd(row: seq<int>): (r: seq<int>)
    ensures |r| <= |row| && r == row[..|r|] && END !in r
  {
    if row == [] || row[0] == END then [] else [row[0]] + BeforeEnd(row[1..])
  }

  /** When no symbol is coded as END, a row gives back the codes of the kept symbols. */
  lemma {:induction false} RowRoundTrip<S>(word: seq<S>, maxLen: nat, toidx: S -> int)
    requires Fits(word, maxLen)
    requires forall x :: toidx(x) != END
    ensures BeforeEnd(WordRow(word, maxLen, toidx)[1..]) == Codes(Kept(word, maxLen), toidx)
  {
    var k := Kept(word, maxLen);
    var codes := Codes(k, toidx);
    assert WordRow(word, maxLen, toidx)[1..] == codes + ([END] + Pads(maxLen - |k|));
    BeforeEndPrefix(codes, [END] + Pads(maxLen - |k|));
  }

  /** Codes free of END followed by a tail that starts with END: the codes are what comes before it. */
  lemma {:induction false} BeforeEndPrefix(xs: seq<int>, tail: seq<int>)
    requires END !in xs && tail != [] && tail[0] == END
    ensures BeforeEnd(xs + tail) == xs
  {
    if xs == [] {
      assert (xs + tail)[0] == END;
    } else {
      assert (xs + tail)[1..] == xs[1..] + tail;
      BeforeEndPrefix(xs[1..], tail);
      assert [xs[0]] + xs[1..] == xs;
    }
  }

  /** Row `i` of the matrix holds the row of `word`. */
  ghost predicate RowHolds<S>(answer: array2<int>, i: nat, word: seq<S>, maxLen: nat, toidx: S -> int)
    reads answer
  {
    && i < answer.Length0 && answer.Length1 == maxLen + 2 && Fits(word, maxLen)
    && forall b :: 0 <= b < maxLen + 2 ==> answer[i, b] == Cell(word, maxLen, toidx, b)
  }

  /**
   * One iteration of `_recode`'s loop on row `i` of a PAD-filled matrix:
   * BEGIN and END first, then the codes of the kept symbols in between.
   */
  method FillRow<S>(answer: array2<int>, i: nat, word: seq<S>, maxLen: nat, toidx: S -> int)
    requires i < answer.Length0 && answer.Length1 == maxLen + 2
    requires Fits(word, maxLen)
    requires forall b :: 0 <= b < answer.Length1 ==> answer[i, b] == PAD
    modifies answer
    ensures RowHolds(answer, i, word, maxLen, toidx)
    ensures forall a, b :: 0 <= a < answer.Length0 && a != i && 0 <= b < answer.Length1 ==>
              answer[a, b] == old(answer[a, b])
  {
    var kept := Kept(word, maxLen);
    answer[i, 0], answer[i, |kept| + 1] := BEGIN, END;
    var j := 0;
    while j < |kept|
      invariant 0 <= j <= |kept|
      invariant forall b :: 0 <= b <= j || |kept| < b < answer.Length1 ==>
                  answer[i, b] == Cell(word, maxLen, toidx, b)
      invariant forall a, b :: 0 <= a < answer.Length0 && a != i && 0 <= b < answer.Length1 ==>
                  answer[a, b] == old(answer[a, b])
    {
      answer[i, j + 1] := toidx(kept[j]);
      j := j + 1;
    }
  }

  /**
   * `_recode` on a sentence: a PAD-filled matrix of `|sent|` rows of width
   * `maxLen + 2`, filled row by row. Fails when a row's END position is past
   * its end, which only happens with `maxLen == 0` and a non-empty word.
   */
  method RecodeRows<S>(sent: seq<seq<S>>, maxLen: nat, toidx: S -> int)
    returns (r: Result<array2<int>, RecodeError>)
    ensures r.Ok? <==> forall i :: 0 <= i < |sent| ==> Fits(sent[i], maxLen)
    ensures r.Err? ==> r.error == RowOverflow
    ensures r.Ok? ==> fresh(r.value)
    ensures r.Ok? ==> r.value.Length0 == |sent| && r.value.Length1 == maxLen + 2
    ensures r.Ok? ==> forall i, j :: 0 <= i < |sent| && 0 <= j < maxLen + 2 ==>
                        r.value[i, j] == Cell(sent[i], maxLen, toidx, j)
  {
    var width := maxLen + 2;
    var answer := new int[|sent|, width]((i, j) => PAD);
    var i := 0;
    while i < |sent|
      invariant 0 <= i <= |sent|
      invariant forall a :: 0 <= a < i ==> RowHolds(answer, a, sent[a], maxLen, toidx)
      invariant forall a, b :: i <= a < |sent| && 0 <= b < width ==> answer[a, b] == PAD
    {
      if |Kept(sent[i], maxLen)| + 1 >= width {
        assert !Fits(sent[i], maxLen);
        return Err(RowOverflow);
      }
      FillRow(answer, i, sent[i], maxLen, toidx);
      i := i + 1;
    }
    return Ok(answer);
  }

  /**
   * `_recode`: a single word gives its one row, a sentence its matrix; the
   * first element of an empty input does not exist.
   */
  method Recode<S>(input: Input<S>, maxLen: nat, toidx: S -> int) returns (r: Result<Recoded, RecodeError>)
    ensures (input.Word? && input.symbols == []) || (input.Sentence? && input.words == []) ==>
              r == Err(EmptyInput)
    ensures input.Word? && input.symbols != [] ==>
              if Fits(input.symbols, maxLen)
              then r == Ok(Row(WordRow(input.symbols, maxLen, toidx)))
              else r == Err(RowOverflow)
    ensures input.Sentence? && input.words != [] ==>
              (r.Ok? <==> forall i :: 0 <= i < |input.words| ==> Fits(input.words[i], maxLen))
    ensures input.Sentence? && input.words != [] && r.Err? ==> r.error == RowOverflow
    ensures r.Ok? && r.value.Matrix? ==> fresh(r.value.rows)
    ensures input.Sentence? && input.words != [] && r.Ok? ==>
              r.value.Matrix? && r.value.rows.Length0 == |input.words| &&
              r.value.rows.Length1 == maxLen + 2 &&
              forall i, j :: 0 <= i < |input.words| && 0 <= j < maxLen + 2 ==>
                r.value.rows[i, j] == WordRow(input.words[i], maxLen, toidx)[j]
  {
    match input
    case Word(symbols) =>
      if symbols == [] {
        return Err(EmptyInput);
      }
      var m := RecodeRows([symbols], maxLen, toidx);
      assert [symbols][0] == symbols;
      if m.Err? {
        return Err(m.error);
      }
      var rows := m.value;
      var row := seq(maxLen + 2, j requires 0 <= j < maxLen + 2 reads rows => rows[0, j]);
      RowCells(symbols, maxLen, toidx);
      assert row == WordRow(symbols, maxLen, toidx);
      return Ok(Row(row));
    case Sentence(words) =>
      if words == [] {
        return Err(EmptyInput);
      }
      var m := RecodeRows(words, maxLen, toidx);
      if m.Err? {
        return Err(m.error);
      }
      forall i | 0 <= i < |words| {
        RowCells(words[i], maxLen, toidx);
      }
      return Ok(Matrix(m.value));
  }
}
