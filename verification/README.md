# Dependency-parser helpers: head evaluation, character rows, tag features

This project is a Dafny model of the discrete, non-neural parts of a
graph-based dependency parser and of its morphological-tag utilities.

- **Head-accuracy evaluation** (`evaluate_heads`). Gold and predicted head
  sequences are zipped sentence by sentence. A gold sentence exactly two
  longer than its prediction loses its first and last (boundary) entries.
  Any other length mismatch is the error "Different sentence lengths".
  The result holds the correct and compared word counts, the exactly matched
  and gold sentence counts, and the two accuracies as (numerator, denominator)
  pairs. A zero word total is a division error.
  `Network.CountPairs` is the counter loop and `Network.EvaluateHeads` adds
  the divisions. They are proved equal to the
  value-level definition `Network.Evaluate`, and the lemmas are stated about
  that definition.
- **Character-row encoder** (`StrangeSyntacticParser._recode`). A PAD-filled
  integer matrix gets one row of width `max_word_length + 2` per word. Each
  row holds BEGIN, the vocabulary codes of the word's last `max_word_length`
  symbols, END, then padding. A single word (an input whose first element is
  a symbol) gives one row.
  `Network.RecodeRows` fills an `array2<int>` in place, row by row, through
  `Network.FillRow`.
- **Tag descriptions** (`descr_to_feats`). A description `POS,Key=v1,v2|Key2=v`
  becomes a POS and a list of (key, value) pairs, or a dictionary of them.
  `ReadTags.DescrToFeats` is the loop that extends the field list. It is
  proved equal to `ReadTags.ParsedDescr`.
- **Subsumption** (`is_subsumed`). `ReadTags.IsSubsumedTags` parses both
  tags, compares their POS and runs `ReadTags.SubsumesScan`, the early-return
  loop over the first dictionary's keys. Both are proved equal to the
  value-level `ReadTags.IsSubsumed` and `ReadTags.Subsumes`.
- **Sentence grouping** (the line loop of `read_tags_input`). Stripped lines
  are grouped into blank-line separated sentences, each wrapped in a
  one-element list. `ReadTags.ReadTagsInput` is the loop. It is proved equal
  to `ReadTags.Blocks`, a separate definition by maximal runs of non-blank
  lines.

Files: `wrappers.dfy` (Option and Result), `strings.dfy` (Python's
`str.split` and `str.split(sep, maxsplit=1)` for one-character separators,
and `sep.join`, which the parser never calls and which is here only as the
inverse of `split` for the round-trip lemmas), `network.dfy` (module `Network`, for `syntax/network.py`),
`read_tags.dfy` (module `ReadTags`, for
`neural_LM/UD_preparation/read_tags.py`).

## Model

| member | source | states |
|---|---|---|
| `Network.Compared` | syntax/network.py:372-375 | The compared gold sentence exists iff the gold length equals the predicted length or the predicted length + 2. It then has the predicted length. Equal lengths leave gold unchanged. |
| `Network.ComparedStripsBoundary` | syntax/network.py:372-373 | A gold sentence exactly two longer than its prediction loses exactly its first and its last entry. |
| `Network.MatchCount` | syntax/network.py:377-378 | The number of agreeing positions below n is at most n. |
| `Network.MatchCountFull` | syntax/network.py:377-380 | All n positions agree iff the match count is n, so a sentence counts as correct iff every position matches. |
| `Network.AddPair` | syntax/network.py:372-381 | One zipped pair fails iff it cannot be aligned, and then with the length error. Otherwise `total` grows by the predicted length, `corr` by at most that length, and `corr_sents` by at most one. |
| `Network.Tally` | syntax/network.py:371-381 | After the first n zipped pairs: the only possible error is the length error, `corr <= total` and `corr_sents <= n`. |
| `Network.TallyTotal` | syntax/network.py:381 | After n pairs without error, `total` is the sum of the predicted sentence lengths. |
| `Network.Evaluate` | syntax/network.py:369-382 | On success: `corr <= total`, `corr_sents <= len(corr_heads)`, the sentence denominator is `len(corr_heads)` > 0, `total` > 0, and the two ratios are `corr/total` and `corr_sents/len(corr_heads)`. |
| `Network.TallyFailsIff` | syntax/network.py:372-375 | The length error is raised iff some compared pair cannot be aligned. |
| `Network.TallyStopsAt` | syntax/network.py:374-375 | The first pair that cannot be aligned ends the whole evaluation with the length error. |
| `Network.EvaluateLengthError` | syntax/network.py:371-375 | `evaluate_heads` raises the length error iff some zipped pair differs in length by anything other than gold = predicted + 2. |
| `Network.EvaluateZeroDivision` | syntax/network.py:381-382 | Without a length error, the result is an error iff the predicted lengths of the zipped pairs sum to zero, and that error is the division error. On success `total` is that sum. |
| `Network.TallyPrefix` | syntax/network.py:371 | The counters after n pairs depend only on the first n sentences of each list. |
| `Network.ExtraPredictionsIgnored` | syntax/network.py:371 | Predicted sentences beyond the last gold sentence do not change the result. |
| `Network.ExtraGoldNotCompared` | syntax/network.py:371-382 | Gold sentences beyond the last prediction change no word or exact-match count, but they do raise the sentence denominator. |
| `Network.TallySelf` | syntax/network.py:377-381 | Comparing a list with itself counts every word and every sentence as correct. |
| `Network.ExactMatch` | syntax/network.py:377-382 | If gold equals the prediction (total > 0), then `corr == total` and `corr_sents` is the number of sentences. |
| `Network.OneWrongHeadExample` | syntax/network.py:377-382 | `[[1,2,3]]` against `[[1,2,0]]` gives corr 2, total 3, corr_sents 0 of 1. |
| `Network.BoundaryStripExample` | syntax/network.py:372-373 | `[[0,1,2,3,0]]` against `[[1,2,3]]` is a full match after stripping. |
| `Network.TallyStep` | syntax/network.py:376-381 | An aligned pair adds its matches to `corr`, its length to `total`, and one to `corr_sents` iff the sentences are equal. |
| `Network.CompareSentence` | syntax/network.py:376-379 | The inner loop returns the match count, and `has_nonequal` is true iff the two sentences differ. |
| `Network.CountPairs` | syntax/network.py:370-381 | The loop over the zipped pairs returns exactly the counters of `Tally` over all of them, or the length error. |
| `Network.EvaluateHeads` | syntax/network.py:369-382 | The counter loops followed by the two divisions return exactly `Evaluate(gold, pred)`, including both error cases. |
| `Network.Kept` | syntax/network.py:229 | The length of `word[-max_word_length:]` is `min(len, max)`, or the whole word when the maximum is 0. |
| `Network.KeptIsSuffix` | syntax/network.py:229 | `word[-max_word_length:]` is a suffix of the word. |
| `Network.RowCells` | syntax/network.py:227-231 | A word's row has width `max+2`. Position 0 is BEGIN. Positions `1..len` hold the `toidx` codes of the kept symbols in order. Position `len+1` is END, and every later position is PAD. |
| `Network.FitsIff` | syntax/network.py:229-230 | The END position lies inside the row iff `max_word_length > 0` or the word is empty. |
| `Network.RowRoundTrip` | syntax/network.py:229-231 | When no symbol is coded as END, the codes between BEGIN and the first END are the codes of the kept symbols. |
| `Network.FillRow` | syntax/network.py:230-231 | Filling row i of a PAD row writes exactly that word's row, cell by cell, and leaves every other row unchanged. |
| `Network.Codes` | syntax/network.py:231 | One code per symbol, in order: position k holds `toidx` of symbol k. |
| `Network.RecodeRows` | syntax/network.py:227-231 | The matrix is newly allocated and has one row per word, each of width `max+2`, and each row holds that word's layout cell by cell. The result is an IndexError exactly when some word's END position falls outside its row. |
| `Network.Recode` | syntax/network.py:222-232 | An empty input fails on `sent[0]`. A single word returns its one row, or the IndexError when its END position falls outside the row. A non-empty sentence returns a newly allocated matrix whose rows are the words' rows, and otherwise fails only with the IndexError. |
| `Strings.SplitOnce` | neural_LM/UD_preparation/read_tags.py:5 | `split(c, maxsplit=1)` is absent iff `c` does not occur. Otherwise it gives the text before the first `c` and the text after it. |
| `Strings.Split` | neural_LM/UD_preparation/read_tags.py:7 | `split(c)` gives at least one piece, and no piece contains `c`. |
| `Strings.JoinSplit` | neural_LM/UD_preparation/read_tags.py:7-9 | Joining the pieces of a split gives back the string. |
| `Strings.SplitJoin` | neural_LM/UD_preparation/read_tags.py:7-9 | Splitting the join of separator-free pieces gives back the pieces. |
| `ReadTags.WithKey` | neural_LM/UD_preparation/read_tags.py:10 | One `(key, value)` pair per value, in the order of the values. |
| `ReadTags.ElemFeatures` | neural_LM/UD_preparation/read_tags.py:8-10 | An element fails iff it has no `=`. Otherwise it yields at least one pair, and each pair's key is the `=`-free text before the first `=`. |
| `ReadTags.FeatureList` | neural_LM/UD_preparation/read_tags.py:7-10 | The feature list fails iff some element has no `=`. A non-empty list of elements yields a non-empty list of pairs. |
| `ReadTags.ParsedDescr` | neural_LM/UD_preparation/read_tags.py:3-14 | A symbol without a comma is its own POS with no features. Otherwise the POS is the comma-free text before the first comma, and the feature list is non-empty. |
| `ReadTags.DescrErrorIff` | neural_LM/UD_preparation/read_tags.py:4-8 | Parsing fails iff there is a comma and some `|`-element after the first comma has no `=`. This includes the empty feature string of `"NOUN,"`. |
| `ReadTags.FeatureMap` | neural_LM/UD_preparation/read_tags.py:15-16 | The dictionary's keys are exactly the keys of the pairs. |
| `ReadTags.DictKeepsLastValue` | neural_LM/UD_preparation/read_tags.py:15-16 | For a key with several values, the dictionary keeps the last one. |
| `ReadTags.FeatureListStep` | neural_LM/UD_preparation/read_tags.py:7-10 | Each element either appends its pairs to the list built so far, or, lacking `=`, makes the whole description fail. |
| `ReadTags.DescrToFeats` | neural_LM/UD_preparation/read_tags.py:3-17 | The field-extending loop fails exactly when `ParsedDescr` does. Otherwise it returns the POS with the pair list, or with its dictionary when `return_dict` is set. |
| `ReadTags.DescrRoundTrip` | neural_LM/UD_preparation/read_tags.py:3-14 | Parsing `POS,k=v\|k=v` written from a POS and pairs (free of the separators) gives back that POS and those pairs. |
| `ReadTags.SingleElement` | neural_LM/UD_preparation/read_tags.py:5-10 | `POS,Key=values` gives one `(Key, v)` pair per comma-separated value. |
| `ReadTags.TwoValues` | neural_LM/UD_preparation/read_tags.py:8-10 | `POS,Key=v1,v2` gives the two pairs `(Key, v1), (Key, v2)` in order, as `Case=Nom,Acc` does. |
| `ReadTags.EmptyFeatures` | neural_LM/UD_preparation/read_tags.py:7-8 | `POS,` is an unpacking error. |
| `ReadTags.Normalized` | neural_LM/UD_preparation/read_tags.py:32-35 | `Ptan` is compared as `Plur` and `Brev` as `Short`; any other value is compared unchanged, so no compared value is `Ptan` or `Brev`. |
| `ReadTags.Subsumes` | neural_LM/UD_preparation/read_tags.py:29-38 | When it holds, every non-`Abbr` key of the first dictionary is a key of the second. A first dictionary with no key other than `Abbr` is always subsumed. |
| `ReadTags.SubsumesScan` | neural_LM/UD_preparation/read_tags.py:29-38 | The loop over the first dictionary's items, skipping `Abbr`, mapping `Ptan`→`Plur` and `Brev`→`Short`, and returning False at the first key the second dictionary lacks or holds with another value, answers exactly `Subsumes`. |
| `ReadTags.IsSubsumedTags` | neural_LM/UD_preparation/read_tags.py:21-38 | Parsing the first tag, then the second (either may raise), comparing the POS parts and scanning the first dictionary gives exactly `IsSubsumed`. |
| `ReadTags.IsSubsumed` | neural_LM/UD_preparation/read_tags.py:21-38 | The result fails iff one of the descriptions fails to parse. Different POS parts give False. |
| `ReadTags.NoFeaturesSubsumed` | neural_LM/UD_preparation/read_tags.py:29-38 | A first tag without features other than `Abbr` is subsumed by any tag with the same POS. |
| `ReadTags.SelfSubsumesIff` | neural_LM/UD_preparation/read_tags.py:29-38 | A dictionary subsumes itself iff none of its non-`Abbr` values is `Ptan` or `Brev`. |
| `ReadTags.SelfSubsumedIff` | neural_LM/UD_preparation/read_tags.py:25-38 | A tag is subsumed by itself iff none of its non-`Abbr` values is `Ptan` or `Brev`. |
| `ReadTags.OneFeature` | neural_LM/UD_preparation/read_tags.py:5-10 | `POS,Key=value` parses to that POS and the single pair. |
| `ReadTags.OnePairMap` | neural_LM/UD_preparation/read_tags.py:15-16 | The dictionary of one pair maps its key to its value. |
| `ReadTags.OneFeatureSubsumed` | neural_LM/UD_preparation/read_tags.py:29-38 | A one-feature tag is subsumed by the tag of the same POS holding the normalised value under the same key. |
| `ReadTags.PtanMatchesPlur` | neural_LM/UD_preparation/read_tags.py:32-36 | `POS,K=Ptan` is subsumed by `POS,K=Plur`. |
| `ReadTags.BrevMatchesShort` | neural_LM/UD_preparation/read_tags.py:34-36 | `POS,K=Brev` is subsumed by `POS,K=Short`. |
| `ReadTags.PtanNotSelfSubsumed` | neural_LM/UD_preparation/read_tags.py:32-36 | For a key other than `Abbr`, `POS,K=Ptan` is not subsumed by itself. |
| `ReadTags.SubsumesTransitive` | neural_LM/UD_preparation/read_tags.py:29-38 | Subsumption between dictionaries is transitive. |
| `ReadTags.LeadingLines` | neural_LM/UD_preparation/read_tags.py:46-51 | The leading run of lines that are all non-blank ends at a blank line or at the end of the input. |
| `ReadTags.Blocks` | neural_LM/UD_preparation/read_tags.py:44-53 | Every emitted sentence is non-empty and holds no blank line, even after leading or consecutive blank lines. |
| `ReadTags.BlocksAfterSentence` | neural_LM/UD_preparation/read_tags.py:46-49 | A blank line after a sentence closes it. |
| `ReadTags.BlocksAtBlank` | neural_LM/UD_preparation/read_tags.py:46-50 | A blank line emits the current sentence if it is non-empty, and starts a new one. |
| `ReadTags.BlocksOfSentence` | neural_LM/UD_preparation/read_tags.py:52-53 | A last sentence with no blank line after it is still emitted. |
| `ReadTags.BlocksConcat` | neural_LM/UD_preparation/read_tags.py:45-51 | The concatenation of the sentences is the list of non-blank lines in their original order. |
| `ReadTags.BlocksLayout` | neural_LM/UD_preparation/read_tags.py:44-53 | Grouping sentences laid out with one blank line between them gives back those sentences, including the last one, which has no blank line after it. |
| `ReadTags.Wrap` | neural_LM/UD_preparation/read_tags.py:47-48 | Each sentence becomes a one-element list holding it, in the same order. |
| `ReadTags.WrapSnoc` | neural_LM/UD_preparation/read_tags.py:47-48 | Appending a sentence appends its one-element wrapping. |
| `ReadTags.LineStep` | neural_LM/UD_preparation/read_tags.py:46-51 | A blank line closes the current sentence, if it is non-empty; any other line extends it. The blocks still to come change accordingly. |
| `ReadTags.ReadTagsInput` | neural_LM/UD_preparation/read_tags.py:42-54 | The line loop returns exactly the blocks, each wrapped in a one-element list, and no wrapped sentence is empty. |

## Left out

- Network construction, training, `PositionEmbedding`, `predict`, `predict_heads`, `predict_deps`: tensor-library and floating-point code.
- Tree decoding: it comes from the external `dependency_decoding` package, whose source is not part of this model.
- `load_syntactic_parser`, the `__main__` block, and the file opening and line reading of `read_tags_input`: file and JSON I/O. The grouping loop takes lines that are already stripped.
- `_transform_data` and `_transform_tags`: vocabulary training and thin wrappers.
- `common/common.py` is not part of this model. BEGIN, END and PAD are the distinct constants 1, 2 and 0, and only their distinctness is used. `symbol_vocabulary.toidx` is a function parameter applied symbol by symbol.
- Network.RecodeRows: the `int32` dtype is not modelled. Codes are unbounded integers, so a `toidx` code outside the 32-bit range is not truncated.
- Network.Recode: `isinstance(sent[0], str)` becomes the `Word`/`Sentence` constructor of the input. Mixed inputs (a symbol followed by words) are not represented. The single-word row is returned as a copy, not as a view into the matrix.
- ReadTags.ParsedDescr: every unpacking failure is the same error, `MissingEquals`. Python's message and the offending element are not kept.
- ReadTags.FeatureMap: a Dafny map has no order, so the insertion order of Python's dict is not modelled. `is_subsumed` does not depend on it, because it returns False on any failing key.
