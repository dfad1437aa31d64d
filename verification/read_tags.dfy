/**
 * `neural_LM/UD_preparation/read_tags.py`: parsing of morphological tag
 * descriptions `POS,Key=v1,v2|Key2=v`, feature subsumption between two tags,
 * and the grouping of input lines into blank-line separated sentences.
 */
module ReadTags {
  import opened Wrappers
  import opened Strings

  // ---------------------------------------------------------------------
  // Tag descriptions
  // ---------------------------------------------------------------------

  /** A (key, value) feature pair. */
  type Feature = (string, string)

  /** The features of a tag: the pair tuple, or the `dict` built from it. */
  datatype Fields = Pairs(pairs: seq<Feature>) | Dict(dict: map<string, string>)

  /** The unpacking `key, values = elem.split("=", maxsplit=1)` fails on an element without `=`. */
  datatype TagError = MissingEquals

  /** Every parse failure is the unpacking error. */
  lemma OnlyError(e: TagError)
    ensures e == MissingEquals
  {
  }

  /** One `(key, value)` pair per value, in order. */
  function WithKey(key: string, values: seq<string>): (r: seq<Feature>)
    ensures |r| == |values|
    ensures forall j :: 0 <= j < |r| ==> r[j] == (key, values[j])
  {
    seq(|values|, j requires 0 <= j < |values| => (key, values[j]))
  }

  /** The pairs of one `Key=v1,v2` element, or None when it holds no `=`. */
  function ElemFeatures(elem: string): (r: Option<seq<Feature>>)
    ensures r.None? <==> '=' !in elem
    ensures r.Some? ==> |r.value| >= 1
    ensures r.Some? ==> forall j :: 0 <= j < |r.value| ==>
              '=' !in r.value[j].0 && r.value[j].0 + "=" <= elem
  {
    match SplitOnce(elem, '=')
    case None => None
    case Some((key, values)) =>
      assert key + "=" <= elem by { assert elem == key + "=" + values; }
      Some(WithKey(key, Split(values, ',')))
  }

  /** The pairs of a list of elements, in order, or None when some element has no `=`. */
  function FeatureList(elems: seq<string>): (r: Option<seq<Feature>>)
    ensures r.None? <==> exists k :: 0 <= k < |elems| && '=' !in elems[k]
    ensures r.Some? && elems != [] ==> r.value != []
  {
    if elems == [] then Some([])
    else
      var n := |elems| - 1;
      assert forall k :: 0 <= k < n ==> elems[..n][k] == elems[k];
      match FeatureList(elems[..n])
      case None => None
      case Some(fs) =>
        match ElemFeatures(elems[n])
        case None => None
        case Some(more) => Some(fs + more)
  }

  /**
   * `descr_to_feats(symbol)`: the POS before the first comma and the feature
   * pairs of the `|`-separated elements after it; a symbol without a comma
   * is its own POS with no features.
   */
  function ParsedDescr(symbol: string): (r: Result<(string, seq<Feature>), TagError>)
    ensures ',' !in symbol ==> r == Ok((symbol, []))
    ensures r.Ok? ==> ',' !in r.value.0
    ensures r.Ok? && ',' in symbol ==> r.value.0 + "," <= symbol && r.value.1 != []
  {
    match SplitOnce(symbol, ',')
    case None => Ok((symbol, []))
    case Some((pos, feats)) =>
      assert pos + "," <= symbol by { assert symbol == pos + "," + feats; }
      match FeatureList(Split(feats, '|'))
      case None => Err(MissingEquals)
      case Some(fs) => Ok((pos, fs))
  }

  /**
   * `descr_to_feats` fails exactly when the symbol has a comma and some
   * `|`-separated element after the first comma has no `=`.
   */
  lemma {:induction false} DescrErrorIff(symbol: string)
    ensures ParsedDescr(symbol).Err? <==>
            ',' in symbol &&
            var elems := Split(symbol[IndexOf(symbol, ',') + 1..], '|');
            exists k :: 0 <= k < |elems| && '=' !in elems[k]
  {
    if ',' in symbol {
      var i := IndexOf(symbol, ',');
      assert SplitOnce(symbol, ',') == Some((symbol[..i], symbol[i + 1..]));
      var elems := Split(symbol[i + 1..], '|');
      assert ParsedDescr(symbol).Err? <==> FeatureList(elems).None?;
      assert ParsedDescr(symbol).Err? <==> exists k :: 0 <= k < |elems| && '=' !in elems[k];
      assert ParsedDescr(symbol).Err? <==>
             (var e := Split(symbol[IndexOf(symbol, ',') + 1..], '|');
              exists k :: 0 <= k < |e| && '=' !in e[k]);
    }
  }

  /** `dict(fields)`: a later pair for a key overwrites an earlier one. */
  function FeatureMap(fs: seq<Feature>): (m: map<string, string>)
    ensures forall key :: key in m <==> exists j :: 0 <= j < |fs| && fs[j].0 == key
  {
    if fs == [] then map[]
    else
      var n := |fs| - 1;
      assert forall j :: 0 <= j < n ==> fs[..n][j] == fs[j];
      FeatureMap(fs[..n])[fs[n].0 := fs[n].1]
  }

  /** The dictionary keeps the last value given for a key. */
  lemma {:induction false} DictKeepsLastValue(fs: seq<Feature>, j: nat)
    requires j < |fs|
    requires forall j' :: j < j' < |fs| ==> fs[j'].0 != fs[j].0
    ensures fs[j].0 in FeatureMap(fs) && FeatureMap(fs)[fs[j].0] == fs[j].1
  {
    var n := |fs| - 1;
    var prefix := fs[..n];
    assert FeatureMap(fs) == FeatureMap(prefix)[fs[n].0 := fs[n].1];
    if j < n {
      assert prefix[j] == fs[j];
      assert forall j' :: j < j' < n ==> prefix[j'] == fs[j'];
      DictKeepsLastValue(prefix, j);
      assert fs[n].0 != fs[j].0;
    }
  }

  /** One more element: its pairs are appended, or the parse fails when it has no `=`. */
  lemma {:induction false} FeatureListStep(elems: seq<string>, i: nat, fields: seq<Feature>)
    requires i < |elems| && FeatureList(elems[..i]) == Some(fields)
    ensures '=' !in elems[i] ==> FeatureList(elems).None?
    ensures '=' in elems[i] ==>
              var (key, values) := SplitOnce(elems[i], '=').value;
              FeatureList(elems[..i + 1]) == Some(fields + WithKey(key, Split(values, ',')))
  {
    assert elems[..i + 1][..i] == elems[..i];
    assert elems[..i + 1][i] == elems[i];
  }

  /**
   * The loop of `descr_to_feats`: `fields` is extended element by element;
   * with `returnDict` the result is the dictionary of the pairs.
   */
  method DescrToFeats(symbol: string, returnDict: bool) returns (r: Result<(string, Fields), TagError>)
    ensures r.Ok? <==> ParsedDescr(symbol).Ok?
    ensures r.Ok? ==>
              var (pos, fs) := ParsedDescr(symbol).value;
              r.value == (pos, if returnDict then Dict(FeatureMap(fs)) else Pairs(fs))
  {
    var pos := symbol;
    var fields: seq<Feature> := [];
    if ',' in symbol {
      var (p, feats) := SplitOnce(symbol, ',').value;
      pos := p;
      var elems := Split(feats, '|');
      var i := 0;
      while i < |elems|
        invariant 0 <= i <= |elems|
        invariant FeatureList(elems[..i]) == Some(fields)
      {
        FeatureListStep(elems, i, fields);
        var kv := SplitOnce(elems[i], '=');
        if kv.None? {
          return Err(MissingEquals);
        }
        var (key, values) := kv.value;
        fields := fields + WithKey(key, Split(values, ','));
        i := i + 1;
      }
      assert elems[..i] == elems;
    }
    if returnDict {
      r := Ok((pos, Dict(FeatureMap(fields))));
    } else {
      r := Ok((pos, Pairs(fields)));
    }
  }

  /** A POS and its features written back as `POS,Key=v|Key=v`. */
  function RenderDescr(pos: string, fs: seq<Feature>): string
  {
    if fs == [] then pos else pos + "," + Join(RenderPairs(fs), '|')
  }

  function RenderPairs(fs: seq<Feature>): (r: seq<string>)
    ensures |r| == |fs|
  {
    seq(|fs|, j requires 0 <= j < |fs| => fs[j].0 + "=" + fs[j].1)
  }

  /** Features that survive a round trip through their written form. */
  predicate Writable(pos: string, fs: seq<Feature>)
  {
    && ',' !in pos
    && forall j :: 0 <= j < |fs| ==>
         '=' !in fs[j].0 && '|' !in fs[j].0 && '|' !in fs[j].1 && ',' !in fs[j].1
  }

  /** The written pairs, read element by element, give back the pairs. */
  lemma {:induction false} FeatureListOfRendered(fs: seq<Feature>)
    requires Writable("", fs)
    ensures FeatureList(RenderPairs(fs)) == Some(fs)
  {
    if fs != [] {
      var n := |fs| - 1;
      var rp := RenderPairs(fs);
      assert rp[..n] == RenderPairs(fs[..n]);
      FeatureListOfRendered(fs[..n]);
      SplitOnceAt(fs[n].0, '=', fs[n].1);
      SplitPlain(fs[n].1, ',');
      assert rp[n] == fs[n].0 + ['='] + fs[n].1;
      assert WithKey(fs[n].0, [fs[n].1]) == [fs[n]];
      DropLast(fs);
    }
  }

  /** A non-empty list is its prefix followed by its last element. */
  lemma DropLast<T>(s: seq<T>)
    requires s != []
    ensures s[..|s| - 1] + [s[|s| - 1]] == s
  {
  }

  /** Parsing the written form of a tag gives back its POS and its pairs. */
  lemma {:induction false} DescrRoundTrip(pos: string, fs: seq<Feature>)
    requires Writable(pos, fs)
    ensures ParsedDescr(RenderDescr(pos, fs)) == Ok((pos, fs))
  {
    if fs != [] {
      var rp := RenderPairs(fs);
      assert forall k :: 0 <= k < |rp| ==> '|' !in rp[k] by {
        forall k | 0 <= k < |rp| ensures '|' !in rp[k] {
          assert rp[k] == fs[k].0 + "=" + fs[k].1;
        }
      }
      SplitOnceAt(pos, ',', Join(rp, '|'));
      SplitJoin(rp, '|');
      FeatureListOfRendered(fs);
    }
  }

  /** The pairs of a single `Key=Values` element whose values contain no `|`. */
  lemma {:induction false} SingleElement(symbol: string, pos: string, key: string, values: string)
    requires ',' !in pos && '=' !in key && '|' !in key && '|' !in values
    requires symbol == pos + [','] + key + ['='] + values
    ensures ParsedDescr(symbol) == Ok((pos, WithKey(key, Split(values, ','))))
  {
    var elem := key + ['='] + values;
    assert symbol == pos + [','] + elem;
    SplitOnceAt(pos, ',', elem);
    SplitPlain(elem, '|');
    SplitOnceAt(key, '=', values);
    var fs := WithKey(key, Split(values, ','));
    var elems := [elem];
    assert elems[..0] == [] && elems[..1] == elems && elems[0] == elem;
    FeatureListStep(elems, 0, []);
    assert [] + fs == fs;
  }

  /** `POS,Key=v1,v2` gives one pair per value, in order: `Case=Nom,Acc` gives two `Case` pairs. */
  lemma {:induction false} TwoValues(pos: string, key: string, v1: string, v2: string)
    requires ',' !in pos && '=' !in key && '|' !in key
    requires '|' !in v1 && ',' !in v1 && '|' !in v2 && ',' !in v2
    ensures ParsedDescr(pos + "," + key + "=" + v1 + "," + v2) == Ok((pos, [(key, v1), (key, v2)]))
  {
    var values := v1 + [','] + v2;
    assert pos + "," + key + "=" + v1 + "," + v2 == pos + [','] + key + ['='] + values;
    SingleElement(pos + "," + key + "=" + v1 + "," + v2, pos, key, values);
    SplitAfterPiece(v1, ',', v2);
    SplitPlain(v2, ',');
    assert Split(values, ',') == [v1] + [v2] == [v1, v2];
    assert WithKey(key, [v1, v2]) == [(key, v1), (key, v2)];
  }

  /** `POS,` has one empty feature element, which has no `=`. */
  lemma {:induction false} EmptyFeatures(pos: string)
    requires ',' !in pos
    ensures ParsedDescr(pos + ",") == Err(MissingEquals)
  {
    SplitOnceAt(pos, ',', "");
    assert (pos + ",") == pos + [','] + "";
  }

  // ---------------------------------------------------------------------
  // Subsumption
  // ---------------------------------------------------------------------

  /** `Ptan` is compared as `Plur`, then `Brev` as `Short`; no compared value is `Ptan` or `Brev`. */
  function Normalized(value: string): (r: string)
    ensures value == "Ptan" ==> r == "Plur"
    ensures value == "Brev" ==> r == "Short"
    ensures value != "Ptan" && value != "Brev" ==> r == value
    ensures r != "Ptan" && r != "Brev"
  {
    var plural := if value == "Ptan" then "Plur" else value;
    if plural == "Brev" then "Short" else plural
  }

  /** Every non-`Abbr` feature of the first dictionary, normalised, is in the second. */
  function Subsumes(first: map<string, string>, second: map<string, string>): (b: bool)
    ensures b ==> first.Keys - {"Abbr"} <= second.Keys
    ensures first.Keys <= {"Abbr"} ==> b
  {
    forall key :: key in first && key != "Abbr" ==>
      key in second && second[key] == Normalized(first[key])
  }

  /**
   * The loop of `is_subsumed` over the items of the first dictionary: `Abbr`
   * is skipped, the value is normalised, and the first key whose value the
   * second dictionary does not hold answers False.
   */
  method SubsumesScan(first: map<string, string>, second: map<string, string>) returns (b: bool)
    ensures b == Subsumes(first, second)
  {
    var todo := first.Keys;
    while todo != {}
      invariant todo <= first.Keys
      invariant forall key :: key in first && key !in todo && key != "Abbr" ==>
                  key in second && second[key] == Normalized(first[key])
      decreases |todo|
    {
      var key :| key in todo;
      todo := todo - {key};
      if key == "Abbr" {
        continue;
      }
      var value := first[key];
      if value == "Ptan" {
        value := "Plur";
      }
      if value == "Brev" {
        value := "Short";
      }
      if key !in second || second[key] != value {
        assert key in first && key != "Abbr";
        return false;
      }
    }
    return true;
  }

  /**
   * `is_subsumed(first_tag, second_tag)`: both tags are parsed into a POS and
   * a dictionary; the first is subsumed when the POS agree and every feature
   * it has is in the second.
   */
  function IsSubsumed(firstTag: string, secondTag: string): (r: Result<bool, TagError>)
    ensures r.Err? <==> ParsedDescr(firstTag).Err? || ParsedDescr(secondTag).Err?
    ensures r.Ok? && ParsedDescr(firstTag).value.0 != ParsedDescr(secondTag).value.0 ==> r == Ok(false)
  {
    match ParsedDescr(firstTag)
    case Err(e) => Err(e)
    case Ok((firstPos, firstFeats)) =>
      match ParsedDescr(secondTag)
      case Err(e) => Err(e)
      case Ok((secondPos, secondFeats)) =>
        Ok(firstPos == secondPos && Subsumes(FeatureMap(firstFeats), FeatureMap(secondFeats)))
  }

  /** The result of `is_subsumed` on two tags that parse. */
  lemma {:induction false} IsSubsumedParsed(firstTag: string, secondTag: string,
                         firstPos: string, firstFeats: seq<Feature>, secondPos: string, secondFeats: seq<Feature>)
    requires ParsedDescr(firstTag) == Ok((firstPos, firstFeats))
    requires ParsedDescr(secondTag) == Ok((secondPos, secondFeats))
    ensures IsSubsumed(firstTag, secondTag) ==
            Ok(firstPos == secondPos && Subsumes(FeatureMap(firstFeats), FeatureMap(secondFeats)))
  {
  }

  /**
   * `is_subsumed(first_tag, second_tag)` as it runs: parse the first tag,
   * then the second, compare the POS, then scan the first dictionary.
   */
  method IsSubsumedTags(firstTag: string, secondTag: string) returns (r: Result<bool, TagError>)
    ensures r == IsSubsumed(firstTag, secondTag)
  {
    var first := DescrToFeats(firstTag, true);
    if first.Err? {
      OnlyError(first.error);
      OnlyError(IsSubsumed(firstTag, secondTag).error);
      return Err(first.error);
    }
    var second := DescrToFeats(secondTag, true);
    if second.Err? {
      OnlyError(second.error);
      OnlyError(IsSubsumed(firstTag, secondTag).error);
      return Err(second.error);
    }
    var (firstPos, firstFields) := first.value;
    var (secondPos, secondFields) := second.value;
    IsSubsumedParsed(firstTag, secondTag, firstPos, ParsedDescr(firstTag).value.1,
                     secondPos, ParsedDescr(secondTag).value.1);
    if firstPos != secondPos {
      return Ok(false);
    }
    var b := SubsumesScan(firstFields.dict, secondFields.dict);
    return Ok(b);
  }

  /** A first tag without features other than `Abbr` is subsumed by any tag of its POS. */
  lemma {:induction false} NoFeaturesSubsumed(firstTag: string, secondTag: string)
    requires ParsedDescr(firstTag).Ok? && ParsedDescr(secondTag).Ok?
    requires ParsedDescr(firstTag).value.0 == ParsedDescr(secondTag).value.0
    requires forall j :: 0 <= j < |ParsedDescr(firstTag).value.1| ==>
               ParsedDescr(firstTag).value.1[j].0 == "Abbr"
    ensures IsSubsumed(firstTag, secondTag) == Ok(true)
  {
    var (p1, f1) := ParsedDescr(firstTag).value;
    var (p2, f2) := ParsedDescr(secondTag).value;
    IsSubsumedParsed(firstTag, secondTag, p1, f1, p2, f2);
    assert Subsumes(FeatureMap(f1), FeatureMap(f2));
  }

  /** A dictionary subsumes itself exactly when none of its non-`Abbr` values is `Ptan` or `Brev`. */
  lemma {:induction false} SelfSubsumesIff(m: map<string, string>)
    ensures Subsumes(m, m) <==>
            forall key :: key in m && key != "Abbr" ==> m[key] != "Ptan" && m[key] != "Brev"
  {
    if !Subsumes(m, m) {
      var key :| key in m && key != "Abbr" && m[key] != Normalized(m[key]);
      assert m[key] == "Ptan" || m[key] == "Brev";
    }
  }

  /** A tag subsumes itself exactly when none of its non-`Abbr` values is `Ptan` or `Brev`. */
  lemma {:induction false} SelfSubsumedIff(tag: string)
    requires ParsedDescr(tag).Ok?
    ensures var m := FeatureMap(ParsedDescr(tag).value.1);
            IsSubsumed(tag, tag) == Ok(true) <==>
            forall key :: key in m && key != "Abbr" ==> m[key] != "Ptan" && m[key] != "Brev"
  {
    var (pos, fs) := ParsedDescr(tag).value;
    IsSubsumedParsed(tag, tag, pos, fs, pos, fs);
    SelfSubsumesIff(FeatureMap(fs));
  }

  /** A tag with one feature. */
  lemma {:induction false} OneFeature(pos: string, key: string, value: string)
    requires ',' !in pos && '=' !in key && '|' !in key && '|' !in value && ',' !in value
    ensures ParsedDescr(pos + "," + key + "=" + value) == Ok((pos, [(key, value)]))
  {
    assert pos + "," + key + "=" + value == pos + [','] + key + ['='] + value;
    SingleElement(pos + "," + key + "=" + value, pos, key, value);
    SplitPlain(value, ',');
    assert WithKey(key, [value]) == [(key, value)];
  }

  /** The dictionary of a single pair. */
  lemma {:induction false} OnePairMap(key: string, value: string)
    ensures FeatureMap([(key, value)]) == map[key := value]
  {
    assert [(key, value)][..0] == [];
  }

  /** A one-feature tag is subsumed by the tag holding its normalised value under the same key. */
  lemma {:induction false} OneFeatureSubsumed(pos: string, key: string, value: string, normal: string)
    requires ',' !in pos && '=' !in key && '|' !in key
    requires '|' !in value && ',' !in value && '|' !in normal && ',' !in normal
    requires normal == Normalized(value)
    ensures IsSubsumed(pos + "," + key + "=" + value, pos + "," + key + "=" + normal) == Ok(true)
  {
    OneFeature(pos, key, value);
    OneFeature(pos, key, normal);
    OnePairMap(key, value);
    OnePairMap(key, normal);
    var first, second := pos + "," + key + "=" + value, pos + "," + key + "=" + normal;
    IsSubsumedParsed(first, second, pos, [(key, value)], pos, [(key, normal)]);
    assert Subsumes(map[key := value], map[key := normal]);
  }

  /** A `Ptan` value in the first tag is matched by `Plur` in the second. */
  lemma {:induction false} PtanMatchesPlur(pos: string, key: string)
    requires ',' !in pos && '=' !in key && '|' !in key
    ensures IsSubsumed(pos + "," + key + "=" + "Ptan", pos + "," + key + "=" + "Plur") == Ok(true)
  {
    OneFeatureSubsumed(pos, key, "Ptan", "Plur");
  }

  /** `Brev` in the first tag is matched by `Short` in the second. */
  lemma {:induction false} BrevMatchesShort(pos: string, key: string)
    requires ',' !in pos && '=' !in key && '|' !in key
    ensures IsSubsumed(pos + "," + key + "=" + "Brev", pos + "," + key + "=" + "Short") == Ok(true)
  {
    OneFeatureSubsumed(pos, key, "Brev", "Short");
  }

  /** A tag holding a non-`Abbr` `Ptan` value is not subsumed by itself. */
  lemma {:induction false} PtanNotSelfSubsumed(pos: string, key: string)
    requires ',' !in pos && '=' !in key && '|' !in key && key != "Abbr"
    ensures IsSubsumed(pos + "," + key + "=" + "Ptan", pos + "," + key + "=" + "Ptan") == Ok(false)
  {
    var tag := pos + "," + key + "=" + "Ptan";
    OneFeature(pos, key, "Ptan");
    OnePairMap(key, "Ptan");
    var m := map[key := "Ptan"];
    assert !Subsumes(m, m) by { assert key in m; }
    IsSubsumedParsed(tag, tag, pos, [(key, "Ptan")], pos, [(key, "Ptan")]);
  }

  /** Subsumption is transitive: normalising a value twice changes nothing more. */
  lemma {:induction false} SubsumesTransitive(a: map<string, string>, b: map<string, string>, c: map<string, string>)
    requires Subsumes(a, b) && Subsumes(b, c)
    ensures Subsumes(a, c)
  {
    forall key | key in a && key != "Abbr"
      ensures key in c && c[key] == Normalized(a[key])
    {
      assert Normalized(Normalized(a[key])) == Normalized(a[key]);
    }
  }

  // ---------------------------------------------------------------------
  // Sentence grouping
  // ---------------------------------------------------------------------

  /** Number of non-blank lines at the front. */
  function LeadingLines(lines: seq<string>): (n: nat)
    ensures n <= |lines|
    ensures forall k :: 0 <= k < n ==> lines[k] != ""
    ensures n < |lines| ==> lines[n] == ""
  {
    if lines == [] || lines[0] == "" then 0 else 1 + LeadingLines(lines[1..])
  }

  /** The maximal runs of non-blank lines, in order. */
  function Blocks(lines: seq<string>): (bs: seq<seq<string>>)
    ensures forall k :: 0 <= k < |bs| ==> bs[k] != [] && "" !in bs[k]
    decreases |lines|
  {
    if lines == [] then []
    else if lines[0] == "" then Blocks(lines[1..])
    else
      var n := LeadingLines(lines);
      [lines[..n]] + Blocks(lines[n..])
  }

  /** Every sentence wrapped in a one-element list, as `answer.append([curr_sent])` does. */
  function Wrap(bs: seq<seq<string>>): (r: seq<seq<seq<string>>>)
    ensures |r| == |bs| && forall k :: 0 <= k < |r| ==> r[k] == [bs[k]]
  {
    seq(|bs|, k requires 0 <= k < |bs| => [bs[k]])
  }

  /** Appending a sentence appends its wrapped form. */
  lemma {:induction false} WrapSnoc(bs: seq<seq<string>>, c: seq<string>)
    ensures Wrap(bs + [c]) == Wrap(bs) + [[c]]
  {
    assert forall k :: 0 <= k < |bs| ==> (bs + [c])[k] == bs[k];
  }

  /** The non-blank lines, in order. */
  function NonBlank(lines: seq<string>): seq<string>
  {
    if lines == [] then []
    else if lines[0] == "" then NonBlank(lines[1..])
    else [lines[0]] + NonBlank(lines[1..])
  }

  /** The sentences laid end to end. */
  function Concat(bs: seq<seq<string>>): seq<string>
  {
    if bs == [] then [] else bs[0] + Concat(bs[1..])
  }

  /** A sentence is one leading run, whether or not a blank line follows it. */
  lemma {:induction false} LeadingOfSentence(c: seq<string>, t: seq<string>)
    requires "" !in c
    ensures LeadingLines(c) == |c|
    ensures LeadingLines(c + [""] + t) == |c|
  {
    if c != [] {
      assert (c + [""] + t)[1..] == c[1..] + [""] + t;
      LeadingOfSentence(c[1..], t);
    }
  }

  /** A sentence followed by a blank line is one block. */
  lemma {:induction false} BlocksAfterSentence(c: seq<string>, t: seq<string>)
    requires c != [] && "" !in c
    ensures Blocks(c + [""] + t) == [c] + Blocks(t)
  {
    var s := c + [""] + t;
    LeadingOfSentence(c, t);
    assert s[..|c|] == c;
    assert s[|c|..] == [""] + t;
    assert ([""] + t)[1..] == t;
  }

  /** A blank line closes the current sentence, if there is one. */
  lemma {:induction false} BlocksAtBlank(c: seq<string>, t: seq<string>)
    requires "" !in c
    ensures Blocks(c + [""] + t) == (if c != [] then [c] else []) + Blocks(t)
  {
    if c != [] {
      BlocksAfterSentence(c, t);
    } else {
      assert c + [""] + t == [""] + t;
      assert ([""] + t)[1..] == t;
    }
  }

  /** A sentence alone is one block. */
  lemma {:induction false} BlocksOfSentence(c: seq<string>)
    requires c != [] && "" !in c
    ensures Blocks(c) == [c]
  {
    LeadingOfSentence(c, []);
    assert c[..|c|] == c && c[|c|..] == [];
  }

  /** A leading run of non-blank lines is kept whole, in front of the rest. */
  lemma {:induction false} NonBlankLeading(lines: seq<string>, n: nat)
    requires n <= |lines| && forall k :: 0 <= k < n ==> lines[k] != ""
    ensures NonBlank(lines) == lines[..n] + NonBlank(lines[n..])
  {
    if n > 0 {
      NonBlankLeading(lines[1..], n - 1);
      assert lines[1..][n - 1..] == lines[n..];
      assert [lines[0]] + lines[1..][..n - 1] == lines[..n];
    }
  }

  /** The sentences together are the non-blank lines in their original order. */
  lemma {:induction false} BlocksConcat(lines: seq<string>)
    ensures Concat(Blocks(lines)) == NonBlank(lines)
    decreases |lines|
  {
    if lines != [] {
      if lines[0] == "" {
        BlocksConcat(lines[1..]);
      } else {
        var n := LeadingLines(lines);
        BlocksConcat(lines[n..]);
        NonBlankLeading(lines, n);
        assert ([lines[..n]] + Blocks(lines[n..]))[1..] == Blocks(lines[n..]);
      }
    }
  }

  /** Sentences written one after another with one blank line between them. */
  function Layout(bs: seq<seq<string>>): seq<string>
  {
    if bs == [] then []
    else if |bs| == 1 then bs[0]
    else bs[0] + [""] + Layout(bs[1..])
  }

  /** Grouping the layout of non-empty sentences without blank lines gives them back. */
  lemma {:induction false} BlocksLayout(bs: seq<seq<string>>)
    requires forall k :: 0 <= k < |bs| ==> bs[k] != [] && "" !in bs[k]
    ensures Blocks(Layout(bs)) == bs
  {
    if |bs| == 1 {
      BlocksOfSentence(bs[0]);
    } else if |bs| > 1 {
      BlocksLayout(bs[1..]);
      BlocksAfterSentence(bs[0], Layout(bs[1..]));
      assert [bs[0]] + bs[1..] == bs;
    }
  }

  /** What one line does to the blocks still to come: a blank closes the sentence, any other line extends it. */
  lemma {:induction false} LineStep(lines: seq<string>, i: nat, done: seq<seq<string>>, currSent: seq<string>)
    requires i < |lines| && "" !in currSent
    requires Blocks(lines) == done + Blocks(currSent + lines[i..])
    ensures lines[i] == "" && currSent != [] ==>
              Blocks(lines) == (done + [currSent]) + Blocks([] + lines[i + 1..])
    ensures lines[i] == "" && currSent == [] ==>
              Blocks(lines) == done + Blocks([] + lines[i + 1..])
    ensures lines[i] != "" ==>
              "" !in currSent + [lines[i]] &&
              Blocks(lines) == done + Blocks((currSent + [lines[i]]) + lines[i + 1..])
  {
    var rest := lines[i + 1..];
    assert currSent + lines[i..] == currSent + [lines[i]] + rest;
    assert [] + rest == rest;
    if lines[i] == "" {
      BlocksAtBlank(currSent, rest);
      if currSent != [] {
        assert done + [currSent] + Blocks(rest) == done + ([currSent] + Blocks(rest));
      }
    }
  }

  /**
   * The line loop of `read_tags_input` over already stripped lines: blank
   * lines close the current sentence, other lines are appended to it, and a
   * last sentence is emitted after the loop.
   */
  method ReadTagsInput(lines: seq<string>) returns (answer: seq<seq<seq<string>>>)
    ensures answer == Wrap(Blocks(lines))
    ensures forall k :: 0 <= k < |answer| ==> |answer[k]| == 1 && answer[k][0] != []
  {
    answer := [];
    var currSent: seq<string> := [];
    ghost var done: seq<seq<string>> := [];
    var i := 0;
    assert currSent + lines[0..] == lines;
    while i < |lines|
      invariant 0 <= i <= |lines|
      invariant "" !in currSent
      invariant answer == Wrap(done)
      invariant Blocks(lines) == done + Blocks(currSent + lines[i..])
    {
      var line := lines[i];
      LineStep(lines, i, done, currSent);
      if line == "" {
        if |currSent| > 0 {
          WrapSnoc(done, currSent);
          answer, done := answer + [[currSent]], done + [currSent];
        }
        currSent := [];
      } else {
        currSent := currSent + [line];
      }
      i := i + 1;
    }
    assert currSent + lines[i..] == currSent;
    if |currSent| > 0 {
      BlocksOfSentence(currSent);
      WrapSnoc(done, currSent);
      answer, done := answer + [[currSent]], done + [currSent];
    }
  }
}
