/**
 * Data.py: labelling rows from a sequence of console answers, the older
 * count-and-encode pass data_to_one_hot, and the ModelData store that
 * mines a keyword list, encodes descriptions and builds its feature and
 * label matrices.
 *
 * A Python dict is modelled as a map together with the sequence of its
 * keys in insertion order. A pandas Series or DataFrame column is a
 * sequence; a DataFrame of 0/1 values is a sequence of rows.
 */
module Data {
  import opened Wrappers
  import opened Seqs
  import opened Text
  import opened Vocabulary
  import opened Labeling

  /** Descriptions and their labels ("" for an unlabelled row). */
  datatype LabelData = LabelData(X: seq<string>, y: seq<string>)

  /** Keyword and label keys with the 0/1 matrices over them, one row per input row. */
  datatype OneHotData = OneHotData(xKeys: seq<string>, yKeys: seq<string>, X: seq<seq<int>>, y: seq<seq<int>>)

  datatype IndexError = IndexError

  /**
   * The readline completer complete(text, state) over the current category
   * list: the state-th category that completes text, None just past the
   * last one, and an IndexError beyond that.
   */
  function Complete(vocab: seq<string>, text: string, state: nat): (r: Result<Option<string>, IndexError>)
    ensures r.Ok? <==> state <= |Completions(vocab, text)|
    ensures r == Ok(None) <==> state == |Completions(vocab, text)|
    ensures r.Ok? && r.value.Some? ==> r.value.value in vocab && MatchesPrefix(r.value.value, text)
  {
    var results := Completions(vocab, text);
    if state < |results| then Ok(Some(results[state]))
    else if state == |results| then Ok(None)
    else Err(IndexError)
  }

  /**
   * classify_data: ask for a category for every row, reading the answers in
   * order. Returns the rows with their labels, and the category list the
   * completer offered (each category once, in first-seen order).
   */
  method ClassifyData(data: seq<string>, answers: seq<string>) returns (r: LabelData, categories: seq<string>)
    requires |answers| == |data|
    ensures r.X == data
    ensures r.y == Labels(answers)
    ensures categories == Distinct(Answered(answers))
  {
    var y := new string[|data|](_ => "");
    categories := [];
    var index := 0;
    while index < |data|
      invariant index <= |data| && index <= HaltIndex(answers)
      invariant forall i :: 0 <= i < index ==> y[i] == CategoryOf(answers[i])
      invariant forall i :: index <= i < |data| ==> y[i] == ""
      invariant categories == Distinct(Categorised(answers, index))
    {
      var className := answers[index];
      if className == "" {
        className := DefaultCategory;
      }
      if className == Sentinel {
        break;
      }
      y[index] := className;
      if className !in categories {
        categories := categories + [className];
      }
      assert Categorised(answers, index + 1) == Categorised(answers, index) + [className];
      AppendPrefix(Categorised(answers, index), className);
      index := index + 1;
    }
    assert index == HaltIndex(answers);
    r := LabelData(data, y[..]);
  }

  /** The keys data_to_one_hot keeps: non-numeric tokens seen more than once, in first-seen order. */
  function FrequentKeys(ts: seq<string>): (r: seq<string>)
    ensures NoDup(r)
    ensures forall w :: w in r ==> !IsNumeric(w) && Count(ts, w) > 1
  {
    KeepWhere(Distinct(ts), set w | w in ts && !IsNumeric(w) && Count(ts, w) > 1)
  }

  /** One feature row: bit j is set when key j is one of the row's tokens, as written. */
  function FeatureRow(xKeys: seq<string>, x: string): (r: seq<int>)
    ensures |r| == |xKeys|
    ensures forall j :: 0 <= j < |r| ==> (r[j] == 0 || r[j] == 1) && (r[j] == 1 <==> xKeys[j] in Split(x))
  {
    seq(|xKeys|, j requires 0 <= j < |xKeys| => if xKeys[j] in Split(x) then 1 else 0)
  }

  /**
   * One label row: bit j is set when label key j is the row's label. Over
   * duplicate-free keys that hold the label there is exactly one 1, at the
   * label's position.
   */
  function LabelRow(yKeys: seq<string>, category: string): (r: seq<int>)
    ensures |r| == |yKeys|
    ensures category !in yKeys ==> forall j :: 0 <= j < |r| ==> r[j] == 0
    ensures NoDup(yKeys) && category in yKeys ==>
      forall j :: 0 <= j < |r| ==> (r[j] == 1 <==> j == FirstIndex(yKeys, category))
  {
    seq(|yKeys|, j requires 0 <= j < |yKeys| => if yKeys[j] == category then 1 else 0)
  }

  /** What data_to_one_hot returns for data. */
  function OneHot(data: LabelData): (r: OneHotData)
    ensures NoDup(r.xKeys) && NoDup(r.yKeys)
    ensures |r.X| == |data.X| && |r.y| == |data.y|
    ensures forall i :: 0 <= i < |r.X| ==> |r.X[i]| == |r.xKeys|
    ensures forall i :: 0 <= i < |r.y| ==> |r.y[i]| == |r.yKeys|
  {
    var xKeys := FrequentKeys(Flatten(Tokenise(data.X)));
    var yKeys := Distinct(data.y);
    OneHotData(xKeys, yKeys,
      seq(|data.X|, i requires 0 <= i < |data.X| => FeatureRow(xKeys, data.X[i])),
      seq(|data.y|, i requires 0 <= i < |data.y| => LabelRow(yKeys, data.y[i])))
  }

  /**
   * The count dictionary of data_to_one_hot after reading the tokens seen:
   * its keys are the tokens seen, in first-seen order; a numeric token
   * counts 1 (each sighting resets it), any other token its occurrences.
   */
  ghost predicate TokenCounts(freq: map<string, int>, order: seq<string>, seen: seq<string>)
  {
    order == Distinct(seen) &&
    (forall k :: k in freq <==> k in seen) &&
    (forall k :: k in freq ==> freq[k] == if IsNumeric(k) then 1 else Count(seen, k))
  }

  /** One token read by the counting loop of data_to_one_hot keeps TokenCounts. */
  lemma CountStep(freq: map<string, int>, order: seq<string>, seen: seq<string>, word: string,
                  freq': map<string, int>, order': seq<string>)
    requires TokenCounts(freq, order, seen)
    requires freq' == if word in freq && !IsNumeric(word) then freq[word := freq[word] + 1] else freq[word := 1]
    requires order' == if word in freq then order else order + [word]
    ensures TokenCounts(freq', order', seen + [word])
  {
    ExtendSpec([], seen);
    AppendPrefix(seen, word);
    forall k ensures Count(seen + [word], k) == Count(seen, k) + (if word == k then 1 else 0) {
      CountAppend(seen, word, k);
    }
  }

  /** The count dictionary filtered to counts above 1 gives the keys data_to_one_hot keeps. */
  lemma CountsGiveKeys(freq: map<string, int>, order: seq<string>, ts: seq<string>)
    requires TokenCounts(freq, order, ts)
    ensures forall k :: k in order ==> k in freq
    ensures KeysAbove1(order, freq) == FrequentKeys(ts)
  {
    ExtendSpec([], ts);
    KeysAbove1IsKeepWhere(order, freq, set w | w in ts && !IsNumeric(w) && Count(ts, w) > 1);
  }

  /** The inner loop of data_to_one_hot: count the tokens of one row into the dictionary. */
  method CountTokens(freq0: map<string, int>, order0: seq<string>, words: seq<string>, ghost before: seq<string>)
    returns (freq: map<string, int>, order: seq<string>)
    requires TokenCounts(freq0, order0, before)
    ensures TokenCounts(freq, order, before + words)
  {
    freq, order := freq0, order0;
    ghost var seen := before;
    var j := 0;
    while j < |words|
      invariant j <= |words|
      invariant seen == before + words[..j]
      invariant TokenCounts(freq, order, seen)
    {
      var word := words[j];
      ghost var freq1, order1 := freq, order;
      if word in freq && !IsNumeric(word) {
        freq := freq[word := freq[word] + 1];
      } else {
        if word !in freq {
          order := order + [word];
        }
        freq := freq[word := 1];
      }
      CountStep(freq1, order1, seen, word, freq, order);
      assert words[..j + 1] == words[..j] + [word];
      ConcatAssoc(before, words[..j], [word]);
      seen := seen + [word];
      j := j + 1;
    }
    assert words[..j] == words;
  }

  /** data_to_one_hot. */
  method DataToOneHot(data: LabelData) returns (r: OneHotData)
    ensures r == OneHot(data)
  {
    var freq: map<string, int> := map[];
    var order: seq<string> := [];
    ghost var tss := Tokenise(data.X);
    var i := 0;
    while i < |data.X|
      invariant i <= |data.X|
      invariant TokenCounts(freq, order, Flatten(tss[..i]))
    {
      var words := Tokens(data.X[i]);
      freq, order := CountTokens(freq, order, words, Flatten(tss[..i]));
      assert tss[..i + 1] == tss[..i] + [words];
      FlattenLast(tss[..i], words);
      i := i + 1;
    }
    assert tss[..i] == tss;
    CountsGiveKeys(freq, order, Flatten(tss));
    var xKeys := KeysAbove1(order, freq);
    var yKeys := Distinct(data.y);
    r := OneHotData(xKeys, yKeys,
      seq(|data.X|, i requires 0 <= i < |data.X| => FeatureRow(xKeys, data.X[i])),
      seq(|data.y|, i requires 0 <= i < |data.y| => LabelRow(yKeys, data.y[i])));
  }
  /**
   * The keyword keys of data_to_one_hot have no duplicates, are exactly the
   * non-numeric tokens seen at least twice, and come in first-seen order.
   * A numeric token is never a key, however often it occurs.
   */
  lemma FrequentKeysSpec(ts: seq<string>)
    ensures NoDup(FrequentKeys(ts))
    ensures forall w :: w in FrequentKeys(ts) <==> !IsNumeric(w) && Count(ts, w) >= 2
    ensures InFirstSeenOrder(FrequentKeys(ts), ts)
  {
    DistinctFirstSeen(ts);
    KeepWhereFirstSeen(Distinct(ts), (set w | w in ts && !IsNumeric(w) && Count(ts, w) > 1), ts);
  }

  /**
   * The matrices of data_to_one_hot: one feature row per description, as
   * wide as the keyword keys, bit j set exactly when keyword j is a token
   * of the row; one label row per label, as wide as the label keys, with a
   * single 1 at the position of the row's label.
   */
  lemma OneHotShape(data: LabelData)
    ensures var r := OneHot(data);
      |r.X| == |data.X| &&
      forall i, j :: 0 <= i < |data.X| && 0 <= j < |r.xKeys| ==>
        |r.X[i]| == |r.xKeys| && r.X[i][j] in {0, 1} && (r.X[i][j] == 1 <==> r.xKeys[j] in Split(data.X[i]))
    ensures var r := OneHot(data);
      |r.y| == |data.y| &&
      forall i :: 0 <= i < |data.y| ==>
        data.y[i] in r.yKeys && |r.y[i]| == |r.yKeys| &&
        r.y[i][FirstIndex(r.yKeys, data.y[i])] == 1 &&
        forall j :: 0 <= j < |r.yKeys| && j != FirstIndex(r.yKeys, data.y[i]) ==> r.y[i][j] == 0
  {
    DistinctFirstSeen(data.y);
  }

  /**
   * The worked example: rows a, b, c, a, b labelled one, two, three, one,
   * two give keys [a, b] and [one, two, three] and the matrices below.
   */
  lemma OneHotExample()
    ensures OneHot(LabelData(["a", "b", "c", "a", "b"], ["one", "two", "three", "one", "two"])) ==
      OneHotData(["a", "b"], ["one", "two", "three"],
        [[1, 0], [0, 1], [0, 0], [1, 0], [0, 1]],
        [[1, 0, 0], [0, 1, 0], [0, 0, 1], [1, 0, 0], [0, 1, 0]])
  {
    var data := LabelData(["a", "b", "c", "a", "b"], ["one", "two", "three", "one", "two"]);
    ExampleFeatures(data);
    ExampleLabels(data);
  }

  lemma ExampleFeatures(data: LabelData)
    requires data.X == ["a", "b", "c", "a", "b"]
    ensures OneHot(data).xKeys == ["a", "b"]
    ensures OneHot(data).X == [[1, 0], [0, 1], [0, 0], [1, 0], [0, 1]]
  {
    ExampleTokens();
    ExampleKeys(data.X);
    ExampleFeatureRows();
    var r := OneHot(data);
    assert r.xKeys == ["a", "b"];
    assert r.X[0] == FeatureRow(["a", "b"], "a");
    assert r.X[1] == FeatureRow(["a", "b"], "b");
    assert r.X[2] == FeatureRow(["a", "b"], "c");
    assert r.X[3] == FeatureRow(["a", "b"], "a");
    assert r.X[4] == FeatureRow(["a", "b"], "b");
  }

  lemma ExampleLabels(data: LabelData)
    requires data.y == ["one", "two", "three", "one", "two"]
    ensures OneHot(data).yKeys == ["one", "two", "three"]
    ensures OneHot(data).y == [[1, 0, 0], [0, 1, 0], [0, 0, 1], [1, 0, 0], [0, 1, 0]]
  {
    DistinctExample("one", "two", "three");
    var r := OneHot(data);
    var k := ["one", "two", "three"];
    assert r.yKeys == k;
    assert LabelRow(k, "one") == [1, 0, 0];
    assert LabelRow(k, "two") == [0, 1, 0];
    assert LabelRow(k, "three") == [0, 0, 1];
    assert r.y[0] == LabelRow(k, "one");
    assert r.y[1] == LabelRow(k, "two");
    assert r.y[2] == LabelRow(k, "three");
    assert r.y[3] == LabelRow(k, "one");
    assert r.y[4] == LabelRow(k, "two");
  }

  lemma ExampleFeatureRows()
    ensures FeatureRow(["a", "b"], "a") == [1, 0]
    ensures FeatureRow(["a", "b"], "b") == [0, 1]
    ensures FeatureRow(["a", "b"], "c") == [0, 0]
  {
    SplitLetter('a');
    SplitLetter('b');
    SplitLetter('c');
  }

  /** A one-character row with no delimiter is a single token. */
  lemma SplitLetter(c: char)
    requires !IsDelimiter(c)
    ensures Split([c]) == [[c]]
  {
    SplitWhole([c], "");
    assert "" + [c] == [c];
  }

  lemma ExampleTokens()
    ensures Flatten(Tokenise(["a", "b", "c", "a", "b"])) == ["a", "b", "c", "a", "b"]
  {
    ExampleTokenise();
    ExampleFlatten();
  }

  lemma ExampleTokenise()
    ensures Tokenise(["a", "b", "c", "a", "b"]) == [["a"], ["b"], ["c"], ["a"], ["b"]]
  {
    SplitLetter('a');
    SplitLetter('b');
    SplitLetter('c');
  }

  lemma ExampleFlatten()
    ensures Flatten([["a"], ["b"], ["c"], ["a"], ["b"]]) == ["a", "b", "c", "a", "b"]
  {
    var t0: seq<seq<string>> := [];
    var t1 := t0 + [["a"]];
    var t2 := t1 + [["b"]];
    var t3 := t2 + [["c"]];
    var t4 := t3 + [["a"]];
    var t5 := t4 + [["b"]];
    assert t5 == [["a"], ["b"], ["c"], ["a"], ["b"]];
    FlattenLast(t0, ["a"]);
    FlattenLast(t1, ["b"]);
    FlattenLast(t2, ["c"]);
    FlattenLast(t3, ["a"]);
    FlattenLast(t4, ["b"]);
  }

  /** unique() of a, b, c, a, b with three different values lists a, b, c. */
  lemma DistinctExample<T>(a: T, b: T, c: T)
    requires a != b && b != c && a != c
    ensures Distinct([a, b, c, a, b]) == [a, b, c]
  {
    var s0: seq<T> := [];
    var s1 := s0 + [a];
    var s2 := s1 + [b];
    var s3 := s2 + [c];
    var s4 := s3 + [a];
    var s5 := s4 + [b];
    assert s5 == [a, b, c, a, b];
    ExtendAppend([], s0, a);
    ExtendAppend([], s1, b);
    ExtendAppend([], s2, c);
    ExtendAppend([], s3, a);
    ExtendAppend([], s4, b);
  }

  lemma ExampleCounts()
    ensures Count(["a", "b", "c", "a", "b"], "a") == 2
    ensures Count(["a", "b", "c", "a", "b"], "b") == 2
    ensures Count(["a", "b", "c", "a", "b"], "c") == 1
  {
    var s0: seq<string> := [];
    var s1 := s0 + ["a"];
    var s2 := s1 + ["b"];
    var s3 := s2 + ["c"];
    var s4 := s3 + ["a"];
    var s5 := s4 + ["b"];
    assert s5 == ["a", "b", "c", "a", "b"];
    forall y ensures Count(s5, y) == Count(s0, y) + (if y == "a" then 2 else 0) + (if y == "b" then 2 else 0) + (if y == "c" then 1 else 0) {
      CountAppend(s0, "a", y);
      CountAppend(s1, "b", y);
      CountAppend(s2, "c", y);
      CountAppend(s3, "a", y);
      CountAppend(s4, "b", y);
    }
  }

  lemma ExampleKeys(xs: seq<string>)
    requires xs == ["a", "b", "c", "a", "b"]
    ensures FrequentKeys(xs) == ["a", "b"]
  {
    DistinctExample("a", "b", "c");
    ExampleCounts();
    var keep := set w | w in xs && !IsNumeric(w) && Count(xs, w) > 1;
    assert "a"[0] == 'a' && "b"[0] == 'b';
    assert "a" in xs && "b" in xs;
    KeepThree("a", "b", "c", keep);
  }

  lemma KeepThree<T(!new)>(a: T, b: T, c: T, keep: set<T>)
    requires a in keep && b in keep && c !in keep
    ensures KeepWhere([a, b, c], keep) == [a, b]
  {
    var k0: seq<T> := [];
    var k1, k2 := [a], [a, b];
    assert k1 == k0 + [a] && k2 == k1 + [b] && [a, b, c] == k2 + [c];
    KeepWhereAppend(k0, keep, a);
    assert KeepWhere(k1, keep) == [a];
    KeepWhereAppend(k1, keep, b);
    assert KeepWhere(k2, keep) == [a, b];
    KeepWhereAppend(k2, keep, c);
  }


  /*
   * ModelData: the training store. raw_data is modelled by its Description
   * column and its optional Class column; a missing cell of the Class
   * column (pandas NaN) is None.
   */

  /**
   * The ValueErrors preprocess_data raises. ClassNotFound: list.index finds
   * no entry of class_names for the class of row (the first such row).
   * NoFeatureColumns: the keyword list is empty, so X has no columns and
   * assigning the first row's one-hot vector to X.loc fails.
   */
  datatype PreprocessError = ClassNotFound(row: nat) | NoFeatureColumns

  /**
   * The feature frame of preprocess_data has one column per keyword; with no
   * keyword and at least one row, the first row cannot be stored.
   */
  predicate NoFeatureFrame(wordList: seq<string>, descriptions: seq<string>)
  {
    |wordList| == 0 && |descriptions| > 0
  }

  /** The present cells of a column, in order (NaN cells dropped). */
  function Present(column: seq<Option<string>>): (r: seq<string>)
    ensures forall c :: c in r <==> Some(c) in column
  {
    if column == [] then []
    else
      var r0 := Present(column[..|column| - 1]);
      var last := column[|column| - 1];
      assert column == column[..|column| - 1] + [last];
      if last.Some? then r0 + [last.value] else r0
  }

  /**
   * raw_data['Class'].apply(lambda x: class_names.index(x)): the position of
   * each row's class in names, or the first row whose class is missing or
   * not listed.
   */
  function ClassIndices(column: seq<Option<string>>, names: seq<string>): (r: Result<seq<nat>, PreprocessError>)
    ensures r.Ok? <==> forall i :: 0 <= i < |column| ==> column[i].Some? && column[i].value in names
    ensures r.Ok? ==> (|r.value| == |column| &&
      forall i :: 0 <= i < |column| ==> (r.value[i] < |names| && column[i] == Some(names[r.value[i]]) &&
        forall j :: 0 <= j < r.value[i] ==> column[i] != Some(names[j])))
    ensures r.Err? ==> (r.error.ClassNotFound? && r.error.row < |column| &&
      (column[r.error.row].None? || column[r.error.row].value !in names) &&
      forall i :: 0 <= i < r.error.row ==> column[i].Some? && column[i].value in names)
  {
    if column == [] then Ok([])
    else
      var c0, last := column[..|column| - 1], column[|column| - 1];
      var r0 := ClassIndices(c0, names);
      if r0.Err? then r0
      else if last.None? || last.value !in names then Err(ClassNotFound(|column| - 1))
      else Ok(r0.value + [FirstIndex(names, last.value)])
  }

  function Range(n: nat): (r: seq<nat>)
    ensures |r| == n && forall i :: 0 <= i < n ==> r[i] == i
  {
    seq(n, i requires 0 <= i < n => i)
  }

  /** The columns pd.get_dummies makes for a column of class indices below n: the values that occur, ascending. */
  function DummyColumns(idx: seq<nat>, n: nat): (cols: seq<nat>)
    ensures forall v :: v in cols <==> v in idx && v < n
    ensures forall j, k :: 0 <= j < k < |cols| ==> cols[j] < cols[k]
    ensures forall j :: 0 <= j < |cols| ==> cols[j] < n
  {
    if n == 0 then [] else DummyColumns(idx, n - 1) + (if n - 1 in idx then [n - 1] else [])
  }

  /** pd.get_dummies over those columns: row i has a 1 in the column of value idx[i]. */
  function Dummies(idx: seq<nat>, cols: seq<nat>): (r: seq<seq<int>>)
    ensures |r| == |idx|
    ensures forall i :: 0 <= i < |r| ==> |r[i]| == |cols| && (1 in r[i] <==> idx[i] in cols)
  {
    seq(|idx|, i requires 0 <= i < |idx| => DummyRow(cols, idx[i]))
  }

  /** One row of pd.get_dummies: a 1 in the column of value v, if there is one. */
  function DummyRow(cols: seq<nat>, v: nat): (r: seq<int>)
    ensures |r| == |cols|
    ensures 1 in r <==> v in cols
  {
    var r := seq(|cols|, j requires 0 <= j < |cols| => if cols[j] == v then 1 else 0);
    assert forall j :: 0 <= j < |cols| && cols[j] == v ==> r[j] == 1;
    r
  }

  /** The feature matrix preprocess_data builds: one encoded row per description. */
  ghost function Features(wl: seq<string>, ds: seq<string>): (r: seq<seq<int>>)
    ensures |r| == |ds|
    ensures forall i :: 0 <= i < |r| ==> |r[i]| == |wl|
  {
    seq(|ds|, i requires 0 <= i < |ds| => Encoding(wl, ds[i]))
  }

  /** The cells of the Class column; before the column exists every cell reads as NaN. */
  function Cells(column: Option<seq<Option<string>>>, n: nat): (c: seq<Option<string>>)
    requires column.Some? ==> |column.value| == n
    ensures |c| == n
  {
    if column.Some? then column.value else seq(n, _ => None)
  }

  /** base with its first k cells holding the classes of the first k answers. */
  function Overlay(base: seq<Option<string>>, answers: seq<string>, k: nat): (c: seq<Option<string>>)
    requires k <= |answers| == |base|
    ensures |c| == |base|
  {
    seq(|base|, i requires 0 <= i < |base| => if i < k then Some(CategoryOf(answers[i])) else base[i])
  }

  /** The Class column after labelling k rows: the first assignment creates it. */
  function LabelledUpTo(column: Option<seq<Option<string>>>, n: nat, answers: seq<string>, k: nat): Option<seq<Option<string>>>
    requires k <= |answers| && (column.Some? ==> |column.value| == n) && |answers| == n
  {
    if k == 0 then column else Some(Overlay(Cells(column, n), answers, k))
  }

  /** The Class column after ModelData.classify_data. */
  function LabelledColumn(column: Option<seq<Option<string>>>, answers: seq<string>): (r: Option<seq<Option<string>>>)
    requires column.Some? ==> |column.value| == |answers|
    ensures r.None? <==> column.None? && HaltIndex(answers) == 0
    ensures r.Some? ==> |r.value| == |answers|
  {
    LabelledUpTo(column, |answers|, answers, HaltIndex(answers))
  }

  /** The shape of TokenCounts for create_word_list: plain occurrence counts. */
  ghost predicate WordCounts(counts: map<string, int>, order: seq<string>, seen: seq<string>)
  {
    order == Distinct(seen) &&
    (forall k :: k in counts <==> k in seen) &&
    (forall k :: k in counts ==> counts[k] == Count(seen, k))
  }

  lemma MineStep(counts: map<string, int>, order: seq<string>, seen: seq<string>, word: string,
                 counts': map<string, int>, order': seq<string>)
    requires WordCounts(counts, order, seen)
    requires counts' == if word !in counts then counts[word := 1] else counts[word := counts[word] + 1]
    requires order' == if word in counts then order else order + [word]
    ensures WordCounts(counts', order', seen + [word])
  {
    ExtendSpec([], seen);
    AppendPrefix(seen, word);
    forall k ensures Count(seen + [word], k) == Count(seen, k) + (if word == k then 1 else 0) {
      CountAppend(seen, word, k);
    }
  }

  /** The inner loop of create_word_list: count the kept tokens of one description. */
  method CountMinable(counts0: map<string, int>, order0: seq<string>, words: seq<string>, ghost before: seq<string>)
    returns (counts: map<string, int>, order: seq<string>)
    requires WordCounts(counts0, order0, before)
    ensures WordCounts(counts, order, before + MinableTokens(words))
  {
    counts, order := counts0, order0;
    ghost var seen := before;
    var j := 0;
    while j < |words|
      invariant j <= |words|
      invariant seen == before + MinableTokens(words[..j])
      invariant WordCounts(counts, order, seen)
    {
      var word := words[j];
      MinableTokensLast(words[..j], word);
      assert words[..j + 1] == words[..j] + [word];
      if |word| >= 2 && !IsNumeric(RemoveHash(word)) {
        ghost var counts1, order1 := counts, order;
        if word !in counts {
          counts := counts[word := 1];
          order := order + [word];
        } else {
          counts := counts[word := counts[word] + 1];
        }
        MineStep(counts1, order1, seen, word, counts, order);
        ConcatAssoc(before, MinableTokens(words[..j]), [word]);
        seen := seen + [word];
      } else {
        assert MinableTokens(words[..j + 1]) == MinableTokens(words[..j]) + [];
      }
      j := j + 1;
    }
    assert words[..j] == words;
  }

  /** One labelled row of ModelData.classify_data: the column gains that row's class. */
  lemma LabelStep(column: Option<seq<Option<string>>>, answers: seq<string>, index: nat,
                  before: Option<seq<Option<string>>>, after: Option<seq<Option<string>>>)
    requires column.Some? ==> |column.value| == |answers|
    requires index < |answers|
    requires before == LabelledUpTo(column, |answers|, answers, index)
    requires after == Some(Cells(before, |answers|)[index := Some(CategoryOf(answers[index]))])
    ensures after == LabelledUpTo(column, |answers|, answers, index + 1)
  {
    var base := Cells(column, |answers|);
    assert Cells(before, |answers|) == Overlay(base, answers, index);
    OverlayStep(base, answers, index);
  }

  lemma OverlayStep(base: seq<Option<string>>, answers: seq<string>, k: nat)
    requires k < |answers| == |base|
    ensures Overlay(base, answers, k)[k := Some(CategoryOf(answers[k]))] == Overlay(base, answers, k + 1)
  {
  }

  /** One labelled row of ModelData.classify_data: a new class is appended once. */
  lemma NamesStep(names: seq<string>, answers: seq<string>, index: nat, before: seq<string>, after: seq<string>)
    requires index < HaltIndex(answers)
    requires before == Extend(names, Categorised(answers, index))
    requires after == if CategoryOf(answers[index]) in before then before else before + [CategoryOf(answers[index])]
    ensures after == Extend(names, Categorised(answers, index + 1))
    ensures NoDup(names) ==> NoDup(after)
  {
    assert Categorised(answers, index + 1) == Categorised(answers, index) + [CategoryOf(answers[index])];
    ExtendAppend(names, Categorised(answers, index), CategoryOf(answers[index]));
    ExtendSpec(names, Categorised(answers, index + 1));
  }

  /**
   * The feature matrix of preprocess_data over a duplicate-free keyword
   * list: one row per description, as wide as the list, bit j set exactly
   * when some uppercased token of the description equals keyword j.
   */
  lemma FeaturesShape(wl: seq<string>, ds: seq<string>)
    requires NoDup(wl)
    ensures |Features(wl, ds)| == |ds|
    ensures forall i :: 0 <= i < |ds| ==> |Features(wl, ds)[i]| == |wl|
    ensures forall i, j :: 0 <= i < |ds| && 0 <= j < |wl| ==>
      Features(wl, ds)[i][j] in {0, 1} &&
      (Features(wl, ds)[i][j] == 1 <==> exists t :: t in Split(ds[i]) && Upper(t) == wl[j])
  {
    forall i | 0 <= i < |ds| {
      EncodingMeaning(wl, ds[i]);
    }
  }

  /**
   * Every label row of get_dummies has exactly one 1, in the column of that
   * row's class index.
   */
  lemma DummiesOneHot(idx: seq<nat>, n: nat)
    requires forall i :: 0 <= i < |idx| ==> idx[i] < n
    ensures var cols := DummyColumns(idx, n); var d := Dummies(idx, cols);
      |d| == |idx| &&
      forall i :: 0 <= i < |idx| ==> (|d[i]| == |cols| &&
        exists p :: 0 <= p < |cols| && cols[p] == idx[i] && d[i][p] == 1 &&
          forall j :: 0 <= j < |cols| && j != p ==> d[i][j] == 0)
  {
    var cols := DummyColumns(idx, n);
    forall i | 0 <= i < |idx|
      ensures exists p :: (0 <= p < |cols| && cols[p] == idx[i] && Dummies(idx, cols)[i][p] == 1 &&
        forall j :: 0 <= j < |cols| && j != p ==> Dummies(idx, cols)[i][j] == 0)
    {
      assert idx[i] in idx;
      var p :| 0 <= p < |cols| && cols[p] == idx[i];
      forall j | 0 <= j < |cols| && j != p ensures cols[j] != idx[i] {
        if j < p { assert cols[j] < cols[p]; } else { assert cols[p] < cols[j]; }
      }
    }
  }

  /** When every class index below n occurs, get_dummies has exactly the columns 0 .. n-1. */
  lemma {:induction false} DummyColumnsFull(idx: seq<nat>, n: nat)
    requires forall v :: 0 <= v < n ==> v in idx
    ensures DummyColumns(idx, n) == Range(n)
  {
    if n > 0 {
      DummyColumnsFull(idx, n - 1);
      assert n - 1 in idx;
      assert Range(n - 1) + [n - 1] == Range(n);
    }
  }

  /**
   * When every class occurs in the column, label row i of get_dummies is the
   * unit vector at the row's class index, and one_hot_to_class at that
   * index gives back the row's class.
   */
  lemma LabelRoundTrip(m: ModelData, column: seq<Option<string>>)
    requires NoDup(m.classNames)
    requires ClassIndices(column, m.classNames).Ok?
    requires forall c :: c in m.classNames ==> Some(c) in column
    ensures var idx := ClassIndices(column, m.classNames).value;
      var d := Dummies(idx, DummyColumns(idx, |m.classNames|));
      forall i :: 0 <= i < |column| ==>
        |d[i]| == |m.classNames| &&
        (forall j :: 0 <= j < |m.classNames| ==> (d[i][j] == 1 <==> j == idx[i])) &&
        m.OneHotToClass(idx[i]) == Ok(column[i].value)
  {
    var names := m.classNames;
    var idx := ClassIndices(column, names).value;
    EveryIndexOccurs(names, column);
    DummyColumnsFull(idx, |names|);
    var d := Dummies(idx, Range(|names|));
    forall i | 0 <= i < |column|
      ensures |d[i]| == |names| && (forall j :: 0 <= j < |names| ==> (d[i][j] == 1 <==> j == idx[i]))
      ensures m.OneHotToClass(idx[i]) == Ok(column[i].value)
    {
      assert idx[i] < |names| && column[i] == Some(names[idx[i]]);
    }
  }

  /** Over duplicate-free names that all occur in the column, every index below |names| is some row's class index. */
  lemma EveryIndexOccurs(names: seq<string>, column: seq<Option<string>>)
    requires NoDup(names)
    requires ClassIndices(column, names).Ok?
    requires forall c :: c in names ==> Some(c) in column
    ensures forall v :: 0 <= v < |names| ==> v in ClassIndices(column, names).value
  {
    var idx := ClassIndices(column, names).value;
    forall v | 0 <= v < |names| ensures v in idx {
      assert Some(names[v]) in column;
      var i :| 0 <= i < |column| && column[i] == Some(names[v]);
      assert names[idx[i]] == names[v];
    }
  }

  /**
   * The Class column after asking for every row of a table that had none:
   * still missing when the first answer is "q"; otherwise the labelled rows
   * hold their classes and the rows from the stop on are NaN.
   */
  lemma LabelledColumnSpec(answers: seq<string>)
    ensures LabelledColumn(None, answers).None? <==> HaltIndex(answers) == 0
    ensures LabelledColumn(None, answers).Some? ==>
      var cells := LabelledColumn(None, answers).value;
      |cells| == |answers| &&
      forall i :: 0 <= i < |answers| ==>
        (cells[i] == if i < HaltIndex(answers) then Some(Labels(answers)[i]) else None)
  {
  }

  /**
   * Preprocessing after ModelData.classify_data on a table without a Class
   * column, when every row was labelled: every row's class is found.
   */
  lemma PreprocessAfterFullLabelling(answers: seq<string>)
    requires 0 < HaltIndex(answers) == |answers|
    ensures ClassIndices(LabelledColumn(None, answers).value, Extend([], Answered(answers))).Ok?
  {
    LabelledCellsListed(answers);
  }

  /**
   * Preprocessing after ModelData.classify_data on a table without a Class
   * column, when "q" stopped it after some rows: list.index fails at the
   * first unlabelled (NaN) row.
   */
  lemma PreprocessAfterEarlyStop(answers: seq<string>)
    requires 0 < HaltIndex(answers) < |answers|
    ensures ClassIndices(LabelledColumn(None, answers).value, Extend([], Answered(answers))) ==
      Err(ClassNotFound(HaltIndex(answers)))
  {
    LabelledColumnSpec(answers);
    LabelledCellsListed(answers);
    ClassIndicesStopsAt(LabelledColumn(None, answers).value, Extend([], Answered(answers)), HaltIndex(answers));
  }

  /** The lookup fails at the first NaN cell when every cell before it is listed. */
  lemma ClassIndicesStopsAt(cells: seq<Option<string>>, names: seq<string>, h: nat)
    requires h < |cells| && cells[h].None?
    requires forall i :: 0 <= i < h ==> cells[i].Some? && cells[i].value in names
    ensures ClassIndices(cells, names) == Err(ClassNotFound(h))
  {
  }

  /** Every labelled cell holds a class that class_names lists. */
  lemma LabelledCellsListed(answers: seq<string>)
    requires 0 < HaltIndex(answers)
    ensures var cells := LabelledColumn(None, answers).value;
      forall i :: 0 <= i < HaltIndex(answers) ==> cells[i].Some? && cells[i].value in Extend([], Answered(answers))
  {
    var cells := LabelledColumn(None, answers).value;
    LabelledColumnSpec(answers);
    ExtendSpec([], Answered(answers));
    forall i | 0 <= i < HaltIndex(answers) ensures cells[i].Some? && cells[i].value in Extend([], Answered(answers)) {
      assert cells[i].value == Labels(answers)[i] == Answered(answers)[i];
    }
  }

  /**
   * For a table that arrives with its Class column, the classes are taken
   * from that column, so preprocessing fails exactly when some cell is NaN.
   */
  lemma ColumnClassesCover(column: seq<Option<string>>)
    ensures ClassIndices(column, Distinct(Present(column))).Ok? <==> forall i :: 0 <= i < |column| ==> column[i].Some?
  {
    DistinctFirstSeen(Present(column));
    forall i | 0 <= i < |column| && column[i].Some? ensures column[i].value in Distinct(Present(column)) {
      assert Some(column[i].value) in column;
    }
  }

  class ModelData {
    var descriptions: seq<string>
    var classColumn: Option<seq<Option<string>>>
    var wordList: seq<string>
    var classNames: seq<string>
    var X: seq<seq<int>>
    var y: seq<seq<int>>

    ghost predicate Valid()
      reads this
    {
      NoDup(wordList) && NoDup(classNames) &&
      (classColumn.Some? ==> |classColumn.value| == |descriptions|)
    }

    /** self.raw_data = raw_data, before anything is derived from it. */
    constructor (descriptions: seq<string>, classColumn: Option<seq<Option<string>>>)
      requires classColumn.Some? ==> |classColumn.value| == |descriptions|
      ensures Valid()
      ensures this.descriptions == descriptions && this.classColumn == classColumn
      ensures wordList == [] && classNames == [] && X == [] && y == []
    {
      this.descriptions := descriptions;
      this.classColumn := classColumn;
      wordList := [];
      classNames := [];
      X := [];
      y := [];
    }

    /**
     * create_word_list: the tokens outside the last two of each
     * description that pass the filter and occur more than once, in
     * first-seen order.
     */
    method CreateWordList() returns (wordList: seq<string>)
      ensures wordList == WordList(descriptions)
    {
      var counts: map<string, int> := map[];
      var order: seq<string> := [];
      ghost var tss := Tokenise(descriptions);
      var i := 0;
      while i < |descriptions|
        invariant i <= |descriptions|
        invariant WordCounts(counts, order, MinedTokens(tss[..i]))
      {
        var words := Tokens(descriptions[i]);
        counts, order := CountMinable(counts, order, DropLastTwo(words), MinedTokens(tss[..i]));
        assert tss[..i + 1] == tss[..i] + [words];
        MinedTokensLast(tss[..i], words);
        i := i + 1;
      }
      assert tss[..i] == tss;
      var m := MinedTokens(tss);
      ExtendSpec([], m);
      KeysAbove1IsKeepWhere(order, counts, Repeated(m));
      wordList := KeysAbove1(order, counts);
    }

    /** description_to_one_hot: set the bit of every keyword that an uppercased token equals. */
    method DescriptionToOneHot(description: string) returns (oneHot: seq<int>)
      ensures oneHot == Encoding(wordList, description)
    {
      var words := Tokens(description);
      var a := new int[|wordList|](_ => 0);
      assert a[..] == EncodeSet(wordList, UpperSet(words[..0]));
      var j := 0;
      while j < |words|
        invariant j <= |words|
        invariant a.Length == |wordList|
        invariant a[..] == EncodeSet(wordList, UpperSet(words[..j]))
      {
        var word := Upper(words[j]);
        if word in wordList {
          a[FirstIndex(wordList, word)] := 1;
        }
        assert words[..j + 1] == words[..j] + [words[j]];
        UpperSetLast(words[..j], words[j]);
        EncodeSetAdd(wordList, UpperSet(words[..j]), word);
        j := j + 1;
      }
      assert words[..j] == words;
      oneHot := a[..];
    }

    /** one_hot_to_class: class_names[i], with Python's negative indices counting from the end. */
    function OneHotToClass(i: int): (r: Result<string, IndexError>)
      reads this
      ensures r.Ok? <==> -|classNames| <= i < |classNames|
      ensures r.Ok? ==> r.value == classNames[if i < 0 then |classNames| + i else i]
    {
      if 0 <= i < |classNames| then Ok(classNames[i])
      else if -|classNames| <= i < 0 then Ok(classNames[|classNames| + i])
      else Err(IndexError)
    }

    /**
     * preprocess_data: encode every description into a frame with one column
     * per keyword (which fails at the first row when there is no keyword);
     * then map each class to its index in class_names and one-hot those
     * indices. No Class column gives False (the KeyError branch); a class
     * not in class_names raises; the matrices change only on success.
     */
    method PreprocessData() returns (r: Result<bool, PreprocessError>)
      requires Valid()
      modifies this`X, this`y
      ensures Valid()
      ensures r == Err(NoFeatureColumns) <==> NoFeatureFrame(wordList, descriptions)
      ensures r == Ok(false) <==> !NoFeatureFrame(wordList, descriptions) && classColumn.None?
      ensures r.Err? && r.error.ClassNotFound? <==>
        !NoFeatureFrame(wordList, descriptions) && classColumn.Some? && ClassIndices(classColumn.value, classNames).Err?
      ensures r.Err? && r.error.ClassNotFound? ==> ClassIndices(classColumn.value, classNames) == Err(r.error)
      ensures r == Ok(true) ==>
        var idx := ClassIndices(classColumn.value, classNames).value;
        X == Features(wordList, descriptions) && y == Dummies(idx, DummyColumns(idx, |classNames|))
      ensures r != Ok(true) ==> X == old(X) && y == old(y)
    {
      var rows: seq<seq<int>> := [];
      var i := 0;
      while i < |descriptions|
        invariant i <= |descriptions|
        invariant |rows| == i && X == old(X) && y == old(y)
        invariant i > 0 ==> |wordList| > 0
        invariant forall k :: 0 <= k < i ==> rows[k] == Encoding(wordList, descriptions[k])
      {
        var oneHot := DescriptionToOneHot(descriptions[i]);
        if |wordList| == 0 {
          return Err(NoFeatureColumns);
        }
        rows := rows + [oneHot];
        i := i + 1;
      }
      if classColumn.None? {
        return Ok(false);
      }
      var indices := ClassIndices(classColumn.value, classNames);
      if indices.Err? {
        return Err(indices.error);
      }
      var idx := indices.value;
      X := rows;
      y := Dummies(idx, DummyColumns(idx, |classNames|));
      r := Ok(true);
    }

    /**
     * ModelData.classify_data: ask for the class of every row in turn; the
     * first assignment creates the Class column, "" means "Other", "q"
     * stops, and each new class is appended once to class_names.
     */
    method ClassifyData(answers: seq<string>)
      requires Valid() && |answers| == |descriptions|
      modifies this`classColumn, this`classNames
      ensures Valid()
      ensures classColumn == LabelledColumn(old(classColumn), answers)
      ensures classNames == Extend(old(classNames), Answered(answers))
    {
      var n := |descriptions|;
      var index := 0;
      ExtendSpec(classNames, []);
      while index < n
        invariant index <= n && index <= HaltIndex(answers)
        invariant classColumn == LabelledUpTo(old(classColumn), n, answers, index)
        invariant classNames == Extend(old(classNames), Categorised(answers, index))
        invariant Valid()
      {
        var className := answers[index];
        if className == "" {
          className := DefaultCategory;
        }
        if className == Sentinel {
          break;
        }
        ghost var column0, names0 := classColumn, classNames;
        classColumn := Some(Cells(classColumn, n)[index := Some(className)]);
        if className !in classNames {
          classNames := classNames + [className];
        }
        LabelStep(old(classColumn), answers, index, column0, classColumn);
        NamesStep(old(classNames), answers, index, names0, classNames);
        index := index + 1;
      }
    }

    /**
     * The raw-data branch of ModelData.__init__ (without the saves): mine the
     * keyword list, take the classes from the Class column or ask for them,
     * and preprocess. Only Ok(true) gets past the assertion on
     * preprocess_data; r is the outcome of preprocess_data on the table as
     * labelled.
     */
    static method Create(descriptions: seq<string>, classColumn: Option<seq<Option<string>>>, answers: seq<string>)
      returns (m: ModelData, r: Result<bool, PreprocessError>)
      requires classColumn.Some? ==> |classColumn.value| == |descriptions|
      requires classColumn.None? ==> |answers| == |descriptions|
      ensures fresh(m) && m.Valid() && m.descriptions == descriptions
      ensures m.wordList == WordList(descriptions)
      ensures m.classNames == if classColumn.Some? then Distinct(Present(classColumn.value)) else Distinct(Answered(answers))
      ensures m.classColumn == if classColumn.Some? then classColumn else LabelledColumn(None, answers)
      ensures r == Err(NoFeatureColumns) <==> NoFeatureFrame(m.wordList, descriptions)
      ensures r == Ok(false) <==> !NoFeatureFrame(m.wordList, descriptions) && m.classColumn.None?
      ensures r.Err? && r.error.ClassNotFound? <==>
        !NoFeatureFrame(m.wordList, descriptions) && m.classColumn.Some? && ClassIndices(m.classColumn.value, m.classNames).Err?
      ensures r.Err? && r.error.ClassNotFound? ==> ClassIndices(m.classColumn.value, m.classNames) == Err(r.error)
      ensures r == Ok(true) ==>
        var idx := ClassIndices(m.classColumn.value, m.classNames).value;
        m.X == Features(m.wordList, descriptions) && m.y == Dummies(idx, DummyColumns(idx, |m.classNames|))
    {
      m := new ModelData(descriptions, classColumn);
      var wl := m.CreateWordList();
      WordListSpec(descriptions);
      m.wordList := wl;
      if classColumn.Some? {
        DistinctFirstSeen(Present(classColumn.value));
        m.classNames := Distinct(Present(classColumn.value));
      } else {
        m.ClassifyData(answers);
      }
      r := m.PreprocessData();
    }
  }
}
