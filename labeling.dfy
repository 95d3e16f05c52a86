/**
 * The label-acquisition protocol shared by both forms of classify_data in
 * Data.py (an empty answer means "Other", the answer "q" stops, each new
 * category is appended once), and the prefix-completion rule used by the
 * readline completers and by the autocomplete entry of the labelling GUI.
 */
module Labeling {
  import opened Seqs
  import opened Text

  /** The answer that stops labelling. */
  const Sentinel: string := "q"

  /** The category an empty answer stands for. */
  const DefaultCategory: string := "Other"

  function CategoryOf(answer: string): (c: string)
    ensures c != ""
  {
    if answer == "" then DefaultCategory else answer
  }

  /** How many answers are used before the first "q" (all of them when there is none). */
  function HaltIndex(answers: seq<string>): (h: nat)
    ensures h <= |answers|
    ensures forall i :: 0 <= i < h ==> answers[i] != Sentinel
    ensures h < |answers| ==> answers[h] == Sentinel
  {
    if answers == [] then 0
    else if answers[0] == Sentinel then 0
    else 1 + HaltIndex(answers[1..])
  }

  /** The categories given by the first k answers, in order. */
  function Categorised(answers: seq<string>, k: nat): (r: seq<string>)
    requires k <= |answers|
  {
    seq(k, i requires 0 <= i < k => CategoryOf(answers[i]))
  }

  /** The categories assigned before labelling stopped. */
  function Answered(answers: seq<string>): (r: seq<string>)
    ensures |r| == HaltIndex(answers)
    ensures forall i :: 0 <= i < |r| ==> r[i] != "" && r[i] != Sentinel
  {
    Categorised(answers, HaltIndex(answers))
  }

  /** The label column after labelling: categories for the rows before the stop, "" for the rest. */
  function Labels(answers: seq<string>): (r: seq<string>)
    ensures |r| == |answers|
    ensures forall i :: 0 <= i < |r| ==> (r[i] != "" <==> i < HaltIndex(answers))
  {
    var h := HaltIndex(answers);
    seq(|answers|, i requires 0 <= i < |answers| => if i < h then CategoryOf(answers[i]) else "")
  }

  /**
   * One label per row; the labelled rows form a prefix that ends exactly
   * at the first "q", and every labelled row holds its answer with "" read
   * as "Other".
   */
  lemma LabelsPrefix(answers: seq<string>)
    ensures |Labels(answers)| == |answers|
    ensures forall i :: 0 <= i < |answers| ==> (Labels(answers)[i] != "" <==> i < HaltIndex(answers))
    ensures forall i :: 0 <= i < HaltIndex(answers) ==>
      Labels(answers)[i] == (if answers[i] == "" then "Other" else answers[i])
    ensures Answered(answers) == Labels(answers)[..HaltIndex(answers)]
  {
  }

  /** When no answer is empty or "q", the labels are the answers themselves. */
  lemma {:induction false} LabelsOfPlainAnswers(answers: seq<string>)
    requires forall i :: 0 <= i < |answers| ==> answers[i] != "" && answers[i] != Sentinel
    ensures HaltIndex(answers) == |answers|
    ensures Labels(answers) == answers
  {
    if answers != [] {
      LabelsOfPlainAnswers(answers[1..]);
    }
  }

  /** The answers "", "q", "X" over three rows label the first row "Other" and leave the other two unlabelled. */
  lemma StopExample()
    ensures Labels(["", "q", "X"]) == ["Other", "", ""]
    ensures Answered(["", "q", "X"]) == ["Other"]
  {
    var a := ["", "q", "X"];
    assert a[1..] == ["q", "X"];
    assert HaltIndex(a) == 1;
  }

  /**
   * The category list grows by each new category exactly once and keeps
   * what it held before.
   */
  lemma CategoriesGrow(before: seq<string>, answers: seq<string>)
    requires NoDup(before)
    ensures var after := Extend(before, Answered(answers));
      NoDup(after) && |before| <= |after| && after[..|before|] == before &&
      (forall c :: c in after <==> c in before || c in Answered(answers))
  {
    ExtendSpec(before, Answered(answers));
  }

  /** The words of vocab that complete text, case-insensitively, in vocab's order. */
  function Completions(vocab: seq<string>, text: string): (r: seq<string>)
    ensures |r| <= |vocab|
    ensures forall w :: w in r <==> w in vocab && MatchesPrefix(w, text)
  {
    if vocab == [] then []
    else
      var r0 := Completions(vocab[..|vocab| - 1], text);
      if MatchesPrefix(vocab[|vocab| - 1], text) then r0 + [vocab[|vocab| - 1]] else r0
  }

  /** Every word completes the empty text. */
  lemma {:induction false} CompletionsOfEmpty(vocab: seq<string>)
    ensures Completions(vocab, "") == vocab
  {
    if vocab != [] {
      CompletionsOfEmpty(vocab[..|vocab| - 1]);
      assert vocab[..|vocab| - 1] + [vocab[|vocab| - 1]] == vocab;
    }
  }

  /** Completions keep the order of the vocabulary: they are the vocabulary with the non-matching words taken out. */
  lemma {:induction false} CompletionsInOrder(vocab: seq<string>, text: string)
    ensures Completions(vocab, text) == KeepWhere(vocab, set w | w in vocab && MatchesPrefix(w, text))
  {
    if vocab != [] {
      var v0 := vocab[..|vocab| - 1];
      CompletionsInOrder(v0, text);
      assert KeepWhere(v0, set w | w in vocab && MatchesPrefix(w, text)) == KeepWhere(v0, set w | w in v0 && MatchesPrefix(w, text)) by {
        KeepWhereRestrict(v0, set w | w in vocab && MatchesPrefix(w, text), set w | w in v0 && MatchesPrefix(w, text));
      }
    }
  }

  lemma {:induction false} KeepWhereRestrict(keys: seq<string>, s1: set<string>, s2: set<string>)
    requires forall k :: k in keys ==> (k in s1 <==> k in s2)
    ensures KeepWhere(keys, s1) == KeepWhere(keys, s2)
  {
    if keys != [] {
      KeepWhereRestrict(keys[..|keys| - 1], s1, s2);
    }
  }
}
