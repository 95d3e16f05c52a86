/**
 * Reference definitions of the two halves of the text-to-features pipeline
 * of Data.py: mining the keyword list from the training descriptions
 * (ModelData.create_word_list) and turning one description into its 0/1
 * bag-of-words vector over that list (ModelData.description_to_one_hot).
 * The methods in module Data are proved equal to these functions.
 */
module Vocabulary {
  import opened Seqs
  import opened Text

  /** ws[:-2]: the list without its last two elements (empty when it has two or fewer). */
  function DropLastTwo(ws: seq<string>): (r: seq<string>)
    ensures |r| == if |ws| <= 2 then 0 else |ws| - 2
    ensures r == ws[..|r|]
  {
    if |ws| <= 2 then [] else ws[..|ws| - 2]
  }

  /**
   * The token filter of the mining pass: at least two characters, and not
   * all digits once '#' is removed. A token of digits alone is never mined.
   */
  function Minable(w: string): (b: bool)
    ensures b ==> |w| >= 2 && !IsNumeric(w)
  {
    RemoveHashKeeps(w);
    |w| >= 2 && !IsNumeric(RemoveHash(w))
  }

  /** The tokens of one description that the mining pass counts, in order. */
  function MinableTokens(ws: seq<string>): (r: seq<string>)
    ensures forall x :: x in r <==> x in ws && Minable(x)
  {
    if ws == [] then []
    else
      var r0 := MinableTokens(ws[..|ws| - 1]);
      if Minable(ws[|ws| - 1]) then r0 + [ws[|ws| - 1]] else r0
  }

  /** The tokens the mining pass counts in one tokenised description. */
  function DescriptionTokens(ws: seq<string>): seq<string>
  {
    MinableTokens(DropLastTwo(ws))
  }

  /** Each description of the corpus, tokenised. */
  function Tokenise(ds: seq<string>): (tss: seq<seq<string>>)
    ensures |tss| == |ds|
  {
    seq(|ds|, i requires 0 <= i < |ds| => Split(ds[i]))
  }

  /** Every token the mining pass counts over a tokenised corpus, in corpus order. */
  function MinedTokens(tss: seq<seq<string>>): seq<string>
  {
    if tss == [] then [] else MinedTokens(tss[..|tss| - 1]) + DescriptionTokens(tss[|tss| - 1])
  }

  ghost function Repeated(m: seq<string>): set<string>
  {
    set x | x in m && Count(m, x) > 1
  }

  /** The keyword list: the counted tokens seen more than once, in first-seen order. */
  ghost function WordList(ds: seq<string>): (r: seq<string>)
    ensures NoDup(r)
    ensures |r| <= |MinedTokens(Tokenise(ds))|
  {
    var m := MinedTokens(Tokenise(ds));
    KeepWhere(Distinct(m), Repeated(m))
  }

  lemma MinableTokensLast(ws: seq<string>, w: string)
    ensures MinableTokens(ws + [w]) == MinableTokens(ws) + (if Minable(w) then [w] else [])
  {
    assert (ws + [w])[..|ws|] == ws;
  }

  lemma MinedTokensLast(tss: seq<seq<string>>, ws: seq<string>)
    ensures MinedTokens(tss + [ws]) == MinedTokens(tss) + DescriptionTokens(ws)
  {
    var e := tss + [ws];
    assert e[..|e| - 1] == tss && e[|e| - 1] == ws;
  }

  /** Mining distributes over concatenation of corpora. */
  lemma {:induction false} MinedTokensConcat(a: seq<seq<string>>, b: seq<seq<string>>)
    ensures MinedTokens(a + b) == MinedTokens(a) + MinedTokens(b)
    decreases |b|
  {
    if b == [] {
      assert a + b == a;
    } else {
      var b0, ws := b[..|b| - 1], b[|b| - 1];
      assert b == b0 + [ws];
      assert a + b == (a + b0) + [ws];
      MinedTokensConcat(a, b0);
      MinedTokensLast(a + b0, ws);
      MinedTokensLast(b0, ws);
      ConcatAssoc(MinedTokens(a), MinedTokens(b0), DescriptionTokens(ws));
    }
  }

  /**
   * A token is counted exactly when it passes the filter and lies outside
   * the last two tokens of some description.
   */
  lemma {:induction false} MinedTokenOrigin(ds: seq<seq<string>>, x: string)
    ensures x in MinedTokens(ds) <==>
      Minable(x) && exists k :: 0 <= k < |ds| && x in DropLastTwo(ds[k])
  {
    if ds != [] {
      var d0 := ds[..|ds| - 1];
      MinedTokenOrigin(d0, x);
      if x in MinedTokens(ds) && x !in MinedTokens(d0) {
        assert x in DropLastTwo(ds[|ds| - 1]);
      }
      if Minable(x) && x !in MinedTokens(d0) {
        forall k | 0 <= k < |ds| - 1 ensures x !in DropLastTwo(ds[k]) {
          assert ds[k] == d0[k];
        }
      }
    }
  }

  /** A description with at most two tokens contributes nothing to the keyword list, wherever it stands. */
  lemma ShortDescriptionIgnored(a: seq<string>, d: string, b: seq<string>)
    requires |Split(d)| <= 2
    ensures WordList(a + [d] + b) == WordList(a + b)
  {
    var ta, tb := Tokenise(a), Tokenise(b);
    assert MinedTokens(Tokenise(a + [d] + b)) == MinedTokens(Tokenise(a + b)) by {
      assert Tokenise(a + [d] + b) == ta + [Split(d)] + tb;
      assert Tokenise(a + b) == ta + tb;
      MinedTokensConcat(ta + [Split(d)], tb);
      MinedTokensConcat(ta, tb);
      MinedTokensLast(ta, Split(d));
      assert DescriptionTokens(Split(d)) == [];
      assert MinedTokens(ta) + [] == MinedTokens(ta);
    }
  }

  /**
   * The keyword list has no duplicates, holds exactly the counted tokens
   * that occur at least twice, and lists them in first-seen order.
   */
  lemma WordListSpec(ds: seq<string>)
    ensures NoDup(WordList(ds))
    ensures forall x :: x in WordList(ds) <==> Count(MinedTokens(Tokenise(ds)), x) >= 2
    ensures InFirstSeenOrder(WordList(ds), MinedTokens(Tokenise(ds)))
  {
    var m := MinedTokens(Tokenise(ds));
    DistinctFirstSeen(m);
    KeepWhereFirstSeen(Distinct(m), Repeated(m), m);
  }

  /** Every keyword passes the mining filter and comes from outside the last two tokens of some description. */
  lemma WordListEntries(ds: seq<string>, x: string)
    requires x in WordList(ds)
    ensures |x| >= 2 && !IsNumeric(RemoveHash(x))
    ensures exists k :: 0 <= k < |ds| && x in DropLastTwo(Split(ds[k]))
  {
    WordListSpec(ds);
    MinedTokenOrigin(Tokenise(ds), x);
  }

  /** The tokens ws, uppercased. */
  ghost function UpperSet(ws: seq<string>): set<string>
  {
    set t | t in ws :: Upper(t)
  }

  /**
   * Bit i is set when keyword i is in S and i is where list.index finds
   * that keyword (its first position).
   */
  ghost function EncodeSet(wl: seq<string>, S: set<string>): (r: seq<int>)
    ensures |r| == |wl|
    ensures forall i :: 0 <= i < |r| ==> (r[i] == 0 || r[i] == 1) && (r[i] == 1 ==> wl[i] in S)
  {
    seq(|wl|, i requires 0 <= i < |wl| =>
      if wl[i] in S && FirstIndex(wl, wl[i]) == i then 1 else 0)
  }

  /** The vector description_to_one_hot produces for description d. */
  ghost function Encoding(wl: seq<string>, d: string): (r: seq<int>)
    ensures |r| == |wl|
    ensures forall i :: 0 <= i < |r| ==> (r[i] == 0 || r[i] == 1)
  {
    EncodeSet(wl, UpperSet(Split(d)))
  }

  lemma UpperSetLast(ws: seq<string>, t: string)
    ensures UpperSet(ws + [t]) == UpperSet(ws) + {Upper(t)}
  {
  }

  /** Adding one uppercased token to the set sets at most the bit at that keyword's first position. */
  lemma EncodeSetAdd(wl: seq<string>, S: set<string>, w: string)
    ensures EncodeSet(wl, S + {w}) == if w in wl then EncodeSet(wl, S)[FirstIndex(wl, w) := 1] else EncodeSet(wl, S)
  {
    if w in wl {
      var k := FirstIndex(wl, w);
      var e, e' := EncodeSet(wl, S), EncodeSet(wl, S + {w});
      forall i | 0 <= i < |wl| ensures e'[i] == e[k := 1][i] {
        if i != k && wl[i] == w {
          assert FirstIndex(wl, wl[i]) == k;
        }
      }
    }
  }

  /**
   * Over a duplicate-free keyword list the vector has one 0/1 entry per
   * keyword, and bit i is 1 exactly when some token of the description,
   * uppercased, equals keyword i.
   */
  lemma EncodingMeaning(wl: seq<string>, d: string)
    requires NoDup(wl)
    ensures |Encoding(wl, d)| == |wl|
    ensures forall i :: 0 <= i < |wl| ==> Encoding(wl, d)[i] in {0, 1}
    ensures forall i :: 0 <= i < |wl| ==>
      (Encoding(wl, d)[i] == 1 <==> exists t :: t in Split(d) && Upper(t) == wl[i])
  {
    forall i | 0 <= i < |wl| ensures FirstIndex(wl, wl[i]) == i {
      var k := FirstIndex(wl, wl[i]);
      assert wl[k] == wl[i];
    }
  }

  /** Only the set of tokens matters: reordering or repeating tokens gives the same vector. */
  lemma EncodingIgnoresOrder(wl: seq<string>, d1: string, d2: string)
    requires forall t :: t in Split(d1) <==> t in Split(d2)
    ensures Encoding(wl, d1) == Encoding(wl, d2)
  {
    assert UpperSet(Split(d1)) == UpperSet(Split(d2));
  }

  /** A keyword that is not already upper case can never be matched. */
  lemma LowercaseKeywordNeverSet(wl: seq<string>, d: string, i: nat)
    requires i < |wl| && !IsUpper(wl[i])
    ensures Encoding(wl, d)[i] == 0
  {
    if wl[i] in UpperSet(Split(d)) {
      var t :| t in Split(d) && Upper(t) == wl[i];
      UpperIsUpper(t);
    }
  }
}
