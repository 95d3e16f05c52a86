/**
 * The string operations the classifier relies on: the tokeniser
 * re.split(' |/|-', s) and Python's str.upper, str.lower, str.isnumeric,
 * str.replace('#', '') and str.startswith, restricted to ASCII.
 */
module Text {

  predicate IsDelimiter(c: char)
  {
    c == ' ' || c == '/' || c == '-'
  }

  predicate NoDelimiter(s: string)
  {
    forall i :: 0 <= i < |s| ==> !IsDelimiter(s[i])
  }

  /**
   * re.split(' |/|-', s): cut s at every single space, slash or hyphen.
   * Adjacent delimiters leave an empty token between them, and a
   * delimiter at either end leaves an empty token there.
   */
  function Split(s: string): (r: seq<string>)
    ensures |r| == Delimiters(s) + 1
    ensures forall k :: 0 <= k < |r| ==> NoDelimiter(r[k])
  {
    SplitLength(s, "");
    SplitTokensClean(s, "");
    SplitFrom(s, "")
  }

  /** The tokeniser as the program calls it. */
  method Tokens(s: string) returns (ws: seq<string>)
    ensures ws == Split(s)
  {
    ws := SplitFrom(s, "");
  }

  /** Split with the characters of the token being read so far in cur. */
  function SplitFrom(s: string, cur: string): seq<string>
  {
    if s == [] then [cur]
    else if IsDelimiter(s[0]) then [cur] + SplitFrom(s[1..], "")
    else SplitFrom(s[1..], cur + [s[0]])
  }

  /** A string without delimiters is a single token. */
  lemma {:induction false} SplitWhole(s: string, cur: string)
    requires NoDelimiter(s)
    ensures SplitFrom(s, cur) == [cur + s]
  {
    if s != [] {
      assert !IsDelimiter(s[0]);
      SplitWhole(s[1..], cur + [s[0]]);
      assert (cur + [s[0]]) + s[1..] == cur + ([s[0]] + s[1..]);
      assert [s[0]] + s[1..] == s;
    } else {
      assert cur + s == cur;
    }
  }

  /** A delimiter ends the token being read; what follows it is split afresh. */
  lemma {:induction false} SplitAtDelimiter(a: string, d: char, b: string, cur: string)
    requires IsDelimiter(d)
    ensures SplitFrom(a + [d] + b, cur) == SplitFrom(a, cur) + Split(b)
  {
    if a == [] {
      assert a + [d] + b == [d] + b;
      assert ([d] + b)[1..] == b;
    } else {
      assert (a + [d] + b)[1..] == a[1..] + [d] + b;
      if IsDelimiter(a[0]) {
        SplitAtDelimiter(a[1..], d, b, "");
        assert [cur] + (SplitFrom(a[1..], "") + Split(b)) == ([cur] + SplitFrom(a[1..], "")) + Split(b);
      } else {
        SplitAtDelimiter(a[1..], d, b, cur + [a[0]]);
      }
    }
  }

  /** The number of delimiters in s. */
  function Delimiters(s: string): nat
  {
    if s == [] then 0 else (if IsDelimiter(s[0]) then 1 else 0) + Delimiters(s[1..])
  }

  /** There is one more token than there are delimiters. */
  lemma {:induction false} SplitLength(s: string, cur: string)
    ensures |SplitFrom(s, cur)| == Delimiters(s) + 1
  {
    if s != [] {
      SplitLength(s[1..], if IsDelimiter(s[0]) then "" else cur + [s[0]]);
    }
  }

  /** No token contains a delimiter. */
  lemma {:induction false} SplitTokensClean(s: string, cur: string)
    requires NoDelimiter(cur)
    ensures forall k :: 0 <= k < |SplitFrom(s, cur)| ==> NoDelimiter(SplitFrom(s, cur)[k])
  {
    if s != [] {
      SplitTokensClean(s[1..], if IsDelimiter(s[0]) then "" else cur + [s[0]]);
    }
  }

  function UpperChar(c: char): char
  {
    if 'a' <= c <= 'z' then (c as int - 32) as char else c
  }

  function LowerChar(c: char): char
  {
    if 'A' <= c <= 'Z' then (c as int + 32) as char else c
  }

  /** str.upper on ASCII text. */
  function Upper(s: string): (r: string)
    ensures |r| == |s|
    ensures forall i :: 0 <= i < |s| ==> !('a' <= r[i] <= 'z')
  {
    seq(|s|, i requires 0 <= i < |s| => UpperChar(s[i]))
  }

  /** str.lower on ASCII text. */
  function Lower(s: string): (r: string)
    ensures |r| == |s|
    ensures forall i :: 0 <= i < |s| ==> !('A' <= r[i] <= 'Z')
  {
    seq(|s|, i requires 0 <= i < |s| => LowerChar(s[i]))
  }

  predicate IsUpper(s: string)
  {
    Upper(s) == s
  }

  /** Uppercasing twice is uppercasing once: every uppercased token is upper case. */
  lemma UpperIsUpper(s: string)
    ensures IsUpper(Upper(s))
  {
  }

  /** str.isnumeric on ASCII text: non-empty and all digits. */
  function IsNumeric(s: string): (b: bool)
    ensures s == "" ==> !b
    ensures b ==> '#' !in s && IsUpper(s)
  {
    |s| > 0 && forall i :: 0 <= i < |s| ==> '0' <= s[i] <= '9'
  }

  /** A string without '#' is left as it is by replace('#', ''). */
  lemma {:induction false} RemoveHashKeeps(s: string)
    ensures '#' !in s ==> RemoveHash(s) == s
  {
    if s != [] && '#' !in s {
      RemoveHashKeeps(s[1..]);
      assert [s[0]] + s[1..] == s;
    }
  }

  /** s.replace('#', ''). */
  function RemoveHash(s: string): (r: string)
    ensures |r| <= |s|
    ensures '#' !in r
  {
    if s == [] then ""
    else (if s[0] == '#' then "" else [s[0]]) + RemoveHash(s[1..])
  }

  predicate StartsWith(s: string, prefix: string)
  {
    |prefix| <= |s| && s[..|prefix|] == prefix
  }

  /**
   * x.lower().startswith(text.lower()): the completion match rule. Every
   * word matches the empty text, and no word matches a longer text.
   */
  function MatchesPrefix(word: string, text: string): (b: bool)
    ensures text == "" ==> b
    ensures b ==> |text| <= |word|
  {
    StartsWith(Lower(word), Lower(text))
  }
}
