/**
  The fuzzy distance between two texts used to rank translations: an edit distance over the whole
  phrase, reduced by 0.8 per character of length difference, blended with a word-by-word best-match
  sum (80% of the smaller term, 20% of the larger). Doubles are modelled as exact reals.
 */
module FindClosestString {
  import opened Text

  /** The characters `valueWords` splits a text on. */
  const WordDelimiters: set<char> := {' ', '_', '-'}

  function Min(a: int, b: int): int {
    if a <= b then a else b
  }

  function MinReal(a: real, b: real): real {
    if a <= b then a else b
  }

  function MaxReal(a: real, b: real): real {
    if a <= b then b else a
  }

  function Abs(x: int): nat {
    if x < 0 then -x else x
  }

  // ---------------------------------------------------------------------------------------------
  // Edit distance

  /**
    The edit distance between the prefixes `s[..i]` and `t[..j]`: the number of single-character
    insertions, deletions and substitutions that turn one into the other.
   */
  function Lev(s: string, t: string, i: nat, j: nat): nat
    requires i <= |s| && j <= |t|
    decreases i + j
  {
    if i == 0 then j
    else if j == 0 then i
    else
      var substitute := Lev(s, t, i - 1, j - 1) + (if s[i - 1] == t[j - 1] then 0 else 1);
      Min(Lev(s, t, i - 1, j) + 1, Min(Lev(s, t, i, j - 1) + 1, substitute))
  }

  /** The Levenshtein distance between `s` and `t`. */
  function EditDistance(s: string, t: string): nat {
    Lev(s, t, |s|, |t|)
  }

  /** `LevenshteinDistance`: fills the (|s1|+1) x (|s2|+1) table column by column. */
  method LevenshteinDistance(s1: string, s2: string) returns (d: nat)
    ensures d == EditDistance(s1, s2)
  {
    var l1 := |s1| + 1;
    var l2 := |s2| + 1;
    var D := new int[l1, l2];

    for i := 0 to l1
      invariant forall a :: 0 <= a < i ==> D[a, 0] == a
    {
      D[i, 0] := i;
    }
    for i := 1 to l2
      invariant forall a :: 0 <= a < l1 ==> D[a, 0] == Lev(s1, s2, a, 0)
      invariant forall b :: 1 <= b < i ==> D[0, b] == b
    {
      D[0, i] := i;
    }

    // Only the column to the left of the one being filled is needed.
    for prev := 0 to l2 - 1
      invariant forall a :: 0 <= a < l1 ==> D[a, prev] == Lev(s1, s2, a, prev)
      invariant forall b :: prev < b < l2 ==> D[0, b] == b
    {
      FillColumn(D, s1, s2, prev, prev + 1);
    }
    d := D[l1 - 1, l2 - 1];
  }

  /** The inner loop of `LevenshteinDistance`: fills column `j` from column `prev`, the one to its left. */
  method FillColumn(D: array2<int>, s1: string, s2: string, prev: nat, j: nat)
    requires D.Length0 == |s1| + 1 && D.Length1 == |s2| + 1 && j == prev + 1 && j < D.Length1
    requires forall a {:trigger D[a, prev]} :: 0 <= a < D.Length0 ==> D[a, prev] == Lev(s1, s2, a, prev)
    requires D[0, j] == j
    modifies D
    ensures forall a :: 0 <= a < D.Length0 ==> D[a, j] == Lev(s1, s2, a, j)
    ensures forall a, b :: 0 <= a < D.Length0 && 0 <= b < D.Length1 && b != j ==> D[a, b] == old(D[a, b])
  {
    for i := 1 to D.Length0
      invariant forall a {:trigger D[a, prev]} :: 0 <= a < D.Length0 ==> D[a, prev] == Lev(s1, s2, a, prev)
      invariant forall a {:trigger D[a, j]} :: 0 <= a < i ==> D[a, j] == Lev(s1, s2, a, j)
      invariant forall a, b :: 0 <= a < D.Length0 && 0 <= b < D.Length1 && b != j ==> D[a, b] == old(D[a, b])
    {
      var cost := s1[i - 1] == s2[prev];
      var cI := D[i - 1, j] + 1;
      var cD := D[i, prev] + 1;
      var cS := D[i - 1, prev];
      if !cost {
        cS := cS + 1;
      }
      LevStep(s1, s2, i, j, prev, D[i - 1, j], D[i, prev], D[i - 1, prev]);
      D[i, j] := Min(cI, Min(cD, cS));
    }
  }

  /** One cell of the table from its three neighbours above, to the left and diagonally. */
  lemma LevStep(s: string, t: string, i: nat, j: nat, prev: nat, above: int, left: int, diagonal: int)
    requires 0 < i <= |s| && 0 < j <= |t| && prev == j - 1
    requires above == Lev(s, t, i - 1, j) && left == Lev(s, t, i, prev) && diagonal == Lev(s, t, i - 1, prev)
    ensures Lev(s, t, i, j) == Min(above + 1, Min(left + 1, diagonal + if s[i - 1] == t[prev] then 0 else 1))
  {
  }

  /** Cell `(i, j)` of the table for `s` and `t` equals cell `(j, i)` of the table for `t` and `s`. */
  predicate SymmetricAt(s: string, t: string, i: nat, j: nat)
    requires i <= |s| && j <= |t|
  {
    Lev(s, t, i, j) == Lev(t, s, j, i)
  }

  /** The table is symmetric: turning `s[..i]` into `t[..j]` costs what turning `t[..j]` into `s[..i]` does. */
  lemma {:induction false} LevSymmetric(s: string, t: string, i: nat, j: nat)
    requires i <= |s| && j <= |t|
    ensures SymmetricAt(s, t, i, j)
    decreases i + j
  {
    if i > 0 && j > 0 {
      LevSymmetric(s, t, i - 1, j);
      LevSymmetric(s, t, i, j - 1);
      LevSymmetric(s, t, i - 1, j - 1);
      LevSymmetricStep(s, t, i, j);
    }
  }

  /** The symmetric step: equal neighbours in both tables give equal cells. */
  lemma LevSymmetricStep(s: string, t: string, i: nat, j: nat)
    requires 0 < i <= |s| && 0 < j <= |t|
    requires SymmetricAt(s, t, i - 1, j) && SymmetricAt(s, t, i, j - 1) && SymmetricAt(s, t, i - 1, j - 1)
    ensures SymmetricAt(s, t, i, j)
  {
    var cost := if s[i - 1] == t[j - 1] then 0 else 1;
    MinSwap(Lev(s, t, i - 1, j) + 1, Lev(s, t, i, j - 1) + 1, Lev(s, t, i - 1, j - 1) + cost);
  }

  /** The edit distance is symmetric. */
  lemma EditDistanceSymmetric(s: string, t: string)
    ensures EditDistance(s, t) == EditDistance(t, s)
  {
    LevSymmetric(s, t, |s|, |t|);
  }

  lemma MinSwap(a: int, b: int, c: int)
    ensures Min(a, Min(b, c)) == Min(b, Min(a, c))
  {
  }

  lemma {:induction false} LevUpperBound(s: string, t: string, i: nat, j: nat)
    requires i <= |s| && j <= |t|
    ensures Lev(s, t, i, j) <= if i <= j then j else i
    decreases i + j
  {
    if i > 0 && j > 0 {
      LevUpperBound(s, t, i - 1, j - 1);
    }
  }

  lemma {:induction false} LevLowerBound(s: string, t: string, i: nat, j: nat)
    requires i <= |s| && j <= |t|
    ensures Abs(i - j) <= Lev(s, t, i, j)
    decreases i + j
  {
    if i > 0 && j > 0 {
      LevLowerBound(s, t, i - 1, j);
      LevLowerBound(s, t, i, j - 1);
      LevLowerBound(s, t, i - 1, j - 1);
    }
  }

  lemma {:induction false} LevSelf(s: string, i: nat)
    requires i <= |s|
    ensures Lev(s, s, i, i) == 0
  {
    if i > 0 {
      LevSelf(s, i - 1);
    }
  }

  /** Against the empty string the distance is the other length (the table's first row and column). */
  lemma EditDistanceToEmpty(s: string)
    ensures EditDistance(s, "") == |s| && EditDistance("", s) == |s|
  {
  }

  /** The distance lies between the length difference and the longer length, and is zero from a text to itself. */
  lemma EditDistanceProperties(s: string, t: string)
    ensures Abs(|s| - |t|) <= EditDistance(s, t) <= if |s| <= |t| then |t| else |s|
    ensures EditDistance(s, s) == 0
  {
    LevUpperBound(s, t, |s|, |t|);
    LevLowerBound(s, t, |s|, |t|);
    LevSelf(s, |s|);
  }

  // ---------------------------------------------------------------------------------------------
  // Word value

  /** The words of a text: split on space, underscore and hyphen, empty words kept. */
  function Words(s: string): seq<string> {
    Split(s, WordDelimiters)
  }

  /** The smaller of `init` and the distances from `w` to each of `ws`. */
  function BestMatch(w: string, ws: seq<string>, init: nat): (r: nat)
    ensures r <= init
  {
    if |ws| == 0 then init
    else Min(BestMatch(w, ws[..|ws| - 1], init), EditDistance(w, ws[|ws| - 1]))
  }

  /** The best match is no larger than any candidate's distance, and is either `init` or one of them. */
  lemma {:induction false} BestMatchIsSmallest(w: string, ws: seq<string>, init: nat)
    ensures forall k :: 0 <= k < |ws| ==> BestMatch(w, ws, init) <= EditDistance(w, ws[k])
    ensures BestMatch(w, ws, init) == init || exists k :: 0 <= k < |ws| && BestMatch(w, ws, init) == EditDistance(w, ws[k])
  {
    if |ws| > 0 {
      var front := ws[..|ws| - 1];
      BestMatchIsSmallest(w, front, init);
      assert forall k :: 0 <= k < |ws| - 1 ==> front[k] == ws[k];
      var r := BestMatch(w, ws, init);
      if r != init && r == BestMatch(w, front, init) {
        var k :| 0 <= k < |front| && r == EditDistance(w, front[k]);
        assert r == EditDistance(w, ws[k]);
      }
    }
  }

  /** The sum, over the words `ws1`, of each one's best match among `ws2`. */
  function WordsTotal(ws1: seq<string>, ws2: seq<string>, init: nat): nat {
    if |ws1| == 0 then 0
    else WordsTotal(ws1[..|ws1| - 1], ws2, init) + BestMatch(ws1[|ws1| - 1], ws2, init)
  }

  /** `valueWords(s1, s2)`: each word of `s1` scores its best match among the words of `s2`, at most |s2|. */
  function WordsValue(s1: string, s2: string): nat {
    WordsTotal(Words(s1), Words(s2), |s2|)
  }

  /** One more candidate: the best match so far against the next word's distance. */
  lemma BestMatchStep(w: string, ws: seq<string>, b: nat, init: nat)
    requires b < |ws|
    ensures BestMatch(w, ws[..b + 1], init) == Min(BestMatch(w, ws[..b], init), EditDistance(w, ws[b]))
  {
    assert ws[..b + 1][..b] == ws[..b];
  }

  /** A best match found early stays the best match: later candidates can only lower it. */
  lemma {:induction false} BestMatchPrefix(w: string, ws: seq<string>, k: nat, init: nat)
    requires k <= |ws|
    ensures BestMatch(w, ws, init) <= BestMatch(w, ws[..k], init)
    decreases |ws|
  {
    if k < |ws| {
      assert ws[..|ws| - 1][..k] == ws[..k];
      BestMatchPrefix(w, ws[..|ws| - 1], k, init);
    } else {
      assert ws[..k] == ws;
    }
  }

  /** `valueWords`: the outer loop sums, over the words of `s1`, each word's best match. */
  method ValueWords(s1: string, s2: string) returns (wordsTotal: nat)
    ensures wordsTotal == WordsValue(s1, s2)
  {
    var wordsS1 := Split(s1, WordDelimiters);
    var wordsS2 := Split(s2, WordDelimiters);
    wordsTotal := 0;

    for a := 0 to |wordsS1|
      invariant wordsTotal == WordsTotal(wordsS1[..a], wordsS2, |s2|)
    {
      var wordBest := BestWordMatch(wordsS1[a], wordsS2, |s2|);
      assert wordsS1[..a + 1][..a] == wordsS1[..a];
      wordsTotal := wordsTotal + wordBest;
    }
    assert wordsS1[..|wordsS1|] == wordsS1;
  }

  /**
    The inner loop of `valueWords`: starting from `init`, keeps the smallest distance from `word1`
    to the words of `wordsS2`, stopping at the first exact match (nothing can beat 0).
   */
  method BestWordMatch(word1: string, wordsS2: seq<string>, init: nat) returns (wordBest: nat)
    ensures wordBest == BestMatch(word1, wordsS2, init)
  {
    wordBest := init;
    var b := 0;
    while b < |wordsS2|
      invariant 0 <= b <= |wordsS2|
      invariant wordBest == BestMatch(word1, wordsS2[..b], init)
    {
      var thisD := LevenshteinDistance(word1, wordsS2[b]);
      BestMatchStep(word1, wordsS2, b, init);
      if thisD < wordBest {
        wordBest := thisD;
      }
      if thisD == 0 {
        BestMatchPrefix(word1, wordsS2, b + 1, init);
        return;
      }
      b := b + 1;
    }
    assert wordsS2[..b] == wordsS2;
  }

  /** Each word of the first list contributes at most `init`. */
  lemma {:induction false} WordsTotalBound(ws1: seq<string>, ws2: seq<string>, init: nat)
    ensures WordsTotal(ws1, ws2, init) <= |ws1| * init
  {
    if |ws1| > 0 {
      var n := |ws1| - 1;
      WordsTotalBound(ws1[..n], ws2, init);
      MultiplyNext(n, init);
    }
  }

  lemma MultiplyNext(n: nat, x: nat)
    ensures n * x + x == (n + 1) * x
  {
  }

  /** The total is zero when every word of the first list is one of the second list's words. */
  lemma {:induction false} WordsTotalZero(ws1: seq<string>, ws2: seq<string>, init: nat)
    requires forall w :: w in ws1 ==> w in ws2
    ensures WordsTotal(ws1, ws2, init) == 0
  {
    if |ws1| > 0 {
      var w := ws1[|ws1| - 1];
      assert w in ws1;
      var k :| 0 <= k < |ws2| && ws2[k] == w;
      EditDistanceProperties(w, w);
      BestMatchIsSmallest(w, ws2, init);
      assert forall v :: v in ws1[..|ws1| - 1] ==> v in ws1;
      WordsTotalZero(ws1[..|ws1| - 1], ws2, init);
    }
  }

  /** `valueWords` is never negative, is at most |s2| per word of `s1`, and is 0 from a text to itself. */
  lemma WordsValueProperties(s1: string, s2: string)
    ensures WordsValue(s1, s2) <= |Words(s1)| * |s2|
    ensures WordsValue(s1, s1) == 0
  {
    WordsTotalBound(Words(s1), Words(s2), |s2|);
    WordsTotalZero(Words(s1), Words(s1), |s1|);
  }

  // ---------------------------------------------------------------------------------------------
  // Distance

  /** `valuePhrase(s1, s2) - 0.8 * |len(s1) - len(s2)|`. */
  function PhraseValue(s1: string, s2: string): real {
    EditDistance(s1, s2) as real - 0.8 * Abs(|s1| - |s2|) as real
  }

  /** 80% of the smaller of the two measures plus 20% of the larger. */
  function Combine(wordValue: real, phraseValue: real): real {
    MinReal(wordValue, phraseValue) * 0.8 + MaxReal(wordValue, phraseValue) * 0.2
  }

  /** `GetDistance(s1, s2)`: both texts are lower-cased, then the two measures are combined. */
  function Distance(s1: string, s2: string): real {
    var a := ToLower(s1);
    var b := ToLower(s2);
    Combine(WordsValue(a, b) as real, PhraseValue(a, b))
  }

  /** `GetDistance`, computed with the table and the word loops. */
  method GetDistance(s1: string, s2: string) returns (dist: real)
    ensures dist == Distance(s1, s2)
  {
    var a := ToLower(s1);
    var b := ToLower(s2);
    var wordValue := ValueWords(a, b);
    var lev := LevenshteinDistance(a, b);
    var phraseValue := lev as real - 0.8 * Abs(|a| - |b|) as real;
    dist := MinReal(wordValue as real, phraseValue) * 0.8 + MaxReal(wordValue as real, phraseValue) * 0.2;
  }

  /** The phrase term never goes below a fifth of the length difference, so it is never negative. */
  lemma PhraseValueLowerBound(s1: string, s2: string)
    ensures PhraseValue(s1, s2) >= 0.2 * Abs(|s1| - |s2|) as real >= 0.0
  {
    EditDistanceProperties(s1, s2);
  }

  lemma DistanceNonNegative(s1: string, s2: string)
    ensures Distance(s1, s2) >= 0.0
  {
    PhraseValueLowerBound(ToLower(s1), ToLower(s2));
  }

  lemma DistanceToSelf(s: string)
    ensures Distance(s, s) == 0.0
  {
    var a := ToLower(s);
    EditDistanceProperties(a, a);
    WordsValueProperties(a, a);
  }

  /** Casing is ignored: only the lower-cased texts matter. */
  lemma DistanceIgnoresCase(s1: string, s2: string)
    ensures Distance(ToLower(s1), ToLower(s2)) == Distance(s1, s2)
  {
    ToLowerIdempotent(s1);
    ToLowerIdempotent(s2);
  }

  lemma ExampleWords()
    ensures Words("a b") == ["a", "b"] && Words("a") == ["a"]
  {
    SplitNoDelimiter("a", WordDelimiters);
    SplitNoDelimiter("b", WordDelimiters);
    SplitAtDelimiter("a", ' ', "b", WordDelimiters);
    assert "a" + [' '] + "b" == "a b";
  }

  lemma LevOneOne(s: string, t: string)
    requires |s| == 1 && |t| == 1 && s[0] != t[0]
    ensures EditDistance(s, t) == 1
  {
    assert Lev(s, t, 0, 0) == 0;
  }

  lemma LevThreeOne(s: string, t: string)
    requires |s| == 3 && |t| == 1 && s[0] == t[0] && s[1] != t[0] && s[2] != t[0]
    ensures EditDistance(s, t) == 2
  {
    assert Lev(s, t, 1, 1) == 0;
    assert Lev(s, t, 2, 1) == 1;
  }

  lemma LevOneThree(s: string, t: string)
    requires |s| == 1 && |t| == 3 && s[0] == t[0] && t[1] != s[0] && t[2] != s[0]
    ensures EditDistance(s, t) == 2
  {
    assert Lev(s, t, 1, 1) == 0;
    assert Lev(s, t, 1, 2) == 1;
  }

  lemma ExampleEditDistances()
    ensures EditDistance("a", "a") == 0 && EditDistance("b", "a") == 1
    ensures EditDistance("a b", "a") == 2 && EditDistance("a", "a b") == 2
  {
    EditDistanceProperties("a", "a");
    LevOneOne("b", "a");
    LevThreeOne("a b", "a");
    LevOneThree("a", "a b");
  }

  lemma ExampleWordsValues()
    ensures WordsValue("a b", "a") == 1 && WordsValue("a", "a b") == 0
  {
    ExampleWords();
    WordsTotalOfAB();
    WordsTotalOfA();
  }

  lemma WordsTotalOfAB()
    ensures WordsTotal(["a", "b"], ["a"], 1) == 1
  {
    EditDistanceProperties("a", "a");
    LevOneOne("b", "a");
    assert ["a", "b"][..1] == ["a"];
    assert BestMatch("a", ["a"], 1) == 0;
    assert BestMatch("b", ["a"], 1) == 1;
  }

  lemma WordsTotalOfA()
    ensures WordsTotal(["a"], ["a", "b"], 3) == 0
  {
    EditDistanceProperties("a", "a");
    assert BestMatch("a", ["a", "b"], 3) == 0;
  }

  /**
    The distance is not symmetric: the word term sums over the first text's words only, so
    "a b" is 0.52 from "a" while "a" is 0.08 from "a b".
   */
  lemma DistanceNotSymmetric()
    ensures Distance("a b", "a") == 0.52
    ensures Distance("a", "a b") == 0.08
  {
    assert ToLower("a b") == "a b";
    assert ToLower("a") == "a";
    ExampleWordsValues();
    ExampleEditDistances();
    assert PhraseValue("a b", "a") == 0.4;
    assert PhraseValue("a", "a b") == 0.4;
  }
}
