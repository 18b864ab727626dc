/**
  `TranslationComparer`: orders translations by the distance from a fixed query text to their
  text, reporting only the sign of the difference.
 */
module Comparer {
  import opened FindClosestString
  import opened Translations

  /** The comparison of two texts by their distance from `query`. */
  function CompareTexts(query: string, xText: string, yText: string): (r: int)
    ensures -1 <= r <= 1
    ensures r == -1 <==> Distance(query, xText) < Distance(query, yText)
    ensures r == 0 <==> Distance(query, xText) == Distance(query, yText)
    ensures r == 1 <==> Distance(query, xText) > Distance(query, yText)
  {
    var compareResult := Distance(query, xText) - Distance(query, yText);
    if compareResult > 0.0 then 1
    else if compareResult == 0.0 then 0
    else -1
  }

  lemma CompareReflexive(query: string, x: string)
    ensures CompareTexts(query, x, x) == 0
  {
  }

  lemma CompareAntisymmetric(query: string, x: string, y: string)
    ensures CompareTexts(query, x, y) == -CompareTexts(query, y, x)
  {
  }

  /** Comparing by a key is a total preorder: "not after" is transitive, so the comparer is a valid sort order. */
  lemma CompareTransitive(query: string, x: string, y: string, z: string)
    ensures CompareTexts(query, x, y) <= 0 && CompareTexts(query, y, z) <= 0 ==> CompareTexts(query, x, z) <= 0
    ensures CompareTexts(query, x, y) < 0 && CompareTexts(query, y, z) <= 0 ==> CompareTexts(query, x, z) < 0
  {
  }

  class TranslationComparer {
    const textToCompareBy: string

    constructor(textToCompareBy: string)
      ensures this.textToCompareBy == textToCompareBy
    {
      this.textToCompareBy := textToCompareBy;
    }

    /** `Compare`: only the two texts are read, never the keys, cultures or edition flags. */
    method Compare(x: Translation, y: Translation) returns (r: int)
      ensures r == CompareTexts(textToCompareBy, x.text, y.text)
    {
      var dx := GetDistance(textToCompareBy, x.text);
      var dy := GetDistance(textToCompareBy, y.text);
      var compareResult := dx - dy;
      if compareResult > 0.0 {
        return 1;
      } else if compareResult == 0.0 {
        return 0;
      } else {
        return -1;
      }
    }
  }
}
