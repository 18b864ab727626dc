/**
  The translation transfer object: one key with a text per culture, kept both as a dictionary
  and as the list of available cultures shown to the user, plus the culture currently selected.
 */
module TranslationDto {
  import opened Wrappers
  import opened Text
  import opened Collections

  /** A value of the C# `int` type. */
  newtype int32 = x: int | -0x8000_0000 <= x < 0x8000_0000

  /** Two's-complement wrap-around of an integer result into `int`. */
  function Wrap32(x: int): (r: int32)
    ensures (r as int - x) % 0x1_0000_0000 == 0
    ensures -0x8000_0000 <= x < 0x8000_0000 ==> r as int == x
  {
    ((x + 0x8000_0000) % 0x1_0000_0000 - 0x8000_0000) as int32
  }

  /** The position of the first occurrence of `x` in `s`. */
  function FirstIndex<T(==)>(s: seq<T>, x: T): (i: nat)
    requires x in s
    ensures i < |s| && s[i] == x && x !in s[..i]
  {
    if s[0] == x then 0
    else
      var i := FirstIndex(s[1..], x);
      assert s[..i + 1] == [s[0]] + s[1..][..i];
      i + 1
  }

  /** `s` without its first occurrence of `x` (`Collection<T>.Remove`). */
  function RemoveFirst<T(==)>(s: seq<T>, x: T): seq<T> {
    if x in s then s[..FirstIndex(s, x)] + s[FirstIndex(s, x) + 1..] else s
  }

  /** `r` is `s` with element `i` dropped. */
  predicate DropsIndex<T(==)>(s: seq<T>, r: seq<T>, i: nat) {
    i < |s| && |r| == |s| - 1
    && (forall a :: 0 <= a < i ==> r[a] == s[a])
    && (forall a :: i <= a < |r| ==> r[a] == s[a + 1])
  }

  /** Joining the slices around index `i` drops that index. */
  lemma SlicesDrop<T>(s: seq<T>, i: nat)
    requires i < |s|
    ensures DropsIndex(s, s[..i] + s[i + 1..], i)
  {
    var front, back := s[..i], s[i + 1..];
    var r := front + back;
    forall a | 0 <= a < i ensures r[a] == s[a] {
      assert r[a] == front[a];
    }
    forall a | i <= a < |r| ensures r[a] == s[a + 1] {
      assert r[a] == back[a - i];
    }
  }

  /** Removing `x` drops the index where it first occurs. */
  lemma RemoveFirstDrops<T>(s: seq<T>, x: T)
    requires x in s
    ensures DropsIndex(s, RemoveFirst(s, x), FirstIndex(s, x))
  {
    SlicesDrop(s, FirstIndex(s, x));
  }

  /** Dropping an element of a duplicate-free list leaves it duplicate-free and without that element. */
  lemma DropKeepsDistinct<T>(s: seq<T>, r: seq<T>, i: nat)
    requires Distinct(s) && DropsIndex(s, r, i)
    ensures Distinct(r) && s[i] !in r
  {
    forall a, b | 0 <= a < b < |r| ensures r[a] != r[b] {
      var a', b' := if a < i then a else a + 1, if b < i then b else b + 1;
      assert r[a] == s[a'] && r[b] == s[b'];
    }
    forall a | 0 <= a < |r| ensures r[a] != s[i] {
      var a' := if a < i then a else a + 1;
      assert r[a] == s[a'] && a' != i;
    }
  }

  /** Dropping an element keeps every other one. */
  lemma DropKeepsOthers<T>(s: seq<T>, r: seq<T>, i: nat)
    requires DropsIndex(s, r, i)
    ensures forall c :: c in s && c != s[i] ==> c in r
    ensures forall c :: c in r ==> c in s
  {
    forall c | c in s && c != s[i] ensures c in r {
      var k :| 0 <= k < |s| && s[k] == c;
      var k' := if k < i then k else k - 1;
      assert r[k'] == c;
    }
    forall c | c in r ensures c in s {
      var a :| 0 <= a < |r| && r[a] == c;
      var a' := if a < i then a else a + 1;
      assert s[a'] == c;
    }
  }

  /** Removing from a duplicate-free list keeps it duplicate-free and removes exactly `x`. */
  lemma RemoveFromDistinct<T>(s: seq<T>, x: T)
    requires Distinct(s)
    ensures Distinct(RemoveFirst(s, x))
    ensures x !in RemoveFirst(s, x)
    ensures (set c | c in RemoveFirst(s, x)) == (set c | c in s) - {x}
  {
    if x in s {
      var i := FirstIndex(s, x);
      var r := RemoveFirst(s, x);
      RemoveFirstDrops(s, x);
      DropKeepsDistinct(s, r, i);
      DropKeepsOthers(s, r, i);
      assert (set c | c in r) == (set c | c in s) - {x};
    }
  }

  class Translation {
    var translations: map<Culture, string>
    var availableTranslations: seq<Culture>
    var translationKey: Option<string>
    var selectedCultureInfo: Option<Culture>
    var selectedTranslationText: Option<string>

    /** The dictionary and the list hold the same cultures, each once. */
    predicate Valid()
      reads this
    {
      translations.Keys == (set c | c in availableTranslations) && Distinct(availableTranslations)
    }

    /** A new object: no key, no culture selected, no translations. */
    constructor()
      ensures Valid()
      ensures translations == map[] && availableTranslations == []
      ensures translationKey.None? && selectedCultureInfo.None? && selectedTranslationText.None?
    {
      translations := map[];
      availableTranslations := [];
      translationKey := None;
      selectedCultureInfo := None;
      selectedTranslationText := None;
    }

    /** `AddTranslation`: refuses a culture already present; otherwise records it in both collections. */
    method AddTranslation(ci: Culture, translationText: string) returns (added: bool)
      requires Valid()
      modifies this
      ensures Valid()
      ensures added <==> ci !in old(translations)
      ensures !added ==> translations == old(translations) && availableTranslations == old(availableTranslations)
      ensures added ==> translations == old(translations)[ci := translationText]
      ensures added ==> availableTranslations == old(availableTranslations) + [ci]
      ensures translationKey == old(translationKey) && selectedCultureInfo == old(selectedCultureInfo)
      ensures selectedTranslationText == old(selectedTranslationText)
    {
      if ci in translations {
        return false;
      }
      translations := translations[ci := translationText];
      availableTranslations := availableTranslations + [ci];
      return true;
    }

    /** `RemoveTranslation`: drops the culture from both collections; an absent culture changes nothing. */
    method RemoveTranslation(ci: Culture)
      requires Valid()
      modifies this
      ensures Valid()
      ensures translations == old(translations) - {ci}
      ensures availableTranslations == RemoveFirst(old(availableTranslations), ci)
      ensures translationKey == old(translationKey) && selectedCultureInfo == old(selectedCultureInfo)
      ensures selectedTranslationText == old(selectedTranslationText)
    {
      RemoveFromDistinct(availableTranslations, ci);
      translations := translations - {ci};
      availableTranslations := RemoveFirst(availableTranslations, ci);
    }

    /**
      The `SelectedCultureInfo` setter: a new value is stored, then its text is looked up; a culture
      without a translation throws `KeyNotFoundException` after the selection has changed.
     */
    method SetSelectedCultureInfo(value: Culture) returns (ok: bool)
      modifies this
      ensures selectedCultureInfo == Some(value)
      ensures ok <==> (old(selectedCultureInfo) == Some(value) || value in translations)
      ensures old(selectedCultureInfo) != Some(value) && value in translations ==> selectedTranslationText == Some(translations[value])
      ensures !(old(selectedCultureInfo) != Some(value) && value in translations) ==> selectedTranslationText == old(selectedTranslationText)
      ensures translations == old(translations) && availableTranslations == old(availableTranslations)
      ensures translationKey == old(translationKey)
    {
      if selectedCultureInfo == Some(value) {
        return true;
      }
      selectedCultureInfo := Some(value);
      if value !in translations {
        return false;
      }
      selectedTranslationText := Some(translations[value]);
      return true;
    }

    /** `Equals(object)`: false for null (and for any object that is not a translation), otherwise `==`. */
    function Equals(obj: Translation?): (r: bool)
      reads this, obj
      ensures obj == null ==> !r
      ensures obj != null ==> (r <==> OpEquals(this, obj))
    {
      obj != null && OpEquals(this, obj)
    }

    /** `GetHashCode`: `17 * 31 + key.GetHashCode()` in wrapping `int` arithmetic; a null key throws. */
    function HashCode(stringHash: string -> int32): (r: Option<int32>)
      reads this
      ensures r.None? <==> translationKey.None?
      ensures r.Some? ==> (r.value as int - (527 + stringHash(translationKey.value) as int)) % 0x1_0000_0000 == 0
    {
      match translationKey
      case None => None
      case Some(k) => Some(Wrap32(17 * 31 + stringHash(k) as int))
    }
  }

  /** `operator ==`: translations are equal when their keys are. */
  function OpEquals(t1: Translation, t2: Translation): bool
    reads t1, t2
  {
    t1.translationKey == t2.translationKey
  }

  /** `operator !=`. */
  function OpNotEquals(t1: Translation, t2: Translation): (r: bool)
    reads t1, t2
    ensures r <==> !OpEquals(t1, t2)
  {
    !OpEquals(t1, t2)
  }

  /** Equality is an equivalence on the keys: reflexive, symmetric and transitive. */
  lemma EqualsIsEquivalence(a: Translation, b: Translation, c: Translation)
    ensures a.Equals(a)
    ensures a.Equals(b) ==> b.Equals(a)
    ensures a.Equals(b) && b.Equals(c) ==> a.Equals(c)
  {
  }

  /** Equal translations hash equal, so they can be used as dictionary keys. */
  lemma {:induction false} EqualsImpliesSameHash(a: Translation, b: Translation, stringHash: string -> int32)
    requires a.Equals(b)
    ensures a.HashCode(stringHash) == b.HashCode(stringHash)
  {
  }

  /** The hash depends on the key only: texts, cultures and selection never change it. */
  lemma HashIgnoresTranslations(a: Translation, stringHash: string -> int32, key: string)
    requires a.translationKey == Some(key)
    ensures a.HashCode(stringHash) == Some(Wrap32(527 + stringHash(key) as int))
  {
  }
}
