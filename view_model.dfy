/**
  The view model of the "add translation" window: the translation list of the selected project and
  language, the new key and text typed by the user, the key validation message, and the edit state
  machine of a translation in the list (edit, cancel, save, switching the selection).

  Properties go through compare-and-set: a setter given the value already held does nothing, and
  translations are compared by reference. The project back-end, message boxes and the C# identifier
  check are not modelled; their answers are parameters (`keyExists`, `saveSucceeds`,
  `updateSucceeds`, `reloaded`) and a function (`isValidIdentifier`).
 */
module ViewModel {
  import opened Wrappers
  import opened Text
  import opened Translations
  import opened FindClosestString
  import opened Sorting

  const EmptyKeyMessage := "Translation key must not be empty."
  const WhiteSpaceMessage := "Translation key must not contain white spaces."
  const IdentifierMessage := "Translation key must be valid C# variable name."

  /** The regular expression `\s+` matches somewhere in `s`. */
  predicate HasWhiteSpace(s: string) {
    exists i :: 0 <= i < |s| && IsWhiteSpace(s[i])
  }

  /** A key the validator accepts: present, non-empty, without white space and a C# identifier. */
  predicate ValidKey(key: Option<string>, isValidIdentifier: string -> bool) {
    key.Some? && |key.value| > 0 && !HasWhiteSpace(key.value) && isValidIdentifier(key.value)
  }

  /**
    `ValidateTranslationKey`: the empty check comes first, so a key of white space only gets the
    empty-key message; the identifier check comes last. The empty string means "valid".
   */
  function ValidateTranslationKey(key: Option<string>, isValidIdentifier: string -> bool): (r: string)
    ensures IsNullOrWhiteSpace(key) ==> r == EmptyKeyMessage
    ensures !IsNullOrWhiteSpace(key) && HasWhiteSpace(key.value) ==> r == WhiteSpaceMessage
    ensures r in {"", EmptyKeyMessage, WhiteSpaceMessage, IdentifierMessage}
    ensures r == "" <==> ValidKey(key, isValidIdentifier)
  {
    if IsNullOrWhiteSpace(key) then
      assert key.Some? && |key.value| > 0 ==> IsWhiteSpace(key.value[0]);
      EmptyKeyMessage
    else if HasWhiteSpace(key.value) then
      WhiteSpaceMessage
    else if !isValidIdentifier(key.value) then
      IdentifierMessage
    else
      assert !IsWhiteSpace(key.value[0]);
      ""
  }

  /** Keys never decrease along `ts` when each translation is keyed by the distance from `query` to its text. */
  predicate SortedByDistance(ts: seq<Translation>, query: string)
    reads ts
  {
    forall i, j :: 0 <= i < j < |ts| ==> Distance(query, ts[i].text) <= Distance(query, ts[j].text)
  }

  /** A permutation sorted by a key that is the distance on every element is sorted by distance. */
  lemma SortedByKeyIsByDistance(ts: seq<Translation>, sorted: seq<Translation>, key: Translation -> real, query: string)
    requires forall t :: t in ts ==> key(t) == Distance(query, t.text)
    requires multiset(sorted) == multiset(ts) && SortedBy(sorted, key)
    ensures SortedByDistance(sorted, query)
  {
    forall i, j | 0 <= i < j < |sorted|
      ensures Distance(query, sorted[i].text) <= Distance(query, sorted[j].text)
    {
      assert sorted[i] in multiset(ts) && sorted[j] in multiset(ts);
      assert key(sorted[i]) <= key(sorted[j]);
    }
  }

  /** What a command did; the message box shown for a refusal is not modelled. */
  datatype Outcome =
    | LanguageNotSelected
    | NoEditInProgress
    | InvalidKey(error: string)
    | KeyInUse
    | Failed
    | Done

  class AddTranslationViewModel {
    var translations: seq<Translation>
    var selectedLanguage: Option<Culture>
    var errorText: Option<string>
    var selectedTranslation: Translation?
    var translationKey: Option<string>
    var translationText: Option<string>
    /** The snapshot taken when an edition starts, used to restore or to find the original. */
    var editedTranslation: Translation?
    /** `CodeDomProvider.IsValidIdentifier` of the C# provider. */
    const isValidIdentifier: string -> bool

    /** A new view model: empty list, nothing selected, nothing typed, no edition. */
    constructor(isValidIdentifier: string -> bool)
      ensures this.isValidIdentifier == isValidIdentifier
      ensures translations == [] && selectedLanguage.None? && errorText.None?
      ensures selectedTranslation == null && editedTranslation == null
      ensures translationKey.None? && translationText.None?
    {
      this.isValidIdentifier := isValidIdentifier;
      translations := [];
      selectedLanguage := None;
      errorText := None;
      selectedTranslation := null;
      translationKey := None;
      translationText := None;
      editedTranslation := null;
    }

    /** `IsKeyCorrect`: there is no error message. */
    predicate IsKeyCorrect()
      reads this
    {
      IsNullOrEmpty(errorText)
    }

    /** `IsLanguageSelected`. */
    predicate IsLanguageSelected()
      reads this
    {
      selectedLanguage.Some?
    }

    /**
      The `TranslationKey` setter: a new key is stored and validated, and the key is then correct
      exactly when the validator accepts it; the key already held changes nothing.
     */
    method SetTranslationKey(value: Option<string>)
      modifies this
      ensures translationKey == value
      ensures value != old(translationKey) ==> errorText == Some(ValidateTranslationKey(value, isValidIdentifier))
      ensures value != old(translationKey) ==> (IsKeyCorrect() <==> ValidKey(value, isValidIdentifier))
      ensures value == old(translationKey) ==> errorText == old(errorText)
      ensures translations == old(translations) && selectedLanguage == old(selectedLanguage)
      ensures selectedTranslation == old(selectedTranslation) && editedTranslation == old(editedTranslation)
      ensures translationText == old(translationText)
    {
      if value == translationKey {
        return;
      }
      translationKey := value;
      errorText := Some(ValidateTranslationKey(translationKey, isValidIdentifier));
    }

    /** The `TranslationText` setter: a new text is stored and the list re-sorted by distance to it. */
    method SetTranslationText(value: string)
      modifies this
      ensures translationText == Some(value)
      ensures old(translationText) == Some(value) ==> translations == old(translations)
      ensures multiset(translations) == multiset(old(translations))
      ensures old(translationText) != Some(value) ==> SortedByDistance(translations, value)
      ensures translationKey == old(translationKey) && errorText == old(errorText)
      ensures selectedLanguage == old(selectedLanguage)
      ensures selectedTranslation == old(selectedTranslation) && editedTranslation == old(editedTranslation)
    {
      if translationText == Some(value) {
        return;
      }
      translationText := Some(value);
      SortTranslations();
    }

    /**
      `SortTranslations`: the list becomes a permutation of itself in non-decreasing distance from
      the typed text. The library sort is not stable, so nothing is promised about ties.
     */
    method SortTranslations()
      requires translationText.Some?
      modifies this
      ensures translationText == old(translationText) && translationKey == old(translationKey)
      ensures multiset(translations) == multiset(old(translations))
      ensures SortedByDistance(translations, translationText.value)
      ensures errorText == old(errorText) && selectedLanguage == old(selectedLanguage)
      ensures selectedTranslation == old(selectedTranslation) && editedTranslation == old(editedTranslation)
    {
      var query := translationText.value;
      var distances := map t | t in translations :: Distance(query, t.text);
      var key := (t: Translation) => if t in distances then distances[t] else 0.0;
      translations := StableSort(translations, key);
      SortedByKeyIsByDistance(old(translations), translations, key, query);
    }

    /**
      The `SelectedTranslation` setter. Moving away from a translation under edition cancels that
      edition: its text and key come back from the snapshot and its flag is cleared (the snapshot
      itself is kept). Without a snapshot this throws a null reference exception (`ok` false) after
      the selection has already changed.
     */
    method SetSelectedTranslation(value: Translation?) returns (ok: bool)
      modifies this, selectedTranslation
      ensures selectedTranslation == value
      ensures var prev := old(selectedTranslation);
        prev == value || prev == null || !old(prev.isUnderEdition) ==> ok && (prev != null ==> unchanged(prev))
      ensures var prev := old(selectedTranslation);
        prev != value && prev != null && old(prev.isUnderEdition) ==>
          (ok <==> old(editedTranslation) != null) &&
          (ok ==> prev.text == old(editedTranslation.text) && prev.key == old(editedTranslation.key) && !prev.isUnderEdition) &&
          (!ok ==> unchanged(prev)) &&
          prev.cultureInfo == old(prev.cultureInfo)
      ensures editedTranslation == old(editedTranslation) && translations == old(translations)
      ensures translationKey == old(translationKey) && translationText == old(translationText)
      ensures errorText == old(errorText) && selectedLanguage == old(selectedLanguage)
    {
      var prevSelected := selectedTranslation;
      if value == selectedTranslation {
        return true;
      }
      selectedTranslation := value;
      if prevSelected != null && prevSelected.isUnderEdition {
        if editedTranslation == null {
          return false;
        }
        prevSelected.text := editedTranslation.text;
        prevSelected.key := editedTranslation.key;
        prevSelected.isUnderEdition := false;
      }
      return true;
    }

    /**
      `EditTranslation`: the translation is flagged as under edition and then copied, so the
      snapshot carries the flag too.
     */
    method EditTranslation(translation: Translation)
      modifies this, translation
      ensures translation.isUnderEdition
      ensures translation.key == old(translation.key) && translation.text == old(translation.text)
      ensures translation.cultureInfo == old(translation.cultureInfo)
      ensures editedTranslation != null && fresh(editedTranslation)
      ensures editedTranslation.key == translation.key && editedTranslation.text == translation.text
      ensures editedTranslation.cultureInfo == translation.cultureInfo && editedTranslation.isUnderEdition
      ensures translations == old(translations) && selectedTranslation == old(selectedTranslation)
      ensures translationKey == old(translationKey) && translationText == old(translationText)
      ensures errorText == old(errorText) && selectedLanguage == old(selectedLanguage)
    {
      translation.isUnderEdition := true;
      editedTranslation := translation.Clone();
    }

    /**
      `CancelTranslationEdit`: key and text come back from the snapshot, the flag is cleared and the
      snapshot dropped. Without a snapshot the first access throws (`ok` false) and nothing changes.
     */
    method CancelTranslationEdit(translation: Translation) returns (ok: bool)
      modifies this, translation
      ensures ok <==> old(editedTranslation) != null
      ensures !ok ==> unchanged(this) && unchanged(translation)
      ensures ok ==> !translation.isUnderEdition && editedTranslation == null
      ensures ok ==> translation.key == old(editedTranslation.key) && translation.text == old(editedTranslation.text)
      ensures translation.cultureInfo == old(translation.cultureInfo)
      ensures translations == old(translations) && selectedTranslation == old(selectedTranslation)
      ensures translationKey == old(translationKey) && translationText == old(translationText)
      ensures errorText == old(errorText) && selectedLanguage == old(selectedLanguage)
    {
      if editedTranslation == null {
        return false;
      }
      translation.isUnderEdition := false;
      translation.key := editedTranslation.key;
      translation.text := editedTranslation.text;
      editedTranslation := null;
      return true;
    }

    /**
      Starting an edition and cancelling it gives the translation back as it was, not under
      edition, with no snapshot left.
     */
    method EditThenCancel(translation: Translation)
      modifies this, translation
      ensures translation.key == old(translation.key) && translation.text == old(translation.text)
      ensures translation.cultureInfo == old(translation.cultureInfo) && !translation.isUnderEdition
      ensures editedTranslation == null
      ensures translations == old(translations) && selectedTranslation == old(selectedTranslation)
      ensures translationKey == old(translationKey) && translationText == old(translationText)
      ensures errorText == old(errorText) && selectedLanguage == old(selectedLanguage)
    {
      EditTranslation(translation);
      var ok := CancelTranslationEdit(translation);
      assert ok;
    }

    /**
      `SaveTranslationEdit`. Without a language or without a snapshot nothing changes (the second
      case closes the window). A key the validator refuses leaves the edition in progress.
      Otherwise the project is asked to update; a failed update puts the snapshot's text and key
      back. Either way the edition ends: the flag is cleared and the snapshot dropped.
     */
    method SaveTranslationEdit(translation: Translation, updateSucceeds: bool) returns (outcome: Outcome)
      modifies this, translation
      ensures old(selectedLanguage).None? ==> outcome == LanguageNotSelected
      ensures old(selectedLanguage).Some? && old(editedTranslation) == null ==> outcome == NoEditInProgress
      ensures old(selectedLanguage).Some? && old(editedTranslation) != null &&
              !ValidKey(Some(old(translation.key)), isValidIdentifier) ==>
                outcome == InvalidKey(ValidateTranslationKey(Some(old(translation.key)), isValidIdentifier))
      ensures outcome.LanguageNotSelected? || outcome.NoEditInProgress? || outcome.InvalidKey? ==>
                unchanged(this) && unchanged(translation)
      ensures old(selectedLanguage).Some? && old(editedTranslation) != null &&
              ValidKey(Some(old(translation.key)), isValidIdentifier) ==>
                outcome == (if updateSucceeds then Done else Failed)
      ensures outcome == Done ==> translation.key == old(translation.key) && translation.text == old(translation.text)
      ensures outcome == Failed ==>
                translation.key == old(editedTranslation.key) && translation.text == old(editedTranslation.text)
      ensures outcome == Done || outcome == Failed ==> !translation.isUnderEdition && editedTranslation == null
      ensures translation.cultureInfo == old(translation.cultureInfo)
      ensures translations == old(translations) && selectedTranslation == old(selectedTranslation)
      ensures translationKey == old(translationKey) && translationText == old(translationText)
      ensures errorText == old(errorText) && selectedLanguage == old(selectedLanguage)
    {
      if selectedLanguage.None? {
        return LanguageNotSelected;
      }
      if editedTranslation == null {
        return NoEditInProgress;
      }
      var error := ValidateTranslationKey(Some(translation.key), isValidIdentifier);
      if !IsNullOrEmpty(Some(error)) {
        return InvalidKey(error);
      }
      outcome := Done;
      if !updateSucceeds {
        translation.text := editedTranslation.text;
        translation.key := editedTranslation.key;
        outcome := Failed;
      }
      translation.isUnderEdition := false;
      editedTranslation := null;
    }

    /**
      `SaveNewTranslation`. Without a language, or when the project already has the key, nothing
      is saved. The key is not checked against the validator here. After a successful save the
      key and text are reset to empty (the empty key then carries the empty-key message) and the
      list is reloaded from the project, which replaces the order the reset sorted it into.
     */
    method SaveNewTranslation(keyExists: bool, saveSucceeds: bool, reloaded: seq<Translation>) returns (outcome: Outcome)
      modifies this
      ensures old(selectedLanguage).None? ==> outcome == LanguageNotSelected
      ensures old(selectedLanguage).Some? && keyExists ==> outcome == KeyInUse
      ensures old(selectedLanguage).Some? && !keyExists ==> outcome == (if saveSucceeds then Done else Failed)
      ensures outcome != Done ==> unchanged(this)
      ensures outcome == Done ==> translationKey == Some("") && translationText == Some("") && translations == reloaded
      ensures outcome == Done && old(translationKey) != Some("") ==> errorText == Some(EmptyKeyMessage) && !IsKeyCorrect()
      ensures outcome == Done && old(translationKey) == Some("") ==> errorText == old(errorText)
      ensures selectedLanguage == old(selectedLanguage)
      ensures selectedTranslation == old(selectedTranslation) && editedTranslation == old(editedTranslation)
    {
      if selectedLanguage.None? {
        return LanguageNotSelected;
      }
      if keyExists {
        return KeyInUse;
      }
      if !saveSucceeds {
        return Failed;
      }
      SetTranslationKey(Some(""));
      SetTranslationText("");
      translations := reloaded;
      return Done;
    }
  }
}
