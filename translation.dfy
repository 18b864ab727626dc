/**
  The view-model translation: a key, a text and a culture shown in the translation list, with a
  flag telling whether the user is editing it. Instances are compared by reference.
 */
module Translations {
  import opened Text

  class Translation {
    var isUnderEdition: bool
    var key: string
    var text: string
    var cultureInfo: Culture

    constructor(translationKey: string, translationText: string, cultureInfo: Culture)
      ensures key == translationKey && text == translationText && this.cultureInfo == cultureInfo
      ensures !isUnderEdition
    {
      key := translationKey;
      text := translationText;
      this.cultureInfo := cultureInfo;
      isUnderEdition := false;
    }

    /** `MemberwiseClone`: a new object holding the same four field values. */
    method Clone() returns (c: Translation)
      ensures fresh(c)
      ensures c.key == key && c.text == text && c.cultureInfo == cultureInfo
      ensures c.isUnderEdition == isUnderEdition
    {
      c := new Translation(key, text, cultureInfo);
      c.isUnderEdition := isUnderEdition;
    }
  }
}
