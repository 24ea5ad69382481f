/**
 * getCardQuizWord of src/Main.cpp: which field of an Anki card is shown
 * as the word to quiz on, given the card's fields and its `fieldOrder`.
 *
 * A card's `fields` object is modelled as a map from field name to the
 * field's `value` string.  The word is a `std::string` assigned from
 * `GetString()`, a C string, so it ends at the value's first NUL (CString).
 */
module QuizWord {
  import opened Wrappers
  import opened EDict2

  /** The members of a card from AnkiConnect's `cardsInfo` that the choice reads. */
  datatype Card = Card(fieldOrder: int, fields: map<string, string>)

  /**
   * A field the chosen branch reads but the card does not have: rapidjson's
   * `operator[]` asserts on a missing member.
   */
  datatype QuizError = MissingField(name: string)

  /**
   * The value of a field as a `std::string` holds it: the value up to its
   * first NUL, or the failure of reading a missing field.
   */
  function FieldValue(card: Card, name: string): (r: Result<string, QuizError>)
    ensures r.Ok? <==> name in card.fields
    ensures r.Ok? ==> r.value <= card.fields[name] && '\0' !in r.value
    ensures r.Ok? && '\0' !in card.fields[name] ==> r.value == card.fields[name]
    ensures r.Err? ==> r.error == MissingField(name)
  {
    if name in card.fields then Ok(CString(card.fields[name])) else Err(MissingField(name))
  }

  /** A field value holding a NUL is read up to just before its first NUL. */
  lemma FieldValueCut(card: Card, name: string, k: nat)
    requires name in card.fields && k < |card.fields[name]| && card.fields[name][k] == '\0'
    requires forall j :: 0 <= j < k ==> card.fields[name][j] != '\0'
    ensures FieldValue(card, name) == Ok(card.fields[name][..k])
  {
    CStringStopsAt(card.fields[name], k);
  }

  /**
   * The quiz word.  A card of "A Frequency Dictionary of Japanese Words"
   * (it has a `Lemma` field) shows its `English Gloss` when `fieldOrder`
   * is 1 and its `Lemma` otherwise; a card with a `Front` field shows
   * `Front` when `fieldOrder` is 1 and `Back` otherwise; any other card
   * shows the empty string.
   */
  function GetCardQuizWord(card: Card): (r: Result<string, QuizError>)
    ensures "Lemma" !in card.fields && "Front" !in card.fields ==> r == Ok("")
    ensures r.Ok? && ("Lemma" in card.fields || "Front" in card.fields) ==>
      exists name :: name in card.fields && r.value == CString(card.fields[name])
  {
    if "Lemma" in card.fields then
      if card.fieldOrder == 1 then FieldValue(card, "English Gloss") else FieldValue(card, "Lemma")
    else if "Front" in card.fields then
      if card.fieldOrder == 1 then FieldValue(card, "Front") else FieldValue(card, "Back")
    else Ok("")
  }

  /**
   * A card with a `Lemma` field is quizzed on its English gloss when
   * `fieldOrder` is 1 and on the lemma otherwise, whatever other fields
   * (`Front` among them) it has.
   */
  lemma LemmaCard(card: Card)
    requires "Lemma" in card.fields
    ensures card.fieldOrder == 1 ==> GetCardQuizWord(card) == FieldValue(card, "English Gloss")
    ensures card.fieldOrder != 1 ==> GetCardQuizWord(card) == Ok(CString(card.fields["Lemma"]))
  {
  }

  /** A card with `Front` and no `Lemma` is quizzed on `Front` when `fieldOrder` is 1 and on `Back` otherwise. */
  lemma FrontCard(card: Card)
    requires "Lemma" !in card.fields && "Front" in card.fields
    ensures card.fieldOrder == 1 ==> GetCardQuizWord(card) == Ok(CString(card.fields["Front"]))
    ensures card.fieldOrder != 1 ==> GetCardQuizWord(card) == FieldValue(card, "Back")
  {
  }

  /** A front card whose `Front` value is `a`, NUL, `b` is quizzed on `a` alone. */
  lemma FrontWithNul()
    ensures GetCardQuizWord(Card(1, map["Front" := "a\0b"])) == Ok("a")
  {
    var card := Card(1, map["Front" := "a\0b"]);
    FieldValueCut(card, "Front", 1);
    assert card.fields["Front"][..1] == "a";
  }

  /** Adding or changing a `Front` field never changes the word of a card that has a `Lemma`. */
  lemma LemmaTakesPrecedence(card: Card, front: string)
    requires "Lemma" in card.fields
    ensures GetCardQuizWord(card.(fields := card.fields["Front" := front])) == GetCardQuizWord(card)
  {
    var other := card.(fields := card.fields["Front" := front]);
    assert "Lemma" in other.fields;
    if card.fieldOrder == 1 {
      assert ("English Gloss" in other.fields) == ("English Gloss" in card.fields);
    }
  }

  /**
   * The choice fails exactly when the branch taken reads a field the card
   * lacks: `English Gloss` on a lemma card shown English first, `Back` on
   * a front card shown back first.
   */
  lemma QuizWordFails(card: Card)
    ensures GetCardQuizWord(card).Err? <==>
      ("Lemma" in card.fields && card.fieldOrder == 1 && "English Gloss" !in card.fields)
      || ("Lemma" !in card.fields && "Front" in card.fields && card.fieldOrder != 1 && "Back" !in card.fields)
  {
  }

  /**
   * A non-empty quiz word is always read from one of the four fields
   * `Lemma`, `English Gloss`, `Front` and `Back`.
   */
  lemma QuizWordFromFourFields(card: Card)
    ensures var r := GetCardQuizWord(card);
      r.Ok? && r.value != "" ==>
        exists name :: name in {"Lemma", "English Gloss", "Front", "Back"} && r == FieldValue(card, name)
  {
    var name :=
      if "Lemma" in card.fields then (if card.fieldOrder == 1 then "English Gloss" else "Lemma")
      else if card.fieldOrder == 1 then "Front" else "Back";
    if "Lemma" in card.fields || "Front" in card.fields {
      assert GetCardQuizWord(card) == FieldValue(card, name);
      assert name in {"Lemma", "English Gloss", "Front", "Back"};
    }
  }

  /**
   * Only the four fields `Lemma`, `English Gloss`, `Front` and `Back`, and
   * only whether `fieldOrder` is 1, decide the quiz word.
   */
  lemma QuizWordDependsOnFourFields(a: Card, b: Card)
    requires (a.fieldOrder == 1) == (b.fieldOrder == 1)
    requires forall name :: name in {"Lemma", "English Gloss", "Front", "Back"} ==>
      (name in a.fields <==> name in b.fields) && (name in a.fields ==> a.fields[name] == b.fields[name])
    ensures GetCardQuizWord(a) == GetCardQuizWord(b)
  {
    assert "Lemma" in {"Lemma", "English Gloss", "Front", "Back"};
    assert "English Gloss" in {"Lemma", "English Gloss", "Front", "Back"};
    assert "Front" in {"Lemma", "English Gloss", "Front", "Back"};
    assert "Back" in {"Lemma", "English Gloss", "Front", "Back"};
  }
}
