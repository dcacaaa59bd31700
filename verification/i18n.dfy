/**
 * The Russian pluralization rule handed to vue-i18n (frontend/src/i18n.ts).
 * Given a count `choice` and the number of plural forms a message offers,
 * it returns the index of the form to use.
 */
module I18n {

  /** The "teen" test of the rule: only 11..19 count, so 111 or 212 are not teens. */
  predicate IsTeen(choice: nat) {
    10 < choice < 20
  }

  /**
   * `pluralizationRules.ru`, written branch by branch as the code has it,
   * including the final conditional whose `2` can no longer be reached.
   */
  function RuPluralForm(choice: nat, choicesLength: int): (form: int)
    ensures 0 <= form <= 3
    ensures choicesLength < 4 ==> form <= 2
    ensures choice == 0 ==> form == 0
  {
    if choice == 0 then 0
    else
      var teen := IsTeen(choice);
      var endsWithOne := choice % 10 == 1;
      if choicesLength < 4 then (if !teen && endsWithOne then 1 else 2)
      else if !teen && endsWithOne then 1
      else if !teen && 2 <= choice % 10 <= 4 then 2
      else if choicesLength < 4 then 2 else 3
  }

  /** The grammatical category a count falls in, under this rule's own teen test. */
  datatype Category = Zero | One | Few | Many

  function CategoryOf(choice: nat): (c: Category)
    ensures c == Zero <==> choice == 0
  {
    if choice == 0 then Zero
    else if IsTeen(choice) then Many
    else if choice % 10 == 1 then One
    else if 2 <= choice % 10 <= 4 then Few
    else Many
  }

  /**
   * The form a category selects: a message with fewer than four forms
   * ("zero | one | other") merges Few and Many into its third form.
   */
  function FormOf(c: Category, choicesLength: int): (form: nat)
    ensures choicesLength < 4 ==> form <= 2
  {
    match c
    case Zero => 0
    case One => 1
    case Few => 2
    case Many => if choicesLength < 4 then 2 else 3
  }

  /** The rule is exactly "classify the count, then pick that category's form". */
  lemma RuPluralFormByCategory(choice: nat, choicesLength: int)
    ensures RuPluralForm(choice, choicesLength) == FormOf(CategoryOf(choice), choicesLength)
  {
  }

  /** A count of zero selects form 0 whatever the number of forms. */
  lemma ZeroSelectsFirstForm(choicesLength: int)
    ensures RuPluralForm(0, choicesLength) == 0
  {
  }

  /** With fewer than four forms, a non-zero count selects form 1 exactly for non-teen counts ending in 1, and form 2 otherwise. */
  lemma ThreeForms(choice: nat, choicesLength: int)
    requires choicesLength < 4 && choice != 0
    ensures RuPluralForm(choice, choicesLength) == 1 <==> choice % 10 == 1 && !IsTeen(choice)
    ensures RuPluralForm(choice, choicesLength) != 1 ==> RuPluralForm(choice, choicesLength) == 2
  {
  }

  /** With four or more forms: 1 for non-teen counts ending in 1, 2 for non-teen counts ending in 2..4, 3 for everything else. */
  lemma FourForms(choice: nat, choicesLength: int)
    requires choicesLength >= 4 && choice != 0
    ensures RuPluralForm(choice, choicesLength) == 1 <==> !IsTeen(choice) && choice % 10 == 1
    ensures RuPluralForm(choice, choicesLength) == 2 <==> !IsTeen(choice) && 2 <= choice % 10 <= 4
    ensures RuPluralForm(choice, choicesLength) == 3 <==> IsTeen(choice) || choice % 10 == 0 || choice % 10 >= 5
  {
  }

  /** Every teen count selects the last form when four forms exist. */
  lemma TeensSelectLastForm(choice: nat, choicesLength: int)
    requires IsTeen(choice) && choicesLength >= 4
    ensures RuPluralForm(choice, choicesLength) == 3
  {
  }

  /** Only 11..19 are teens: 111 takes form 1 and 112 takes form 2 under four forms. */
  lemma HundredsAreNotTeens()
    ensures RuPluralForm(111, 4) == 1 && RuPluralForm(112, 4) == 2
    ensures RuPluralForm(11, 4) == 3 && RuPluralForm(12, 4) == 3
  {
  }

  /**
   * The last conditional is reached only with four or more forms, so it
   * always returns 3: its `2` branch is dead.
   */
  lemma FinalConditionalReturnsThree(choice: nat, choicesLength: int)
    requires choice != 0 && choicesLength >= 4
    requires !(!IsTeen(choice) && choice % 10 == 1)
    requires !(!IsTeen(choice) && 2 <= choice % 10 <= 4)
    ensures RuPluralForm(choice, choicesLength) == 3
  {
  }
}
