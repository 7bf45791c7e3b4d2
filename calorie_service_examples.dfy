/** The worked examples of the calorie service, checked against the model. */
module CalorieServiceExamples {
  import opened Wrappers
  import opened Models
  import opened Text
  import opened CalorieService

  lemma ProgressExamples()
    ensures Progress(0, DailyGoal) == 0.0
    ensures Progress(2000, DailyGoal) == 1.0
    ensures Progress(3000, DailyGoal) == 1.0
    ensures Progress(500, DailyGoal) == 0.25
    ensures Progress(100, 0) == 0.0
  {
  }

  /** A one-word name, one space and a number parse to that name and number. */
  lemma ParseInputTwoTokens(name: string, number: string, calories: int)
    requires IsToken(name) && IsToken(number) && !IsWhitespace(name[0])
    requires ParseInt(number) == Some(calories)
    ensures ParseInput(name + " " + number) == Some((name, calories))
  {
    SplitTwoTokens(name, number);
    var parts := [name, number];
    assert parts[..1] == [name];
    assert Join([name]) == name;
    assert !IsBlank(name);
  }

  lemma ParseInputExampleAccepted()
    ensures ParseInput("Apple 95") == Some(("Apple", 95))
  {
    assert ParseInt("95") == Some(95) by {
      assert DigitsValue("9") == 9 by { assert "9"[..0] == ""; }
      assert "95"[..1] == "9";
    }
    assert IsToken("Apple") && IsToken("95");
    ParseInputTwoTokens("Apple", "95", 95);
    assert "Apple" + " " + "95" == "Apple 95";
  }

  lemma ParseInputExampleBadNumber()
    ensures ParseInput("Fruit abc") == None
  {
    assert IsToken("Fruit") && IsToken("abc");
    SplitTwoTokens("Fruit", "abc");
    assert "Fruit" + " " + "abc" == "Fruit abc";
    assert ParseInt("abc") == None by { assert !IsDigit("abc"[0]); }
    ParseInputRejectsBadNumber("Fruit abc");
  }

  /** A doubled space between a name and a number is an omitted empty piece, not an error. */
  lemma ParseInputDoubleSpace(name: string, number: string, calories: int)
    requires IsToken(name) && IsToken(number) && !IsWhitespace(name[0])
    requires ParseInt(number) == Some(calories)
    ensures ParseInput(name + " " + (" " + number)) == Some((name, calories))
  {
    SplitCons(name, " " + number);
    SplitSpace(number);
    SplitToken(number);
    SplitTwoTokens(name, number);
    ParseInputTwoTokens(name, number, calories);
  }

  lemma ParseInputExampleDoubleSpace()
    ensures ParseInput("a  5") == Some(("a", 5))
  {
    assert ParseInt("5") == Some(5) by { assert "5"[..0] == ""; }
    assert IsToken("a") && IsToken("5");
    ParseInputDoubleSpace("a", "5", 5);
    assert "a" + " " + (" " + "5") == "a  5";
  }

  lemma ParseInputExamplesTooFewTokens()
    ensures ParseInput("95") == None
    ensures ParseInput("   ") == None
    ensures ParseInput("") == None
  {
    assert Split("95") == ["95"] by { SplitJoin(["95"]); }
    assert Split("   ") == [] by {
      assert "   "[1..] == "  " && "  "[1..] == " " && " "[1..] == "";
    }
  }

  lemma HasDuplicateExamples(id: Uuid, date: int)
    ensures HasDuplicate("apple", [FoodModel(id, "Apple", 95, date, None)])
    ensures !HasDuplicate("apple", [])
    ensures !HasDuplicate("pear", [FoodModel(id, "Apple", 95, date, None)])
  {
    assert Fold("Apple") == Fold("apple") == "apple";
    assert Fold("pear")[0] == 'p' != Fold("Apple")[0];
  }
}
