/**
 * Worked examples of the command parser: concrete texts and what `Parse` makes of them,
 * each derived from the general lemmas of `CommandParser`.
 */
module ParserExamples {
  import opened Wrappers
  import opened Text
  import opened CommandParser

  /** A capitalised text parses as its lower-case form. */
  lemma ParseOfCapitalised(text: string, u: string)
    requires text != [] && forall i :: 1 <= i < |text| ==> !IsUpper(text[i])
    requires u == [LowerChar(text[0])] + text[1..]
    ensures Lower(u) == u
    ensures Parse(text) == Parse(u)
  {
    LowerCapitalised(text);
    LowerOfLowerCase(u);
    ParseIgnoresCase(text, u);
  }

  /** No upper-case letter anywhere in `s`. */
  predicate NoUpper(s: string) {
    forall i :: 0 <= i < |s| ==> !IsUpper(s[i])
  }

  lemma NoUpperAppend(x: string, y: string)
    requires NoUpper(x) && NoUpper(y)
    ensures NoUpper(x + y)
  {
    assert forall i :: |x| <= i < |x + y| ==> (x + y)[i] == y[i - |x|];
  }

  /** The verbs are written in lower case. */
  lemma VerbIsLowerCase(a: Action)
    ensures Verb(a) != [] && NoUpper(Verb(a))
  {
  }

  /** A verb, a space and digits, followed by a text without capitals, has no capitals. */
  lemma VerbFormIsLowerCase(a: Action, digits: string, rest: string)
    requires forall j :: 0 <= j < |digits| ==> IsDigit(digits[j])
    requires NoUpper(rest)
    ensures NoUpper(Verb(a) + " " + digits + rest)
  {
    VerbIsLowerCase(a);
    NoUpperAppend(Verb(a), " ");
    NoUpperAppend(Verb(a) + " ", digits);
    NoUpperAppend(Verb(a) + " " + digits, rest);
  }

  /** `ParseOfLowerForm` for a text that is already in lower case. */
  lemma ParseOfLowerCaseForm(u: string, a: Action, digits: string, n: nat, product: string)
    requires u == Verb(a) + " " + digits + " " + product
    requires digits != [] && forall j :: 0 <= j < |digits| ==> IsDigit(digits[j])
    requires DecimalValue(digits) == n
    requires product != [] && !IsSpace(product[0]) && !IsSpace(product[|product| - 1])
    requires forall j :: 0 <= j < |product| ==> product[j] != '\n' && !IsUpper(product[j])
    ensures Lower(u) == u
    ensures |digits| > MaxStrDigits ==> Parse(u) == Failed(InvalidQuantityFormat)
    ensures |digits| <= MaxStrDigits && n > 0 ==> Parse(u) == Parsed(Command(a, n, product))
    ensures |digits| <= MaxStrDigits && n == 0 ==> Parse(u) == Failed(QuantityNotPositive)
  {
    NoUpperAppend(" ", product);
    assert u == Verb(a) + " " + digits + (" " + product);
    VerbFormIsLowerCase(a, digits, " " + product);
    LowerOfLowerCase(u);
    ParseOfLowerForm(u, a, digits, n, product);
  }

  /** `RejectedAfterDigits` for a text that is already in lower case. */
  lemma RejectedLowerCase(u: string, a: Action, digits: string, rest: string)
    requires u == Verb(a) + " " + digits + rest
    requires forall j :: 0 <= j < |digits| ==> IsDigit(digits[j])
    requires rest != [] && !IsDigit(rest[0]) && !IsSpace(rest[0]) && !IsSpace(rest[|rest| - 1])
    requires NoUpper(rest)
    ensures Parse(u) == Failed(InvalidCommandFormat)
  {
    VerbFormIsLowerCase(a, digits, rest);
    LowerOfLowerCase(u);
    RejectedAfterDigits(u, a, digits, rest);
  }

  /**
   * A lower-case text is rejected when, once stripped, it is empty or starts with none
   * of the verbs' first letters "a", "d", "s", or with an "s" not followed by "o".
   */
  lemma RejectedLowerCaseWithoutVerb(u: string)
    requires NoUpper(u)
    requires var t := Strip(u);
      t == [] || (t[0] != 'a' && t[0] != 'd' && (t[0] != 's' || |t| == 1 || t[1] != 'o'))
    ensures Parse(u) == Failed(InvalidCommandFormat)
  {
    var t := Strip(u);
    LowerOfLowerCase(u);
    assert LeadingVerb(Strip(Lower(u))) == None by {
      NoVerbFromLetters(t);
    }
    RejectedWithoutVerb(u);
  }

  /** A text starting with none of "a", "d" and "so" starts with none of the verbs. */
  lemma NoVerbFromLetters(t: string)
    requires t == [] || (t[0] != 'a' && t[0] != 'd' && (t[0] != 's' || |t| == 1 || t[1] != 'o'))
    ensures LeadingVerb(t) == None
  {
    assert !StartsWith(t, "add") && !StartsWith(t, "delete");
    assert !StartsWith(t, "sold") by {
      if |t| >= 4 {
        if t[0] != 's' {
          assert t[..4][0] != "sold"[0];
        } else {
          assert t[..4][1] != "sold"[1];
        }
      }
    }
  }

  /** `[c] + x + " " + y + " " + z` as `c` before one string. */
  lemma SpelledTail(c: char, x: string, y: string, z: string)
    ensures [c] + x + " " + y + " " + z == [c] + (x + " " + y + " " + z)
  {
  }

  /** The text after the verb's first letter has no upper-case letter when the product has none. */
  lemma TailIsLowerCase(a: Action, digits: string, product: string)
    requires forall j :: 0 <= j < |digits| ==> IsDigit(digits[j])
    requires forall j :: 0 <= j < |product| ==> !IsUpper(product[j])
    ensures var tail := Verb(a)[1..] + " " + digits + " " + product;
      forall i :: 0 <= i < |tail| ==> !IsUpper(tail[i])
  {
    var v := Verb(a);
    VerbIsLowerCase(a);
    var tail := v[1..] + " " + digits + " " + product;
    forall i | 0 <= i < |tail|
      ensures !IsUpper(tail[i])
    {
      if i < |v| - 1 {
        assert tail[i] == v[i + 1];
      } else if |v| <= i < |v| + |digits| {
        assert tail[i] == digits[i - |v|];
      } else if |v| + |digits| + 1 <= i {
        assert tail[i] == product[i - |v| - |digits| - 1];
      }
    }
  }

  /** A text spelled as `ParseOfCapitalisedForm` says is capitalised, and its lower-case form is the command. */
  lemma CapitalisedSpelling(text: string, a: Action, first: char, digits: string, product: string)
    requires text == [first] + Verb(a)[1..] + " " + digits + " " + product
    requires LowerChar(first) == Verb(a)[0]
    requires forall j :: 0 <= j < |digits| ==> IsDigit(digits[j])
    requires forall j :: 0 <= j < |product| ==> !IsUpper(product[j])
    ensures text != [] && forall i :: 1 <= i < |text| ==> !IsUpper(text[i])
    ensures [LowerChar(text[0])] + text[1..] == Verb(a) + " " + digits + " " + product
  {
    var v := Verb(a);
    VerbIsLowerCase(a);
    var tail := v[1..] + " " + digits + " " + product;
    SpelledTail(first, v[1..], digits, product);
    TailIsLowerCase(a, digits, product);
    assert forall i :: 1 <= i < |text| ==> text[i] == tail[i - 1];
    assert [v[0]] + v[1..] == v;
    SpelledTail(v[0], v[1..], digits, product);
  }

  /**
   * `ParseOfLowerForm` for a text spelled as a first character, the rest of the verb,
   * the digits and the product, separated by single spaces, when that first
   * character is the verb's first letter in either case and nothing else is upper case.
   */
  lemma ParseOfCapitalisedForm(text: string, a: Action, first: char, digits: string, n: nat, product: string)
    requires text == [first] + Verb(a)[1..] + " " + digits + " " + product
    requires LowerChar(first) == Verb(a)[0]
    requires digits != [] && forall j :: 0 <= j < |digits| ==> IsDigit(digits[j])
    requires DecimalValue(digits) == n
    requires product != [] && !IsSpace(product[0]) && !IsSpace(product[|product| - 1])
    requires forall j :: 0 <= j < |product| ==> product[j] != '\n' && !IsUpper(product[j])
    ensures |digits| > MaxStrDigits ==> Parse(text) == Failed(InvalidQuantityFormat)
    ensures |digits| <= MaxStrDigits && n > 0 ==> Parse(text) == Parsed(Command(a, n, product))
    ensures |digits| <= MaxStrDigits && n == 0 ==> Parse(text) == Failed(QuantityNotPositive)
  {
    CapitalisedSpelling(text, a, first, digits, product);
    var u := [LowerChar(text[0])] + text[1..];
    ParseOfCapitalised(text, u);
    ParseOfLowerForm(u, a, digits, n, product);
  }

  // Worked examples: the quantity and product are read off, the verb decides the action.
  // Each example names its text through a parameter, so that the verifier reasons with
  // the general lemmas above instead of evaluating the parser on a literal.

  lemma LowerAddMilk(text: string, u: string)
    requires text == "ADD 10 Milk" && u == "add 10 milk"
    ensures Lower(text) == u
  {
  }

  lemma ExampleAddUpperCase(text: string)
    requires text == "ADD 10 Milk"
    ensures Parse(text) == Parsed(Command(Add, 10, "milk"))
  {
    var u := "add 10 milk";
    LowerAddMilk(text, u);
    assert u == Verb(Add) + " " + "10" + " " + "milk";
    ParseOfLowerCaseForm(u, Add, "10", 10, "milk");
    ParseIgnoresCase(text, u);
  }

  /** Only the first number is the quantity; a second one belongs to the product. */
  lemma ExampleNumberInProduct(text: string)
    requires text == "delete 10 5 apples"
    ensures Parse(text) == Parsed(Command(Delete, 10, "5 apples"))
  {
    assert text == Verb(Delete) + " " + "10" + " " + "5 apples";
    ParseOfLowerCaseForm(text, Delete, "10", 10, "5 apples");
  }

  lemma ExampleZeroQuantity(text: string)
    requires text == "add 00 milk"
    ensures Parse(text) == Failed(QuantityNotPositive)
  {
    assert text == Verb(Add) + " " + "00" + " " + "milk";
    ParseOfLowerCaseForm(text, Add, "00", 0, "milk");
  }

  /**
   * `int()` refuses more than `MaxStrDigits` digits, leading zeros included, so a
   * quantity of 1 written with 4300 leading zeros is a quantity-format error.
   */
  lemma ExampleOverlongQuantity(zeros: string, text: string)
    requires |zeros| == 4300 && forall j :: 0 <= j < |zeros| ==> zeros[j] == '0'
    requires text == "add " + zeros + "1 milk"
    ensures Parse(text) == Failed(InvalidQuantityFormat)
  {
    var digits := zeros + "1";
    assert forall j :: 0 <= j < |digits| ==> IsDigit(digits[j]);
    assert text == Verb(Add) + " " + digits + " " + "milk";
    ParseOfLowerCaseForm(text, Add, digits, DecimalValue(digits), "milk");
  }

  /** A sign is not a digit, so a negative quantity is a format error, not a quantity error. */
  lemma ExampleNegativeQuantity(text: string)
    requires text == "add -1 milk"
    ensures Parse(text) == Failed(InvalidCommandFormat)
  {
    assert text == Verb(Add) + " " + "" + "-1 milk";
    RejectedLowerCase(text, Add, "", "-1 milk");
  }

  lemma ExampleMissingSpace(text: string)
    requires text == "add 10milk"
    ensures Parse(text) == Failed(InvalidCommandFormat)
  {
    assert text == Verb(Add) + " " + "10" + "milk";
    RejectedLowerCase(text, Add, "10", "milk");
  }

  /** A verb in mid-sentence is not recognised: `re.match` is anchored at the start. */
  lemma ExampleVerbNotFirst(text: string)
    requires text == "please add 5 milk"
    ensures Parse(text) == Failed(InvalidCommandFormat)
  {
    StripOfTrimmed(text);
    RejectedLowerCaseWithoutVerb(text);
  }

  /** "sell" is not a verb of the grammar; only "sold" is. */
  lemma ExampleSellIsNotAVerb(text: string)
    requires text == "sell 3 eggs"
    ensures Parse(text) == Failed(InvalidCommandFormat)
  {
    StripOfTrimmed(text);
    RejectedLowerCaseWithoutVerb(text);
  }

  // The entries of `get_command_examples()`, one by one.

  lemma ExampleAddPacketsOfMilk(text: string)
    requires text == "Add 10 packets of milk"
    ensures Parse(text) == Parsed(Command(Add, 10, "packets of milk"))
  {
    assert text == ['A'] + Verb(Add)[1..] + " " + "10" + " " + "packets of milk";
    ParseOfCapitalisedForm(text, Add, 'A', "10", 10, "packets of milk");
  }

  lemma ExampleSoldSoaps(text: string)
    requires text == "Sold 5 soaps"
    ensures Parse(text) == Parsed(Command(Sell, 5, "soaps"))
  {
    assert text == ['S'] + Verb(Sell)[1..] + " " + "5" + " " + "soaps";
    ParseOfCapitalisedForm(text, Sell, 'S', "5", 5, "soaps");
  }

  lemma ExampleDeleteBottlesOfOil(text: string)
    requires text == "Delete 2 bottles of oil"
    ensures Parse(text) == Parsed(Command(Delete, 2, "bottles of oil"))
  {
    assert text == ['D'] + Verb(Delete)[1..] + " " + "2" + " " + "bottles of oil";
    ParseOfCapitalisedForm(text, Delete, 'D', "2", 2, "bottles of oil");
  }

  lemma ExampleAddApples(text: string)
    requires text == "Add 25 apples"
    ensures Parse(text) == Parsed(Command(Add, 25, "apples"))
  {
    assert text == ['A'] + Verb(Add)[1..] + " " + "25" + " " + "apples";
    ParseOfCapitalisedForm(text, Add, 'A', "25", 25, "apples");
  }

  lemma ExampleSoldBottlesOfWater(text: string)
    requires text == "Sold 3 bottles of water"
    ensures Parse(text) == Parsed(Command(Sell, 3, "bottles of water"))
  {
    assert text == ['S'] + Verb(Sell)[1..] + " " + "3" + " " + "bottles of water";
    ParseOfCapitalisedForm(text, Sell, 'S', "3", 3, "bottles of water");
  }

  lemma ExampleDeleteChocolateBar(text: string)
    requires text == "Delete 1 chocolate bar"
    ensures Parse(text) == Parsed(Command(Delete, 1, "chocolate bar"))
  {
    assert text == ['D'] + Verb(Delete)[1..] + " " + "1" + " " + "chocolate bar";
    ParseOfCapitalisedForm(text, Delete, 'D', "1", 1, "chocolate bar");
  }

  /** Each entry of `get_command_examples()` parses. */
  lemma ExampleParses(ex: seq<string>, i: int)
    requires ex == CommandExamples() && 0 <= i < |ex|
    ensures Parse(ex[i]).Parsed?
  {
    if i == 0 {
      ExampleAddPacketsOfMilk(ex[0]);
    } else if i == 1 {
      ExampleSoldSoaps(ex[1]);
    } else if i == 2 {
      ExampleDeleteBottlesOfOil(ex[2]);
    } else if i == 3 {
      ExampleAddApples(ex[3]);
    } else if i == 4 {
      ExampleSoldBottlesOfWater(ex[4]);
    } else {
      ExampleDeleteChocolateBar(ex[5]);
    }
  }

  /** Every entry of `get_command_examples()` is a well-formed command. */
  lemma CommandExamplesParse()
    ensures forall i :: 0 <= i < |CommandExamples()| ==> Parse(CommandExamples()[i]).Parsed?
  {
    forall i | 0 <= i < |CommandExamples()|
      ensures Parse(CommandExamples()[i]).Parsed?
    {
      ExampleParses(CommandExamples(), i);
    }
  }
}
