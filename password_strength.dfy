/** The password strength meter: six criteria counted into a score of 0 to
    6, the score classified into a level, and the server's strength names
    mapped onto the same levels. Character classes are ASCII. */
module PasswordStrength {

  import opened Wrappers
  import Decimal

  datatype Level = Empty | Weak | Medium | Strong | VeryStrong

  /** The position of a level on the meter. */
  function Rank(l: Level): nat {
    match l
    case Empty => 0
    case Weak => 1
    case Medium => 2
    case Strong => 3
    case VeryStrong => 4
  }

  /** The characters of the regular expression class of special characters. */
  const SpecialChars: string := "!@#$%^&*()_+-=[]{};':\"\\|,.<>/?"

  predicate IsUpper(c: char) { 'A' <= c <= 'Z' }
  predicate IsLower(c: char) { 'a' <= c <= 'z' }
  predicate IsSpecial(c: char) { c in SpecialChars }

  /** `/[...]/.test(s)` for a class given as a predicate. */
  predicate HasUpper(s: string) { exists i | 0 <= i < |s| :: IsUpper(s[i]) }
  predicate HasLower(s: string) { exists i | 0 <= i < |s| :: IsLower(s[i]) }
  predicate HasDigit(s: string) { exists i | 0 <= i < |s| :: Decimal.IsDigit(s[i]) }
  predicate HasSpecial(s: string) { exists i | 0 <= i < |s| :: IsSpecial(s[i]) }

  /** JavaScript's `length`: UTF-16 code units, two for a character above
      U+FFFF. */
  function Utf16Length(s: string): (n: nat)
    ensures |s| <= n <= 2 * |s|
  {
    if s == [] then 0 else Utf16Length(s[..|s| - 1]) + (if s[|s| - 1] as int > 0xFFFF then 2 else 1)
  }

  /** The six criteria, in the order the meter shows them. */
  datatype Criteria = Criteria(
    minLength: bool, upper: bool, lower: bool, digits: bool, special: bool, extendedLength: bool)

  function CriteriaOf(password: string): Criteria {
    Criteria(Utf16Length(password) >= 8, HasUpper(password), HasLower(password),
             HasDigit(password), HasSpecial(password), Utf16Length(password) >= 12)
  }

  /** 1 for a criterion met, 0 otherwise. */
  function BoolToNat(b: bool): nat { if b then 1 else 0 }

  /** The number of criteria met. */
  function Count(c: Criteria): (n: nat)
    ensures n <= 6
    ensures n == 6 <==> c.minLength && c.upper && c.lower && c.digits && c.special && c.extendedLength
    ensures n == 0 <==> !c.minLength && !c.upper && !c.lower && !c.digits && !c.special && !c.extendedLength
  {
    BoolToNat(c.minLength) + BoolToNat(c.upper) + BoolToNat(c.lower) + BoolToNat(c.digits) + BoolToNat(c.special) + BoolToNat(c.extendedLength)
  }

  /** The level of a local score: 2 or less weak, 3 to 4 medium, 5 strong,
      above that very strong. */
  function LevelOf(score: int): (l: Level)
    ensures l != Empty
    ensures l == Weak <==> score <= 2
    ensures l == Medium <==> 3 <= score <= 4
    ensures l == Strong <==> score == 5
    ensures l == VeryStrong <==> score >= 6
  {
    if score <= 2 then Weak
    else if score <= 4 then Medium
    else if score <= 5 then Strong
    else VeryStrong
  }

  /** The level of a strength name sent by the server. */
  function ExternalLevel(strength: string): (l: Level)
    ensures l == VeryStrong <==> strength == "very-strong" || strength == "very strong"
    ensures l == Weak <==> strength == "weak"
    ensures l == Medium <==> strength == "medium"
    ensures l == Strong <==> strength == "strong"
  {
    match strength
    case "weak" => Weak
    case "medium" => Medium
    case "strong" => Strong
    case "very-strong" => VeryStrong
    case "very strong" => VeryStrong
    case _ => Empty
  }

  function Feedback(l: Level): string {
    match l
    case Empty => "Digite uma senha para avaliar"
    case Weak => "Senha fraca. Adicione mais complexidade."
    case Medium => "Senha média. Continue melhorando."
    case Strong => "Senha forte. Boa escolha!"
    case VeryStrong => "Senha muito forte. Excelente!"
  }

  /** The width of the meter's bar, in percent. */
  function Percentage(l: Level): (p: nat)
    ensures p == 25 * Rank(l)
  {
    match l
    case Empty => 0
    case Weak => 25
    case Medium => 50
    case Strong => 75
    case VeryStrong => 100
  }

  /** What the meter shows: level, score and feedback. */
  datatype Evaluation = Evaluation(level: Level, score: int, feedback: string)

  /** The meter's effect: the server's values when both are given, else the
      local score of the password. */
  method Evaluate(password: string, externalScore: Option<int>, externalStrength: Option<string>)
    returns (e: Evaluation)
    ensures externalScore.Some? && externalStrength.Some? && externalStrength.value != ""
            ==> e.score == externalScore.value && e.level == ExternalLevel(externalStrength.value)
    ensures !(externalScore.Some? && externalStrength.Some? && externalStrength.value != "") && password == ""
            ==> e.level == Empty && e.score == 0
    ensures !(externalScore.Some? && externalStrength.Some? && externalStrength.value != "") && password != ""
            ==> e.score == Count(CriteriaOf(password)) && e.level == LevelOf(e.score) && 0 <= e.score <= 6
    ensures e.feedback == Feedback(e.level)
  {
    if externalScore.Some? && externalStrength.Some? && externalStrength.value != "" {
      var strengthValue := ExternalLevel(externalStrength.value);
      return Evaluation(strengthValue, externalScore.value, Feedback(strengthValue));
    }
    if password == "" {
      return Evaluation(Empty, 0, Feedback(Empty));
    }
    var hasLength := Utf16Length(password) >= 8;
    var hasUppercase := HasUpper(password);
    var hasLowercase := HasLower(password);
    var hasNumbers := HasDigit(password);
    var hasSpecialChars := HasSpecial(password);

    var currentScore := 0;
    if hasLength { currentScore := currentScore + 1; }
    if hasUppercase { currentScore := currentScore + 1; }
    if hasLowercase { currentScore := currentScore + 1; }
    if hasNumbers { currentScore := currentScore + 1; }
    if hasSpecialChars { currentScore := currentScore + 1; }
    if Utf16Length(password) >= 12 { currentScore := currentScore + 1; }

    var currentStrength := Weak;
    if currentScore <= 2 {
      currentStrength := Weak;
    } else if currentScore <= 4 {
      currentStrength := Medium;
    } else if currentScore <= 5 {
      currentStrength := Strong;
    } else {
      currentStrength := VeryStrong;
    }
    assert currentScore == Count(CriteriaOf(password));
    e := Evaluation(currentStrength, currentScore, Feedback(currentStrength));
  }

  /** The checklist under the bar: each item false for an empty password,
      else its criterion. */
  function Checklist(password: string): Criteria {
    if password == "" then Criteria(false, false, false, false, false, false)
    else CriteriaOf(password)
  }

  // ---------------------------------------------------------------- proofs

  /** The checklist agrees with the criteria the score counts. */
  lemma ChecklistMatchesScore(password: string)
    ensures Checklist(password) == CriteriaOf(password)
  {
  }

  lemma {:induction false} Utf16LengthAppend(s: string, c: char)
    ensures Utf16Length(s + [c]) >= Utf16Length(s) + 1
  {
    assert (s + [c])[..|s + [c]| - 1] == s;
  }

  /** Appending a character never lowers the local score: no criterion goes
      from met to unmet. */
  lemma AppendNeverLowersScore(password: string, c: char)
    ensures Count(CriteriaOf(password + [c])) >= Count(CriteriaOf(password))
  {
    var before, after := CriteriaOf(password), CriteriaOf(password + [c]);
    Utf16LengthAppend(password, c);
    ClassesSurviveAppend(password, c);
    assert BoolToNat(before.minLength) <= BoolToNat(after.minLength) && BoolToNat(before.extendedLength) <= BoolToNat(after.extendedLength);
    assert BoolToNat(before.upper) <= BoolToNat(after.upper) && BoolToNat(before.lower) <= BoolToNat(after.lower);
    assert BoolToNat(before.digits) <= BoolToNat(after.digits) && BoolToNat(before.special) <= BoolToNat(after.special);
  }

  lemma ClassesSurviveAppend(password: string, c: char)
    ensures HasUpper(password) ==> HasUpper(password + [c])
    ensures HasLower(password) ==> HasLower(password + [c])
    ensures HasDigit(password) ==> HasDigit(password + [c])
    ensures HasSpecial(password) ==> HasSpecial(password + [c])
  {
    var p := password + [c];
    forall i | 0 <= i < |password| ensures p[i] == password[i] { }
  }

  /** A higher score never gives a lower level. */
  lemma LevelMonotone(s1: int, s2: int)
    requires s1 <= s2
    ensures Rank(LevelOf(s1)) <= Rank(LevelOf(s2))
  {
  }

  /** So typing one more character never moves a non-empty password down the
      meter, and the bar never shrinks. */
  lemma AppendNeverLowersLevel(password: string, c: char)
    requires password != ""
    ensures Rank(LevelOf(Count(CriteriaOf(password)))) <= Rank(LevelOf(Count(CriteriaOf(password + [c]))))
    ensures Percentage(LevelOf(Count(CriteriaOf(password)))) <= Percentage(LevelOf(Count(CriteriaOf(password + [c]))))
  {
    AppendNeverLowersScore(password, c);
    LevelMonotone(Count(CriteriaOf(password)), Count(CriteriaOf(password + [c])));
  }

  /** A locally very strong password has at least 12 code units and one
      character of each class. */
  lemma VeryStrongNeedsEverything(password: string)
    requires LevelOf(Count(CriteriaOf(password))) == VeryStrong
    ensures Utf16Length(password) >= 12
    ensures HasUpper(password) && HasLower(password) && HasDigit(password) && HasSpecial(password)
  {
  }

  /** "Aa1!" scores 4 of 6 (medium); twelve characters of every class score 6. */
  lemma ScoreExamples()
    ensures Count(CriteriaOf("Aa1!")) == 4
    ensures LevelOf(Count(CriteriaOf("Aa1!aaaaaaaa"))) == VeryStrong
  {
    ShortExample();
    LongExample();
  }

  lemma ShortExample()
    ensures Count(CriteriaOf("Aa1!")) == 4
  {
    assert IsUpper("Aa1!"[0]) && IsLower("Aa1!"[1]) && Decimal.IsDigit("Aa1!"[2]) && IsSpecial("Aa1!"[3]);
    assert Utf16Length("Aa1!") == 4 by {
      assert "Aa1!"[..3] == "Aa1";
      assert "Aa1"[..2] == "Aa";
      assert "Aa"[..1] == "A";
      assert "A"[..0] == "";
    }
  }

  lemma LongExample()
    ensures LevelOf(Count(CriteriaOf("Aa1!aaaaaaaa"))) == VeryStrong
  {
    var long := "Aa1!aaaaaaaa";
    assert IsUpper(long[0]) && IsLower(long[1]) && Decimal.IsDigit(long[2]) && IsSpecial(long[3]);
    assert Utf16Length(long) >= |long|;
  }
}
