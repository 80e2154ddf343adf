/** The keyword classifier `Crawler#categorize`: a publisher override for the
    food publisher, then a whole-word keyword test on the lower-cased title. */
module Classifier {
  import opened Text

  const FoodPublisher: string := "Eat Drink KL"
  const Food: string := "Food"
  const World: string := "World"
  const News: string := "News"

  /** Every label the classifier can produce. */
  const Categories: set<string> := {Food, World, News}

  /** The alternatives of `/\b(world|international|global|overseas|abroad)\b/`. */
  const Keywords: set<string> := {"world", "international", "global", "overseas", "abroad"}

  /** Keyword `k` occurs in `s` at offset `i` with a word boundary on both
      sides: the character before and the character after are not word
      characters, or are the ends of the string. */
  predicate WholeWordAt(s: string, i: int, k: string) {
    && 0 <= i
    && i + |k| <= |s|
    && s[i..i + |k|] == k
    && (i == 0 || !IsWordChar(s[i - 1]))
    && (i + |k| == |s| || !IsWordChar(s[i + |k|]))
  }

  /** Keyword `k` occurs somewhere in `s` as a whole word. */
  ghost predicate ContainsWord(s: string, k: string) {
    exists i :: WholeWordAt(s, i, k)
  }

  /** The regular expression matches somewhere in `s`. */
  ghost predicate MatchesKeywordPattern(s: string) {
    exists k | k in Keywords :: ContainsWord(s, k)
  }

  /** Some alternative of the regular expression matches at offset `i`. */
  predicate KeywordAt(s: string, i: int) {
    exists k | k in Keywords :: WholeWordAt(s, i, k)
  }

  /** The regular-expression engine's left-to-right scan from offset `i`. */
  function ScanFrom(s: string, i: nat): (found: bool)
    requires i <= |s|
    ensures found <==> exists j, k | i <= j && k in Keywords :: WholeWordAt(s, j, k)
    decreases |s| - i
  {
    if i == |s| then
      false
    else
      KeywordAt(s, i) || ScanFrom(s, i + 1)
  }

  /** `Crawler#categorize(title, publisher)`. */
  function Categorize(title: string, publisher: string): (category: string)
    ensures category in Categories
    ensures publisher == FoodPublisher ==> category == Food
    ensures publisher != FoodPublisher ==> (category == World <==> MatchesKeywordPattern(Downcase(title)))
    ensures publisher != FoodPublisher ==> (category == News <==> !MatchesKeywordPattern(Downcase(title)))
  {
    var normalized := Downcase(title);
    if publisher == FoodPublisher then
      Food
    else if publisher == "SAYS" || publisher == "Harian Metro" then
      if ScanFrom(normalized, 0) then World else News
    else
      if ScanFrom(normalized, 0) then World else News
  }

  /** The publishers with their own branch ("SAYS", "Harian Metro") are
      classified exactly like any other publisher except the food one. */
  lemma NamedNewsBranchIsDefault(title: string, publisher: string)
    requires publisher != FoodPublisher
    ensures Categorize(title, "SAYS") == Categorize(title, publisher)
    ensures Categorize(title, "Harian Metro") == Categorize(title, publisher)
  {
  }

  /** The category does not depend on the case of the title. */
  lemma {:induction false} CategorizeIgnoresCase(a: string, b: string, publisher: string)
    requires SameIgnoringCase(a, b)
    ensures Categorize(a, publisher) == Categorize(b, publisher)
  {
    SameIgnoringCaseIffSameDowncase(a, b);
  }

  /** "international basketball tournament" is a World story, whatever
      other topic words the title holds. */
  lemma InternationalIsWorld(publisher: string)
    requires publisher != FoodPublisher
    ensures Categorize("International Basketball Tournament", publisher) == World
  {
    var t := "International Basketball Tournament";
    var s := Downcase(t);
    assert s[..13] == "international" by {
      forall i | 0 <= i < 13
        ensures s[i] == "international"[i]
      {
        assert s[i] == Lower(t[i]);
      }
    }
    assert WholeWordAt(s, 0, "international");
  }

  /** A keyword cannot match anywhere in a title that lacks one of its letters. */
  lemma MissingLetterNoMatch(s: string, k: string, c: char)
    requires c in k && c !in s
    ensures !ContainsWord(s, k)
  {
  }

  /** A title without any of the letters w, i, g, v and b cannot mention a
      keyword: each keyword holds one of them. */
  lemma NoKeywordLetters(s: string)
    requires 'w' !in s && 'i' !in s && 'g' !in s && 'v' !in s && 'b' !in s
    ensures !MatchesKeywordPattern(s)
  {
    MissingLetterNoMatch(s, "world", 'w');
    MissingLetterNoMatch(s, "international", 'i');
    MissingLetterNoMatch(s, "global", 'g');
    MissingLetterNoMatch(s, "overseas", 'v');
    MissingLetterNoMatch(s, "abroad", 'b');
  }

  /** "worlds" holds no keyword as a whole word: "world" is followed by a
      letter, and every other keyword has a letter "worlds" lacks. */
  lemma WorldsHasNoWholeKeyword()
    ensures !MatchesKeywordPattern("worlds")
  {
    var s := "worlds";
    assert !ContainsWord(s, "world") by {
      forall i | 0 <= i && i + 5 <= |s|
        ensures !WholeWordAt(s, i, "world")
      {
        if i != 0 {
          assert s[i] != 'w';
        }
      }
    }
    assert 'i' !in s;
    assert 'g' !in s;
    assert 'v' !in s;
    assert 'b' !in s;
    MissingLetterNoMatch(s, "international", 'i');
    MissingLetterNoMatch(s, "global", 'g');
    MissingLetterNoMatch(s, "overseas", 'v');
    MissingLetterNoMatch(s, "abroad", 'b');
  }

  /** A keyword inside a longer word is not a match: "Worlds" is News for
      every publisher but the food one. */
  lemma KeywordInsideWordIsNews(publisher: string)
    requires publisher != FoodPublisher
    ensures Categorize("Worlds", publisher) == News
  {
    assert Downcase("Worlds") == "worlds";
    WorldsHasNoWholeKeyword();
  }

  /** "Flood Alert" mentions no foreign place, so it is News for
      every publisher but the food one. */
  lemma FloodAlertIsNews(publisher: string)
    requires publisher != FoodPublisher
    ensures Categorize("Flood Alert", publisher) == News
  {
    var s := "flood alert";
    assert Downcase("Flood Alert") == s;
    assert 'w' !in s;
    assert 'i' !in s;
    assert 'g' !in s;
    assert 'v' !in s;
    assert 'b' !in s;
    NoKeywordLetters(s);
  }
}
