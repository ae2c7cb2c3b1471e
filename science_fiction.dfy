/** Science fiction: two classics the user can ask for by theme, otherwise a
    weighted mix of the reader's age and gender relevance and the book's
    scientific accuracy and action level, plus the keyword bonus. */
module ScienceFictionGenre {
  import opened Text
  import opened Criteria
  import opened Books

  const KeywordFileName: string := "Science_Fiction_Keywords.txt"

  const ThemeWords: seq<string> := ["space", "ai", "robotics", "future"]
  const ThemeTitles: seq<string> := ["Neuromancer", "Dune"]

  /** The weight of each of the four relevance terms. */
  const Weight: real := 0.1

  /** 80 up to 18, 100 from 19 to 34, 60 from 35 on. */
  function AgeRelevance(age: int): int
  {
    if age <= 18 then 80 else if 18 < age < 35 then 100 else 60
  }

  /** Compared case-sensitively: 100 for "man", 80 for "woman", 70 otherwise. */
  function GenderRelevance(gender: string): int
  {
    if gender == "man" then 100 else if gender == "woman" then 80 else 70
  }

  /** The theme rule fires: the user named a theme word (exactly, after
      lower-casing) and the book is one of the two classics. */
  predicate ThemeRuleFires(title: string, tokens: seq<string>)
  {
    MentionsAny(ThemeWords, tokens) && title in ThemeTitles
  }

  /** The weighted sum of the four relevance terms. */
  function Relevance(accuracy: int, action: int, c: BookCriteria): real
    reads c
  {
    Weight * AgeRelevance(c.age) as real + Weight * GenderRelevance(c.gender) as real
      + Weight * accuracy as real + Weight * action as real
  }

  /** The grade a science-fiction book with these attributes receives. */
  function ScienceFictionGrade(title: string, price: real, accuracy: int, action: int,
                               c: BookCriteria, env: Env): real
    reads c
  {
    if price > c.maxPrice then 0.0
    else
      var tokens := LowerAll(c.info);
      if ThemeRuleFires(title, tokens) then 100.0
      else
        Clamp(BaselineGrade + Relevance(accuracy, action, c)
              + (PointsPerMatch * KeywordCount(env, KeywordFileName, tokens)) as real)
  }

  /** A science-fiction book: a book with a scientific accuracy and an action
      level, each kept in [0, 100]. */
  class ScienceFiction {
    const book: Book
    var scientificAccuracy: int
    var actionLevel: int

    ghost predicate Valid()
      reads this, book
    {
      book.Valid() && 0 <= scientificAccuracy <= 100 && 0 <= actionLevel <= 100
    }

    constructor (title: string, author: string, price: real, year: int, isbn: string,
                 scientificAccuracy: int, actionLevel: int)
      requires IsbnFormat(isbn)
      ensures fresh(book) && book.Initialised(title, author, price, year, isbn)
      ensures this.scientificAccuracy == ClampScore(scientificAccuracy)
      ensures this.actionLevel == ClampScore(actionLevel)
      ensures Valid()
    {
      book := new Book(title, author, price, year, isbn);
      this.scientificAccuracy := ClampScore(scientificAccuracy);
      this.actionLevel := ClampScore(actionLevel);
    }

    function Genre(): (g: string)
      ensures g == "Science Fiction"
    {
      "Science Fiction"
    }

    method SetScientificAccuracy(newValue: int)
      modifies this`scientificAccuracy
      ensures scientificAccuracy == ClampScore(newValue)
    {
      if newValue < 0 {
        scientificAccuracy := 0;
      } else if newValue > 100 {
        scientificAccuracy := 100;
      } else {
        scientificAccuracy := newValue;
      }
    }

    method SetActionLevel(newValue: int)
      modifies this`actionLevel
      ensures actionLevel == ClampScore(newValue)
    {
      actionLevel := if newValue < 0 then 0 else if newValue > 100 then 100 else newValue;
    }

    /** Grades the book: the price gate, then the theme rule or the weighted
        relevance and the keyword bonus. */
    method CalculateGrade(c: BookCriteria, env: Env)
      modifies book`grade
      ensures old(Valid()) ==> Valid()
      ensures book.grade == ScienceFictionGrade(book.title, book.price, scientificAccuracy, actionLevel, c, env)
    {
      var eligible := book.Gate(c);
      if !eligible {
        return;
      }
      var userKeywords := LowerAll(c.info);
      if MentionsAny(ThemeWords, userKeywords) && book.title in ThemeTitles {
        book.SetGrade(100.0);
        return;
      }
      var ageRelevance := AgeRelevance(c.age);
      var genderRelevance := GenderRelevance(c.gender);
      var keywordIncrement, _ := MatchKeywords(KeywordFileName, userKeywords, env);
      book.SetGrade(book.grade + (Weight * ageRelevance as real + Weight * genderRelevance as real
                                  + Weight * scientificAccuracy as real + Weight * actionLevel as real
                                  + keywordIncrement as real));
    }
  }

  // ---------------------------------------------------------------------------
  // Properties

  /** The setters keep an attribute in [0, 100] and store any value already
      in range unchanged. */
  lemma AttributeClamp(v: int)
    ensures 0 <= ClampScore(v) <= 100
    ensures ClampScore(v) == v <==> 0 <= v <= 100
    ensures ClampScore(ClampScore(v)) == ClampScore(v)
  {
  }

  /** The relevance tables, band by band; gender is compared exactly, so
      "Man" counts as neither "man" nor "woman". */
  lemma RelevanceTables(age: int, gender: string)
    ensures AgeRelevance(age) == 80 <==> age <= 18
    ensures AgeRelevance(age) == 100 <==> 18 < age < 35
    ensures AgeRelevance(age) == 60 <==> age >= 35
    ensures GenderRelevance(gender) == 100 <==> gender == "man"
    ensures GenderRelevance(gender) == 80 <==> gender == "woman"
    ensures GenderRelevance(gender) == 70 <==> gender != "man" && gender != "woman"
    ensures GenderRelevance("Man") == 70
  {
    assert "Man" != "man" by { assert "Man"[0] != "man"[0]; }
    assert "Man" != "woman" by { assert |"Man"| != |"woman"|; }
  }

  /** A book over budget gets 0; an affordable classic whose theme the user
      named gets 100. */
  lemma ScienceFictionShortcuts(title: string, price: real, accuracy: int, action: int,
                                c: BookCriteria, env: Env)
    ensures price > c.maxPrice ==> ScienceFictionGrade(title, price, accuracy, action, c, env) == 0.0
    ensures (price <= c.maxPrice && ThemeRuleFires(title, LowerAll(c.info)))
              ==> ScienceFictionGrade(title, price, accuracy, action, c, env) == 100.0
    ensures (price <= c.maxPrice && "space" in LowerAll(c.info) && title == "Dune")
              ==> ScienceFictionGrade(title, price, accuracy, action, c, env) == 100.0
  {
    assert ThemeWords[0] == "space" && ThemeTitles[1] == "Dune";
  }

  /** Otherwise the grade is the baseline, a tenth of the four relevance
      terms and 15 points per keyword match, capped at 100. */
  lemma ScienceFictionFormula(title: string, price: real, accuracy: int, action: int,
                              c: BookCriteria, env: Env)
    requires price <= c.maxPrice && !ThemeRuleFires(title, LowerAll(c.info))
    ensures var total := 10.0
                         + (AgeRelevance(c.age) + GenderRelevance(c.gender) + accuracy + action) as real / 10.0
                         + (15 * KeywordCount(env, KeywordFileName, LowerAll(c.info))) as real;
            ScienceFictionGrade(title, price, accuracy, action, c, env) == Clamp(total)
  {
  }

  /** Without a keyword match or a theme rule, an affordable book with
      attributes in range is graded between 23 and 50, so the cap never
      applies. */
  lemma {:induction false} NoMatchGradeRange(title: string, price: real, accuracy: int, action: int,
                                             c: BookCriteria, env: Env)
    requires price <= c.maxPrice && !ThemeRuleFires(title, LowerAll(c.info))
    requires KeywordCount(env, KeywordFileName, LowerAll(c.info)) == 0
    requires 0 <= accuracy <= 100 && 0 <= action <= 100
    ensures 23.0 <= ScienceFictionGrade(title, price, accuracy, action, c, env) <= 50.0
  {
    var r := Relevance(accuracy, action, c);
    assert 60 <= AgeRelevance(c.age) <= 100;
    assert 70 <= GenderRelevance(c.gender) <= 100;
    assert 13.0 <= r <= 40.0;
  }
}
