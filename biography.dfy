/** Biographies: three titles the user can ask for by name of their sport,
    a bonus for young readers, and the keyword bonus. */
module BiographyGenre {
  import opened Text
  import opened Criteria
  import opened Books

  const KeywordFileName: string := "Biography_Keywords.txt"

  const FootballWords: seq<string> := ["football", "soccer"]
  const MentalityWords: seq<string> := ["sports", "mentality", "relentless"]
  const TennisWords: seq<string> := ["tennis"]

  const FootballTitle: string := "Rafa: My Story"
  const MentalityTitle: string := "Relentless: From Good to Great to Unstoppable"
  const TennisTitle: string := "Open: An Autobiography"

  /** The grade a title rule awards. */
  const TitleRuleGrade: real := 100.0
  /** The bonus for readers aged 10 to 30. */
  const YouthBonus: real := 25.0

  /** One of the three title rules fires: the user named a word of the rule
      (exactly, after lower-casing) and the book is the rule's title. */
  predicate TitleRuleFires(title: string, tokens: seq<string>)
  {
    || (MentionsAny(FootballWords, tokens) && title == FootballTitle)
    || (MentionsAny(MentalityWords, tokens) && title == MentalityTitle)
    || (MentionsAny(TennisWords, tokens) && title == TennisTitle)
  }

  function AgeBonus(age: int): (r: real)
    ensures r == YouthBonus <==> 10 <= age <= 30
    ensures r == 0.0 <==> !(10 <= age <= 30)
  {
    if 10 <= age <= 30 then YouthBonus else 0.0
  }

  /** The grade a biography with this title and price receives. */
  function BiographyGrade(title: string, price: real, c: BookCriteria, env: Env): real
    reads c
  {
    if price > c.maxPrice then 0.0
    else
      var tokens := LowerAll(c.info);
      if TitleRuleFires(title, tokens) then TitleRuleGrade
      else
        Clamp(BaselineGrade + AgeBonus(c.age)
              + (PointsPerMatch * KeywordCount(env, KeywordFileName, tokens)) as real)
  }

  /** A biography is a book graded by the biography rules. */
  class Biography {
    const book: Book

    constructor (title: string, author: string, price: real, year: int, isbn: string)
      requires IsbnFormat(isbn)
      ensures fresh(book) && book.Initialised(title, author, price, year, isbn)
    {
      book := new Book(title, author, price, year, isbn);
    }

    function Genre(): (g: string)
      ensures g == "Biography"
    {
      "Biography"
    }

    /** Grades the book: the price gate, then a title rule or the age and
        keyword bonuses. */
    method CalculateGrade(c: BookCriteria, env: Env)
      modifies book`grade
      ensures old(book.Valid()) ==> book.Valid()
      ensures book.grade == BiographyGrade(book.title, book.price, c, env)
    {
      var eligible := book.Gate(c);
      if !eligible {
        return;
      }
      var increment: real := 0.0;
      var userKeywords := LowerAll(c.info);
      if MentionsAny(FootballWords, userKeywords) && book.title == FootballTitle {
        book.SetGrade(TitleRuleGrade);
        return;
      } else if MentionsAny(MentalityWords, userKeywords) && book.title == MentalityTitle {
        book.SetGrade(TitleRuleGrade);
        return;
      } else if "tennis" in userKeywords && book.title == TennisTitle {
        assert TennisWords[0] == "tennis";
        book.SetGrade(TitleRuleGrade);
        return;
      }
      assert !MentionsAny(TennisWords, userKeywords) || book.title != TennisTitle;
      if 10 <= c.age <= 30 {
        increment := increment + YouthBonus;
      }
      var keywordIncrement, _ := MatchKeywords(KeywordFileName, userKeywords, env);
      increment := increment + keywordIncrement as real;
      book.SetGrade(book.grade + increment);
    }
  }

  /** A book over budget gets 0, whatever else holds. */
  lemma OverBudgetBiography(title: string, price: real, c: BookCriteria, env: Env)
    requires price > c.maxPrice
    ensures BiographyGrade(title, price, c, env) == 0.0
  {
  }

  /** An affordable book whose title rule fires gets the full grade; the rule
      words are matched exactly, so "sport" does not fire the rule that
      "sports" fires. */
  lemma TitleRulesAwardFullGrade(title: string, price: real, c: BookCriteria, env: Env)
    requires price <= c.maxPrice
    ensures TitleRuleFires(title, LowerAll(c.info)) ==> BiographyGrade(title, price, c, env) == 100.0
    ensures ("football" in LowerAll(c.info) && title == FootballTitle)
              ==> BiographyGrade(title, price, c, env) == 100.0
    ensures ("relentless" in LowerAll(c.info) && title == MentalityTitle)
              ==> BiographyGrade(title, price, c, env) == 100.0
    ensures !TitleRuleFires(MentalityTitle, ["sport"])
  {
    assert FootballWords[0] == "football";
    assert MentalityWords[2] == "relentless";
    assert "sport" != "sports" by { assert |"sport"| != |"sports"|; }
  }

  /** Without a title rule the grade is the baseline plus the bonuses, capped
      at 100; it never falls below the baseline. */
  lemma BiographyFormula(title: string, price: real, c: BookCriteria, env: Env)
    requires price <= c.maxPrice
    requires !TitleRuleFires(title, LowerAll(c.info))
    ensures var total := 10.0 + (if 10 <= c.age <= 30 then 25.0 else 0.0)
                         + (15 * KeywordCount(env, KeywordFileName, LowerAll(c.info))) as real;
            BiographyGrade(title, price, c, env) == if total > 100.0 then 100.0 else total
    ensures BiographyGrade(title, price, c, env) >= BaselineGrade
  {
  }

  /** An affordable biography is graded at least at the baseline. */
  lemma EligibleBiographyAtLeastBaseline(title: string, price: real, c: BookCriteria, env: Env)
    ensures price <= c.maxPrice <==> BiographyGrade(title, price, c, env) >= BaselineGrade
    ensures 0.0 <= BiographyGrade(title, price, c, env) <= 100.0
  {
  }
}
