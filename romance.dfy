/** Romance: a weighted base grade from the reader and the book, and a
    one-time question about the user's mood, after which the romance that
    suits the mood gets a bonus. */
module RomanceGenre {
  import opened Text
  import opened Criteria
  import opened Books

  const KeywordFileName: string := "Romance_Keywords.txt"

  const Moods: seq<string> := ["happy", "sad", "adventurous", "need a laugh"]
  /** The mood assumed before the question is asked. */
  const DefaultMood: string := "need a laugh"
  /** The bonus for the romance that suits the user's mood. */
  const MoodBonus: real := 40.0
  /** The weight of each of the four relevance terms. */
  const Weight: real := 0.1

  /** Compared exactly, without normalisation. */
  predicate ValidateMood(mood: string)
  {
    mood in Moods
  }

  /** The romance recommended for a mood; the empty title for any other text. */
  function MoodTitle(mood: string): string
  {
    if mood == "happy" then "Me Before You"
    else if mood == "sad" then "The Fault in Our Stars"
    else if mood == "adventurous" then "Outlander"
    else if mood == "need a laugh" then "Can You Keep a Secret?"
    else ""
  }

  predicate MatchesMoodToBook(title: string, mood: string)
  {
    title == MoodTitle(mood)
  }

  /** 100 from 10 to 20, 80 from 21 to 30, 60 otherwise. */
  function AgeRelevance(age: int): int
  {
    if 10 <= age <= 20 then 100 else if 20 < age <= 30 then 80 else 60
  }

  /** Compared case-sensitively: 100 for "woman", 80 for "man", 60 otherwise. */
  function GenderRelevance(gender: string): int
  {
    if gender == "woman" then 100 else if gender == "man" then 80 else 60
  }

  /** A tenth of each of the four relevance terms. */
  function BaseGrade(emotionalDepth: int, realism: int, c: BookCriteria): real
    reads c
  {
    Weight * AgeRelevance(c.age) as real + Weight * emotionalDepth as real
      + Weight * realism as real + Weight * GenderRelevance(c.gender) as real
  }

  /** The refinement state shared by every romance of a run: whether the
      question was asked, whether the user wants a romance, and their mood. */
  datatype RomanceState = RomanceState(prompted: bool, wantsRomance: bool, mood: string)
  {
    /** Asking is wanting, and the mood is always one of the four. */
    predicate Valid()
    {
      wantsRomance == prompted && ValidateMood(mood)
    }
  }

  const InitialState: RomanceState := RomanceState(false, false, DefaultMood)

  /** Grading this book asks the question: it is affordable, the user's words
      match the romance keywords and the question has not been asked yet. */
  predicate Asks(price: real, c: BookCriteria, env: Env, s: RomanceState)
    reads c
  {
    price <= c.maxPrice && KeywordCount(env, KeywordFileName, LowerAll(c.info)) > 0 && !s.prompted
  }

  /** The grade of an affordable romance with grade `grade` before the mood
      is considered, once the state is known. */
  function Verdict(grade: real, title: string, s: RomanceState): real
  {
    if s.wantsRomance && MatchesMoodToBook(title, s.mood) then Clamp(grade + MoodBonus) else grade
  }

  datatype Outcome = Outcome(grade: real, state: RomanceState)

  /** Grading one romance: its grade and the state it leaves; `mood` is the
      user's answer should the question be asked. */
  function RomanceStep(title: string, price: real, emotionalDepth: int, realism: int,
                       c: BookCriteria, env: Env, s: RomanceState, mood: string): Outcome
    reads c
  {
    if price > c.maxPrice then
      Outcome(0.0, s)
    else
      var grade := Clamp(BaselineGrade + BaseGrade(emotionalDepth, realism, c));
      var s' := if Asks(price, c, env, s) then RomanceState(true, true, mood) else s;
      Outcome(Verdict(grade, title, s'), s')
  }

  /** The refinement state as the program keeps it, shared by all the
      romances of a run; `prompts` counts the questions asked. */
  class RomanceSession {
    var prompted: bool
    var userWantsRomance: bool
    var userMood: string
    ghost var prompts: nat

    function State(): RomanceState
      reads this
    {
      RomanceState(prompted, userWantsRomance, userMood)
    }

    /** The question is asked at most once: exactly once if `prompted`. */
    ghost predicate Valid()
      reads this
    {
      State().Valid() && prompts == if prompted then 1 else 0
    }

    constructor ()
      ensures State() == InitialState && Valid() && prompts == 0
    {
      prompted := false;
      userWantsRomance := false;
      userMood := DefaultMood;
      prompts := 0;
    }

    /** Asks for the mood and records the accepted answer. */
    method Ask(mood: string)
      requires Valid() && !prompted && ValidateMood(mood)
      modifies this
      ensures Valid() && prompts == 1
      ensures State() == RomanceState(true, true, mood)
    {
      prompted := true;
      userWantsRomance := true;
      userMood := mood;
      prompts := prompts + 1;
    }
  }

  /** A romance: a book with an emotional depth and a realism, each kept in
      [0, 100]. */
  class Romance {
    const book: Book
    var emotionalDepth: int
    var realism: int

    ghost predicate Valid()
      reads this, book
    {
      book.Valid() && 0 <= emotionalDepth <= 100 && 0 <= realism <= 100
    }

    constructor (title: string, author: string, price: real, year: int, isbn: string,
                 emotionalDepth: int, realism: int)
      requires IsbnFormat(isbn)
      ensures fresh(book) && book.Initialised(title, author, price, year, isbn)
      ensures this.emotionalDepth == ClampScore(emotionalDepth)
      ensures this.realism == ClampScore(realism)
      ensures Valid()
    {
      book := new Book(title, author, price, year, isbn);
      this.emotionalDepth := ClampScore(emotionalDepth);
      this.realism := ClampScore(realism);
    }

    function Genre(): (g: string)
      ensures g == "Romance"
    {
      "Romance"
    }

    method SetEmotionalDepth(newValue: int)
      modifies this`emotionalDepth
      ensures emotionalDepth == ClampScore(newValue)
    {
      emotionalDepth := if newValue < 0 then 0 else if newValue > 100 then 100 else newValue;
    }

    method SetRealism(newValue: int)
      modifies this`realism
      ensures realism == ClampScore(newValue)
    {
      realism := if newValue < 0 then 0 else if newValue > 100 then 100 else newValue;
    }

    /** Grades the book: the price gate, the base grade, the question on the
        first keyword match of the run, then the mood bonus. */
    method CalculateGrade(c: BookCriteria, env: Env, session: RomanceSession, mood: string)
      requires session.Valid() && ValidateMood(mood)
      modifies book`grade, session
      ensures session.Valid() && (old(Valid()) ==> Valid())
      ensures var o := old(RomanceStep(book.title, book.price, emotionalDepth, realism, c, env, session.State(), mood));
              book.grade == o.grade && session.State() == o.state
    {
      var eligible := book.Gate(c);
      if !eligible {
        return;
      }
      var userKeywords := LowerAll(c.info);
      var initialGrade := BaseGrade(emotionalDepth, realism, c);
      book.SetGrade(book.grade + initialGrade);
      var _, keywordCount := MatchKeywords(KeywordFileName, userKeywords, env);
      if keywordCount > 0 && !session.prompted {
        session.Ask(mood);
      }
      if session.userWantsRomance {
        if MatchesMoodToBook(book.title, session.userMood) {
          book.SetGrade(book.grade + MoodBonus);
        }
      }
    }
  }

  // ---------------------------------------------------------------------------
  // Properties

  /** The question accepts exactly the four moods, and each mood has its own
      romance. */
  lemma {:induction false} MoodsAreExact(mood: string, other: string, title: string)
    ensures ValidateMood(mood) <==> (mood == "happy" || mood == "sad"
                                     || mood == "adventurous" || mood == "need a laugh")
    ensures ValidateMood(mood) <==> MoodTitle(mood) != ""
    ensures (ValidateMood(mood) && ValidateMood(other) && mood != other)
              ==> !(MatchesMoodToBook(title, mood) && MatchesMoodToBook(title, other))
  {
    assert |MoodTitle("happy")| == 13 && |MoodTitle("sad")| == 22;
    assert |MoodTitle("adventurous")| == 9 && |MoodTitle("need a laugh")| == 22;
    assert MoodTitle("sad")[0] != MoodTitle("need a laugh")[0];
  }

  /** The relevance tables, band by band. */
  lemma RelevanceTables(age: int, gender: string)
    ensures AgeRelevance(age) == 100 <==> 10 <= age <= 20
    ensures AgeRelevance(age) == 80 <==> 20 < age <= 30
    ensures AgeRelevance(age) == 60 <==> (age < 10 || age > 30)
    ensures GenderRelevance(gender) == 100 <==> gender == "woman"
    ensures GenderRelevance(gender) == 80 <==> gender == "man"
    ensures GenderRelevance(gender) == 60 <==> gender != "woman" && gender != "man"
  {
  }

  /** The base grade is a tenth of the sum of the four terms, and lies in
      [12, 40] for attributes in range. */
  lemma BaseGradeRange(emotionalDepth: int, realism: int, c: BookCriteria)
    ensures BaseGrade(emotionalDepth, realism, c)
              == (AgeRelevance(c.age) + emotionalDepth + realism + GenderRelevance(c.gender)) as real / 10.0
    ensures (0 <= emotionalDepth <= 100 && 0 <= realism <= 100)
              ==> 12.0 <= BaseGrade(emotionalDepth, realism, c) <= 40.0
  {
  }

  /** A romance over budget gets 0 and asks nothing. */
  lemma OverBudgetRomance(title: string, price: real, emotionalDepth: int, realism: int,
                          c: BookCriteria, env: Env, s: RomanceState, mood: string)
    requires price > c.maxPrice
    ensures RomanceStep(title, price, emotionalDepth, realism, c, env, s, mood) == Outcome(0.0, s)
  {
  }

  /** The question is asked only when the user's words match the keywords
      and it has not been asked before; once asked, the state never changes
      again; a valid state stays valid. */
  lemma QuestionAskedOnce(title: string, price: real, emotionalDepth: int, realism: int,
                          c: BookCriteria, env: Env, s: RomanceState, mood: string)
    ensures var s' := RomanceStep(title, price, emotionalDepth, realism, c, env, s, mood).state;
            (s' != s ==> Asks(price, c, env, s)) && (Asks(price, c, env, s) ==> s'.prompted)
    ensures s.prompted ==> RomanceStep(title, price, emotionalDepth, realism, c, env, s, mood).state == s
    ensures (s.Valid() && ValidateMood(mood))
              ==> RomanceStep(title, price, emotionalDepth, realism, c, env, s, mood).state.Valid()
  {
  }

  /** An affordable romance with attributes in range is graded between 22 and
      90, so the cap never applies: it gets the baseline plus its base grade,
      and 40 more exactly when the user wants a romance and it suits the
      stored mood. */
  lemma {:induction false} EligibleRomanceGrade(title: string, price: real, emotionalDepth: int, realism: int,
                                                c: BookCriteria, env: Env, s: RomanceState, mood: string)
    requires price <= c.maxPrice
    requires 0 <= emotionalDepth <= 100 && 0 <= realism <= 100
    ensures var o := RomanceStep(title, price, emotionalDepth, realism, c, env, s, mood);
            var base := BaselineGrade + BaseGrade(emotionalDepth, realism, c);
            && 22.0 <= o.grade <= 90.0
            && (o.state.wantsRomance && MatchesMoodToBook(title, o.state.mood) ==> o.grade == base + MoodBonus)
            && (!(o.state.wantsRomance && MatchesMoodToBook(title, o.state.mood)) ==> o.grade == base)
  {
    BaseGradeRange(emotionalDepth, realism, c);
  }
}
