/** Encyclopedias: a one-time question whether the user needs an encyclopedia
    and for which level of education, after which only the encyclopedia of
    that level is recommended. */
module EncyclopediaGenre {
  import opened Text
  import opened Criteria
  import opened Books

  const KeywordFileName: string := "Encyclopedia_Keywords.txt"

  const ValidAnswers: seq<string> := ["yes", "no"]
  const EducationLevels: seq<string> := ["middle school", "high school", "undergraduate", "graduate"]


  /** Readers younger than this get no encyclopedia. */
  const MinimumAge: int := 10

  predicate ValidateAnswer(answer: string)
  {
    answer in ValidAnswers
  }

  predicate ValidateLevel(level: string)
  {
    level in EducationLevels
  }

  /** The encyclopedia recommended for a level of education; the empty
      title for any other text. */
  function LevelTitle(level: string): string
  {
    if level == "middle school" then "The New Children's Encyclopedia"
    else if level == "high school" then "World Encyclopedia for High School Students"
    else if level == "undergraduate" then "Undergraduate Encyclopedia of Physics"
    else if level == "graduate" then "Graduate Encyclopedia of Cosmology and Astrophysics"
    else ""
  }

  predicate MatchesEducationLevel(title: string, level: string)
  {
    title == LevelTitle(level)
  }

  /** The refinement state shared by every encyclopedia of a run: whether the
      question was asked, whether the user wants an encyclopedia, and for
      which level. */
  datatype EncyclopediaState = EncyclopediaState(prompted: bool, needsEncyclopedia: bool, educationLevel: string)
  {
    /** A need is only ever recorded by the question, together with a valid level. */
    predicate Valid()
    {
      needsEncyclopedia ==> prompted && ValidateLevel(educationLevel)
    }
  }

  const InitialState: EncyclopediaState := EncyclopediaState(false, false, "")

  /** The two lines the user typed at the question, as typed: the answer and,
      after a "yes", the level of education. */
  datatype Reply = Reply(answer: string, level: string)

  /** The lines the question accepts once stripped and lower-cased: the user
      is asked again until they are valid. */
  predicate Accepted(r: Reply)
  {
    && ValidateAnswer(Normalize(r.answer))
    && (Normalize(r.answer) == "yes" ==> ValidateLevel(Normalize(r.level)))
  }

  /** The state after the question has been asked and answered. */
  function AfterQuestion(s: EncyclopediaState, r: Reply): EncyclopediaState
  {
    if Normalize(r.answer) == "yes" then
      s.(prompted := true, needsEncyclopedia := true, educationLevel := Normalize(r.level))
    else
      s.(prompted := true)
  }

  /** Grading this book asks the question: it is affordable, the reader is
      old enough, the user's words match the encyclopedia keywords and the
      question has not been asked yet. */
  predicate Asks(price: real, c: BookCriteria, env: Env, s: EncyclopediaState)
    reads c
  {
    && price <= c.maxPrice
    && c.age >= MinimumAge
    && KeywordCount(env, KeywordFileName, LowerAll(c.info)) > 0
    && !s.prompted
  }

  /** The grade of an affordable encyclopedia for a reader old enough, once
      the state is known: all or nothing when the user wants an
      encyclopedia, the baseline otherwise. */
  function Verdict(title: string, s: EncyclopediaState): real
  {
    if s.needsEncyclopedia then
      (if MatchesEducationLevel(title, s.educationLevel) then 100.0 else 0.0)
    else
      BaselineGrade
  }

  datatype Outcome = Outcome(grade: real, state: EncyclopediaState)

  /** Grading one encyclopedia: its grade and the state it leaves. */
  function EncyclopediaStep(title: string, price: real, c: BookCriteria, env: Env,
                            s: EncyclopediaState, r: Reply): Outcome
    reads c
  {
    if price > c.maxPrice || c.age < MinimumAge then
      Outcome(0.0, s)
    else
      var s' := if Asks(price, c, env, s) then AfterQuestion(s, r) else s;
      Outcome(Verdict(title, s'), s')
  }

  /** The refinement state as the program keeps it, shared by all the
      encyclopedias of a run; `prompts` counts the questions asked. */
  class EncyclopediaSession {
    var prompted: bool
    var userNeedsEncyclopedia: bool
    var educationLevel: string
    ghost var prompts: nat

    function State(): EncyclopediaState
      reads this
    {
      EncyclopediaState(prompted, userNeedsEncyclopedia, educationLevel)
    }

    /** The question is asked at most once: exactly once if `prompted`. */
    ghost predicate Valid()
      reads this
    {
      State().Valid() && prompts == if prompted then 1 else 0
    }

    constructor ()
      ensures State() == InitialState && Valid() && prompts == 0
    {
      prompted := false;
      userNeedsEncyclopedia := false;
      educationLevel := "";
      prompts := 0;
    }

    /** Asks the question and records the accepted answer. */
    method Ask(reply: Reply)
      requires Valid() && !prompted && Accepted(reply)
      modifies this
      ensures Valid() && prompts == 1
      ensures State() == AfterQuestion(old(State()), reply)
    {
      prompted := true;
      prompts := prompts + 1;
      var answer := Normalize(reply.answer);
      if answer == "yes" {
        var level := Normalize(reply.level);
        assert ValidateLevel(level);
        userNeedsEncyclopedia := true;
        educationLevel := level;
      } else {
        assert !userNeedsEncyclopedia;
      }
    }
  }

  /** An encyclopedia is a book graded by the encyclopedia rules. */
  class Encyclopedia {
    const book: Book

    constructor (title: string, author: string, price: real, year: int, isbn: string)
      requires IsbnFormat(isbn)
      ensures fresh(book) && book.Initialised(title, author, price, year, isbn)
    {
      book := new Book(title, author, price, year, isbn);
    }

    function Genre(): (g: string)
      ensures g == "Encyclopedia"
    {
      "Encyclopedia"
    }

    /** Grades the book: the price gate, the age limit, the question on the
        first keyword match of the run, then the verdict of the state. */
    method CalculateGrade(c: BookCriteria, env: Env, session: EncyclopediaSession, reply: Reply)
      requires session.Valid() && Accepted(reply)
      modifies book`grade, session
      ensures session.Valid() && (old(book.Valid()) ==> book.Valid())
      ensures var o := old(EncyclopediaStep(book.title, book.price, c, env, session.State(), reply));
              book.grade == o.grade && session.State() == o.state
    {
      var eligible := book.Gate(c);
      if !eligible {
        return;
      }
      var userKeywords := LowerAll(c.info);
      if c.age < MinimumAge {
        book.SetGrade(0.0);
        return;
      }
      var _, keywordCount := MatchKeywords(KeywordFileName, userKeywords, env);
      if keywordCount > 0 && !session.prompted {
        session.Ask(reply);
      }
      if session.userNeedsEncyclopedia {
        if MatchesEducationLevel(book.title, session.educationLevel) {
          book.SetGrade(100.0);
        } else {
          book.SetGrade(0.0);
        }
        return;
      }
    }
  }

  // ---------------------------------------------------------------------------
  // Properties

  /** The question accepts exactly "yes" and "no", and exactly the four
      levels; the levels are exactly those with a recorded title. */
  lemma ValidationIsExact(answer: string, level: string)
    ensures ValidateAnswer(answer) <==> answer == "yes" || answer == "no"
    ensures ValidateLevel(level) <==> (level == "middle school" || level == "high school"
                                       || level == "undergraduate" || level == "graduate")
    ensures ValidateLevel(level) <==> LevelTitle(level) != ""
  {
  }

  /** A title matches a valid level exactly when it is that level's title,
      and no title matches two levels. */
  lemma {:induction false} MatchesEducationLevelExactly(title: string, level: string, other: string)
    ensures !ValidateLevel(level) ==> (MatchesEducationLevel(title, level) <==> title == "")
    ensures (ValidateLevel(level) && ValidateLevel(other) && level != other)
              ==> !(MatchesEducationLevel(title, level) && MatchesEducationLevel(title, other))
  {
    ValidationIsExact("", level);
    ValidationIsExact("", other);
    assert |LevelTitle("middle school")| == 31 && |LevelTitle("high school")| == 43;
    assert |LevelTitle("undergraduate")| == 37 && |LevelTitle("graduate")| == 51;
  }

  /** Answers are stripped and lower-cased before they are validated. */
  lemma MixedCaseRepliesAccepted()
    ensures Normalize("Yes") == "yes"
    ensures Normalize(" High School ") == "high school"
    ensures Accepted(Reply("Yes", " High School "))
  {
    NormalizeYes();
    NormalizeSpacedLevel();
  }

  lemma NormalizeYes()
    ensures Normalize("Yes") == "yes"
  {
    StripYes();
    assert Normalize("Yes") == Lower("Yes");
    assert "Yes" == "Y" + "es";
    LowerAppend("Y", "es");
    LowerNoCapitals("es");
    assert Lower("Y") == "y";
    assert Lower("Yes") == Lower("Y") + Lower("es");
  }

  lemma StripYes()
    ensures Strip("Yes") == "Yes"
  {
    TrimStartNoop("Yes");
    TrimEndNoop("Yes");
  }

  lemma NormalizeSpacedLevel()
    ensures Normalize(" High School ") == "high school"
  {
    StripSpacedLevel();
    LowerHighSchool();
  }

  lemma StripSpacedLevel()
    ensures Strip(" High School ") == "High School"
  {
    assert " High School " == " " + "High School" + " ";
    StripPadding(" ", "High School", " ");
  }

  lemma LowerHighSchool()
    ensures Lower("High School") == "high school"
  {
    var tail := "igh " + ("S" + "chool");
    assert "High School" == "H" + tail;
    LowerAppend("H", tail);
    LowerSchool();
    assert Lower("H") == "h";
  }

  lemma LowerSchool()
    ensures Lower("igh " + ("S" + "chool")) == "igh " + ("s" + "chool")
  {
    LowerAppend("igh ", "S" + "chool");
    LowerAppend("S", "chool");
    LowerNoCapitals("igh ");
    LowerNoCapitals("chool");
    assert Lower("S") == "s";
  }

  /** An encyclopedia over budget, or for a reader under 10, gets 0 and
      leaves the state alone. */
  lemma IneligibleEncyclopedia(title: string, price: real, c: BookCriteria, env: Env,
                               s: EncyclopediaState, r: Reply)
    requires price > c.maxPrice || c.age < MinimumAge
    ensures EncyclopediaStep(title, price, c, env, s, r) == Outcome(0.0, s)
  {
  }

  /** The question is asked only when the user's words match the keywords
      and it has not been asked before; once asked, the state never changes
      again. */
  lemma QuestionAskedOnce(title: string, price: real, c: BookCriteria, env: Env,
                          s: EncyclopediaState, r: Reply)
    ensures var s' := EncyclopediaStep(title, price, c, env, s, r).state;
            (s' != s ==> Asks(price, c, env, s)) && (Asks(price, c, env, s) ==> s'.prompted)
    ensures s.prompted ==> EncyclopediaStep(title, price, c, env, s, r).state == s
  {
  }

  /** A recorded need always comes with the question asked and a valid level. */
  lemma StepKeepsValid(title: string, price: real, c: BookCriteria, env: Env,
                       s: EncyclopediaState, r: Reply)
    requires s.Valid() && Accepted(r)
    ensures EncyclopediaStep(title, price, c, env, s, r).state.Valid()
  {
  }

  /** While the user wants an encyclopedia, an eligible one gets exactly 100
      if it is the one of the stored level and 0 otherwise; without that
      need (after a "no", or with no keyword match) it keeps the baseline. */
  lemma EligibleEncyclopediaVerdict(title: string, price: real, c: BookCriteria, env: Env,
                                    s: EncyclopediaState, r: Reply)
    requires price <= c.maxPrice && c.age >= MinimumAge
    ensures var o := EncyclopediaStep(title, price, c, env, s, r);
            && (o.state.needsEncyclopedia ==>
                  (o.grade == 100.0 <==> MatchesEducationLevel(title, o.state.educationLevel))
                  && (o.grade == 0.0 <==> !MatchesEducationLevel(title, o.state.educationLevel)))
            && (!o.state.needsEncyclopedia ==> o.grade == BaselineGrade)
    ensures (!s.needsEncyclopedia && Normalize(r.answer) == "no")
              ==> EncyclopediaStep(title, price, c, env, s, r).grade == BaselineGrade
    ensures (!s.needsEncyclopedia && KeywordCount(env, KeywordFileName, LowerAll(c.info)) == 0)
              ==> EncyclopediaStep(title, price, c, env, s, r).grade == BaselineGrade
  {
  }

  /** A high-school student who answers "Yes" and " High School " is offered
      the high-school encyclopedia and no other. */
  lemma HighSchoolScenario(price: real, c: BookCriteria, env: Env)
    requires price <= c.maxPrice && c.age == 16
    requires KeywordCount(env, KeywordFileName, LowerAll(c.info)) > 0
    ensures var r := Reply("Yes", " High School ");
            var o := EncyclopediaStep("World Encyclopedia for High School Students", price, c, env, InitialState, r);
            o.grade == 100.0 && o.state == EncyclopediaState(true, true, "high school")
    ensures EncyclopediaStep("The New Children's Encyclopedia", price, c, env,
                             InitialState, Reply("Yes", " High School ")).grade == 0.0
  {
    MixedCaseRepliesAccepted();
    MatchesEducationLevelExactly("The New Children's Encyclopedia", "high school", "middle school");
  }
}
