/** A grading run: every catalog book graded once, in load order, with the
    refinement state threaded from one book to the next. */
module GradingRun {
  import opened Text
  import opened Criteria
  import opened Books
  import opened Catalog
  import E = EncyclopediaGenre
  import R = RomanceGenre

  datatype RunResult = RunResult(grades: seq<real>, session: Session)

  /** The grades of the entries, graded in order from the state `s0`, and the
      state the run leaves. */
  function Run(entries: seq<Entry>, c: BookCriteria, env: Env, s0: Session, a: Answers): (r: RunResult)
    reads c
    ensures |r.grades| == |entries|
  {
    if entries == [] then RunResult([], s0)
    else
      var before := Run(entries[..|entries| - 1], c, env, s0, a);
      var step := GradeEntry(entries[|entries| - 1], c, env, before.session, a);
      RunResult(before.grades + [step.grade], step.session)
  }

  lemma RunUnfold(entries: seq<Entry>, c: BookCriteria, env: Env, s0: Session, a: Answers, i: nat)
    requires i < |entries|
    ensures var before := Run(entries[..i], c, env, s0, a);
            var step := GradeEntry(entries[i], c, env, before.session, a);
            Run(entries[..i + 1], c, env, s0, a) == RunResult(before.grades + [step.grade], step.session)
  {
    assert entries[..i + 1][..i] == entries[..i];
  }

  /** Grading more books never changes the grades already given. */
  lemma {:induction false} RunPrefix(entries: seq<Entry>, c: BookCriteria, env: Env, s0: Session, a: Answers,
                                     i: nat, j: nat)
    requires i <= j <= |entries|
    ensures Run(entries[..i], c, env, s0, a).grades == Run(entries[..j], c, env, s0, a).grades[..i]
    decreases j - i
  {
    if i < j {
      RunPrefix(entries, c, env, s0, a, i, j - 1);
      RunUnfold(entries, c, env, s0, a, j - 1);
    }
  }

  /** Each book is graded exactly once, by its genre's formula, with the
      state that the books loaded before it left. */
  lemma RunGradeAt(entries: seq<Entry>, c: BookCriteria, env: Env, s0: Session, a: Answers, i: nat)
    requires i < |entries|
    ensures Run(entries, c, env, s0, a).grades[i]
              == GradeEntry(entries[i], c, env, Run(entries[..i], c, env, s0, a).session, a).grade
  {
    RunUnfold(entries, c, env, s0, a, i);
    RunPrefix(entries, c, env, s0, a, i + 1, |entries|);
    assert entries[..|entries|] == entries;
  }

  /** Every grade of a run lies in [0, 100], and every book over budget gets 0. */
  lemma RunGradesInRange(entries: seq<Entry>, c: BookCriteria, env: Env, s0: Session, a: Answers)
    requires forall i :: 0 <= i < |entries| ==> entries[i].WellFormed()
    ensures var grades := Run(entries, c, env, s0, a).grades;
            forall i :: 0 <= i < |entries| ==>
              && 0.0 <= grades[i] <= 100.0
              && (entries[i].price > c.maxPrice ==> grades[i] == 0.0)
  {
    forall i | 0 <= i < |entries|
      ensures var g := Run(entries, c, env, s0, a).grades[i];
              0.0 <= g <= 100.0 && (entries[i].price > c.maxPrice ==> g == 0.0)
    {
      RunGradeAt(entries, c, env, s0, a, i);
      GradeInRange(entries[i], c, env, Run(entries[..i], c, env, s0, a).session, a);
    }
  }

  /** A run keeps the refinement state valid. */
  lemma {:induction false} RunKeepsValid(entries: seq<Entry>, c: BookCriteria, env: Env, s0: Session, a: Answers)
    requires s0.Valid() && a.Accepted()
    ensures Run(entries, c, env, s0, a).session.Valid()
    decreases |entries|
  {
    if entries != [] {
      var prefix := entries[..|entries| - 1];
      RunKeepsValid(prefix, c, env, s0, a);
      StepTouchesOwnGenre(entries[|entries| - 1], c, env, Run(prefix, c, env, s0, a).session, a);
    }
  }

  // ---------------------------------------------------------------------------
  // The questions: asked at most once per run

  /** The two genres that ask the user a question. */
  datatype Category = EncyclopediaCategory | RomanceCategory

  predicate Asked(s: Session, cat: Category)
  {
    match cat
    case EncyclopediaCategory => s.encyclopedia.prompted
    case RomanceCategory => s.romance.prompted
  }

  /** The two states agree on the part that belongs to the category. */
  predicate SamePart(s: Session, t: Session, cat: Category)
  {
    match cat
    case EncyclopediaCategory => s.encyclopedia == t.encyclopedia
    case RomanceCategory => s.romance == t.romance
  }

  /** The number of times a run asks the question of a category. */
  function Prompts(entries: seq<Entry>, c: BookCriteria, env: Env, s0: Session, a: Answers, cat: Category): nat
    reads c
  {
    if entries == [] then 0
    else
      var prefix := entries[..|entries| - 1];
      var before := Run(prefix, c, env, s0, a).session;
      var after := Run(entries, c, env, s0, a).session;
      Prompts(prefix, c, env, s0, a, cat) + if !Asked(before, cat) && Asked(after, cat) then 1 else 0
  }

  /** Once the question of a category is asked, no grading changes its part
      of the state. */
  lemma StepFreezesAsked(e: Entry, c: BookCriteria, env: Env, s: Session, a: Answers, cat: Category)
    requires Asked(s, cat)
    ensures SamePart(GradeEntry(e, c, env, s, a).session, s, cat)
  {
    StepTouchesOwnGenre(e, c, env, s, a);
    match e.traits
    case EncyclopediaTraits =>
      E.QuestionAskedOnce(e.title, e.price, c, env, s.encyclopedia, a.encyclopedia);
    case RomanceTraits(depth, realism) =>
      R.QuestionAskedOnce(e.title, e.price, depth, realism, c, env, s.romance, a.mood);
    case _ =>
  }

  /** A run asks each question at most once: exactly once if it was not asked
      before the run and is asked after it. Once asked, its part of the state
      never changes. */
  lemma {:induction false} PromptsAtMostOnce(entries: seq<Entry>, c: BookCriteria, env: Env, s0: Session,
                                             a: Answers, cat: Category)
    ensures Prompts(entries, c, env, s0, a, cat)
              == if !Asked(s0, cat) && Asked(Run(entries, c, env, s0, a).session, cat) then 1 else 0
    ensures Prompts(entries, c, env, s0, a, cat) <= 1
    ensures Asked(s0, cat) ==> SamePart(Run(entries, c, env, s0, a).session, s0, cat)
    decreases |entries|
  {
    if entries != [] {
      var prefix := entries[..|entries| - 1];
      PromptsAtMostOnce(prefix, c, env, s0, a, cat);
      var before := Run(prefix, c, env, s0, a).session;
      if Asked(before, cat) {
        StepFreezesAsked(entries[|entries| - 1], c, env, before, a, cat);
      }
    }
  }

  // ---------------------------------------------------------------------------
  // Every eligible book of a category reads the final state

  /** The part of the state of a category is settled: its question was asked,
      or no book of the category can ask it with these criteria. */
  predicate Settled(s: Session, cat: Category, c: BookCriteria, env: Env)
    reads c
  {
    match cat
    case EncyclopediaCategory =>
      || s.encyclopedia.prompted
      || c.age < E.MinimumAge
      || KeywordCount(env, E.KeywordFileName, LowerAll(c.info)) == 0
    case RomanceCategory =>
      s.romance.prompted || KeywordCount(env, R.KeywordFileName, LowerAll(c.info)) == 0
  }

  /** A book of the category that reaches the question's verdict: affordable
      (and, for an encyclopedia, for a reader old enough). */
  predicate Eligible(e: Entry, cat: Category, c: BookCriteria)
    reads c
  {
    match cat
    case EncyclopediaCategory => e.traits.EncyclopediaTraits? && e.price <= c.maxPrice && c.age >= E.MinimumAge
    case RomanceCategory => e.traits.RomanceTraits? && e.price <= c.maxPrice
  }

  /** The grade an eligible book of the category gets under a given state. */
  function VerdictUnder(e: Entry, c: BookCriteria, s: Session, cat: Category): real
    reads c
  {
    match cat
    case EncyclopediaCategory => E.Verdict(e.title, s.encyclopedia)
    case RomanceCategory =>
      match e.traits
      case RomanceTraits(depth, realism) =>
        R.Verdict(Clamp(BaselineGrade + R.BaseGrade(depth, realism, c)), e.title, s.romance)
      case _ => 0.0
  }

  /** A settled part stays put; an eligible book leaves its category's part
      settled and gets the verdict of the state it leaves. */
  lemma StepSettles(e: Entry, c: BookCriteria, env: Env, s: Session, a: Answers, cat: Category)
    ensures Settled(s, cat, c, env) ==> SamePart(GradeEntry(e, c, env, s, a).session, s, cat)
    ensures Eligible(e, cat, c) ==>
              var step := GradeEntry(e, c, env, s, a);
              Settled(step.session, cat, c, env) && step.grade == VerdictUnder(e, c, step.session, cat)
  {
    StepTouchesOwnGenre(e, c, env, s, a);
  }

  /** From a settled state, the category's part never changes again. */
  lemma {:induction false} SettledStaysPut(entries: seq<Entry>, c: BookCriteria, env: Env, s0: Session, a: Answers,
                                           cat: Category, i: nat, j: nat)
    requires i <= j <= |entries|
    requires Settled(Run(entries[..i], c, env, s0, a).session, cat, c, env)
    ensures SamePart(Run(entries[..j], c, env, s0, a).session, Run(entries[..i], c, env, s0, a).session, cat)
    decreases j - i
  {
    if i < j {
      SettledStaysPut(entries, c, env, s0, a, cat, i, j - 1);
      var mid := Run(entries[..j - 1], c, env, s0, a).session;
      RunUnfold(entries, c, env, s0, a, j - 1);
      StepSettles(entries[j - 1], c, env, mid, a, cat);
    }
  }

  /** The grade of every eligible encyclopedia and romance of a run is the
      verdict of the state the whole run ends in: a book graded before the
      question was asked reads the same verdict as one graded after, because
      whether the question is asked depends only on the user's words, which
      are the same for every book. */
  lemma UniformRefinement(entries: seq<Entry>, c: BookCriteria, env: Env, s0: Session, a: Answers, cat: Category)
    ensures var run := Run(entries, c, env, s0, a);
            forall i :: 0 <= i < |entries| && Eligible(entries[i], cat, c) ==>
              run.grades[i] == VerdictUnder(entries[i], c, run.session, cat)
  {
    var run := Run(entries, c, env, s0, a);
    forall i | 0 <= i < |entries| && Eligible(entries[i], cat, c)
      ensures run.grades[i] == VerdictUnder(entries[i], c, run.session, cat)
    {
      var before := Run(entries[..i], c, env, s0, a).session;
      RunGradeAt(entries, c, env, s0, a, i);
      RunUnfold(entries, c, env, s0, a, i);
      StepSettles(entries[i], c, env, before, a, cat);
      SettledStaysPut(entries, c, env, s0, a, cat, i + 1, |entries|);
      assert entries[..|entries|] == entries;
    }
  }
}
