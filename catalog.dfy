/** The catalog: a book of one of the four genres, the snapshot of what its
    grading reads, the refinement state of a run, and the dispatch from a
    book to its genre's formula. */
module Catalog {
  import opened Criteria
  import opened Books
  import B = BiographyGenre
  import E = EncyclopediaGenre
  import S = ScienceFictionGenre
  import R = RomanceGenre

  datatype CatalogBook =
    | BiographyBook(biography: B.Biography)
    | EncyclopediaBook(encyclopedia: E.Encyclopedia)
    | ScienceFictionBook(scienceFiction: S.ScienceFiction)
    | RomanceBook(romance: R.Romance)
  {
    /** The book record every genre holds. */
    function Book(): Book
    {
      match this
      case BiographyBook(b) => b.book
      case EncyclopediaBook(e) => e.book
      case ScienceFictionBook(s) => s.book
      case RomanceBook(r) => r.book
    }

    function Genre(): string
    {
      match this
      case BiographyBook(b) => b.Genre()
      case EncyclopediaBook(e) => e.Genre()
      case ScienceFictionBook(s) => s.Genre()
      case RomanceBook(r) => r.Genre()
    }

    /** The genre object, for the genres whose grading reads attributes of
        their own. */
    ghost function Attributes(): set<object>
    {
      match this
      case ScienceFictionBook(s) => {s}
      case RomanceBook(r) => {r}
      case _ => {}
    }

    /** The objects grading reads. */
    ghost function Objects(): set<object>
    {
      {Book()} + Attributes()
    }

    ghost predicate Valid()
      reads Objects()
    {
      match this
      case BiographyBook(b) => b.book.Valid()
      case EncyclopediaBook(e) => e.book.Valid()
      case ScienceFictionBook(s) => s.Valid()
      case RomanceBook(r) => r.Valid()
    }

    /** What grading reads of the book: its title, its price and the
        attributes of its genre. */
    ghost function Snapshot(): Entry
      reads Book()`title, Book()`price, Attributes()
    {
      match this
      case BiographyBook(b) => Entry(b.book.title, b.book.price, BiographyTraits)
      case EncyclopediaBook(e) => Entry(e.book.title, e.book.price, EncyclopediaTraits)
      case ScienceFictionBook(s) =>
        Entry(s.book.title, s.book.price, ScienceFictionTraits(s.scientificAccuracy, s.actionLevel))
      case RomanceBook(r) => Entry(r.book.title, r.book.price, RomanceTraits(r.emotionalDepth, r.realism))
    }
  }

  /** A book whose title, price and genre attributes are untouched reads
      the same. */
  twostate lemma SnapshotKept(x: CatalogBook)
    requires unchanged(x.Book()`title, x.Book()`price)
    requires unchanged(x.Attributes())
    ensures x.Snapshot() == old(x.Snapshot())
  {
    match x
    case BiographyBook(b) =>
    case EncyclopediaBook(e) =>
    case ScienceFictionBook(sf) =>
    case RomanceBook(r) =>
  }

  datatype Traits =
    | BiographyTraits
    | EncyclopediaTraits
    | ScienceFictionTraits(accuracy: int, action: int)
    | RomanceTraits(emotionalDepth: int, realism: int)

  /** A book as its grading sees it. */
  datatype Entry = Entry(title: string, price: real, traits: Traits)
  {
    /** The genre attributes lie in [0, 100], as their setters keep them. */
    predicate WellFormed()
    {
      match traits
      case ScienceFictionTraits(accuracy, action) => 0 <= accuracy <= 100 && 0 <= action <= 100
      case RomanceTraits(depth, realism) => 0 <= depth <= 100 && 0 <= realism <= 100
      case _ => true
    }
  }

  /** The refinement state of a run: one part per genre that asks a question. */
  datatype Session = Session(encyclopedia: E.EncyclopediaState, romance: R.RomanceState)
  {
    predicate Valid()
    {
      encyclopedia.Valid() && romance.Valid()
    }
  }

  const InitialSession: Session := Session(E.InitialState, R.InitialState)

  /** The user's answers, should the questions be asked: what the user typed
      at the encyclopedia question, and their mood. */
  datatype Answers = Answers(encyclopedia: E.Reply, mood: string)
  {
    /** The answers the questions accept. */
    predicate Accepted()
    {
      E.Accepted(encyclopedia) && R.ValidateMood(mood)
    }
  }

  datatype Step = Step(grade: real, session: Session)

  /** Grading one book: its genre's formula, with the refinement state of
      the run. */
  function GradeEntry(e: Entry, c: BookCriteria, env: Env, s: Session, a: Answers): Step
    reads c
  {
    match e.traits
    case BiographyTraits => Step(B.BiographyGrade(e.title, e.price, c, env), s)
    case EncyclopediaTraits =>
      var o := E.EncyclopediaStep(e.title, e.price, c, env, s.encyclopedia, a.encyclopedia);
      Step(o.grade, s.(encyclopedia := o.state))
    case ScienceFictionTraits(accuracy, action) =>
      Step(S.ScienceFictionGrade(e.title, e.price, accuracy, action, c, env), s)
    case RomanceTraits(depth, realism) =>
      var o := R.RomanceStep(e.title, e.price, depth, realism, c, env, s.romance, a.mood);
      Step(o.grade, s.(romance := o.state))
  }

  /** Grades a catalog book with its genre's formula. */
  method GradeBook(item: CatalogBook, c: BookCriteria, env: Env,
                   encyclopedia: E.EncyclopediaSession, romance: R.RomanceSession, a: Answers)
    requires encyclopedia.Valid() && romance.Valid() && a.Accepted()
    modifies item.Book()`grade, encyclopedia, romance
    ensures encyclopedia.Valid() && romance.Valid() && (old(item.Valid()) ==> item.Valid())
    ensures var step := old(GradeEntry(item.Snapshot(), c, env, Session(encyclopedia.State(), romance.State()), a));
            item.Book().grade == step.grade && Session(encyclopedia.State(), romance.State()) == step.session
    ensures forall b: Book :: old(allocated(b)) && b != item.Book() ==> b.grade == old(b.grade)
  {
    match item
    case BiographyBook(b) =>
      b.CalculateGrade(c, env);
    case EncyclopediaBook(e) =>
      e.CalculateGrade(c, env, encyclopedia, a.encyclopedia);
    case ScienceFictionBook(s) =>
      s.CalculateGrade(c, env);
    case RomanceBook(r) =>
      r.CalculateGrade(c, env, romance, a.mood);
  }

  // ---------------------------------------------------------------------------
  // Properties of one grading step

  /** Every grade lies in [0, 100]; a book over budget gets 0. */
  lemma {:induction false} GradeInRange(e: Entry, c: BookCriteria, env: Env, s: Session, a: Answers)
    requires e.WellFormed()
    ensures 0.0 <= GradeEntry(e, c, env, s, a).grade <= 100.0
    ensures e.price > c.maxPrice ==> GradeEntry(e, c, env, s, a).grade == 0.0
  {
    match e.traits
    case BiographyTraits =>
      B.EligibleBiographyAtLeastBaseline(e.title, e.price, c, env);
    case EncyclopediaTraits =>
    case ScienceFictionTraits(accuracy, action) =>
    case RomanceTraits(depth, realism) =>
      if e.price <= c.maxPrice {
        R.EligibleRomanceGrade(e.title, e.price, depth, realism, c, env, s.romance, a.mood);
      }
  }

  /** A step changes only the part of the state that belongs to the book's
      genre, and keeps a valid state valid. */
  lemma StepTouchesOwnGenre(e: Entry, c: BookCriteria, env: Env, s: Session, a: Answers)
    ensures var s' := GradeEntry(e, c, env, s, a).session;
            && (!e.traits.EncyclopediaTraits? ==> s'.encyclopedia == s.encyclopedia)
            && (!e.traits.RomanceTraits? ==> s'.romance == s.romance)
    ensures s.Valid() && a.Accepted() ==> GradeEntry(e, c, env, s, a).session.Valid()
  {
    match e.traits
    case EncyclopediaTraits =>
      if s.Valid() && a.Accepted() {
        E.StepKeepsValid(e.title, e.price, c, env, s.encyclopedia, a.encyclopedia);
      }
    case RomanceTraits(depth, realism) =>
      R.QuestionAskedOnce(e.title, e.price, depth, realism, c, env, s.romance, a.mood);
    case _ =>
  }
}
