/** The driver: the gender check of the console session, then a run that
    grades every catalog book in load order, sorts the catalog by descending
    grade and shows the first five books. */
module Recommender {
  import opened Text
  import opened Criteria
  import opened Books
  import opened Catalog
  import opened GradingRun
  import opened Ranking
  import E = EncyclopediaGenre
  import S = ScienceFictionGenre
  import R = RomanceGenre

  const ValidGenders: seq<string> := ["man", "woman", "other"]

  /** The gender check is case-insensitive; the gender is stored as typed. */
  predicate ValidateGender(gender: string)
  {
    Lower(gender) in ValidGenders
  }

  /** The check accepts exactly the three genders in any letter case. */
  lemma ValidateGenderIgnoresCase(gender: string)
    ensures ValidateGender(gender) <==> Lower(gender) == "man" || Lower(gender) == "woman" || Lower(gender) == "other"
    ensures ValidateGender(gender) <==> ValidateGender(Lower(gender))
  {
    LowerIdempotent(gender);
  }

  /** A capitalised "Man" passes the check, but the graders compare the stored
      gender exactly, so it is graded as neither "man" nor "woman". */
  lemma CapitalisedGenderGradedAsOther()
    ensures ValidateGender("Man")
    ensures S.GenderRelevance("Man") == 70 && S.GenderRelevance("man") == 100
    ensures R.GenderRelevance("Man") == 60 && R.GenderRelevance("man") == 80
  {
    assert Lower("Man") == "man";
    assert "Man" != "man" by { assert "Man"[0] != "man"[0]; }
    assert "Man" != "woman" by { assert |"Man"| != |"woman"|; }
  }

  // ---------------------------------------------------------------------------
  // The catalog as a run sees it

  /** Every catalog book has its own book record. */
  predicate DistinctBooks(s: seq<CatalogBook>)
  {
    forall i, j :: 0 <= i < j < |s| ==> s[i].Book() != s[j].Book()
  }

  /** The genre objects of the books of `s`. */
  ghost function AttributesOf(s: seq<CatalogBook>): set<object>
  {
    set x, o | x in s && o in x.Attributes() :: o
  }

  /** What grading reads of each book of `s`, in order. */
  ghost function Snapshots(s: seq<CatalogBook>): (r: seq<Entry>)
    reads BooksOf(s)`title, BooksOf(s)`price, AttributesOf(s)
    ensures |r| == |s|
    ensures forall k :: 0 <= k < |s| ==> r[k] == s[k].Snapshot()
  {
    if s == [] then [] else [s[0].Snapshot()] + Snapshots(s[1..])
  }

  /** The grade `grades` gives the first occurrence of `x` in `s`. */
  function GradeIn(s: seq<CatalogBook>, grades: seq<real>, x: CatalogBook): real
    requires |grades| == |s|
  {
    if s == [] then 0.0 else if s[0] == x then grades[0] else GradeIn(s[1..], grades[1..], x)
  }

  /** The grading that gives the `k`th book of `s` the grade `grades[k]`. */
  function KeyOf(s: seq<CatalogBook>, grades: seq<real>): (key: Key)
    requires |grades| == |s|
  {
    x => GradeIn(s, grades, x)
  }

  lemma {:induction false} GradeInAt(s: seq<CatalogBook>, grades: seq<real>, k: nat)
    requires |grades| == |s| && k < |s| && DistinctBooks(s)
    ensures GradeIn(s, grades, s[k]) == grades[k]
    decreases k
  {
    if k > 0 {
      assert s[0].Book() != s[k].Book();
      assert DistinctBooks(s[1..]) by {
        forall i, j | 0 <= i < j < |s[1..]|
          ensures s[1..][i].Book() != s[1..][j].Book()
        {
          assert s[1..][i] == s[i + 1] && s[1..][j] == s[j + 1];
        }
      }
      GradeInAt(s[1..], grades[1..], k - 1);
    }
  }

  // ---------------------------------------------------------------------------
  // The run

  /** Grades the `i`th book of the catalog; no other book's grade changes. */
  method GradeOne(books: seq<CatalogBook>, i: nat, c: BookCriteria, env: Env,
                  encyclopedia: E.EncyclopediaSession, romance: R.RomanceSession, a: Answers)
    requires i < |books| && DistinctBooks(books)
    requires encyclopedia.Valid() && romance.Valid() && a.Accepted()
    modifies books[i].Book()`grade, encyclopedia, romance
    ensures encyclopedia.Valid() && romance.Valid()
    ensures var step := old(GradeEntry(books[i].Snapshot(), c, env, Session(encyclopedia.State(), romance.State()), a));
            books[i].Book().grade == step.grade && Session(encyclopedia.State(), romance.State()) == step.session
    ensures forall k :: 0 <= k < |books| && k != i ==> books[k].Book().grade == old(books[k].Book().grade)
  {
    GradeBook(books[i], c, env, encyclopedia, romance, a);
    forall k | 0 <= k < |books| && k != i
      ensures books[k].Book().grade == old(books[k].Book().grade)
    {
      assert books[k].Book() != books[i].Book() by {
        if k < i {
          assert books[k].Book() != books[i].Book();
        } else {
          assert books[i].Book() != books[k].Book();
        }
      }
    }
  }

  /** Grades the `i`th book of the catalog; no other book's grade and no
      later book's snapshot changes. */
  method GradeAt(books: seq<CatalogBook>, i: nat, c: BookCriteria, env: Env,
                 encyclopedia: E.EncyclopediaSession, romance: R.RomanceSession, a: Answers)
    requires i < |books| && DistinctBooks(books)
    requires encyclopedia.Valid() && romance.Valid() && a.Accepted()
    modifies books[i].Book()`grade, encyclopedia, romance
    ensures encyclopedia.Valid() && romance.Valid()
    ensures var step := old(GradeEntry(books[i].Snapshot(), c, env, Session(encyclopedia.State(), romance.State()), a));
            books[i].Book().grade == step.grade && Session(encyclopedia.State(), romance.State()) == step.session
    ensures forall k :: 0 <= k < |books| && k != i ==> books[k].Book().grade == old(books[k].Book().grade)
    ensures forall k :: i < k < |books| ==> books[k].Snapshot() == old(books[k].Snapshot())
  {
    GradeOne(books, i, c, env, encyclopedia, romance, a);
    forall k | i < k < |books|
      ensures books[k].Snapshot() == old(books[k].Snapshot())
    {
      SnapshotKept(books[k]);
    }
  }

  /** One step of the run: with the books before the `i`th graded as `Run`
      grades them and the state they leave, grading the `i`th book extends
      both to the first `i + 1` books. */
  method GradeNext(books: seq<CatalogBook>, i: nat, c: BookCriteria, env: Env,
                   encyclopedia: E.EncyclopediaSession, romance: R.RomanceSession, a: Answers,
                   ghost entries: seq<Entry>, ghost s0: Session)
    requires i < |books| == |entries| && DistinctBooks(books)
    requires encyclopedia.Valid() && romance.Valid() && a.Accepted()
    requires forall k :: 0 <= k < i ==> books[k].Book().grade == Run(entries, c, env, s0, a).grades[k]
    requires forall k :: i <= k < |books| ==> books[k].Snapshot() == entries[k]
    requires Session(encyclopedia.State(), romance.State()) == Run(entries[..i], c, env, s0, a).session
    modifies books[i].Book()`grade, encyclopedia, romance
    ensures encyclopedia.Valid() && romance.Valid()
    ensures forall k :: 0 <= k < i + 1 ==> books[k].Book().grade == Run(entries, c, env, s0, a).grades[k]
    ensures forall k :: i + 1 <= k < |books| ==> books[k].Snapshot() == entries[k]
    ensures Session(encyclopedia.State(), romance.State()) == Run(entries[..i + 1], c, env, s0, a).session
  {
    GradeAt(books, i, c, env, encyclopedia, romance, a);
    RunGradeAt(entries, c, env, s0, a, i);
    RunUnfold(entries, c, env, s0, a, i);
  }

  /** Grades every book once, in load order, sharing the two question
      sessions: the grades and the sessions are those of `Run`. `shelf` holds
      the book records of the catalog. */
  method GradeAll(books: seq<CatalogBook>, ghost shelf: set<Book>, c: BookCriteria, env: Env,
                  encyclopedia: E.EncyclopediaSession, romance: R.RomanceSession, a: Answers)
    requires DistinctBooks(books) && forall k :: 0 <= k < |books| ==> books[k].Book() in shelf
    requires encyclopedia.Valid() && romance.Valid() && a.Accepted()
    modifies shelf`grade, encyclopedia, romance
    ensures encyclopedia.Valid() && romance.Valid()
    ensures var run := old(Run(Snapshots(books), c, env, Session(encyclopedia.State(), romance.State()), a));
            && (forall k :: 0 <= k < |books| ==> Grade(books[k]) == run.grades[k])
            && Session(encyclopedia.State(), romance.State()) == run.session
  {
    ghost var entries := Snapshots(books);
    ghost var s0 := Session(encyclopedia.State(), romance.State());
    for i := 0 to |books|
      invariant encyclopedia.Valid() && romance.Valid()
      invariant forall k :: 0 <= k < i ==> books[k].Book().grade == Run(entries, c, env, s0, a).grades[k]
      invariant forall k :: i <= k < |books| ==> books[k].Snapshot() == entries[k]
      invariant Session(encyclopedia.State(), romance.State()) == Run(entries[..i], c, env, s0, a).session
    {
      GradeNext(books, i, c, env, encyclopedia, romance, a, entries, s0);
    }
    assert entries[..|books|] == entries;
  }

  /** Grades given book by book make a grading of the catalog. */
  lemma GradedBy(s: seq<CatalogBook>, grades: seq<real>)
    requires |grades| == |s| && DistinctBooks(s)
    requires forall k :: 0 <= k < |s| ==> Grade(s[k]) == grades[k]
    ensures KeyedBy(s, KeyOf(s, grades))
  {
    forall k | 0 <= k < |s|
      ensures Grade(s[k]) == KeyOf(s, grades)(s[k])
    {
      GradeInAt(s, grades, k);
    }
  }

  /** A grading of the catalog gives each book its grade. */
  lemma GradesOf(s: seq<CatalogBook>, grades: seq<real>)
    requires |grades| == |s| && DistinctBooks(s) && KeyedBy(s, KeyOf(s, grades))
    ensures forall k :: 0 <= k < |s| ==> Grade(s[k]) == grades[k]
  {
    forall k | 0 <= k < |s|
      ensures Grade(s[k]) == grades[k]
    {
      GradeInAt(s, grades, k);
    }
  }

  /** Grades the catalog as `GradeAll` does; the grades make the grading
      `KeyOf` gives. */
  method GradeCatalog(books: seq<CatalogBook>, ghost shelf: set<Book>, c: BookCriteria, env: Env,
                      encyclopedia: E.EncyclopediaSession, romance: R.RomanceSession, a: Answers)
    requires DistinctBooks(books) && forall k :: 0 <= k < |books| ==> books[k].Book() in shelf
    requires encyclopedia.Valid() && romance.Valid() && a.Accepted()
    modifies shelf`grade, encyclopedia, romance
    ensures encyclopedia.Valid() && romance.Valid()
    ensures var run := old(Run(Snapshots(books), c, env, Session(encyclopedia.State(), romance.State()), a));
            && KeyedBy(books, KeyOf(books, run.grades))
            && Session(encyclopedia.State(), romance.State()) == run.session
  {
    ghost var run := Run(Snapshots(books), c, env, Session(encyclopedia.State(), romance.State()), a);
    GradeAll(books, shelf, c, env, encyclopedia, romance, a);
    GradedBy(books, run.grades);
  }

  /** Sorts the graded catalog and lays out the first five books; the
      grades stay as they are. */
  method Rank(items: array<CatalogBook>, ghost key: Key) returns (top: seq<Row>)
    requires KeyedBy(items[..], key)
    modifies items
    ensures items[..] == SortSpec(old(items[..]), key) && top == TopFive(items[..])
    ensures KeyedBy(old(items[..]), key)
  {
    SortBooks(items, key);
    top := TopFive(items[..]);
  }

  /** The recommendation: every book graded as `Run` grades it, the catalog
      sorted by descending grade as `SortSpec` sorts it, and the table of the
      first five books. `shelf` holds the book records of the catalog. */
  method Recommend(items: array<CatalogBook>, ghost shelf: set<Book>, c: BookCriteria, env: Env,
                   encyclopedia: E.EncyclopediaSession, romance: R.RomanceSession, a: Answers)
    returns (top: seq<Row>)
    requires DistinctBooks(items[..]) && forall k :: 0 <= k < items.Length ==> items[k].Book() in shelf
    requires encyclopedia.Valid() && romance.Valid() && a.Accepted()
    modifies items, shelf`grade, encyclopedia, romance
    ensures encyclopedia.Valid() && romance.Valid()
    ensures var run := old(Run(Snapshots(items[..]), c, env, Session(encyclopedia.State(), romance.State()), a));
            && Session(encyclopedia.State(), romance.State()) == run.session
            && (forall k :: 0 <= k < items.Length ==> Grade(old(items[k])) == run.grades[k])
            && items[..] == SortSpec(old(items[..]), KeyOf(old(items[..]), run.grades))
            && top == TopFive(items[..])
  {
    var input := items[..];
    ghost var run := Run(Snapshots(input), c, env, Session(encyclopedia.State(), romance.State()), a);
    GradeCatalog(input, shelf, c, env, encyclopedia, romance, a);
    top := Rank(items, KeyOf(input, run.grades));
    GradesOf(input, run.grades);
  }
}
