# Book recommender grading and ranking, in Dafny

This project models the grading and ranking engine of a console book
recommender. The user gives an age, a budget, a gender and a few words
about what they want to read. Every catalog book then gets a suitability
grade in [0, 100]. The catalog is sorted by descending grade, and the
first five books are shown.

The model covers these parts of the engine:

- **The criteria record** (`Criteria`): its constructors, its setters and
  its printed form.
- **The book record** (`Books`):
  - the normalising setters: price defaults to 10, year to 2000, the
    identifier must be four letters, a hyphen and four digits, and the
    grade is clamped to [0, 100];
  - the price gate that starts every grading: the baseline grade 10, or 0
    over budget;
  - the comparison by grade;
  - the fuzzy keyword matcher: 15 points per user word that resembles some
    reference word, counted at most once per word.
- **Four genre graders**, each a class whose `CalculateGrade` method is
  proved against a pure function of the book and the criteria:
  - Biography: title rules, a youth bonus and keywords;
  - Encyclopedia: an age floor, then a one-time question about the level of
    education;
  - Science Fiction: theme rules, then weighted relevance terms;
  - Romance: weighted relevance terms, then a one-time mood question.
- **The refinement state.** The program keeps the state of the two
  one-time questions in class-level variables shared by every book of a
  run. Here it is a session object per question (`EncyclopediaSession`,
  `RomanceSession`) passed to each grading call. It carries a ghost count
  of the questions asked, and the user's answers are parameters.
- **The driver** (`Recommender`):
  - the gender check;
  - a run that grades every book once, in load order, sharing the two
    sessions (`GradeAll`, specified by `GradingRun.Run`);
  - the in-place, stable insertion sort by descending grade (`SortBooks`,
    specified by `Ranking.SortSpec`);
  - the table of the first five books (`TopFive`).

Over whole runs, the model proves these properties:

- each question is asked at most once per run;
- every grade lies in [0, 100];
- every eligible encyclopedia and romance reads the verdict of the state
  the run ends in;
- the sort is a permutation, ordered by non-increasing grade, and stable;
- no book left out of the table outranks one shown in it.

Where the code and its own documentation disagree, the model follows the
code. The one exception is a missing keyword file: the graders use the
corrected matcher result, as "## Findings" explains.

## Model

| member | source | states |
|---|---|---|
| `Text.Lower` | main.py:25 | Lower-casing keeps the length and maps each character on its own: ASCII capitals become small letters, every other character is unchanged |
| `Text.LowerIdempotent` | main.py:25 | Lower-casing a lower-cased text changes nothing |
| `Text.LowerAll` | biography.py:72 | The user's words are lower-cased one by one, in order, none added or dropped |
| `Text.Strip` | encyclopedia.py:149-153 | A stripped answer is no longer than what was typed, and it neither starts nor ends with whitespace |
| `Text.StripPadding` | encyclopedia.py:149-153 | Stripping removes exactly the surrounding whitespace and keeps the inner text intact |
| `Text.StripIdempotent` | encyclopedia.py:149-153 | Stripping a stripped answer changes nothing |
| `Text.IntTextRoundTrip` | book_criteria.py:108-111 | An age printed in decimal parses back to the same integer, negative ages included |
| `Criteria.BookCriteria.constructor` | book_criteria.py:24-46 | The four values are stored exactly as given, with no validation |
| `Criteria.BookCriteria.Default` | book_criteria.py:24-31 | With no arguments: age 18, maximum price 100, gender "woman" and the default sci-fi sentence, as words |
| `Criteria.BookCriteria.SetAge` | book_criteria.py:56-63 | Stores the new age unchanged and touches no other field |
| `Criteria.BookCriteria.SetMaxPrice` | book_criteria.py:70-77 | Stores the new maximum price unchanged and touches no other field |
| `Criteria.BookCriteria.SetGender` | book_criteria.py:84-91 | Stores the new gender unchanged and touches no other field |
| `Criteria.BookCriteria.SetInfo` | book_criteria.py:99-106 | Stores the new interests unchanged and touches no other field |
| `Criteria.BookCriteria.ToString` | book_criteria.py:108-111 | The printed form is the four labelled fields, "Age: a, Max Price: p, Gender: g, Info: i"; its length is that of the labels plus the four printed values |
| `Criteria.ToStringShowsAge` | book_criteria.py:108-111 | The printed form starts with "Age: ", and the digits after it parse back to the stored age |
| `Books.MatchCount` | book.py:39-47 | The number of user words with a similar reference word is at most the number of user words, and 0 when there are no reference words |
| `Books.MatchCountAppend` | book.py:39-47 | The count over two lists of user words together is the sum of their counts |
| `Books.MatchCountPermutation` | book.py:38-48 | The count does not depend on the order of the user's words |
| `Books.KeywordCount` | book.py:18-48 | The count for a keyword file never exceeds the number of user words |
| `Books.MatchKeywords` | book.py:18-48 | The nested loops count each user word at most once, at its first reference word with similarity of at least 65. The count equals `KeywordCount`, the increment is 15 times the count, and a missing file gives (0, 0) |
| `Books.MatchKeywordsAsWritten` | book.py:49-56 | As written, the matcher returns a pair exactly when the keyword file exists, and a bare 0 otherwise |
| `Books.MissingFileBreaksUnpacking` | book.py:49-56 | A missing keyword file gives the callers no pair to unpack into increment and count |
| `Books.MissingFileIsNeutral` | book.py:49-56 | The corrected matcher treats a missing file as an empty one, with count 0, and agrees with the code as written whenever the file exists |
| `Books.Clamp` | book.py:172-182 | A stored grade lies in [0, 100]: unchanged inside the range, 100 above it, 0 below it |
| `Books.ClampIdempotent` | book.py:178-182 | Storing a stored grade again leaves it unchanged |
| `Books.ClampMonotone` | book.py:178-182 | Clamping keeps the order of grades |
| `Books.ClampScore` | science_fiction.py:80-85 | An attribute lies in [0, 100]: unchanged inside the range, 100 above it, 0 below it |
| `Books.PriceOrDefault` | book.py:117-124 | A positive price is kept; any other becomes 10, so a stored price is always positive |
| `Books.YearOrDefault` | book.py:131-138 | A positive year is kept; any other becomes 2000, so a stored year is always positive |
| `Books.IsbnCaseInsensitive` | book.py:156-159 | `Books.IsbnFormat` is the pattern: exactly nine characters, four ASCII letters, a hyphen and four ASCII digits. It accepts letters in either case: an identifier is accepted exactly when its lower-cased form is |
| `Books.IsbnExamples` | book.py:156-159 | "ABCD-1234" and "abcd-9012" are accepted. Identifiers without the hyphen, with the letters and digits swapped, with the wrong counts or with digits in the letter part are refused |
| `Books.Book.constructor` | book.py:71-90 | With an identifier of the right format: title, author and identifier are stored as given, and price and year are normalised by their setters |
| `Books.Book.SetPrice` | book.py:117-124 | Stores the price, or 10 for a price that is not positive |
| `Books.Book.SetYear` | book.py:131-138 | Stores the year, or 2000 for a year that is not positive |
| `Books.Book.SetIsbn` | book.py:145-165 | Accepts the new identifier exactly when it has the format, and otherwise keeps the previous one |
| `Books.Book.SetGrade` | book.py:172-182 | Stores the new grade clamped to [0, 100] |
| `Books.Book.Gate` | book.py:194-214 | Eligible exactly when the price is at most the maximum price (equality is eligible). The grade becomes 10 when eligible and 0 otherwise |
| `Books.BelowIsStrictOrder` | book.py:216-231 | `Books.Book.Below` is the `__lt__` comparison: a book is below another exactly when its grade is lower. It is a strict order: irreflexive, asymmetric, transitive. Two books are each not below the other exactly when their grades are equal |
| `BiographyGenre.AgeBonus` | biography.py:98-100 | The youth bonus is 25 exactly for ages 10 to 30, and 0 otherwise |
| `BiographyGenre.Biography.constructor` | biography.py:27-38 | Builds the book record as the book constructor does |
| `BiographyGenre.Biography.Genre` | biography.py:40-47 | The genre is "Biography" |
| `BiographyGenre.Biography.CalculateGrade` | biography.py:49-106 | The new grade is `BiographyGrade` of the title, the price, the criteria and the keyword files, and a valid book stays valid. `BiographyGrade` is 0 over budget, 100 when a title rule fires (`TitleRuleFires`), and otherwise the clamp of 10 + `AgeBonus` + 15 times the keyword count |
| `BiographyGenre.OverBudgetBiography` | biography.py:70 | A biography over budget gets grade 0 |
| `BiographyGenre.TitleRulesAwardFullGrade` | biography.py:75-96 | An affordable biography gets 100 when a title rule fires: "football"/"soccer" with the Rafa title, "sports"/"mentality"/"relentless" with the Relentless title, "tennis" with the Open title. Triggers are exact words, so "sport" does not fire |
| `BiographyGenre.BiographyFormula` | biography.py:98-106 | With no title rule firing, the grade is min(100, 10 + youth bonus + 15 times the keyword count) |
| `BiographyGenre.EligibleBiographyAtLeastBaseline` | biography.py:70-106 | The grade is at least 10 exactly when the biography is affordable, and always lies in [0, 100] |
| `EncyclopediaGenre.ValidationIsExact` | encyclopedia.py:15-55 | `ValidateAnswer` accepts exactly "yes" and "no". `ValidateLevel` accepts exactly the four levels, which are exactly the levels `LevelTitle` maps to a title |
| `EncyclopediaGenre.MatchesEducationLevelExactly` | encyclopedia.py:100-117 | `LevelTitle` maps each of the four levels to its encyclopedia title and any other text to the empty title. `MatchesEducationLevel` compares the book's title with that title, so an unmapped level matches only the empty title, and no title matches two different valid levels |
| `EncyclopediaGenre.MixedCaseRepliesAccepted` | encyclopedia.py:149-171 | Typed answers are stripped and lower-cased before the checks, so "Yes" then " High School " are accepted as "yes" and "high school" |
| `EncyclopediaGenre.EncyclopediaSession.constructor` | encyclopedia.py:74-76 | A run starts not prompted, with no need recorded, an empty level and no question asked |
| `EncyclopediaGenre.EncyclopediaSession.Ask` | encyclopedia.py:142-178 | Asking, which needs a session not yet prompted, marks it prompted and records the need and the normalised level after a "yes". The question count becomes 1 |
| `EncyclopediaGenre.Encyclopedia.constructor` | encyclopedia.py:78-89 | Builds the book record as the book constructor does |
| `EncyclopediaGenre.Encyclopedia.Genre` | encyclopedia.py:91-98 | The genre is "Encyclopedia" |
| `EncyclopediaGenre.Encyclopedia.CalculateGrade` | encyclopedia.py:119-187 | The new grade and the new session state are those of `EncyclopediaStep`, and the session stays valid. `EncyclopediaStep` gives 0 over budget or under age 10. Otherwise it asks the question when `Asks` holds, and grades by `Verdict` of the resulting state |
| `EncyclopediaGenre.IneligibleEncyclopedia` | encyclopedia.py:132-137 | An encyclopedia over budget, or for a reader under 10, gets 0 and leaves the state untouched |
| `EncyclopediaGenre.QuestionAskedOnce` | encyclopedia.py:142-147 | The state changes only when the question is asked: the book is affordable, the reader is old enough, a keyword matches and the question is not yet asked. Asking marks the state prompted, and a prompted state never changes |
| `EncyclopediaGenre.StepKeepsValid` | encyclopedia.py:147-171 | With accepted answers, a recorded need always comes with a prompt and a valid level |
| `EncyclopediaGenre.EligibleEncyclopediaVerdict` | encyclopedia.py:173-187 | While a need is recorded, an eligible encyclopedia gets 100 exactly when its title is mapped from the stored level, and 0 otherwise. Without a need, including after "no" or with no keyword match, it keeps 10 |
| `EncyclopediaGenre.HighSchoolScenario` | encyclopedia.py:142-187 | A 16-year-old whose words match and who answers "Yes" and " High School " gets 100 for the high-school encyclopedia and 0 for the children's one |
| `ScienceFictionGenre.ScienceFiction.constructor` | science_fiction.py:32-60 | Builds the book record, and stores both attributes clamped to [0, 100] |
| `ScienceFictionGenre.ScienceFiction.Genre` | science_fiction.py:110-117 | The genre is "Science Fiction" |
| `ScienceFictionGenre.ScienceFiction.SetScientificAccuracy` | science_fiction.py:71-85 | Stores the scientific accuracy clamped to [0, 100] |
| `ScienceFictionGenre.ScienceFiction.SetActionLevel` | science_fiction.py:97-108 | Stores the action level clamped to [0, 100] |
| `ScienceFictionGenre.ScienceFiction.CalculateGrade` | science_fiction.py:119-171 | The new grade is `ScienceFictionGrade` of the book, its attributes and the criteria, and a valid book stays valid. `ScienceFictionGrade` is 0 over budget, 100 when `ThemeRuleFires`, and otherwise the clamp of 10 + `Relevance` + 15 times the keyword count |
| `ScienceFictionGenre.AttributeClamp` | science_fiction.py:106-108 | A clamped attribute lies in [0, 100], equals the value exactly when the value is in range, and clamping twice is clamping once |
| `ScienceFictionGenre.RelevanceTables` | science_fiction.py:151-160 | Age relevance is 80 up to 18, 100 from 19 to 34 and 60 from 35. Gender relevance is 100 for exactly "man", 80 for exactly "woman" and 70 otherwise, so "Man" gets 70 |
| `ScienceFictionGenre.ScienceFictionShortcuts` | science_fiction.py:132-141 | Over budget the grade is 0. An affordable "Neuromancer" or "Dune" gets 100 when the words include "space", "ai", "robotics" or "future" |
| `ScienceFictionGenre.ScienceFictionFormula` | science_fiction.py:143-171 | Otherwise the grade is the clamp of 10 + (age relevance + gender relevance + accuracy + action) / 10 + 15 times the keyword count |
| `ScienceFictionGenre.NoMatchGradeRange` | science_fiction.py:151-171 | With no keyword match, no theme rule and attributes in range, an affordable science-fiction grade lies in [23, 50] |
| `RomanceGenre.MoodsAreExact` | romance.py:14-27 | `ValidateMood` accepts exactly the four moods, compared exactly. These are exactly the moods `MoodTitle` maps to a romance title; any other text maps to the empty title (the mood map at romance.py lines 148-164). `MatchesMoodToBook` compares the title with that title, so no title suits two different moods |
| `RomanceGenre.RelevanceTables` | romance.py:183-193 | Age relevance is 100 from 10 to 20, 80 from 21 to 30 and 60 otherwise. Gender relevance is 100 for "woman", 80 for "man" and 60 otherwise |
| `RomanceGenre.BaseGradeRange` | romance.py:166-199 | `BaseGrade` is a tenth of the sum of the four relevance terms: age, emotional depth, realism and gender. It lies in [12, 40] for attributes in range |
| `RomanceGenre.RomanceSession.constructor` | romance.py:69-71 | A run starts not prompted, not wanting a romance, with the mood "need a laugh" and no question asked |
| `RomanceGenre.RomanceSession.Ask` | romance.py:220-223 | Asking, which needs a session not yet prompted, records prompted, wanting a romance and the given mood. The question count becomes 1 |
| `RomanceGenre.Romance.constructor` | romance.py:73-94 | Builds the book record, and stores both attributes clamped to [0, 100] |
| `RomanceGenre.Romance.Genre` | romance.py:139-146 | The genre is "Romance" |
| `RomanceGenre.Romance.SetEmotionalDepth` | romance.py:105-116 | Stores the emotional depth clamped to [0, 100] |
| `RomanceGenre.Romance.SetRealism` | romance.py:128-137 | Stores the realism clamped to [0, 100] |
| `RomanceGenre.Romance.CalculateGrade` | romance.py:201-231 | The new grade and the new session state are those of `RomanceStep`, the session stays valid, and a valid book stays valid. `RomanceStep` gives 0 over budget. Otherwise it takes the clamp of 10 + `BaseGrade`, asks the mood question when `Asks` holds, and applies `Verdict`: 40 more for the title that suits the stored mood |
| `RomanceGenre.OverBudgetRomance` | romance.py:213 | A romance over budget gets 0 and leaves the mood state untouched |
| `RomanceGenre.QuestionAskedOnce` | romance.py:220-223 | The state changes only when the question is asked: the book is affordable, a keyword matches and the question is not yet asked. Asking marks the state prompted, a prompted state never changes, and "wants a romance" equals "prompted" throughout |
| `RomanceGenre.EligibleRomanceGrade` | romance.py:213-231 | An affordable romance gets 10 plus its base grade, plus 40 exactly when the user wants a romance and the title suits the stored mood. The grade lies in [22, 90], so the clamp never applies |
| `Catalog.GradeBook` | main.py:95-96 | Grading a catalog book applies its genre's formula. The grade and the session state are those of `GradeEntry`, and no other book's grade changes |
| `Catalog.GradeInRange` | main.py:95-96 | Every genre grades within [0, 100], and any book over budget gets 0 |
| `Catalog.StepTouchesOwnGenre` | encyclopedia.py:74-76 | Grading a book changes only its own genre's part of the shared state (the romance part likewise, at romance.py lines 69-71), and keeps a valid state valid |
| `GradingRun.Run` | main.py:95-96 | A run gives one grade per book, grading the books in load order and threading the shared state from each book to the next |
| `GradingRun.RunUnfold` | main.py:95-96 | Grading one more book appends its grade and moves the state on |
| `GradingRun.RunPrefix` | main.py:95-96 | Grading more books never changes the grades already given |
| `GradingRun.RunGradeAt` | main.py:95-96 | Each book is graded exactly once, by its genre's formula, with the state the books loaded before it left |
| `GradingRun.RunGradesInRange` | main.py:95-96 | Every grade of a run lies in [0, 100], and every book over budget gets 0 |
| `GradingRun.RunKeepsValid` | main.py:95-96 | A run with accepted answers keeps both parts of the state valid |
| `GradingRun.StepFreezesAsked` | encyclopedia.py:142-147 | Once a question is asked, no grading changes that question's part of the state |
| `GradingRun.PromptsAtMostOnce` | romance.py:220-223 | Over a whole run, each question is asked at most once: exactly once when it was not asked before and is asked after. An asked question's part never changes again |
| `GradingRun.StepSettles` | encyclopedia.py:180-187 | A settled part of the state stays put. An eligible book leaves its genre's part settled and gets the verdict of the state it leaves |
| `GradingRun.SettledStaysPut` | encyclopedia.py:142-147 | Once a part of the state is settled, no later book of the run changes it |
| `GradingRun.UniformRefinement` | romance.py:225-231 | Every eligible encyclopedia and romance of a run gets the verdict of the final state, whether it was graded before or after the question |
| `Ranking.InsertPermutes` | main.py:86 | Inserting a book into the sorted prefix adds that book and loses none |
| `Ranking.InsertSorted` | main.py:86 | Inserting into a sequence sorted by descending grade keeps it sorted |
| `Ranking.InsertStable` | main.py:86 | The inserted book goes after every earlier book of its grade, and the books of each grade keep their order |
| `Ranking.SortSpecSorted` | main.py:80-86 | The sorted catalog is ordered by non-increasing grade and is a permutation of the input |
| `Ranking.SortSpecStable` | main.py:86 | The sort is stable: the books of each grade keep their load order |
| `Ranking.SortBooks` | main.py:80-86 | Sorting in place with comparison by grade leaves the array equal to the stable descending sort of its old contents, and no grade changes |
| `Ranking.Rows` | main.py:103-111 | One row per book, in order, numbered on from the first number, showing title, author, year, genre, price, identifier and grade |
| `Ranking.TopFive` | main.py:103-111 | The table has the first five books, or all of them if there are fewer, numbered from 1 |
| `Ranking.TopFiveShowsBest` | main.py:99-111 | After the sort, no book left out of the table has a higher grade than a book shown in it |
| `Recommender.ValidateGenderIgnoresCase` | main.py:15-28 | `Recommender.ValidateGender` lower-cases the gender and looks it up in the three valid genders, so it accepts exactly "man", "woman" and "other" in any letter case |
| `Recommender.CapitalisedGenderGradedAsOther` | main.py:66 | "Man" passes the check but is stored as typed. The graders compare it exactly, so it gets the "other" relevance: 70 rather than 100 for science fiction, and 60 rather than 80 for romance |
| `Recommender.GradeOne` | main.py:95-96 | Grading the i-th catalog book gives it its `GradeEntry` grade and state, and no other book's grade changes |
| `Recommender.GradeAt` | main.py:95-96 | As `GradeOne`, and no later book's title, price or attributes change |
| `Recommender.GradeNext` | main.py:95-96 | One loop step: if the first i books carry their `Run` grades and the sessions hold `Run`'s state, then the same holds for the first i + 1 books |
| `Recommender.GradeAll` | main.py:95-96 | Grading every book in load order leaves each book with the grade `Run` gives it, and leaves the sessions in `Run`'s final state |
| `Recommender.GradedBy` | main.py:95-96 | The grades given book by book define a grading of the whole catalog |
| `Recommender.GradesOf` | main.py:95-99 | The grading the sort reads gives each book exactly its run grade |
| `Recommender.GradeCatalog` | main.py:95-96 | After grading, the catalog's grades are the grading `Run` defines, and the sessions hold `Run`'s final state |
| `Recommender.Rank` | main.py:99-111 | The catalog is left stably sorted by descending grade, and the table is its first five books |
| `Recommender.Recommend` | main.py:89-111 | Every book is graded once, in load order, as `Run` grades it. The catalog is then stably sorted by those grades, and the table shows its first five books |

## Left out

- Console input and its retry loops (the mood prompt, the encyclopedia answer and level prompts, the user-preference prompts) are not modelled. The answers are parameters: the mood and the reply lines as typed, already accepted by the checks.
- All printed output other than the criteria's printed form, the `tabulate` display and `Book.__str__` are not modelled. The table rows carry the raw price and grade, not their formatted text.
- The bookstore's inventory reading (the file format, the text-to-number conversion and the exit on error) is not part of this model. The catalog is given as an array of books.
- The keyword files are an `Env` map from file name to words, so file access is not modelled. The fuzzy-matching library's `ratio` is a parameter function with values in 0..100.
- Python floating point is not modelled. Prices and grades are `real`, and the 0.1 weights are exact tenths.
- The identifier pattern is modelled for ASCII only. A trailing newline, which `re.match` with `$` admits, and Unicode digits are not.
- Lower-casing and stripping are modelled for ASCII only. Lower-casing maps ASCII letters, not Unicode case. Stripping removes the ASCII characters the host language counts as whitespace (space, tab, line feed, carriage return, vertical tab, form feed and the separators 1C-1F), not non-ASCII whitespace.
- Criteria.BookCriteria.ToString: the printed forms of the maximum price and of the interests are parameters, because the host language's number and list formatting is not modelled. Only the age's decimal text is derived from the record.
- Books.MatchKeywords: a missing keyword file gives the corrected (0, 0), and every grader and `Run` use that result. The code as written returns a bare 0 that its callers cannot unpack (see "## Findings" and `Books.MatchKeywordsAsWritten`).
- The title and author setters store their values unchanged, and the model writes those fields directly.
- The grade is set to 0 at construction. The source leaves it unset until grading, and grading always sets it before it is read.
- Books.Book.constructor: a malformed identifier is a precondition here. The source prints the error and exits; `SetIsbn` models the refusing setter, with a result flag instead of the exception.
- The type check in `__lt__` is not modelled. Every catalog book is a `Book`, so the comparison is always by grade.
- The default interests are a sentence string in the source; grading would then iterate its characters. The model stores them as words, the form the console session supplies.
- The fiction and non-fiction base classes are not modelled. Each genre class holds its book record, and `CatalogBook` dispatches to the genre.
- Recommender.Recommend: requires each catalog entry to have its own book record (the loader creates one per line), and takes the set of those records as a ghost parameter naming what grading may modify.
- The genre `CalculateGrade` methods do not require a valid book. They only promise that a valid book stays valid.

## Findings

| source | as written | input that shows it | evidently intended | confidence | as-written member | corrected member |
|---|---|---|---|---|---|---|
| book.py:49-56 | When the keyword file is missing, the matcher returns a bare `0`, but every caller unpacks two values | a run whose biography keyword file is absent | A missing file counts as no match and returns the pair (0, 0) | not executed | `Books.MissingFileBreaksUnpacking` | `Books.MissingFileIsNeutral` |
