/** The book record shared by every genre: its normalising setters, the price
    gate that starts every grading, the ordering by grade, and the fuzzy
    keyword matcher the genre graders use. */
module Books {
  import opened Text
  import opened Criteria

  /** A fuzzy similarity score, on a 0..100 scale. */
  type Similarity = x: int | 0 <= x <= 100

  /** What grading consults outside the catalog: the keyword files, as the
      words each file holds (a missing name is a missing file), and the fuzzy
      string-similarity function of the matching library. */
  datatype Env = Env(files: map<string, seq<string>>, ratio: (string, string) -> Similarity)

  /** A user word matches a reference word when their similarity reaches this. */
  const MatchThreshold: int := 65
  /** Grade points per matched user word. */
  const PointsPerMatch: int := 15
  /** The grade every affordable book starts from. */
  const BaselineGrade: real := 10.0
  const DefaultPrice: real := 10.0
  const DefaultYear: int := 2000

  // ---------------------------------------------------------------------------
  // Keyword matching

  /** Some reference word is similar enough to `token`. */
  predicate HasSimilar(token: string, words: seq<string>, ratio: (string, string) -> Similarity)
  {
    exists w :: w in words && ratio(token, w) >= MatchThreshold
  }

  /** The number of user tokens that have a similar reference word; each token
      counts at most once however many reference words it resembles. */
  function MatchCount(tokens: seq<string>, words: seq<string>, ratio: (string, string) -> Similarity): (n: nat)
    ensures n <= |tokens|
    ensures n == 0 <== words == []
  {
    if tokens == [] then 0
    else
      MatchCount(tokens[..|tokens| - 1], words, ratio)
        + (if HasSimilar(tokens[|tokens| - 1], words, ratio) then 1 else 0)
  }

  lemma {:induction false} MatchCountAppend(a: seq<string>, b: seq<string>, words: seq<string>, ratio: (string, string) -> Similarity)
    ensures MatchCount(a + b, words, ratio) == MatchCount(a, words, ratio) + MatchCount(b, words, ratio)
    decreases |b|
  {
    if b != [] {
      var b' := b[..|b| - 1];
      assert (a + b)[..|a + b| - 1] == a + b';
      assert (a + b)[|a + b| - 1] == b[|b| - 1];
      MatchCountAppend(a, b', words, ratio);
    } else {
      assert a + b == a;
    }
  }

  /** The count is the number of matching tokens, whatever their order. */
  lemma {:induction false} MatchCountPermutation(s: seq<string>, t: seq<string>, words: seq<string>, ratio: (string, string) -> Similarity)
    requires multiset(s) == multiset(t)
    ensures MatchCount(s, words, ratio) == MatchCount(t, words, ratio)
    decreases |s|
  {
    if s == [] {
      assert |t| == |multiset(t)| == 0;
    } else {
      var x := s[|s| - 1];
      var s' := s[..|s| - 1];
      assert s == s' + [x];
      assert x in multiset(t);
      var k :| 0 <= k < |t| && t[k] == x;
      var t' := t[..k] + t[k + 1..];
      assert t == t[..k] + [x] + t[k + 1..];
      assert multiset(s) == multiset(s') + multiset{x};
      assert multiset(t) == multiset(t[..k]) + multiset{x} + multiset(t[k + 1..]);
      assert multiset(t') == multiset(t[..k]) + multiset(t[k + 1..]);
      assert multiset(s') == multiset(s) - multiset{x};
      assert multiset(t') == multiset(t) - multiset{x};
      MatchCountPermutation(s', t', words, ratio);
      MatchCountAppend(s', [x], words, ratio);
      MatchCountAppend(t[..k] + [x], t[k + 1..], words, ratio);
      MatchCountAppend(t[..k], [x], words, ratio);
      MatchCountAppend(t[..k], t[k + 1..], words, ratio);
    }
  }

  /** Exact membership of some trigger word among the user's words. */
  predicate MentionsAny(triggers: seq<string>, tokens: seq<string>)
  {
    exists k :: k in triggers && k in tokens
  }

  /** A file's words, lower-cased as the matcher reads them. */
  function FileKeywords(env: Env, fileName: string): seq<string>
    requires fileName in env.files
  {
    LowerAll(env.files[fileName])
  }

  /** The match count for a keyword file; a missing file matches nothing. */
  function KeywordCount(env: Env, fileName: string, tokens: seq<string>): (n: nat)
    ensures n <= |tokens|
  {
    if fileName in env.files then MatchCount(tokens, FileKeywords(env, fileName), env.ratio) else 0
  }

  /** Matches the user's words against the reference words of a keyword file:
      each user word scores 15 points and one match at its first similar
      reference word. A missing file yields the neutral result (0, 0). */
  method MatchKeywords(fileName: string, userKeywords: seq<string>, env: Env) returns (increment: int, count: int)
    ensures count == KeywordCount(env, fileName, userKeywords)
    ensures increment == PointsPerMatch * count
  {
    if fileName !in env.files {
      return 0, 0;
    }
    var fileKeywords := LowerAll(env.files[fileName]);
    increment, count := 0, 0;
    for i := 0 to |userKeywords|
      invariant count == MatchCount(userKeywords[..i], fileKeywords, env.ratio)
      invariant increment == PointsPerMatch * count
    {
      var userKeyword := userKeywords[i];
      var j := 0;
      while j < |fileKeywords|
        invariant 0 <= j <= |fileKeywords|
        invariant count == MatchCount(userKeywords[..i], fileKeywords, env.ratio)
        invariant increment == PointsPerMatch * count
        invariant forall k :: 0 <= k < j ==> env.ratio(userKeyword, fileKeywords[k]) < MatchThreshold
      {
        if env.ratio(userKeyword, fileKeywords[j]) >= MatchThreshold {
          increment := increment + PointsPerMatch;
          count := count + 1;
          break;
        }
        j := j + 1;
      }
      assert userKeywords[..i + 1][..i] == userKeywords[..i];
    }
    assert userKeywords[..|userKeywords|] == userKeywords;
  }

  /** What the matcher returns as written: a pair on success, a bare zero
      when the keyword file is missing. */
  datatype MatchReturn = Pair(increment: int, count: int) | BareZero

  function MatchKeywordsAsWritten(fileName: string, userKeywords: seq<string>, env: Env): (r: MatchReturn)
    ensures r.Pair? <==> fileName in env.files
  {
    if fileName in env.files then
      var n := MatchCount(userKeywords, FileKeywords(env, fileName), env.ratio);
      Pair(PointsPerMatch * n, n)
    else
      BareZero
  }

  /** The callers unpack the result into two names; a missing file gives them
      nothing to unpack, so grading stops with an error instead of going on
      without the keyword bonus. */
  lemma MissingFileBreaksUnpacking(userKeywords: seq<string>, env: Env)
    requires "Biography_Keywords.txt" !in env.files
    ensures !MatchKeywordsAsWritten("Biography_Keywords.txt", userKeywords, env).Pair?
  {
  }

  /** The corrected matcher treats a missing file as an empty one: the same
      result as a file with no reference words, and it agrees with the code as
      written whenever the file exists. */
  lemma MissingFileIsNeutral(fileName: string, userKeywords: seq<string>, env: Env)
    ensures fileName !in env.files ==>
              KeywordCount(env, fileName, userKeywords)
                == KeywordCount(env.(files := env.files[fileName := []]), fileName, userKeywords) == 0
    ensures fileName in env.files ==>
              MatchKeywordsAsWritten(fileName, userKeywords, env)
                == Pair(PointsPerMatch * KeywordCount(env, fileName, userKeywords),
                        KeywordCount(env, fileName, userKeywords))
  {
  }

  // ---------------------------------------------------------------------------
  // Normalising setters

  /** A stored grade always lies in [0, 100]. */
  function Clamp(g: real): (r: real)
    ensures 0.0 <= r <= 100.0
    ensures 0.0 <= g <= 100.0 ==> r == g
    ensures g > 100.0 ==> r == 100.0
    ensures g < 0.0 ==> r == 0.0
  {
    if 0.0 <= g <= 100.0 then g else if g > 100.0 then 100.0 else 0.0
  }

  /** Re-storing a stored grade changes nothing. */
  lemma ClampIdempotent(g: real)
    ensures Clamp(Clamp(g)) == Clamp(g)
  {
  }

  /** Clamping never reverses the order of two grades. */
  lemma ClampMonotone(g: real, h: real)
    requires g <= h
    ensures Clamp(g) <= Clamp(h)
  {
  }

  /** A genre attribute always lies in [0, 100]. */
  function ClampScore(v: int): (r: int)
    ensures 0 <= r <= 100
    ensures 0 <= v <= 100 ==> r == v
    ensures v > 100 ==> r == 100
    ensures v < 0 ==> r == 0
  {
    if v < 0 then 0 else if v > 100 then 100 else v
  }

  /** A non-positive price is replaced by the default price. */
  function PriceOrDefault(p: real): (r: real)
    ensures r > 0.0
    ensures p > 0.0 ==> r == p
    ensures p <= 0.0 ==> r == DefaultPrice
  {
    if p > 0.0 then p else DefaultPrice
  }

  /** A non-positive year is replaced by the default year. */
  function YearOrDefault(y: int): (r: int)
    ensures r > 0
    ensures y > 0 ==> r == y
    ensures y <= 0 ==> r == DefaultYear
  {
    if y > 0 then y else DefaultYear
  }

  /** Four ASCII letters of either case, a hyphen, four ASCII digits. */
  predicate IsbnFormat(s: string)
  {
    && |s| == 9
    && (forall i :: 0 <= i < 4 ==> IsAsciiLetter(s[i]))
    && s[4] == '-'
    && (forall i :: 5 <= i < 9 ==> IsAsciiDigit(s[i]))
  }

  /** The letters may be of either case: lower-casing an identifier neither
      makes nor breaks its format. */
  lemma IsbnCaseInsensitive(s: string)
    ensures IsbnFormat(s) <==> IsbnFormat(Lower(s))
  {
    var l := Lower(s);
    if |s| == 9 {
      assert forall i :: 0 <= i < 9 ==> l[i] == LowerChar(s[i]);
      if IsbnFormat(l) {
        assert s[4] == '-' by { assert LowerChar(s[4]) == '-'; }
        forall i | 5 <= i < 9 ensures IsAsciiDigit(s[i]) {
          assert IsAsciiDigit(LowerChar(s[i]));
        }
      }
    }
  }

  /** Identifiers accepted and refused by the format. */
  lemma IsbnExamples()
    ensures IsbnFormat("ABCD-1234") && IsbnFormat("abcd-9012") && IsbnFormat("WXYZ-5678")
    ensures !IsbnFormat("ABCD1234") && !IsbnFormat("1234-ABCD") && !IsbnFormat("AB-123456")
    ensures !IsbnFormat("ABCD-123") && !IsbnFormat("1234-5678") && !IsbnFormat("AB12-3456")
  {
    assert !IsAsciiLetter("1234-ABCD"[0]) && !IsAsciiLetter("1234-5678"[0]);
    assert !IsAsciiLetter("AB12-3456"[2]);
  }

  // ---------------------------------------------------------------------------
  // The book record

  class Book {
    var title: string
    var author: string
    var price: real
    var year: int
    var isbn: string
    var grade: real

    /** What the setters guarantee of every book. */
    ghost predicate Valid()
      reads this
    {
      price > 0.0 && year > 0 && IsbnFormat(isbn) && 0.0 <= grade <= 100.0
    }

    /** The state a freshly constructed book is in. */
    ghost predicate Initialised(title: string, author: string, price: real, year: int, isbn: string)
      reads this
    {
      && Valid()
      && this.title == title && this.author == author && this.isbn == isbn
      && this.price == PriceOrDefault(price) && this.year == YearOrDefault(year)
      && grade == 0.0
    }

    /** A well-formed identifier is required: construction with a malformed
        one ends the program. */
    constructor (title: string, author: string, price: real, year: int, isbn: string)
      requires IsbnFormat(isbn)
      ensures Initialised(title, author, price, year, isbn)
    {
      this.title := title;
      this.author := author;
      this.price := PriceOrDefault(price);
      this.year := YearOrDefault(year);
      this.isbn := isbn;
      this.grade := 0.0;
    }

    method SetPrice(newPrice: real)
      modifies this`price
      ensures price == PriceOrDefault(newPrice)
    {
      price := if newPrice > 0.0 then newPrice else DefaultPrice;
    }

    method SetYear(newYear: int)
      modifies this`year
      ensures year == YearOrDefault(newYear)
    {
      year := if newYear > 0 then newYear else DefaultYear;
    }

    /** Stores a well-formed identifier; a malformed one is refused (`ok` is
        false) and the previous identifier stays. */
    method SetIsbn(newIsbn: string) returns (ok: bool)
      modifies this`isbn
      ensures ok == IsbnFormat(newIsbn)
      ensures isbn == if ok then newIsbn else old(isbn)
    {
      ok := IsbnFormat(newIsbn);
      if ok {
        isbn := newIsbn;
      }
    }

    method SetGrade(newGrade: real)
      modifies this`grade
      ensures grade == Clamp(newGrade)
    {
      grade := if 0.0 <= newGrade <= 100.0 then newGrade else if newGrade > 100.0 then 100.0 else 0.0;
    }

    /** The price gate that starts every grading: an affordable book gets the
        baseline grade and may be graded further; one over budget gets 0. */
    method Gate(c: BookCriteria) returns (eligible: bool)
      modifies this`grade
      ensures eligible <==> price <= c.maxPrice
      ensures grade == if eligible then BaselineGrade else 0.0
    {
      if price > c.maxPrice {
        SetGrade(0.0);
        eligible := false;
      } else {
        SetGrade(BaselineGrade);
        eligible := true;
      }
    }

    /** One book ranks below another when its grade is lower. */
    predicate Below(other: Book)
      reads this, other
    {
      grade < other.grade
    }
  }

  /** Ranking below is a strict order in which books of equal grade are
      unordered. */
  lemma BelowIsStrictOrder(a: Book, b: Book, c: Book)
    ensures !a.Below(a)
    ensures a.Below(b) ==> !b.Below(a)
    ensures a.Below(b) && b.Below(c) ==> a.Below(c)
    ensures a.grade == b.grade ==> !a.Below(b) && !b.Below(a)
    ensures !a.Below(b) && !b.Below(a) ==> a.grade == b.grade
  {
  }
}
