/** Ranking the graded catalog: a stable sort by descending grade, and the
    first five books of the result as the rows shown to the user. */
module Ranking {
  import opened Books
  import opened Catalog

  /** The book records of the catalog books of `s`. */
  ghost function BooksOf(s: seq<CatalogBook>): set<Book>
  {
    set x | x in s :: x.Book()
  }

  function Grade(x: CatalogBook): real
    reads x.Book()
  {
    x.Book().grade
  }

  /** A grading of the catalog books: what each book's grade is. */
  type Key = CatalogBook -> real

  /** The grades of the books of `s` are given by `key`. */
  ghost predicate KeyedBy(s: seq<CatalogBook>, key: Key)
    reads BooksOf(s)
  {
    forall k :: 0 <= k < |s| ==> Grade(s[k]) == key(s[k])
  }

  /** Ordered by non-increasing grade. */
  ghost predicate SortedDesc(s: seq<CatalogBook>, key: Key)
  {
    forall i, j :: 0 <= i < j < |s| ==> key(s[i]) >= key(s[j])
  }

  /** `x` alone if its grade is `g`, nothing otherwise. */
  ghost function Pick(x: CatalogBook, key: Key, g: real): seq<CatalogBook>
  {
    if key(x) == g then [x] else []
  }

  /** The books of `s` whose grade is `g`, in their order in `s`. */
  ghost function WithGrade(s: seq<CatalogBook>, key: Key, g: real): seq<CatalogBook>
  {
    if s == [] then [] else Pick(s[0], key, g) + WithGrade(s[1..], key, g)
  }

  /** `x` placed before the first book of `s` with a lower grade, that is,
      after every book whose grade is at least its own. */
  ghost function Insert(x: CatalogBook, s: seq<CatalogBook>, key: Key): seq<CatalogBook>
  {
    if s == [] then [x]
    else if key(s[0]) < key(x) then [x] + s
    else [s[0]] + Insert(x, s[1..], key)
  }

  /** Insertion sort by descending grade: each book, in order, inserted into
      the sorted books before it. */
  ghost function SortSpec(s: seq<CatalogBook>, key: Key): seq<CatalogBook>
  {
    if s == [] then []
    else Insert(s[|s| - 1], SortSpec(s[..|s| - 1], key), key)
  }

  /** Inserting adds `x` and loses nothing. */
  lemma {:induction false} InsertPermutes(x: CatalogBook, s: seq<CatalogBook>, key: Key)
    ensures multiset(Insert(x, s, key)) == multiset(s) + multiset{x}
    decreases |s|
  {
    if s != [] && key(s[0]) >= key(x) {
      InsertPermutes(x, s[1..], key);
      assert s == [s[0]] + s[1..];
    }
  }

  lemma {:induction false} InsertSorted(x: CatalogBook, s: seq<CatalogBook>, key: Key)
    requires SortedDesc(s, key)
    ensures SortedDesc(Insert(x, s, key), key)
    decreases |s|
  {
    if s != [] && key(s[0]) >= key(x) {
      var rest := Insert(x, s[1..], key);
      InsertSorted(x, s[1..], key);
      InsertPermutes(x, s[1..], key);
      forall y | y in rest
        ensures key(s[0]) >= key(y)
      {
        assert y in multiset(rest);
      }
    }
  }

  lemma WithGradeSingle(x: CatalogBook, key: Key, g: real)
    ensures WithGrade([x], key, g) == Pick(x, key, g)
  {
    assert [x][1..] == [];
  }

  lemma {:induction false} WithGradeAppend(s: seq<CatalogBook>, t: seq<CatalogBook>, key: Key, g: real)
    ensures WithGrade(s + t, key, g) == WithGrade(s, key, g) + WithGrade(t, key, g)
    decreases |s|
  {
    if s == [] {
      assert s + t == t;
    } else {
      var u := s + t;
      assert u != [] && u[0] == s[0] && u[1..] == s[1..] + t;
      WithGradeAppend(s[1..], t, key, g);
      assert WithGrade(u, key, g) == Pick(s[0], key, g) + WithGrade(s[1..] + t, key, g);
    }
  }

  lemma {:induction false} WithGradeNone(s: seq<CatalogBook>, key: Key, g: real)
    requires forall k :: 0 <= k < |s| ==> key(s[k]) != g
    ensures WithGrade(s, key, g) == []
    decreases |s|
  {
    if s != [] {
      WithGradeNone(s[1..], key, g);
    }
  }

  /** Inserting into a sorted sequence keeps the books of each grade in
      order, with the inserted book last among those of its grade. */
  lemma {:induction false} InsertStable(x: CatalogBook, s: seq<CatalogBook>, key: Key, g: real)
    requires SortedDesc(s, key)
    ensures WithGrade(Insert(x, s, key), key, g) == WithGrade(s, key, g) + Pick(x, key, g)
    decreases |s|
  {
    if s == [] {
      WithGradeSingle(x, key, g);
    } else if key(s[0]) < key(x) {
      assert Insert(x, s, key) == [x] + s;
      WithGradeAppend([x], s, key, g);
      WithGradeSingle(x, key, g);
      if key(x) == g {
        WithGradeNone(s, key, g);
      }
    } else {
      var rest := Insert(x, s[1..], key);
      assert Insert(x, s, key) == [s[0]] + rest;
      assert SortedDesc(s[1..], key);
      InsertStable(x, s[1..], key, g);
      WithGradeAppend([s[0]], rest, key, g);
      WithGradeSingle(s[0], key, g);
      assert WithGrade(s, key, g) == Pick(s[0], key, g) + WithGrade(s[1..], key, g);
    }
  }

  lemma SplitLast(s: seq<CatalogBook>)
    requires s != []
    ensures s == s[..|s| - 1] + [s[|s| - 1]]
  {
  }

  /** The result is sorted by non-increasing grade and is a permutation. */
  lemma {:induction false} SortSpecSorted(s: seq<CatalogBook>, key: Key)
    ensures SortedDesc(SortSpec(s, key), key) && multiset(SortSpec(s, key)) == multiset(s)
    decreases |s|
  {
    if s != [] {
      SortSpecSorted(s[..|s| - 1], key);
      InsertSorted(s[|s| - 1], SortSpec(s[..|s| - 1], key), key);
      InsertPermutes(s[|s| - 1], SortSpec(s[..|s| - 1], key), key);
      SplitLast(s);
    }
  }

  /** The sort is stable: the books of each grade keep their order. */
  lemma {:induction false} SortSpecStable(s: seq<CatalogBook>, key: Key, g: real)
    ensures WithGrade(SortSpec(s, key), key, g) == WithGrade(s, key, g)
    decreases |s|
  {
    if s != [] {
      var prefix := s[..|s| - 1];
      var x := s[|s| - 1];
      SplitLast(s);
      WithGradeAppend(prefix, [x], key, g);
      SortSpecStable(prefix, key, g);
      SortSpecSorted(prefix, key);
      InsertStable(x, SortSpec(prefix, key), key, g);
      WithGradeSingle(x, key, g);
    }
  }

  /** Where the inner loop of the sort stops is where Insert puts the book. */
  lemma {:induction false} InsertAt(x: CatalogBook, p: seq<CatalogBook>, key: Key, j: nat)
    requires SortedDesc(p, key) && j <= |p|
    requires forall k :: j <= k < |p| ==> key(p[k]) < key(x)
    requires j > 0 ==> key(p[j - 1]) >= key(x)
    ensures Insert(x, p, key) == p[..j] + [x] + p[j..]
    decreases j
  {
    if j == 0 {
      assert p[..0] + [x] + p[0..] == [x] + p;
    } else {
      var tail := p[1..];
      assert key(p[0]) >= key(x) by {
        assert key(p[0]) >= key(p[j - 1]) || j - 1 == 0;
      }
      assert Insert(x, p, key) == [p[0]] + Insert(x, tail, key);
      assert SortedDesc(tail, key) by {
        forall i, i' | 0 <= i < i' < |tail| ensures key(tail[i]) >= key(tail[i']) {
          assert tail[i] == p[i + 1] && tail[i'] == p[i' + 1];
        }
      }
      assert forall k :: j - 1 <= k < |tail| ==> key(tail[k]) < key(x) by {
        forall k | j - 1 <= k < |tail| ensures key(tail[k]) < key(x) {
          assert tail[k] == p[k + 1];
        }
      }
      assert j - 1 > 0 ==> key(tail[j - 2]) >= key(x) by {
        if j - 1 > 0 {
          assert tail[j - 2] == p[j - 1];
        }
      }
      InsertAt(x, tail, key, j - 1);
      assert p[..j] == [p[0]] + tail[..j - 1];
      assert p[j..] == tail[j - 1..];
    }
  }

  /** The inner loop of the sort: shifts the books of `a[..i]` graded below
      `x` one place up, from the end, and returns the place left free. */
  method ShiftLower(a: array<CatalogBook>, i: nat, x: CatalogBook, ghost key: Key) returns (j: nat)
    requires i < a.Length
    requires KeyedBy(a[..i], key) && Grade(x) == key(x)
    modifies a
    ensures j <= i
    ensures forall k :: 0 <= k < j ==> a[k] == old(a[k])
    ensures forall k :: j < k <= i ==> a[k] == old(a[k - 1])
    ensures forall k :: i < k < a.Length ==> a[k] == old(a[k])
    ensures forall k :: j <= k < i ==> key(old(a[k])) < key(x)
    ensures j > 0 ==> key(old(a[j - 1])) >= key(x)
  {
    ghost var before := a[..];
    j := i;
    while j > 0 && a[j - 1].Book().Below(x.Book())
      invariant 0 <= j <= i
      invariant forall k :: 0 <= k < j ==> a[k] == before[k]
      invariant forall k :: j < k <= i ==> a[k] == before[k - 1]
      invariant forall k :: i < k < a.Length ==> a[k] == before[k]
      invariant forall k :: j <= k < i ==> key(before[k]) < key(x)
    {
      assert Grade(before[j - 1]) == key(before[j - 1]);
      a[j] := a[j - 1];
      j := j - 1;
    }
    if j > 0 {
      assert Grade(before[j - 1]) == key(before[j - 1]);
    }
  }

  /** Moves `a[i]` back past the books of lower grade before it. */
  method InsertInto(a: array<CatalogBook>, i: nat, ghost key: Key)
    requires i < a.Length
    requires SortedDesc(a[..i], key)
    requires KeyedBy(a[..i + 1], key)
    modifies a
    ensures a[..i + 1] == Insert(old(a[i]), old(a[..i]), key)
    ensures a[i + 1..] == old(a[i + 1..])
  {
    ghost var before := a[..];
    ghost var sorted := a[..i];
    var x := a[i];
    assert Grade(x) == key(x) by { assert x == a[..i + 1][i]; }
    assert KeyedBy(a[..i], key) by { assert forall k :: 0 <= k < i ==> a[..i][k] == a[..i + 1][k]; }
    var j := ShiftLower(a, i, x, key);
    a[j] := x;
    InsertAt(x, sorted, key, j);
    assert a[..i + 1] == sorted[..j] + [x] + sorted[j..];
    assert a[i + 1..] == before[i + 1..];
  }

  /** Every book of `t` is a book of `s`, so its grade is given by `key` too. */
  lemma KeyedByMembers(s: seq<CatalogBook>, t: seq<CatalogBook>, key: Key)
    requires KeyedBy(s, key)
    requires forall y :: y in t ==> y in s
    ensures KeyedBy(t, key)
  {
    forall k | 0 <= k < |t|
      ensures Grade(t[k]) == key(t[k])
    {
      assert t[k] in s;
      var m :| 0 <= m < |s| && s[m] == t[k];
    }
  }

  /** One step of the sort: the books sorted so far followed by the next one
      are books of the input, and the sorted part is sorted. */
  lemma SortStep(input: seq<CatalogBook>, i: nat, key: Key)
    requires i < |input| && KeyedBy(input, key)
    ensures KeyedBy(SortSpec(input[..i], key) + [input[i]], key)
    ensures SortedDesc(SortSpec(input[..i], key), key)
  {
    var sorted := SortSpec(input[..i], key);
    SortSpecSorted(input[..i], key);
    forall y | y in sorted + [input[i]]
      ensures y in input
    {
      if y in sorted {
        assert y in multiset(sorted);
        assert y in input[..i];
      }
    }
    KeyedByMembers(input, sorted + [input[i]], key);
  }

  lemma SortSpecSnoc(input: seq<CatalogBook>, i: nat, key: Key)
    requires i < |input|
    ensures SortSpec(input[..i + 1], key) == Insert(input[i], SortSpec(input[..i], key), key)
  {
    assert input[..i + 1][..i] == input[..i];
  }

  /** One pass of the outer loop of the sort: the next book of the input
      joins the sorted prefix. */
  method PlaceNext(a: array<CatalogBook>, i: nat, ghost input: seq<CatalogBook>, ghost key: Key)
    requires i < a.Length == |input|
    requires a[..i] == SortSpec(input[..i], key) && a[i..] == input[i..]
    requires KeyedBy(input, key)
    modifies a
    ensures a[..i + 1] == SortSpec(input[..i + 1], key) && a[i + 1..] == input[i + 1..]
  {
    ghost var sorted := SortSpec(input[..i], key);
    assert a[..i + 1] == sorted + [input[i]] by {
      assert a[i] == input[i] by { assert a[i..][0] == input[i..][0]; }
    }
    assert SortedDesc(a[..i], key) && KeyedBy(a[..i + 1], key) by {
      SortStep(input, i, key);
    }
    assert a[i + 1..] == input[i + 1..];
    InsertInto(a, i, key);
    SortSpecSnoc(input, i, key);
  }

  /** Sorts the catalog in place by descending grade, comparing books as
      `Below` does and keeping books of equal grade in their order; `key` is
      the grading the books carry. */
  method SortBooks(a: array<CatalogBook>, ghost key: Key)
    requires KeyedBy(a[..], key)
    modifies a
    ensures a[..] == SortSpec(old(a[..]), key)
    ensures KeyedBy(old(a[..]), key)
  {
    ghost var input := a[..];
    for i := 0 to a.Length
      invariant a[..i] == SortSpec(input[..i], key)
      invariant a[i..] == input[i..]
      invariant KeyedBy(input, key)
    {
      PlaceNext(a, i, input, key);
      assert KeyedBy(input, key) by {
        forall k | 0 <= k < |input|
          ensures Grade(input[k]) == key(input[k])
        {
          assert old(Grade(input[k])) == key(input[k]);
        }
      }
    }
    assert input[..a.Length] == input;
  }

  /** A row of the table of recommendations. */
  datatype Row = Row(number: nat, title: string, author: string, year: int, genre: string,
                     price: real, isbn: string, grade: real)

  function RowOf(number: nat, x: CatalogBook): Row
    reads x.Book()
  {
    var b := x.Book();
    Row(number, b.title, b.author, b.year, x.Genre(), b.price, b.isbn, b.grade)
  }

  /** The rows of the books of `s`, numbered on from `first`. */
  function Rows(s: seq<CatalogBook>, first: nat): (rows: seq<Row>)
    reads BooksOf(s)
    ensures |rows| == |s|
    ensures forall k :: 0 <= k < |s| ==> rows[k] == RowOf(first + k, s[k])
  {
    if s == [] then [] else [RowOf(first, s[0])] + Rows(s[1..], first + 1)
  }

  /** The first five books (or all, if fewer), numbered from 1. */
  function TopFive(s: seq<CatalogBook>): (rows: seq<Row>)
    reads BooksOf(s)
    ensures |rows| <= 5 && |rows| == if |s| < 5 then |s| else 5
    ensures forall k :: 0 <= k < |rows| ==> rows[k].number == k + 1 && rows[k] == RowOf(k + 1, s[k])
  {
    Rows(s[..if |s| < 5 then |s| else 5], 1)
  }

  /** After the sort, no book left out of the table has a higher grade than a
      book shown in it. */
  lemma TopFiveShowsBest(s: seq<CatalogBook>, key: Key)
    requires KeyedBy(s, key) && SortedDesc(s, key)
    ensures forall k, h :: 0 <= k < |TopFive(s)| <= h < |s| ==> TopFive(s)[k].grade >= Grade(s[h])
  {
  }
}
