/** `sortPostsByDateDesc` (browser) and `sortByDateDesc` (both servers):
    `[...list].sort((a, b) => date(b) - date(a))`. JavaScript's sort is stable,
    so the model is a stable insertion sort on a copy of the list. */
module DateSort {
  import opened ForumModel

  predicate SortedByDateDesc(s: seq<Post>) {
    forall i, j :: 0 <= i < j < |s| ==> s[i].date >= s[j].date
  }

  /** Puts `p` in front of the first post that is not newer than it. */
  function InsertByDate(p: Post, s: seq<Post>): (r: seq<Post>)
    requires SortedByDateDesc(s)
    ensures SortedByDateDesc(r)
    ensures multiset(r) == multiset(s) + multiset{p}
    ensures r != [] && (r[0] == p || (s != [] && r[0] == s[0]))
  {
    if s == [] || p.date >= s[0].date then [p] + s
    else
      var rest := InsertByDate(p, s[1..]);
      assert s == [s[0]] + s[1..];
      ConsSorted(s[0], rest);
      [s[0]] + rest
  }

  lemma ConsSorted(x: Post, s: seq<Post>)
    requires SortedByDateDesc(s)
    requires s == [] || x.date >= s[0].date
    ensures SortedByDateDesc([x] + s)
  {
    var r := [x] + s;
    forall i, j | 0 <= i < j < |r| ensures r[i].date >= r[j].date {
      if i == 0 && j > 1 {
        assert r[j] == s[j - 1] && s[0].date >= s[j - 1].date;
      }
    }
  }

  /** The copy, newest first; the list it was made from is not touched. */
  function SortByDateDesc(s: seq<Post>): (r: seq<Post>)
    ensures SortedByDateDesc(r)
    ensures multiset(r) == multiset(s)
  {
    if s == [] then []
    else
      assert s == [s[0]] + s[1..];
      InsertByDate(s[0], SortByDateDesc(s[1..]))
  }

  /** The posts of `s` dated `d`, in their order in `s`. */
  function DatedAt(s: seq<Post>, d: int): seq<Post> {
    if s == [] then [] else (if s[0].date == d then [s[0]] else []) + DatedAt(s[1..], d)
  }

  lemma DatedAtCons(x: Post, s: seq<Post>, d: int)
    ensures DatedAt([x] + s, d) == (if x.date == d then [x] else []) + DatedAt(s, d)
  {
    assert ([x] + s)[1..] == s;
  }

  lemma {:induction false} DatedAtInsert(p: Post, s: seq<Post>, d: int)
    requires SortedByDateDesc(s)
    ensures DatedAt(InsertByDate(p, s), d) == (if p.date == d then [p] else []) + DatedAt(s, d)
    decreases |s|, 1
  {
    if s == [] || p.date >= s[0].date {
      DatedAtCons(p, s, d);
    } else {
      DatedAtInsertLater(p, s, d);
    }
  }

  lemma {:induction false} DatedAtInsertLater(p: Post, s: seq<Post>, d: int)
    requires SortedByDateDesc(s)
    requires s != [] && p.date < s[0].date
    ensures DatedAt(InsertByDate(p, s), d) == (if p.date == d then [p] else []) + DatedAt(s, d)
    decreases |s|, 0
  {
    var rest := InsertByDate(p, s[1..]);
    assert InsertByDate(p, s) == [s[0]] + rest;
    DatedAtInsert(p, s[1..], d);
    DatedAtCons(s[0], rest, d);
    DatedAtCons(s[0], s[1..], d);
    assert s == [s[0]] + s[1..];
    if p.date == d {
      assert DatedAt(rest, d) == [p] + DatedAt(s[1..], d);
      assert DatedAt(s, d) == DatedAt(s[1..], d);
    } else {
      assert DatedAt(rest, d) == DatedAt(s[1..], d);
    }
  }

  /** Stability: among posts with the same date the original order is kept, so the
      sorted list is exactly the input regrouped by date. */
  lemma {:induction false} SortIsStable(s: seq<Post>, d: int)
    ensures DatedAt(SortByDateDesc(s), d) == DatedAt(s, d)
  {
    if s != [] {
      SortIsStable(s[1..], d);
      DatedAtInsert(s[0], SortByDateDesc(s[1..]), d);
    }
  }

  /** A list that is already newest-first comes back unchanged. */
  lemma {:induction false} SortOfSorted(s: seq<Post>)
    requires SortedByDateDesc(s)
    ensures SortByDateDesc(s) == s
  {
    if s != [] {
      SortOfSorted(s[1..]);
      assert SortByDateDesc(s[1..]) == s[1..];
      assert s[1..] == [] || s[0].date >= s[1].date;
      assert [s[0]] + s[1..] == s;
    }
  }
}
