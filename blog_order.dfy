/**
 * The ordering of the blog list: `sorted(posts, key=published_date,
 * reverse=True)`, a stable sort that puts the latest date first, comparing
 * the date strings as Python compares strings.
 */
module BlogOrder {
  import opened Sequences
  import opened BlogPosts

  /** Python's `a <= b` on strings: lexicographic by character code. */
  predicate LexLe(a: string, b: string)
  {
    |a| == 0 || (|b| > 0 && (a[0] < b[0] || (a[0] == b[0] && LexLe(a[1..], b[1..]))))
  }

  lemma {:induction false} LexReflexive(a: string)
    ensures LexLe(a, a)
  {
    if a != [] {
      LexReflexive(a[1..]);
    }
  }

  lemma {:induction false} LexTotal(a: string, b: string)
    ensures LexLe(a, b) || LexLe(b, a)
  {
    if a != [] && b != [] && a[0] == b[0] {
      LexTotal(a[1..], b[1..]);
    }
  }

  lemma {:induction false} LexAntisymmetric(a: string, b: string)
    requires LexLe(a, b) && LexLe(b, a)
    ensures a == b
  {
    if a != [] {
      LexAntisymmetric(a[1..], b[1..]);
      assert a == [a[0]] + a[1..];
      assert b == [b[0]] + b[1..];
    }
  }

  lemma {:induction false} LexTransitive(a: string, b: string, c: string)
    requires LexLe(a, b) && LexLe(b, c)
    ensures LexLe(a, c)
  {
    if a != [] && a[0] == b[0] && b[0] == c[0] {
      LexTransitive(a[1..], b[1..], c[1..]);
    }
  }

  /** Latest first: no post is followed by one with a later date. */
  predicate NewestFirst(s: seq<BlogPost>)
  {
    forall i, j :: 0 <= i < j < |s| ==> LexLe(s[j].publishedDate, s[i].publishedDate)
  }

  /** Puts `p` before the first post whose date is not later than its own. */
  function Insert(p: BlogPost, s: seq<BlogPost>): (r: seq<BlogPost>)
    ensures multiset(r) == multiset(s) + multiset{p}
  {
    if s == [] then [p]
    else if LexLe(s[0].publishedDate, p.publishedDate) then [p] + s
    else
      assert s == [s[0]] + s[1..];
      [s[0]] + Insert(p, s[1..])
  }

  /** `sorted(posts, key=lambda x: x.published_date, reverse=True)`. */
  function SortNewestFirst(s: seq<BlogPost>): (r: seq<BlogPost>)
    ensures multiset(r) == multiset(s)
  {
    if s == [] then []
    else
      assert s == [s[0]] + s[1..];
      Insert(s[0], SortNewestFirst(s[1..]))
  }

  lemma {:induction false} InsertKeepsOrder(p: BlogPost, s: seq<BlogPost>)
    requires NewestFirst(s)
    ensures NewestFirst(Insert(p, s))
  {
    if s == [] {
    } else if LexLe(s[0].publishedDate, p.publishedDate) {
      forall j | 0 < j < |s| ensures LexLe(s[j].publishedDate, p.publishedDate) {
        LexTransitive(s[j].publishedDate, s[0].publishedDate, p.publishedDate);
      }
    } else {
      LexTotal(s[0].publishedDate, p.publishedDate);
      InsertKeepsOrder(p, s[1..]);
      var t := Insert(p, s[1..]);
      forall j | 0 <= j < |t| ensures LexLe(t[j].publishedDate, s[0].publishedDate) {
        assert t[j] in multiset(t);
        if t[j] != p {
          assert t[j] in multiset(s[1..]);
          var k :| 0 <= k < |s[1..]| && s[1..][k] == t[j];
          assert s[k + 1] == t[j];
        }
      }
    }
  }

  /** The sorted list puts the latest date first. */
  lemma {:induction false} SortIsNewestFirst(s: seq<BlogPost>)
    ensures NewestFirst(SortNewestFirst(s))
  {
    if s != [] {
      SortIsNewestFirst(s[1..]);
      InsertKeepsOrder(s[0], SortNewestFirst(s[1..]));
    }
  }

  /** The test `post.published_date == d`. */
  function DatedOn(d: string): BlogPost -> bool { (p: BlogPost) => p.publishedDate == d }

  lemma {:induction false} InsertStable(p: BlogPost, s: seq<BlogPost>, d: string)
    ensures Filter(Insert(p, s), DatedOn(d)) ==
            if p.publishedDate == d then [p] + Filter(s, DatedOn(d)) else Filter(s, DatedOn(d))
  {
    if s == [] {
      assert Filter([p], DatedOn(d)) == (if DatedOn(d)(p) then [p] else []) + Filter([], DatedOn(d));
    } else if LexLe(s[0].publishedDate, p.publishedDate) {
      var r := [p] + s;
      assert r[1..] == s;
    } else {
      var r := [s[0]] + Insert(p, s[1..]);
      assert r[1..] == Insert(p, s[1..]);
      InsertStable(p, s[1..], d);
      if p.publishedDate == d {
        LexReflexive(d);
        assert s[0].publishedDate != d;
      }
    }
  }

  /**
   * The sort is stable: the posts sharing any one date keep their original
   * relative order.
   */
  lemma {:induction false} SortIsStable(s: seq<BlogPost>, d: string)
    ensures Filter(SortNewestFirst(s), DatedOn(d)) == Filter(s, DatedOn(d))
  {
    if s != [] {
      SortIsStable(s[1..], d);
      InsertStable(s[0], SortNewestFirst(s[1..]), d);
    }
  }
}
