/**
 * Comments stored one per row of `comments.csv`, referring to a post by its
 * title. They are only ever appended and listed, optionally for one title.
 */
module Comments {
  import opened Wrappers
  import opened CsvStore
  import opened Sequences

  /** The column header of `comments.csv`. */
  const Fields: seq<string> := ["blog_post_title", "author", "text", "created_at"]

  datatype Comment = Comment(blogPostTitle: string, author: string, text: string, createdAt: string)

  /** Every data row of `comments.csv` has the four columns of `Fields`. */
  predicate WellFormed(rows: seq<Row>)
  {
    forall i :: 0 <= i < |rows| ==> |rows[i]| == |Fields|
  }

  /** The disk holds `comments.csv` only with its proper header and row width. */
  predicate TableOk(files: map<string, Table>)
  {
    Conforms(files, CommentsCsv, Fields)
  }

  /** `Comment(blog_post_title, author, text)`: `created_at` is always the current time. */
  function NewComment(title: string, author: string, text: string, now: string): (c: Comment)
    ensures c.blogPostTitle == title && c.author == author && c.text == text
    ensures c.createdAt == now
  {
    Comment(title, author, text, now)
  }

  /** The row written for a comment, in column order. */
  function CommentRow(c: Comment): (r: Row)
    ensures |r| == |Fields|
  {
    [c.blogPostTitle, c.author, c.text, c.createdAt]
  }

  /** `comment.save()`: makes sure the table exists and appends exactly one row. */
  method Save(disk: Disk, c: Comment)
    modifies disk
    ensures disk.files == Appended(old(disk.files), CommentsCsv, Fields, CommentRow(c))
    ensures TableOk(old(disk.files)) ==> TableOk(disk.files)
  {
    disk.EnsureCsvExists(CommentsCsv, Fields);
    disk.AppendRow(CommentsCsv, CommentRow(c));
  }

  /** `blog_post_title is None or row['blog_post_title'] == blog_post_title`. */
  predicate Selected(title: Option<string>, r: Row)
    requires |r| == |Fields|
  {
    title.None? || r[0] == title.value
  }

  /**
   * The comments `Comment.all(title)` returns for the given rows: the selected
   * rows in file order, each rebuilt through the constructor and so stamped
   * with the read time instead of its stored `created_at`.
   */
  function Listed(rows: seq<Row>, title: Option<string>, now: string): (cs: seq<Comment>)
    requires WellFormed(rows)
    ensures |cs| <= |rows|
    ensures forall i :: 0 <= i < |cs| ==> cs[i].createdAt == now
  {
    if rows == [] then []
    else (if Selected(title, rows[0]) then [NewComment(rows[0][0], rows[0][1], rows[0][2], now)] else [])
         + Listed(rows[1..], title, now)
  }

  /** Listing distributes over the rows: the order of the file is kept. */
  lemma {:induction false} ListedConcat(a: seq<Row>, b: seq<Row>, title: Option<string>, now: string)
    requires WellFormed(a) && WellFormed(b)
    ensures WellFormed(a + b)
    ensures Listed(a + b, title, now) == Listed(a, title, now) + Listed(b, title, now)
  {
    assert forall i :: 0 <= i < |a + b| ==> (a + b)[i] == if i < |a| then a[i] else b[i - |a|];
    if a == [] {
      assert a + b == b;
    } else {
      var ab := a + b;
      assert ab[0] == a[0];
      assert ab[1..] == a[1..] + b;
      ListedConcat(a[1..], b, title, now);
      var head := if Selected(title, a[0]) then [NewComment(a[0][0], a[0][1], a[0][2], now)] else [];
      calc {
        Listed(ab, title, now);
        head + Listed(a[1..] + b, title, now);
        head + (Listed(a[1..], title, now) + Listed(b, title, now));
        (head + Listed(a[1..], title, now)) + Listed(b, title, now);
      }
    }
  }

  /** The loop of `Comment.all()`. */
  method ReadComments(rows: seq<Row>, title: Option<string>, now: string) returns (cs: seq<Comment>)
    requires WellFormed(rows)
    ensures cs == Listed(rows, title, now)
  {
    cs := [];
    var i := 0;
    while i < |rows|
      invariant 0 <= i <= |rows|
      invariant cs == Listed(rows[..i], title, now)
    {
      var row := rows[i];
      assert rows[..i + 1] == rows[..i] + [row];
      ListedConcat(rows[..i], [row], title, now);
      if title.None? || row[0] == title.value {
        cs := cs + [NewComment(row[0], row[1], row[2], now)];
      }
      i := i + 1;
    }
    assert rows[..i] == rows;
  }

  /**
   * `Comment.all(title)`: makes sure the table exists (nothing else is written)
   * and returns the selected comments.
   */
  method All(disk: Disk, title: Option<string>, now: string) returns (cs: seq<Comment>)
    requires TableOk(disk.files)
    modifies disk
    ensures cs == Listed(RowsAt(old(disk.files), CommentsCsv), title, now)
    ensures disk.files == Ensured(old(disk.files), CommentsCsv, Fields)
  {
    disk.EnsureCsvExists(CommentsCsv, Fields);
    cs := ReadComments(disk.files[CommentsCsv].rows, title, now);
  }

  /** Number of rows that `Selected` accepts. */
  function CountSelected(rows: seq<Row>, title: Option<string>): nat
    requires WellFormed(rows)
  {
    if rows == [] then 0 else (if Selected(title, rows[0]) then 1 else 0) + CountSelected(rows[1..], title)
  }

  /**
   * One comment comes back per selected row, and each carries the read time
   * and, when a title is given, that title. `ListedIsSelection` states which
   * rows these are and in what order.
   */
  lemma {:induction false} ListedMatchesTitle(rows: seq<Row>, title: Option<string>, now: string)
    requires WellFormed(rows)
    ensures |Listed(rows, title, now)| == CountSelected(rows, title)
    ensures forall c :: c in Listed(rows, title, now) ==>
              c.createdAt == now && (title.Some? ==> c.blogPostTitle == title.value)
  {
    if rows != [] {
      ListedMatchesTitle(rows[1..], title, now);
    }
  }

  /** The row test of `Comment.all(title)`, on rows of any width. */
  function SelectedBy(title: Option<string>): Row -> bool
  {
    (r: Row) => |r| == |Fields| && Selected(title, r)
  }

  /** The comments rebuilt from the given rows, each stamped with the read time. */
  function Rebuilt(rows: seq<Row>, now: string): (cs: seq<Comment>)
    requires WellFormed(rows)
    ensures |cs| == |rows|
  {
    seq(|rows|, i requires 0 <= i < |rows| => Comment(rows[i][0], rows[i][1], rows[i][2], now))
  }

  /** The selected rows are four cells wide. */
  lemma SelectionWellFormed(rows: seq<Row>, title: Option<string>)
    ensures WellFormed(Filter(rows, SelectedBy(title)))
  {
    var sel := Filter(rows, SelectedBy(title));
    forall i | 0 <= i < |sel| ensures |sel[i]| == |Fields| {
      assert sel[i] in sel;
    }
  }

  /**
   * `Comment.all(title)` returns exactly the selected rows, in file order,
   * each with its own title, author and text and the read time.
   */
  lemma {:induction false} ListedIsSelection(rows: seq<Row>, title: Option<string>, now: string)
    requires WellFormed(rows)
    ensures WellFormed(Filter(rows, SelectedBy(title)))
    ensures Listed(rows, title, now) == Rebuilt(Filter(rows, SelectedBy(title)), now)
  {
    var sel := Filter(rows, SelectedBy(title));
    SelectionWellFormed(rows, title);
    if rows != [] {
      var tail := Filter(rows[1..], SelectedBy(title));
      var head := if SelectedBy(title)(rows[0]) then [rows[0]] else [];
      ListedIsSelection(rows[1..], title, now);
      ListedHead(rows, title, now);
      RebuiltConcat(head, tail, now);
    }
  }

  /** One step of the listing loop: the first row contributes its comment when selected. */
  lemma ListedHead(rows: seq<Row>, title: Option<string>, now: string)
    requires WellFormed(rows) && rows != []
    ensures var head := if SelectedBy(title)(rows[0]) then [rows[0]] else [];
            WellFormed(head) &&
            Filter(rows, SelectedBy(title)) == head + Filter(rows[1..], SelectedBy(title)) &&
            Listed(rows, title, now) == Rebuilt(head, now) + Listed(rows[1..], title, now)
  {
  }

  /** Rebuilding a concatenation rebuilds each part. */
  lemma RebuiltConcat(a: seq<Row>, b: seq<Row>, now: string)
    requires WellFormed(a) && WellFormed(b)
    ensures WellFormed(a + b)
    ensures Rebuilt(a + b, now) == Rebuilt(a, now) + Rebuilt(b, now)
  {
    assert forall i :: 0 <= i < |a + b| ==> (a + b)[i] == if i < |a| then a[i] else b[i - |a|];
  }

  /** Without a title every row comes back, in file order, with its title, author and text. */
  lemma {:induction false} ListedAll(rows: seq<Row>, now: string)
    requires WellFormed(rows)
    ensures |Listed(rows, None, now)| == |rows|
    ensures forall i :: 0 <= i < |rows| ==>
              Listed(rows, None, now)[i] == Comment(rows[i][0], rows[i][1], rows[i][2], now)
  {
    if rows != [] {
      ListedAll(rows[1..], now);
    }
  }

  /**
   * A saved comment is listed last under its own title (with the read time),
   * after the comments that were already there.
   */
  lemma SaveThenList(rows: seq<Row>, c: Comment, now: string)
    requires WellFormed(rows)
    ensures WellFormed(rows + [CommentRow(c)])
    ensures Listed(rows + [CommentRow(c)], Some(c.blogPostTitle), now)
         == Listed(rows, Some(c.blogPostTitle), now) + [c.(createdAt := now)]
  {
    ListedConcat(rows, [CommentRow(c)], Some(c.blogPostTitle), now);
    assert [CommentRow(c)][1..] == [];
  }
}
