/**
 * Blog posts stored one per row of `blogposts.csv`: creation, listing with
 * on-read repair of missing ids, deletion and keyword update, each of which
 * rewrites the whole table, and the display helpers.
 */
module BlogPosts {
  import opened Wrappers
  import opened Sequences
  import opened CsvStore

  /** The column header of `blogposts.csv`. */
  const Fields: seq<string> := ["id", "title", "content", "image", "pdf", "published_date", "author"]

  /** The `image` or `pdf` attribute: `None`, a stored path string, or an uploaded file (by its name). */
  datatype Attachment = Absent | Path(path: string) | Upload(name: string)

  /** Python truthiness of an attachment: `None`, `''` and a nameless upload are false. */
  predicate Present(a: Attachment)
  {
    match a
    case Absent => false
    case Path(p) => p != ""
    case Upload(n) => n != ""
  }

  datatype BlogPost = BlogPost(
    id: string, title: string, content: string,
    image: Attachment, pdf: Attachment,
    publishedDate: string, author: string,
    imagePath: string, pdfPath: string)

  /** Every data row of `blogposts.csv` has the seven columns of `Fields`. */
  predicate WellFormed(rows: seq<Row>)
  {
    forall i :: 0 <= i < |rows| ==> |rows[i]| == |Fields|
  }

  /** The disk holds `blogposts.csv` only with its proper header and row width. */
  predicate TableOk(files: map<string, Table>)
  {
    Conforms(files, BlogPostsCsv, Fields)
  }

  /**
   * `BlogPost(title, content, image, pdf, author, id, published_date)`: a missing
   * or empty id is replaced by the fresh one, a missing or empty date by the
   * current time, and only a path string is recorded as the stored path.
   */
  function NewPost(title: string, content: string, image: Attachment, pdf: Attachment, author: string,
                   id: Option<string>, publishedDate: Option<string>, freshId: Uuid, now: string): (p: BlogPost)
    ensures p.id != ""
    ensures p.id == if Truthy(id) then id.value else freshId
    ensures p.publishedDate == if Truthy(publishedDate) then publishedDate.value else now
    ensures p.title == title && p.content == content && p.author == author
    ensures p.image == image && p.pdf == pdf
    ensures image.Path? ==> p.imagePath == image.path
    ensures !image.Path? ==> p.imagePath == ""
    ensures pdf.Path? ==> p.pdfPath == pdf.path
    ensures !pdf.Path? ==> p.pdfPath == ""
  {
    BlogPost(
      if Truthy(id) then id.value else freshId,
      title, content, image, pdf,
      if Truthy(publishedDate) then publishedDate.value else now,
      author,
      if image.Path? then image.path else "",
      if pdf.Path? then pdf.path else "")
  }

  /** The row written for a post: its persisted attributes in column order. */
  function PostRow(p: BlogPost): (r: Row)
    ensures |r| == |Fields|
  {
    [p.id, p.title, p.content, p.imagePath, p.pdfPath, p.publishedDate, p.author]
  }

  function PostRows(posts: seq<BlogPost>): (rows: seq<Row>)
    ensures |rows| == |posts| && WellFormed(rows)
  {
    seq(|posts|, i requires 0 <= i < |posts| => PostRow(posts[i]))
  }

  // ----- save -----

  /** The upload step of `save()`: an uploaded file goes to the blob store under `blog_images/` or `blog_pdfs/`. */
  function StoreUploads(p: BlogPost, blob: string -> string): (q: BlogPost)
    ensures q == p.(imagePath := q.imagePath, pdfPath := q.pdfPath)
    ensures Present(p.image) && p.image.Upload? ==> q.imagePath == blob("blog_images/" + p.image.name)
    ensures !(Present(p.image) && p.image.Upload?) ==> q.imagePath == p.imagePath
    ensures Present(p.pdf) && p.pdf.Upload? ==> q.pdfPath == blob("blog_pdfs/" + p.pdf.name)
    ensures !(Present(p.pdf) && p.pdf.Upload?) ==> q.pdfPath == p.pdfPath
  {
    p.(imagePath := if Present(p.image) && p.image.Upload? then blob("blog_images/" + p.image.name) else p.imagePath,
       pdfPath := if Present(p.pdf) && p.pdf.Upload? then blob("blog_pdfs/" + p.pdf.name) else p.pdfPath)
  }

  /**
   * `post.save()`: stores uploads, makes sure the table exists and appends
   * exactly one row; every earlier row stays as it was.
   */
  method Save(disk: Disk, post: BlogPost, blob: string -> string) returns (saved: BlogPost)
    modifies disk
    ensures saved == StoreUploads(post, blob)
    ensures disk.files == Appended(old(disk.files), BlogPostsCsv, Fields, PostRow(saved))
    ensures TableOk(old(disk.files)) ==> TableOk(disk.files)
  {
    saved := StoreUploads(post, blob);
    disk.EnsureCsvExists(BlogPostsCsv, Fields);
    disk.AppendRow(BlogPostsCsv, PostRow(saved));
  }

  // ----- all -----

  /** The id of a data row as read: its own, or the fresh id drawn for row `i` when the cell is empty. */
  function RowId(r: Row, i: nat, uuid: nat -> Uuid): (id: Uuid)
    requires |r| == |Fields|
    ensures r[0] != "" ==> id == r[0]
  {
    if r[0] != "" then r[0] else uuid(i)
  }

  /** The post built from data row `r` at position `i`, as in the loop of `BlogPost.all()`. */
  function PostOfRow(r: Row, i: nat, uuid: nat -> Uuid, now: string): BlogPost
    requires |r| == |Fields|
  {
    var id := RowId(r, i, uuid);
    NewPost(r[1], r[2], Path(r[3]), Path(r[4]), r[6], Some(id), Some(r[5]), id, now)
  }

  /** The posts `BlogPost.all()` returns for the given data rows. */
  function PostsOf(rows: seq<Row>, uuid: nat -> Uuid, now: string): (posts: seq<BlogPost>)
    requires WellFormed(rows)
    ensures |posts| == |rows|
    ensures forall i :: 0 <= i < |posts| ==> posts[i].id != ""
    ensures forall i :: 0 <= i < |posts| && rows[i][0] != "" ==> posts[i].id == rows[i][0]
  {
    seq(|rows|, i requires 0 <= i < |rows| => PostOfRow(rows[i], i, uuid, now))
  }

  /** Some row has an empty id, so `all()` rewrites the file. */
  predicate NeedsRepair(rows: seq<Row>)
    requires WellFormed(rows)
  {
    exists i :: 0 <= i < |rows| && rows[i][0] == ""
  }

  /** The loop of `BlogPost.all()`: builds one post per row and notes whether an id was missing. */
  method ReadPosts(rows: seq<Row>, uuid: nat -> Uuid, now: string) returns (posts: seq<BlogPost>, modified: bool)
    requires WellFormed(rows)
    ensures posts == PostsOf(rows, uuid, now)
    ensures modified <==> NeedsRepair(rows)
  {
    posts := [];
    modified := false;
    var i := 0;
    while i < |rows|
      invariant 0 <= i <= |rows|
      invariant |posts| == i
      invariant forall k :: 0 <= k < i ==> posts[k] == PostOfRow(rows[k], k, uuid, now)
      invariant modified <==> exists k :: 0 <= k < i && rows[k][0] == ""
    {
      var r := rows[i];
      if r[0] == "" {
        modified := true;
      }
      posts := posts + [PostOfRow(r, i, uuid, now)];
      i := i + 1;
    }
    assert forall k :: 0 <= k < |rows| ==> posts[k] == PostsOf(rows, uuid, now)[k];
  }

  /** The disk after `BlogPost.all()`. */
  function AfterAll(files: map<string, Table>, uuid: nat -> Uuid, now: string): (r: map<string, Table>)
    requires TableOk(files)
    ensures TableOk(r)
    ensures var rows := RowsAt(files, BlogPostsCsv);
            RowsAt(r, BlogPostsCsv) == if NeedsRepair(rows) then PostRows(PostsOf(rows, uuid, now)) else rows
  {
    var rows := RowsAt(files, BlogPostsCsv);
    var f := Ensured(files, BlogPostsCsv, Fields);
    if NeedsRepair(rows) then f[BlogPostsCsv := Table(Fields, PostRows(PostsOf(rows, uuid, now)))] else f
  }

  /**
   * `BlogPost.all()`: one post per data row in file order, each with a non-empty
   * id; the file is rewritten only when some id was empty.
   */
  method All(disk: Disk, uuid: nat -> Uuid, now: string) returns (posts: seq<BlogPost>)
    requires TableOk(disk.files)
    modifies disk
    ensures posts == PostsOf(RowsAt(old(disk.files), BlogPostsCsv), uuid, now)
    ensures disk.files == AfterAll(old(disk.files), uuid, now)
    ensures TableOk(disk.files)
  {
    disk.EnsureCsvExists(BlogPostsCsv, Fields);
    var modified;
    posts, modified := ReadPosts(disk.files[BlogPostsCsv].rows, uuid, now);
    if modified {
      disk.RewriteAll(BlogPostsCsv, Fields, PostRows(posts));
    }
  }

  /** A row is read back unchanged when neither its id nor its date is empty. */
  predicate NoEmptyCells(rows: seq<Row>)
    requires WellFormed(rows)
  {
    forall i :: 0 <= i < |rows| ==> rows[i][0] != "" && rows[i][5] != ""
  }

  /**
   * What `all()` writes back for row `i`: the id cell is filled from the fresh
   * id when it was empty, the date cell with the read time when it was empty,
   * and every other cell is copied.
   */
  lemma RepairedCells(rows: seq<Row>, uuid: nat -> Uuid, now: string, i: nat)
    requires WellFormed(rows) && i < |rows|
    ensures |PostRows(PostsOf(rows, uuid, now))| == |rows|
    ensures PostRows(PostsOf(rows, uuid, now))[i] ==
      rows[i][0 := if rows[i][0] == "" then uuid(i) else rows[i][0]]
             [5 := if rows[i][5] == "" then now else rows[i][5]]
  {
    var r := rows[i];
    var w := PostRows(PostsOf(rows, uuid, now))[i];
    var expected := r[0 := if r[0] == "" then uuid(i) else r[0]][5 := if r[5] == "" then now else r[5]];
    assert forall j :: 0 <= j < |Fields| ==> w[j] == expected[j];
  }

  /** Reading a table without empty id or date cells and writing the posts back reproduces it. */
  lemma {:induction false} ReadWriteIdentity(rows: seq<Row>, uuid: nat -> Uuid, now: string)
    requires WellFormed(rows) && NoEmptyCells(rows)
    ensures PostRows(PostsOf(rows, uuid, now)) == rows
  {
    forall i | 0 <= i < |rows|
      ensures PostRows(PostsOf(rows, uuid, now))[i] == rows[i]
    {
      RepairedCells(rows, uuid, now, i);
      assert rows[i][0 := rows[i][0]][5 := rows[i][5]] == rows[i];
    }
  }

  /**
   * The repair is stable: once `all()` has written fresh ids (and a non-empty
   * read time), a later `all()` finds nothing to repair and returns the same posts.
   */
  lemma RepairIsStable(rows: seq<Row>, uuid: nat -> Uuid, now: string, uuid2: nat -> Uuid, now2: string)
    requires WellFormed(rows) && now != ""
    ensures WellFormed(PostRows(PostsOf(rows, uuid, now)))
    ensures !NeedsRepair(PostRows(PostsOf(rows, uuid, now)))
    ensures PostsOf(PostRows(PostsOf(rows, uuid, now)), uuid2, now2) == PostsOf(rows, uuid, now)
  {
    var posts := PostsOf(rows, uuid, now);
    var rows2 := PostRows(posts);
    forall i | 0 <= i < |rows2|
      ensures rows2[i][0] != "" && rows2[i][5] != ""
      ensures PostsOf(rows2, uuid2, now2)[i] == posts[i]
    {
      RepairedCells(rows, uuid, now, i);
    }
  }

  /**
   * Ids handed out by `all()` persist: whatever table `all()` leaves behind,
   * a later `all()` returns every post under the id the first one gave it.
   */
  lemma IdsPersist(rows: seq<Row>, uuid: nat -> Uuid, now: string, uuid2: nat -> Uuid, now2: string, i: nat)
    requires WellFormed(rows) && i < |rows|
    ensures var kept := if NeedsRepair(rows) then PostRows(PostsOf(rows, uuid, now)) else rows;
            WellFormed(kept) && |kept| == |rows| &&
            PostsOf(kept, uuid2, now2)[i].id == PostsOf(rows, uuid, now)[i].id
  {
    if !NeedsRepair(rows) {
      assert rows[i][0] != "";
    }
  }

  // ----- delete -----

  /** The test `post.id == id`, and its negation. */
  function HasId(id: string): BlogPost -> bool { (p: BlogPost) => p.id == id }
  function LacksId(id: string): BlogPost -> bool { (p: BlogPost) => p.id != id }

  /** The posts `delete()` keeps: `[post for post in posts if post.id != id]`. */
  function WithoutId(posts: seq<BlogPost>, id: string): seq<BlogPost>
  {
    Filter(posts, LacksId(id))
  }

  /**
   * `delete()` keeps exactly the posts whose id differs, in their original
   * relative order, and the list shrinks by the number of posts with that id.
   */
  lemma DeleteKeepsExactlyOthers(posts: seq<BlogPost>, id: string)
    ensures forall p :: p in WithoutId(posts, id) <==> p in posts && p.id != id
    ensures |WithoutId(posts, id)| == |posts| - Count(posts, HasId(id))
    ensures forall a, b :: a + b == posts ==> WithoutId(posts, id) == WithoutId(a, id) + WithoutId(b, id)
  {
    var keep := LacksId(id);
    forall p | p in posts && p.id != id ensures p in WithoutId(posts, id) {
      FilterKeeps(posts, keep, p);
    }
    FilterLength(posts, keep, HasId(id));
    forall a, b | a + b == posts ensures WithoutId(posts, id) == WithoutId(a, id) + WithoutId(b, id) {
      FilterConcat(a, b, keep);
    }
  }

  /**
   * `post.delete()`: reads every post (repairing ids), then rewrites the table
   * with exactly the posts whose id differs from this post's.
   */
  method Delete(disk: Disk, post: BlogPost, uuid: nat -> Uuid, now: string)
    requires TableOk(disk.files)
    modifies disk
    ensures disk.files == old(disk.files)[BlogPostsCsv :=
      Table(Fields, PostRows(WithoutId(PostsOf(RowsAt(old(disk.files), BlogPostsCsv), uuid, now), post.id)))]
    ensures TableOk(disk.files)
  {
    var posts := All(disk, uuid, now);
    posts := WithoutId(posts, post.id);
    disk.EnsureCsvExists(BlogPostsCsv, Fields);
    disk.RewriteAll(BlogPostsCsv, Fields, PostRows(posts));
  }

  // ----- update -----

  /** One keyword argument of `update(**kwargs)`: the attribute it names and the new value. */
  datatype Change =
    | SetId(id: string)
    | SetTitle(title: string)
    | SetContent(content: string)
    | SetImage(image: Attachment)
    | SetPdf(pdf: Attachment)
    | SetPublishedDate(date: string)
    | SetAuthor(author: string)
    | SetImagePath(imagePath: string)
    | SetPdfPath(pdfPath: string)

  /** `setattr(post, key, value)`. */
  function SetAttr(p: BlogPost, c: Change): BlogPost
  {
    match c
    case SetId(v) => p.(id := v)
    case SetTitle(v) => p.(title := v)
    case SetContent(v) => p.(content := v)
    case SetImage(a) => p.(image := a)
    case SetPdf(a) => p.(pdf := a)
    case SetPublishedDate(v) => p.(publishedDate := v)
    case SetAuthor(v) => p.(author := v)
    case SetImagePath(v) => p.(imagePath := v)
    case SetPdfPath(v) => p.(pdfPath := v)
  }

  /** The keyword arguments applied in order. */
  function ApplyAll(p: BlogPost, cs: seq<Change>): BlogPost
    decreases |cs|
  {
    if cs == [] then p else ApplyAll(SetAttr(p, cs[0]), cs[1..])
  }

  /** The inner loop of `update()`: `for key, value in kwargs.items(): setattr(post, key, value)`. */
  method SetAttributes(post: BlogPost, cs: seq<Change>) returns (q: BlogPost)
    ensures q == ApplyAll(post, cs)
  {
    q := post;
    var k := 0;
    while k < |cs|
      invariant 0 <= k <= |cs|
      invariant ApplyAll(q, cs[k..]) == ApplyAll(post, cs)
    {
      assert cs[k..][1..] == cs[k + 1..];
      q := SetAttr(q, cs[k]);
      k := k + 1;
    }
  }

  /** Setting `image` or `pdf` by keyword never reaches the file: only the stored paths are written. */
  lemma {:induction false} AttachmentKeywordsNotPersisted(p: BlogPost, cs: seq<Change>)
    requires forall k :: 0 <= k < |cs| ==> cs[k].SetImage? || cs[k].SetPdf?
    ensures PostRow(ApplyAll(p, cs)) == PostRow(p)
    decreases |cs|
  {
    if cs != [] {
      AttachmentKeywordsNotPersisted(SetAttr(p, cs[0]), cs[1..]);
    }
  }

  /** The column of the written row a keyword sets; -1 for `image` and `pdf`, which are not written. */
  function Column(c: Change): (col: int)
    ensures -1 <= col < |Fields|
    ensures col == -1 <==> c.SetImage? || c.SetPdf?
  {
    match c
    case SetId(_) => 0
    case SetTitle(_) => 1
    case SetContent(_) => 2
    case SetImagePath(_) => 3
    case SetPdfPath(_) => 4
    case SetPublishedDate(_) => 5
    case SetAuthor(_) => 6
    case _ => -1
  }

  /** The cell text a written keyword sets. */
  function CellValue(c: Change): string
    requires Column(c) >= 0
  {
    match c
    case SetId(v) => v
    case SetTitle(v) => v
    case SetContent(v) => v
    case SetImagePath(v) => v
    case SetPdfPath(v) => v
    case SetPublishedDate(v) => v
    case SetAuthor(v) => v
  }

  /** The value the last keyword naming column `col` sets, or `cell` when none names it. */
  function LastSet(cs: seq<Change>, col: nat, cell: string): string
  {
    if cs == [] then cell
    else if Column(cs[|cs| - 1]) == col then CellValue(cs[|cs| - 1])
    else LastSet(cs[..|cs| - 1], col, cell)
  }

  /** Applying one more keyword is one more `setattr` on the result. */
  lemma {:induction false} ApplyAllSnoc(p: BlogPost, cs: seq<Change>, c: Change)
    ensures ApplyAll(p, cs + [c]) == SetAttr(ApplyAll(p, cs), c)
    decreases |cs|
  {
    if cs != [] {
      assert (cs + [c])[1..] == cs[1..] + [c];
      ApplyAllSnoc(SetAttr(p, cs[0]), cs[1..], c);
    }
  }

  /**
   * What a matching post's row becomes under `update(**kwargs)`: each written
   * cell holds the value of the last keyword naming it, and the cells no
   * keyword names keep their old text.
   */
  lemma {:induction false} UpdatedCells(p: BlogPost, cs: seq<Change>, col: nat)
    requires col < |Fields|
    ensures PostRow(ApplyAll(p, cs))[col] == LastSet(cs, col, PostRow(p)[col])
    decreases |cs|
  {
    if cs != [] {
      var init := cs[..|cs| - 1];
      var c := cs[|cs| - 1];
      assert cs == init + [c];
      ApplyAllSnoc(p, init, c);
      UpdatedCells(p, init, col);
    }
  }

  /** The posts after `update()`: those with the given id get the keyword arguments, the rest are untouched. */
  function Updated(posts: seq<BlogPost>, id: string, cs: seq<Change>): (r: seq<BlogPost>)
    ensures |r| == |posts|
    ensures forall i :: 0 <= i < |posts| && posts[i].id != id ==> r[i] == posts[i]
    ensures forall i :: 0 <= i < |posts| && posts[i].id == id ==> r[i] == ApplyAll(posts[i], cs)
  {
    seq(|posts|, i requires 0 <= i < |posts| => if posts[i].id == id then ApplyAll(posts[i], cs) else posts[i])
  }

  /** The outer loop of `update()`: every post whose id matches is changed in place. */
  method UpdateMatching(posts: seq<BlogPost>, id: string, cs: seq<Change>) returns (r: seq<BlogPost>)
    ensures r == Updated(posts, id, cs)
  {
    r := posts;
    var i := 0;
    while i < |r|
      invariant 0 <= i <= |r| == |posts|
      invariant forall k :: 0 <= k < i ==> r[k] == Updated(posts, id, cs)[k]
      invariant forall k :: i <= k < |r| ==> r[k] == posts[k]
    {
      if r[i].id == id {
        var q := SetAttributes(r[i], cs);
        r := r[i := q];
      }
      i := i + 1;
    }
  }

  /** With an id that no post has, `update()` writes back exactly what `all()` returned. */
  lemma UpdateUnknownIdChangesNoPost(posts: seq<BlogPost>, id: string, cs: seq<Change>)
    requires forall i :: 0 <= i < |posts| ==> posts[i].id != id
    ensures Updated(posts, id, cs) == posts
  {
  }

  /**
   * On a table with no empty id or date cell, `update()` with an id that no row
   * has leaves every row as it was: a silent no-op.
   */
  lemma UpdateUnknownIdLeavesTable(rows: seq<Row>, id: string, cs: seq<Change>, uuid: nat -> Uuid, now: string)
    requires WellFormed(rows) && NoEmptyCells(rows)
    requires forall i :: 0 <= i < |rows| ==> rows[i][0] != id
    ensures PostRows(Updated(PostsOf(rows, uuid, now), id, cs)) == rows
  {
    var posts := PostsOf(rows, uuid, now);
    UpdateUnknownIdChangesNoPost(posts, id, cs);
    ReadWriteIdentity(rows, uuid, now);
  }

  /**
   * An empty date cell is not preserved by a rewrite: `update()` writes a row
   * it does not change with the read time in its empty date cell (and the id
   * it was read with), every other cell as stored.
   */
  lemma UpdateStampsEmptyDate(rows: seq<Row>, id: string, cs: seq<Change>, uuid: nat -> Uuid, now: string, i: nat)
    requires WellFormed(rows) && i < |rows|
    requires rows[i][5] == "" && RowId(rows[i], i, uuid) != id
    ensures |PostRows(Updated(PostsOf(rows, uuid, now), id, cs))| == |rows|
    ensures PostRows(Updated(PostsOf(rows, uuid, now), id, cs))[i] == rows[i][0 := RowId(rows[i], i, uuid)][5 := now]
  {
    RepairedCells(rows, uuid, now, i);
  }

  /**
   * `post.update(**kwargs)`: reads every post (repairing ids), applies the
   * keyword arguments to each post whose id is this post's id, and rewrites
   * the whole table in the same order.
   */
  method Update(disk: Disk, post: BlogPost, cs: seq<Change>, uuid: nat -> Uuid, now: string)
    requires TableOk(disk.files)
    modifies disk
    ensures disk.files == old(disk.files)[BlogPostsCsv :=
      Table(Fields, PostRows(Updated(PostsOf(RowsAt(old(disk.files), BlogPostsCsv), uuid, now), post.id, cs)))]
    ensures TableOk(disk.files)
  {
    var posts := All(disk, uuid, now);
    posts := UpdateMatching(posts, post.id, cs);
    disk.EnsureCsvExists(BlogPostsCsv, Fields);
    disk.RewriteAll(BlogPostsCsv, Fields, PostRows(posts));
  }

  // ----- display helpers -----

  const PlaceholderImage: string := "/static/portfolio/images/unknown.png"

  /** `get_image_url()`: the media URL of the stored image, or the placeholder when there is none. */
  function ImageUrl(p: BlogPost, mediaUrl: string): (url: string)
    ensures p.imagePath == "" ==> url == PlaceholderImage
    ensures p.imagePath != "" ==> url == mediaUrl + "/blog_images/" + p.imagePath
  {
    if p.imagePath != "" then mediaUrl + "/blog_images/" + p.imagePath else PlaceholderImage
  }

  /** `get_pdf_url()`: a URL exactly when a PDF path is stored (`quote` is the URL-encoder). */
  function PdfUrl(p: BlogPost, mediaUrl: string, quote: string -> string): (url: Option<string>)
    ensures url.None? <==> p.pdfPath == ""
  {
    if p.pdfPath != "" then Some(mediaUrl + "blog_pdfs/" + quote(p.pdfPath)) else None
  }

  /** `content_preview()`: at most the first 100 characters of the content, then "...". */
  function ContentPreview(content: string): (r: string)
    ensures |r| == (if |content| < 100 then |content| else 100) + 3
    ensures r[..|r| - 3] <= content && r[|r| - 3..] == "..."
    ensures |content| <= 100 ==> r == content + "..."
  {
    content[..if |content| < 100 then |content| else 100] + "..."
  }
}
