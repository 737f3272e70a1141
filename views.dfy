/**
 * The request handlers that write to the record store: the analytics
 * endpoint that folds a tracking event into the visitor's stored profile,
 * and the staff-only post deletion.
 */
module Views {
  import opened Wrappers
  import opened Sequences
  import opened CsvStore
  import opened JsonCells
  import opened HttpRequests
  import VP = VisitorProfiles
  import BP = BlogPosts
  import BlogOrder

  // ----- blog_list -----

  /**
   * `blog_list(request)`: every post, latest `published_date` first, posts of
   * equal date in file order. Reading may repair missing ids as `all()` does.
   */
  method BlogList(disk: Disk, uuid: nat -> Uuid, now: string) returns (posts: seq<BP.BlogPost>)
    requires BP.TableOk(disk.files)
    modifies disk
    ensures posts == BlogOrder.SortNewestFirst(BP.PostsOf(RowsAt(old(disk.files), BlogPostsCsv), uuid, now))
    ensures disk.files == BP.AfterAll(old(disk.files), uuid, now)
  {
    var all := BP.All(disk, uuid, now);
    posts := BlogOrder.SortNewestFirst(all);
  }

  // ----- track_analytics -----

  /**
   * The decoded JSON body of a tracking request; `None` marks a key the body
   * does not have.
   */
  datatype TrackEvent = TrackEvent(
    pageUrls: Option<seq<Scalar>>, scrollDepth: Option<seq<Scalar>>, timeSpent: Option<seq<Scalar>>,
    country: Option<string>, region: Option<string>, utmSource: Option<string>)

  /** `data.get(key, [])` for the three lists. */
  function ListOr(o: Option<seq<Scalar>>): (r: seq<Scalar>)
    ensures o.Some? ==> r == o.value
    ensures o.None? ==> r == []
  {
    if o.Some? then o.value else []
  }

  /** `data.get(key, "Unknown")` for country and region. */
  function PlaceOr(o: Option<string>): (r: string)
    ensures o.Some? ==> r == o.value
    ensures o.None? ==> r == VP.Unknown
  {
    if o.Some? then o.value else VP.Unknown
  }

  /** The stored location is incomplete: its country or its region is "Unknown". */
  predicate LocationIncomplete(stored: VP.VisitorProfile)
  {
    stored.country == VP.Unknown || stored.region == VP.Unknown
  }

  /** The event brings no location of its own: both of its values are "Unknown" (or missing). */
  predicate EventUnlocated(ev: TrackEvent)
  {
    PlaceOr(ev.country) == VP.Unknown && PlaceOr(ev.region) == VP.Unknown
  }

  /** The one case in which the client address is geolocated. */
  predicate NeedsLookup(stored: VP.VisitorProfile, ev: TrackEvent)
  {
    LocationIncomplete(stored) && EventUnlocated(ev)
  }

  /**
   * The profile `track_analytics` hands to `update()`: the stored profile with
   * the event's lists appended, its campaign source replaced by a truthy
   * incoming one, and its location completed. `located` is the answer of the
   * geolocation service for the client address.
   */
  function Merge(stored: VP.VisitorProfile, ev: TrackEvent, located: (string, string)): (r: VP.VisitorProfile)
    ensures r.sessionId == stored.sessionId && r.ipAddress == stored.ipAddress
    ensures r.userAgent == stored.userAgent && r.deviceType == stored.deviceType
    ensures r.dateTimeVisited == stored.dateTimeVisited
    ensures r.pageUrls == stored.pageUrls + ListOr(ev.pageUrls)
    ensures r.scrollDepth == stored.scrollDepth + ListOr(ev.scrollDepth)
    ensures r.timeSpent == stored.timeSpent + ListOr(ev.timeSpent)
  {
    var place :=
      if !LocationIncomplete(stored) then (stored.country, stored.region)
      else if EventUnlocated(ev) then located
      else (PlaceOr(ev.country), PlaceOr(ev.region));
    stored.(pageUrls := stored.pageUrls + ListOr(ev.pageUrls),
            scrollDepth := stored.scrollDepth + ListOr(ev.scrollDepth),
            timeSpent := stored.timeSpent + ListOr(ev.timeSpent),
            utmSource := if Truthy(ev.utmSource) then ev.utmSource.value else stored.utmSource,
            country := place.0, region := place.1)
  }

  /** The campaign source is replaced only by a truthy incoming value. */
  lemma MergeUtmSource(stored: VP.VisitorProfile, ev: TrackEvent, located: (string, string))
    ensures Truthy(ev.utmSource) ==> Merge(stored, ev, located).utmSource == ev.utmSource.value
    ensures !Truthy(ev.utmSource) ==> Merge(stored, ev, located).utmSource == stored.utmSource
  {
  }

  /**
   * The location rule: a complete stored location never changes; an
   * incomplete one takes the lookup answer when the event brings no location,
   * and otherwise the event's pair verbatim, even when half of it is "Unknown".
   */
  lemma MergeLocation(stored: VP.VisitorProfile, ev: TrackEvent, located: (string, string))
    ensures var r := Merge(stored, ev, located);
            (!LocationIncomplete(stored) ==> r.country == stored.country && r.region == stored.region) &&
            (NeedsLookup(stored, ev) ==> (r.country, r.region) == located) &&
            (LocationIncomplete(stored) && !EventUnlocated(ev) ==>
               r.country == PlaceOr(ev.country) && r.region == PlaceOr(ev.region))
  {
  }

  /**
   * A known country is lost when the stored region is "Unknown" and the event
   * brings only a region: the event's pair is copied, country "Unknown" included.
   */
  lemma MergeCanForgetCountry(stored: VP.VisitorProfile, ev: TrackEvent, located: (string, string))
    requires stored.country != VP.Unknown && stored.region == VP.Unknown
    requires ev.country.None? && ev.region.Some? && ev.region.value != VP.Unknown
    ensures Merge(stored, ev, located).country == VP.Unknown
    ensures Merge(stored, ev, located).region == ev.region.value
  {
  }

  /** The lookup answer matters only in the one case `NeedsLookup` names. */
  lemma LookupOnlyWhenNeeded(stored: VP.VisitorProfile, ev: TrackEvent, a: (string, string), b: (string, string))
    requires !NeedsLookup(stored, ev)
    ensures Merge(stored, ev, a) == Merge(stored, ev, b)
  {
  }

  /**
   * When the stored lists run in step and the event's lists do too, the
   * merged lists still run in step: position `i` of each list belongs to the
   * same page view.
   */
  lemma MergeKeepsListsInStep(stored: VP.VisitorProfile, ev: TrackEvent, located: (string, string))
    requires |stored.pageUrls| == |stored.scrollDepth| == |stored.timeSpent|
    requires |ListOr(ev.pageUrls)| == |ListOr(ev.scrollDepth)| == |ListOr(ev.timeSpent)|
    ensures var r := Merge(stored, ev, located);
            |r.pageUrls| == |r.scrollDepth| == |r.timeSpent| &&
            forall i :: |stored.pageUrls| <= i < |r.pageUrls| ==>
              r.pageUrls[i] == ListOr(ev.pageUrls)[i - |stored.pageUrls|] &&
              r.scrollDepth[i] == ListOr(ev.scrollDepth)[i - |stored.pageUrls|] &&
              r.timeSpent[i] == ListOr(ev.timeSpent)[i - |stored.pageUrls|]
  {
  }

  /** The answers of `track_analytics`. `Raised` is a stored list cell that does not decode. */
  datatype TrackOutcome = EmptyBody | InvalidJson | Failure | Success | Raised

  /** The HTTP status of each answer (an uncaught exception gives 500). */
  function Status(o: TrackOutcome): (code: int)
    ensures code == 200 <==> o == Success
    ensures code == 400 <==> o in {EmptyBody, InvalidJson, Failure}
  {
    match o
    case Success => 200
    case Raised => 500
    case _ => 400
  }

  /** The index of the visitor's profile: the first with the session key, or -1. */
  function ProfileIndex(ps: seq<VP.VisitorProfile>, key: Option<string>): (k: int)
    ensures -1 <= k < |ps|
    ensures k >= 0 ==> key.Some? && ps[k].sessionId == key.value
    ensures k >= 0 ==> forall i :: 0 <= i < k ==> ps[i].sessionId != key.value
    ensures k < 0 ==> forall i :: 0 <= i < |ps| ==> key.None? || ps[i].sessionId != key.value
  {
    if key.None? then -1 else FirstIndex(ps, VP.HasSession(key.value))
  }

  /**
   * `track_analytics(request)`. `parsed` is the JSON decoding of the body
   * (`None` where it is malformed), `sessionKey` the session's key, `geo` the
   * geolocation service and `now` the clock.
   */
  method TrackAnalytics(disk: Disk, req: Request, parsed: Option<TrackEvent>, sessionKey: Option<string>,
                        geo: Option<string> -> (string, string), now: string) returns (out: TrackOutcome)
    requires VP.TableOk(disk.files)
    modifies disk
    ensures var rows := RowsAt(old(disk.files), VisitorProfileCsv);
            var read := VP.ProfilesOf(rows, now);
            var k := if read.Some? then ProfileIndex(read.value, sessionKey) else -1;
            if req.verb != "POST" then out == Failure && disk.files == old(disk.files)
            else if req.body == "" then out == EmptyBody && disk.files == old(disk.files)
            else if parsed.None? then out == InvalidJson && disk.files == old(disk.files)
            else if read.None? then out == Raised && disk.files == Ensured(old(disk.files), VisitorProfileCsv, VP.Fields)
            else if k < 0 then out == Failure && disk.files == Ensured(old(disk.files), VisitorProfileCsv, VP.Fields)
            else out == Success &&
                 disk.files == old(disk.files)[VisitorProfileCsv := Table(VP.Fields,
                   VP.UpdatedRows(rows, Merge(read.value[k], parsed.value, geo(ClientIp(req.meta))), now).value)]
    ensures VP.TableOk(disk.files)
  {
    if req.verb != "POST" {
      return Failure;
    }
    if req.body == "" {
      return EmptyBody;
    }
    if parsed.None? {
      return InvalidJson;
    }
    var ev := parsed.value;
    var profiles := VP.All(disk, now);
    if profiles.None? {
      return Raised;
    }
    var k := ProfileIndex(profiles.value, sessionKey);
    if k < 0 {
      return Failure;
    }
    var stored := profiles.value[k];
    var located := (VP.Unknown, VP.Unknown);
    if NeedsLookup(stored, ev) {
      located := geo(ClientIp(req.meta));
    } else {
      LookupOnlyWhenNeeded(stored, ev, located, geo(ClientIp(req.meta)));
    }
    var ok := VP.Update(disk, Merge(stored, ev, located), now);
    out := Success;
  }

  /**
   * A successful tracking request leaves the visitor's profile, when read
   * again, with the stored lists followed by the event's lists.
   */
  lemma TrackedListsReadBack(rows: seq<Row>, k: nat, ev: TrackEvent, located: (string, string), now: string, later: string)
    requires VP.WellFormed(rows) && VP.Decodable(rows, now) && k < |rows|
    ensures var stored := VP.ProfilesOf(rows, now).value[k];
            var written := VP.UpdatedRows(rows, Merge(stored, ev, located), now).value;
            VP.WellFormed(written) && VP.ProfilesOf(written, later).Some? &&
            |VP.ProfilesOf(written, later).value| == |rows| &&
            VP.ProfilesOf(written, later).value[k].pageUrls == stored.pageUrls + ListOr(ev.pageUrls) &&
            VP.ProfilesOf(written, later).value[k].scrollDepth == stored.scrollDepth + ListOr(ev.scrollDepth) &&
            VP.ProfilesOf(written, later).value[k].timeSpent == stored.timeSpent + ListOr(ev.timeSpent)
  {
    var ps := VP.ProfilesOf(rows, now).value;
    var merged := Merge(ps[k], ev, located);
    var updated := VP.UpdatedProfiles(ps, merged);
    VP.ProfileRowsRoundTrip(updated, later);
    assert updated[k] == VP.Overwrite(ps[k], merged);
  }

  // ----- delete_post -----

  /** The file `delete_post` writes: a path relative to the working directory, not the posts table. */
  const PostsCsv: string := "data/posts.csv"

  /** The final path segment of a file path: the file's own name. */
  function FileName(path: string): (name: string)
    ensures |name| <= |path| && name == path[|path| - |name|..] && '/' !in name
    ensures |name| < |path| ==> path[|path| - |name| - 1] == '/'
  {
    if path == [] then []
    else if path[|path| - 1] == '/' then []
    else FileName(path[..|path| - 1]) + [path[|path| - 1]]
  }

  /** The name after the last slash of a path is its file name. */
  lemma {:induction false} FileNameAfterSlash(dir: string, name: string)
    requires '/' !in name
    ensures FileName(dir + "/" + name) == name
  {
    var path := dir + "/" + name;
    if name == [] {
      assert path[|path| - 1] == '/';
    } else {
      var init := name[..|name| - 1];
      assert path[..|path| - 1] == dir + "/" + init;
      assert path[|path| - 1] == name[|name| - 1] != '/';
      FileNameAfterSlash(dir, init);
      assert name == init + [name[|name| - 1]];
    }
  }

  /** The file `delete_post` writes is named `posts.csv`. */
  lemma PostsCsvName()
    ensures FileName(PostsCsv) == "posts.csv"
  {
    assert PostsCsv == "data" + "/" + "posts.csv";
    FileNameAfterSlash("data", "posts.csv");
  }

  /** The posts table is named `blogposts.csv`. */
  lemma BlogPostsCsvName()
    ensures FileName(BlogPostsCsv) == "blogposts.csv"
  {
    assert BlogPostsCsv == "BASE_DIR/data" + "/" + "blogposts.csv";
    FileNameAfterSlash("BASE_DIR/data", "blogposts.csv");
  }

  /** `delete_post` writes `posts.csv`, while the posts table is `blogposts.csv`: different files, whatever the directories. */
  lemma PostsCsvIsNotThePostTable()
    ensures FileName(PostsCsv) != FileName(BlogPostsCsv)
    ensures PostsCsv != BlogPostsCsv
  {
    PostsCsvName();
    BlogPostsCsvName();
    assert "posts.csv"[0] != "blogposts.csv"[0];
  }

  datatype DeleteOutcome = NotFound | Forbidden | Redirected

  /** `posts.remove(post_to_delete)`: drops the first post with that id. */
  function RemoveFirst(posts: seq<BP.BlogPost>, id: string): (r: seq<BP.BlogPost>)
    ensures var k := FirstIndex(posts, BP.HasId(id));
            (k < 0 ==> r == posts) && (k >= 0 ==> r == posts[..k] + posts[k + 1..])
  {
    var k := FirstIndex(posts, BP.HasId(id));
    if k < 0 then posts else posts[..k] + posts[k + 1..]
  }

  /** Removing the first match lowers the number of posts with that id by exactly one and keeps the others in order. */
  lemma RemoveFirstDropsOne(posts: seq<BP.BlogPost>, id: string)
    requires exists i :: 0 <= i < |posts| && posts[i].id == id
    ensures Count(RemoveFirst(posts, id), BP.HasId(id)) == Count(posts, BP.HasId(id)) - 1
    ensures |RemoveFirst(posts, id)| == |posts| - 1
    ensures WithoutIdIsKept(posts, id)
  {
    var k := FirstIndex(posts, BP.HasId(id));
    var p := BP.HasId(id);
    assert posts == posts[..k] + [posts[k]] + posts[k + 1..];
    CountConcat(posts[..k] + [posts[k]], posts[k + 1..], p);
    CountConcat(posts[..k], [posts[k]], p);
    CountConcat(posts[..k], posts[k + 1..], p);
    assert Count([posts[k]], p) == 1 by {
      assert [posts[k]][1..] == [];
    }
    FilterPieces(posts, k, id);
  }

  /** Every post with another id survives the removal, in its original relative order. */
  predicate WithoutIdIsKept(posts: seq<BP.BlogPost>, id: string)
  {
    BP.WithoutId(RemoveFirst(posts, id), id) == BP.WithoutId(posts, id)
  }

  lemma FilterPieces(posts: seq<BP.BlogPost>, k: int, id: string)
    requires 0 <= k < |posts| && posts[k].id == id
    ensures BP.WithoutId(posts[..k] + posts[k + 1..], id) == BP.WithoutId(posts, id)
  {
    var keep := BP.LacksId(id);
    assert posts == (posts[..k] + [posts[k]]) + posts[k + 1..];
    FilterConcat(posts[..k] + [posts[k]], posts[k + 1..], keep);
    FilterConcat(posts[..k], [posts[k]], keep);
    FilterConcat(posts[..k], posts[k + 1..], keep);
    assert Filter([posts[k]], keep) == [] by {
      assert [posts[k]][1..] == [];
    }
  }

  /**
   * The disk after `delete_post`, writing the remaining posts to `target`.
   * `allowed` is `is_staff or is_superuser`.
   */
  function AfterDeletePost(files: map<string, Table>, postId: string, allowed: bool,
                           uuid: nat -> Uuid, now: string, target: string): (r: map<string, Table>)
    requires BP.TableOk(files)
    ensures target != BlogPostsCsv ==> RowsAt(r, BlogPostsCsv) == RowsAt(BP.AfterAll(files, uuid, now), BlogPostsCsv)
  {
    var posts := BP.PostsOf(RowsAt(files, BlogPostsCsv), uuid, now);
    var after := BP.AfterAll(files, uuid, now);
    if FirstIndex(posts, BP.HasId(postId)) >= 0 && allowed
    then after[target := Table(BP.Fields, BP.PostRows(RemoveFirst(posts, postId)))]
    else after
  }

  /** The answer of `delete_post`. */
  function DeleteAnswer(posts: seq<BP.BlogPost>, postId: string, allowed: bool): (o: DeleteOutcome)
    ensures o == NotFound <==> forall i :: 0 <= i < |posts| ==> posts[i].id != postId
    ensures o == Forbidden <==> !allowed && exists i :: 0 <= i < |posts| && posts[i].id == postId
  {
    if FirstIndex(posts, BP.HasId(postId)) < 0 then NotFound
    else if !allowed then Forbidden
    else Redirected
  }

  /**
   * `delete_post(request, post_id)`, as written: 404 for an unknown id, 403
   * for a visitor who is neither staff nor superuser, and otherwise the
   * remaining posts are written to `data/posts.csv`.
   */
  method DeletePost(disk: Disk, postId: string, isStaff: bool, isSuperuser: bool,
                    uuid: nat -> Uuid, now: string) returns (out: DeleteOutcome)
    requires BP.TableOk(disk.files)
    modifies disk
    ensures out == DeleteAnswer(BP.PostsOf(RowsAt(old(disk.files), BlogPostsCsv), uuid, now), postId, isStaff || isSuperuser)
    ensures disk.files == AfterDeletePost(old(disk.files), postId, isStaff || isSuperuser, uuid, now, PostsCsv)
  {
    out := DeletePostTo(disk, postId, isStaff, isSuperuser, uuid, now, PostsCsv);
  }

  /** `delete_post` writing the remaining posts to the posts table, as intended. */
  method DeletePostIntended(disk: Disk, postId: string, isStaff: bool, isSuperuser: bool,
                            uuid: nat -> Uuid, now: string) returns (out: DeleteOutcome)
    requires BP.TableOk(disk.files)
    modifies disk
    ensures out == DeleteAnswer(BP.PostsOf(RowsAt(old(disk.files), BlogPostsCsv), uuid, now), postId, isStaff || isSuperuser)
    ensures disk.files == AfterDeletePost(old(disk.files), postId, isStaff || isSuperuser, uuid, now, BlogPostsCsv)
  {
    out := DeletePostTo(disk, postId, isStaff, isSuperuser, uuid, now, BlogPostsCsv);
  }

  method DeletePostTo(disk: Disk, postId: string, isStaff: bool, isSuperuser: bool,
                      uuid: nat -> Uuid, now: string, target: string) returns (out: DeleteOutcome)
    requires BP.TableOk(disk.files)
    modifies disk
    ensures out == DeleteAnswer(BP.PostsOf(RowsAt(old(disk.files), BlogPostsCsv), uuid, now), postId, isStaff || isSuperuser)
    ensures disk.files == AfterDeletePost(old(disk.files), postId, isStaff || isSuperuser, uuid, now, target)
  {
    var posts := BP.All(disk, uuid, now);
    if FirstIndex(posts, BP.HasId(postId)) < 0 {
      return NotFound;
    }
    if !(isStaff || isSuperuser) {
      return Forbidden;
    }
    posts := RemoveFirst(posts, postId);
    disk.RewriteAll(target, BP.Fields, BP.PostRows(posts));
    out := Redirected;
  }

  /**
   * As written, an authorised deletion of an existing post leaves the post in
   * the posts table: the next listing still returns a post with that id.
   */
  lemma DeletePostKeepsThePost(files: map<string, Table>, postId: string, uuid: nat -> Uuid, now: string,
                               uuid2: nat -> Uuid, now2: string)
    requires BP.TableOk(files)
    requires var posts := BP.PostsOf(RowsAt(files, BlogPostsCsv), uuid, now);
             exists i :: 0 <= i < |posts| && posts[i].id == postId
    ensures var kept := RowsAt(AfterDeletePost(files, postId, true, uuid, now, PostsCsv), BlogPostsCsv);
            BP.WellFormed(kept) &&
            exists i :: 0 <= i < |kept| && BP.PostsOf(kept, uuid2, now2)[i].id == postId
  {
    var rows := RowsAt(files, BlogPostsCsv);
    var posts := BP.PostsOf(rows, uuid, now);
    var i :| 0 <= i < |posts| && posts[i].id == postId;
    PostsCsvIsNotThePostTable();
    BP.IdsPersist(rows, uuid, now, uuid2, now2, i);
  }

  /**
   * The intended deletion removes one post with that id from the posts table
   * and keeps every post with another id in its original order.
   */
  lemma DeletePostIntendedRemovesThePost(files: map<string, Table>, postId: string, uuid: nat -> Uuid, now: string)
    requires BP.TableOk(files)
    requires var posts := BP.PostsOf(RowsAt(files, BlogPostsCsv), uuid, now);
             exists i :: 0 <= i < |posts| && posts[i].id == postId
    ensures var posts := BP.PostsOf(RowsAt(files, BlogPostsCsv), uuid, now);
            var after := AfterDeletePost(files, postId, true, uuid, now, BlogPostsCsv);
            var left := RemoveFirst(posts, postId);
            RowsAt(after, BlogPostsCsv) == BP.PostRows(left) &&
            |left| == |posts| - 1 &&
            Count(left, BP.HasId(postId)) == Count(posts, BP.HasId(postId)) - 1 &&
            BP.WithoutId(left, postId) == BP.WithoutId(posts, postId)
  {
    var posts := BP.PostsOf(RowsAt(files, BlogPostsCsv), uuid, now);
    RemoveFirstDropsOne(posts, postId);
  }
}
