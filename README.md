# Portfolio record store and analytics, modelled in Dafny

This project models the data layer of a Django portfolio site. The site keeps blog posts, comments and visitor analytics profiles in three CSV files, with no database behind them.

- **Record store.** Each record kind can:
  - make sure its file exists with a header;
  - append a row;
  - read every row back in file order;
  - rewrite the whole file after a filter (delete) or after a change to matching rows (update).
- **Blog posts.** Reading repairs rows that lack an id.
- **Visitor profiles.** Three list-valued fields are stored as JSON arrays inside single cells.
- **Web layer.**
  - The analytics endpoint folds a tracking event into the visitor's stored profile.
  - The staff-only post deletion writes the posts that remain.
  - The blog list orders posts newest first.
  - A middleware creates one profile for each new session.

Modules, one file each:

- `Wrappers`: `Option`, non-empty identifiers, Python truthiness of optional strings, and dictionary lookups.
- `Sequences`: filter, count and first-index search, with their order and length facts.
- `CsvStore`: a file is a `Table(header, rows)`. The disk is the class `Disk`, whose field `files: map<string, Table>` the writers update.
- `JsonCells`: the JSON-array encoding of one cell and its decoder, with the round trip proved.
- `BlogPosts`, `Comments`, `VisitorProfiles`: one module per record kind.
  - Every loop that reads rows or applies an update is a method proved equal to a specification function.
  - The loops that write rows out are modelled by the functions `PostRows`, `ProfileRows` and `CommentRow`, which give the rows written.
  - The disk-changing methods call the reading loops and state the whole new disk.
- `BlogOrder`: the stable newest-first sort used by the blog list.
- `HttpRequests`: the request fields that are read, and the client-address rule.
- `Views`, `Middleware`: the request handlers and the session flag.

The environment is passed in as parameters:

- The clock is a `now` string, one reading per operation.
- `uuid4()` is a function `uuid: nat -> Uuid` from row position to a non-empty id.
- The upload store is a function `blob` from requested name to stored path.
- The geolocation service is a function `geo` from client address to a (country, region) pair.
- JSON parsing of a request body is an `Option<TrackEvent>` argument.
- Session keys that Django would create are given as `freshKey`.

## Model

| member | source | states |
|---|---|---|
| CsvStore.Ensured | portfolio/models.py:23-28 | the file exists afterwards with its old rows; an existing file is untouched; a missing one gets exactly the header; no other file changes |
| CsvStore.EnsureIdempotent | portfolio/models.py:23-28 | ensuring a file twice is the same as ensuring it once |
| CsvStore.Disk.EnsureCsvExists | portfolio/models.py:23-28 | the disk becomes `Ensured` of the old disk |
| CsvStore.Disk.AppendRow | portfolio/models.py:57-63 | exactly one row is added at the end of the file; header and other files are unchanged |
| CsvStore.Disk.RewriteAll | portfolio/models.py:110-118 | the file holds exactly the given header and rows; other files are unchanged |
| JsonCells.Encode | portfolio/models.py:231 | an encoded list is bracketed text `[` ... `]` |
| JsonCells.Decode | portfolio/models.py:242-244 | `[]` decodes to the empty list and only `[]` does; anything that decodes is bracketed text |
| JsonCells.ParseStringBody | portfolio/models.py:242-244 | the string scanner always consumes input, so decoding terminates |
| JsonCells.NumberPrefixSound | portfolio/models.py:242-244 | whatever the number scanner takes is a number literal: `NaN`, `Infinity`, `-Infinity` or a JSON number `-?(0\|[1-9][0-9]*)(.[0-9]+)?([eE][+-]?[0-9]+)?` |
| JsonCells.StringRoundTrip | portfolio/models.py:231-244 | an escaped string followed by its closing quote scans back to the same string and the rest of the input |
| JsonCells.NumberPrefixRoundTrip | portfolio/models.py:231-244 | a number literal is scanned back whole when what follows cannot continue a number |
| JsonCells.QuotedRoundTrip | portfolio/models.py:231-244 | a quoted string element parses back to itself |
| JsonCells.NumberRoundTrip | portfolio/models.py:231-244 | a number element parses back to itself |
| JsonCells.ScalarRoundTrip | portfolio/models.py:231-244 | any encoded element parses back to itself and leaves the rest of the input |
| JsonCells.ItemsRoundTrip | portfolio/models.py:231-244 | a non-empty encoded item list parses back to the same list |
| JsonCells.DecodeEncode | portfolio/models.py:231-244 | `json.loads(json.dumps(xs)) == xs` for lists of strings and numbers |
| JsonCells.EncodeItemsNonEmpty | portfolio/models.py:231 | a non-empty list never encodes to empty text |
| JsonCells.EncodeInjective | portfolio/models.py:231 | different lists are written as different cells |
| JsonCells.SignOrDotCell | portfolio/models.py:242-244 | `[+]`, `[-]` and `[.5]` do not decode |
| JsonCells.TruncatedNumberCell | portfolio/models.py:242-244 | `[01]`, `[1e]` and `[1.]` do not decode |
| JsonCells.SpecialFloatCell | portfolio/models.py:242-244 | `[NaN]` decodes to the one-number list `NaN` |
| BlogPosts.NewPost | portfolio/models.py:34-45 | the id is the given id when that is truthy and the fresh id otherwise, so never empty; the date likewise with the clock reading; title, content, author and attachments are kept; the stored image (PDF) path is the given path string exactly when the attachment is a path, and empty otherwise |
| BlogPosts.PostRow | portfolio/models.py:60-63 | a post is written as one seven-cell row |
| BlogPosts.PostRows | portfolio/models.py:114-118 | one well-formed row per post |
| BlogPosts.StoreUploads | portfolio/models.py:49-54 | a truthy uploaded image is stored under `blog_images/` plus its name and the stored path becomes the upload store's answer, likewise a PDF under `blog_pdfs/`; otherwise the path is kept; nothing else changes |
| BlogPosts.Save | portfolio/models.py:47-63 | uploads are stored first; then exactly one row `[id, title, content, image_path, pdf_path, published_date, author]` is appended and every earlier row is kept |
| BlogPosts.RowId | portfolio/models.py:73 | a row's non-empty id is kept |
| BlogPosts.PostsOf | portfolio/models.py:66-105 | one post per row in file order; every id non-empty; ids already present are kept |
| BlogPosts.ReadPosts | portfolio/models.py:72-87 | the loop builds exactly `PostsOf`, and `modified` holds iff some row's id was empty |
| BlogPosts.AfterAll | portfolio/models.py:66-105 | the file is rewritten with the read posts iff some id was empty, and is otherwise unchanged |
| BlogPosts.All | portfolio/models.py:65-105 | returns `PostsOf` of the stored rows, and the disk becomes `AfterAll` |
| BlogPosts.RepairedCells | portfolio/models.py:73-103 | a repair rewrite changes only empty id cells (to the fresh id) and empty date cells (to the read time) |
| BlogPosts.ReadWriteIdentity | portfolio/models.py:78-103 | rows with no empty id or date are written back exactly as read |
| BlogPosts.RepairIsStable | portfolio/models.py:66-105 | after one repair, a later `all()` finds nothing to repair and returns the same posts |
| BlogPosts.IdsPersist | portfolio/models.py:66-105 | the id a post receives from `all()` is the id every later `all()` returns for it |
| BlogPosts.DeleteKeepsExactlyOthers | portfolio/models.py:109 | exactly the posts with another id remain, in their original relative order; the count drops by the number of matches |
| BlogPosts.Delete | portfolio/models.py:107-118 | the file is rewritten with the filtered posts |
| BlogPosts.SetAttributes | portfolio/models.py:124-125 | the keyword loop applies the changes in order |
| BlogPosts.AttachmentKeywordsNotPersisted | portfolio/models.py:120-134 | setting `image` or `pdf` by keyword leaves the written row unchanged |
| BlogPosts.Column | portfolio/models.py:124-134 | which of the seven written cells a keyword sets; `image` and `pdf` set none |
| BlogPosts.ApplyAllSnoc | portfolio/models.py:124-125 | applying one more keyword applies it after all earlier ones |
| BlogPosts.UpdatedCells | portfolio/models.py:120-134 | every written cell of an updated post is the value of the last keyword that sets it, or the old cell when none does: a written cell is replaced, the others stay, and the last repeated keyword wins |
| BlogPosts.Updated | portfolio/models.py:122-125 | the length is kept; every post with the id becomes that post with all keywords applied in order; every post with another id is untouched |
| BlogPosts.UpdateMatching | portfolio/models.py:122-125 | the loop computes `Updated` |
| BlogPosts.UpdateUnknownIdChangesNoPost | portfolio/models.py:120-134 | with an unknown id no post changes |
| BlogPosts.UpdateUnknownIdLeavesTable | portfolio/models.py:120-134 | with an unknown id and no empty cells, the file is rewritten with exactly its old rows |
| BlogPosts.UpdateStampsEmptyDate | portfolio/models.py:120-134 | an update writes every row of another id whose date was empty back with its own or fresh id and the read time as its date, and with its other cells unchanged |
| BlogPosts.Update | portfolio/models.py:120-134 | the file is rewritten with `Updated` of the read posts |
| BlogPosts.ImageUrl | portfolio/models.py:136-139 | the placeholder exactly when there is no stored image path; otherwise the media URL, `/blog_images/` and the path |
| BlogPosts.PdfUrl | portfolio/models.py:141-145 | `None` exactly when there is no stored PDF path |
| BlogPosts.ContentPreview | portfolio/models.py:147-148 | at most the first 100 characters of the content, followed by `...` |
| Comments.CommentRow | portfolio/models.py:167 | a comment is written as one four-cell row |
| Comments.NewComment | portfolio/models.py:157-161 | the comment keeps its title, author and text, and its creation time is the clock reading |
| Comments.Save | portfolio/models.py:163-167 | exactly one row is appended |
| Comments.ListedConcat | portfolio/models.py:174-178 | listing a concatenation lists each part in turn, so file order is kept |
| Comments.Listed | portfolio/models.py:170-179 | at most one comment per row, each stamped with the read time |
| Comments.ReadComments | portfolio/models.py:176-178 | the loop computes `Listed` |
| Comments.All | portfolio/models.py:169-179 | returns `Listed` of the stored rows; only `ensure_csv_exists` touches the disk |
| Comments.ListedMatchesTitle | portfolio/models.py:170-179 | with a title, as many comments come back as rows carry that title, each with that title and the read time |
| Comments.ListedIsSelection | portfolio/models.py:170-179 | the listing is exactly the selected rows, in file order, rebuilt position by position with their title, author and text and the read time |
| Comments.ListedAll | portfolio/models.py:170-179 | with no title, every row comes back in file order with its title, author and text |
| Comments.SaveThenList | portfolio/models.py:163-179 | a saved comment is listed last under its title, with the read time |
| VisitorProfiles.ProfileRow | portfolio/models.py:228-233 | a profile is written as one eleven-cell row |
| VisitorProfiles.NewProfile | portfolio/models.py:211-223 | every constructor argument is kept in its field, and the visit time is the clock reading |
| VisitorProfiles.NewProfileDefaults | portfolio/models.py:211-212 | a profile made without country or region has "Unknown" for both |
| VisitorProfiles.ProfileRows | portfolio/models.py:269-275 | one well-formed row per profile |
| VisitorProfiles.AppendedProfile | portfolio/models.py:225-233 | the profile file gains exactly the new row at its end; other files are unchanged |
| VisitorProfiles.Save | portfolio/models.py:225-233 | the disk becomes `AppendedProfile` |
| VisitorProfiles.ProfilesOf | portfolio/models.py:236-249 | `all()` succeeds iff every row's list cells decode, and then returns one profile per row |
| VisitorProfiles.RowRoundTrip | portfolio/models.py:211-249 | a written profile reads back equal except for its visit time, which becomes the read time |
| VisitorProfiles.ProfileRowsRoundTrip | portfolio/models.py:236-275 | a rewritten table reads back as the profiles written, stamped with the read time |
| VisitorProfiles.SaveThenAll | portfolio/models.py:225-249 | after `save()`, `all()` returns the earlier profiles followed by the saved one with the same lists; country and region are kept |
| VisitorProfiles.ReadProfiles | portfolio/models.py:241-248 | the loop computes `ProfilesOf` and stops at the first row that does not decode |
| VisitorProfiles.All | portfolio/models.py:235-249 | returns `ProfilesOf` of the stored rows; only `ensure_csv_exists` touches the disk |
| VisitorProfiles.Overwrite | portfolio/models.py:255-262 | the seven copied fields come from the new profile; session id, address, user agent and device are kept |
| VisitorProfiles.UpdatedProfiles | portfolio/models.py:254-262 | the length is kept; every profile of the session is overwritten by the new one's seven fields; profiles of other sessions are untouched |
| VisitorProfiles.OverwriteMatching | portfolio/models.py:254-262 | the loop computes `UpdatedProfiles` |
| VisitorProfiles.UpdateUnknownSessionChangesNoProfile | portfolio/models.py:251-275 | with an unknown session nothing changes |
| VisitorProfiles.UpdateResetsOtherVisitTimes | portfolio/models.py:251-275 | as written, every profile of another session is written back with the read time as its visit time |
| VisitorProfiles.Update | portfolio/models.py:251-275 | the file is rewritten with the updated profiles; if a stored list does not decode, nothing but `ensure_csv_exists` happens |
| VisitorProfiles.StoredProfileOfRow | portfolio/models.py:236-249 | a row read with its own stored time writes back the same identity, location and time cells |
| VisitorProfiles.UpdatedRowsKeepingTimes | portfolio/models.py:251-275 | the intended update keeps one well-formed row per stored row |
| VisitorProfiles.UpdateKeepingTimesKeepsOtherRows | portfolio/models.py:251-275 | the intended update leaves another session's identity, location and visit-time cells as they were, and its lists decode as before |
| VisitorProfiles.UpdateKeepingTimesWritesMatches | portfolio/models.py:251-275 | the intended update writes the new values into the matching session's row, and they read back as written |
| VisitorProfiles.DeleteKeepsExactlyOthers | portfolio/models.py:279 | exactly the profiles of other sessions remain, in order; the count drops by the number of matches |
| VisitorProfiles.DeleteResetsVisitTimes | portfolio/models.py:277-289 | as written, every profile `delete()` writes back carries the read time as its visit time |
| VisitorProfiles.Delete | portfolio/models.py:277-289 | the file is rewritten with the filtered profiles |
| BlogOrder.LexReflexive | portfolio/views.py:21 | string order is reflexive |
| BlogOrder.LexTotal | portfolio/views.py:21 | string order is total |
| BlogOrder.LexAntisymmetric | portfolio/views.py:21 | string order is antisymmetric |
| BlogOrder.LexTransitive | portfolio/views.py:21 | string order is transitive |
| BlogOrder.Insert | portfolio/views.py:21 | insertion adds exactly one element |
| BlogOrder.SortNewestFirst | portfolio/views.py:21 | the sorted list is a permutation of the posts |
| BlogOrder.InsertKeepsOrder | portfolio/views.py:21 | insertion into a newest-first list keeps it newest first |
| BlogOrder.SortIsNewestFirst | portfolio/views.py:21 | no post is followed by one with a later date |
| BlogOrder.InsertStable | portfolio/views.py:21 | insertion places a post before the posts that share its date |
| BlogOrder.SortIsStable | portfolio/views.py:21 | posts that share a date keep their original relative order |
| Views.BlogList | portfolio/views.py:19-21 | the page lists every post, sorted by `SortNewestFirst`, after the reading step of `all()` |
| HttpRequests.FirstField | portfolio/views.py:173 | the result is a comma-free prefix of the header, ending at its first comma or at its end |
| HttpRequests.FirstFieldOfChain | portfolio/views.py:173 | splitting `client,rest` gives back `client` |
| HttpRequests.ClientIp | portfolio/views.py:170-176 | exactly the untrimmed first comma-separated entry of a non-empty `X-Forwarded-For`, otherwise `REMOTE_ADDR` (the middleware's copy, middleware.py:69-76, is the same rule) |
| HttpRequests.ClientIpOfChain | portfolio/middleware.py:69-76 | for a forwarding chain, the client's own address |
| Views.ListOr | portfolio/views.py:130-132 | a missing list defaults to `[]` |
| Views.PlaceOr | portfolio/views.py:133-134 | a missing country or region defaults to "Unknown" |
| Views.Merge | portfolio/views.py:146-157 | each list becomes the old list followed by the incoming one; identity and visit time are untouched |
| Views.MergeUtmSource | portfolio/views.py:135-149 | the campaign source is replaced only by a truthy incoming value |
| Views.MergeLocation | portfolio/views.py:152-157 | a complete location never changes; an incomplete one takes the lookup when the event has no location, otherwise the event's pair verbatim |
| Views.MergeCanForgetCountry | portfolio/views.py:152-157 | for every incomplete stored location with a known country, an event that brings only a known region sets the country to "Unknown" and the region to the event's |
| Views.LookupOnlyWhenNeeded | portfolio/views.py:152-154 | the lookup answer affects the result only when the location is incomplete and the event brings none |
| Views.MergeKeepsListsInStep | portfolio/views.py:146-148 | lists of equal length stay of equal length, and the appended positions hold the event's items in step |
| Views.Status | portfolio/views.py:118-164 | 200 exactly for success; 400 for an empty body, invalid JSON or failure |
| Views.ProfileIndex | portfolio/views.py:140-142 | the index of the first profile with the session key: it has the key and none before it does; none when no profile has it |
| Views.TrackAnalytics | portfolio/views.py:117-164 | non-POST gives failure, an empty body "Empty request body", bad JSON "Invalid JSON", all with no write; an unknown session gives failure; otherwise the merged profile is written through `update()` |
| Views.TrackedListsReadBack | portfolio/views.py:141-160 | after a tracked event, the visitor's lists read back as the stored lists followed by the event's |
| Views.PostsCsvName | portfolio/views.py:81 | the file `delete_post` writes is named `posts.csv` |
| Views.BlogPostsCsvName | portfolio/models.py:13 | the posts table is named `blogposts.csv` |
| Views.PostsCsvIsNotThePostTable | portfolio/views.py:81 | the file `delete_post` writes and the posts table have different file names, so they are different files |
| Views.FileName | portfolio/views.py:81 | the last path component: a slash-free suffix of the path, preceded by a slash when shorter than the path |
| Views.FileNameAfterSlash | portfolio/views.py:81 | for every directory, the file name of `dir/name` is `name` when `name` has no slash |
| Views.RemoveFirst | portfolio/views.py:75-80 | `list.remove` drops the first post with the id, or nothing |
| Views.RemoveFirstDropsOne | portfolio/views.py:75-80 | one fewer post with the id, one fewer post overall, and the posts with other ids are kept in order |
| Views.FilterPieces | portfolio/views.py:80 | removing a post with the id does not change the posts with other ids |
| Views.AfterDeletePost | portfolio/views.py:72-92 | when the target is another file, the posts table is as `all()` left it |
| Views.DeleteAnswer | portfolio/views.py:77-92 | 404 exactly when no post has the id; 403 exactly when one does and the user is neither staff nor superuser |
| Views.DeletePost | portfolio/views.py:72-92 | the answer is `DeleteAnswer`, and the remaining posts are written to `data/posts.csv` only for an allowed deletion of an existing post |
| Views.DeletePostKeepsThePost | portfolio/views.py:72-92 | as written, the deleted post is still returned by the next `all()` |
| Views.DeletePostIntended | portfolio/views.py:72-92 | the same handler writing to the posts table |
| Views.DeletePostTo | portfolio/views.py:72-92 | the handler body for a given target file: the answer is `DeleteAnswer`, and only an allowed deletion of an existing post writes the remaining posts to that file |
| Views.DeletePostIntendedRemovesThePost | portfolio/views.py:72-92 | the intended handler removes one post with the id from the posts table and keeps the others in order |
| Middleware.ContainsFrom | portfolio/middleware.py:63-65 | the substring scan is true exactly when the word occurs at or after the start position |
| Middleware.DeviceType | portfolio/middleware.py:61-67 | always one of three labels: "Mobile" iff the UA contains "Mobile", "Tablet" iff it contains "Tablet" but not "Mobile", "Desktop" otherwise |
| Middleware.MobileTakesPrecedence | portfolio/middleware.py:63-66 | every UA naming both "Mobile" and "Tablet" is classed "Mobile" |
| Middleware.Session.Save | portfolio/middleware.py:13-14 | a session without a key receives a fresh one; a keyed session keeps its key |
| Middleware.HasProfile | portfolio/middleware.py:19 | true iff some stored profile has the session id |
| Middleware.Excluded | portfolio/middleware.py:32 | a path is skipped exactly when it starts with `/track_analytics/` or `/media/` |
| Middleware.ProcessRequest | portfolio/middleware.py:11-24 | the flag becomes true iff no stored profile has the session key |
| Middleware.FirstProfile | portfolio/middleware.py:36-54 | the new profile has empty lists and the client address, user agent and device class; the country comes from `HTTP_CF_IPCOUNTRY` (default "Unknown"), the region from the form (default "Unknown"), the campaign source from the form (default "") |
| Middleware.ProcessResponse | portfolio/middleware.py:26-59 | outside `/track_analytics/` and `/media/`, a flagged session gets exactly one profile appended and its flag cleared; in every other case nothing is written and the flag is kept |
| Middleware.TwoResponses | portfolio/middleware.py:55-57 | two responses for one flagged session append exactly one row |

## Left out

- File I/O, CSV quoting and `os.makedirs`. A file is an abstract header plus rows, and the csv writer and reader are taken to round-trip every cell.
- Malformed tables. Each table is assumed to carry its own header, and every row is assumed to have that many cells. That is what this code writes, and every reading operation requires it. A hand-edited file with missing columns, which would raise `KeyError`, is not modelled.
- The clock, `uuid4()`, the upload store, the geolocation call and Django's session-key creation are parameters. Time-zone arithmetic is not modelled.
- One clock reading per operation. `get_nyc_time()` (models.py:18-19) returns the time with microseconds. Every constructor calls it (models.py:40, 161, 223), the post constructor only when no date is given. So in the source every comment and profile rebuilt within one `all()`, and every post read there with an empty `published_date`, gets its own time. The model passes one `now` to each operation, and all of them share it.
- JsonCells.Decode: it reads back only the layout `Encode` writes. Other layouts that `json.loads` accepts, such as `[1,2]` without the space or with extra whitespace, give `None`. A backslash takes the next character literally, so `\u00e9` reads as `u00e9` and `\n` as `n`, and it accepts escapes such as `\x` that `json.loads` rejects. Numbers follow `json.loads`: JSON's grammar, plus `NaN`, `Infinity` and `-Infinity`. The values `null`, `true` and `false` and nested arrays and objects give `None`, although `json.loads` reads them, because an element is a string or a number.
- JsonCells.Encode: `json.dumps` escapes control and non-ASCII characters as `\uXXXX`, and numbers are Python floats or ints. The model escapes only `"` and `\` and keeps numbers as their literal text. Elements are strings or numbers, not nested values.
- Views.TrackAnalytics:
  - A body that is valid JSON but not an object is not modelled; the source would raise.
  - Values of other JSON types are not modelled, because the event's lists are sequences of strings and numbers and its places optional strings. The source does not raise on them: a string `page_urls` is appended character by character (views.py:146), a number `country` or `region` is written as it is, and `"country": null` is stored as an empty cell instead of taking the "Unknown" default (views.py:133, 156).
  - A body that is not UTF-8 is not modelled; it is an uncaught error in the source.
  - The `print` of the received data is left out.
  - The first and the second reading of the profiles share one clock reading.
- Views.BlogList: `Paginator` and template rendering are left out. Only the ordered list the page is cut from is modelled.
- Views.DeletePost: `login_required`, rendering and redirects are answers only. The write to `data/posts.csv` assumes that directory exists.
- `blog_detail`, `blog_create`, `welcomePage_view`, the forms, the URL table and the front-end script are outside this model.
- `BlogPost.__str__` and `Comment.__str__` are display helpers and are not modelled.
- BlogPosts.PdfUrl: `urllib.parse.quote` is a parameter, so only the "no PDF path means `None`" rule is stated about its text.
- A profile's missing client address (`REMOTE_ADDR` absent) is written as an empty cell, which is what the csv writer does with `None`.
- Sequential model only: concurrent requests that read and rewrite the same file are not modelled.

## Findings

| source | as written | input that shows it | evidently intended | confidence | as-written member | corrected member |
|---|---|---|---|---|---|---|
| portfolio/views.py:81 | an allowed deletion writes the remaining posts to `data/posts.csv`, a different file from the posts table `BASE_DIR/data/blogposts.csv` | a staff user deletes post `p1` from a table holding `p1`; the next `BlogPost.all()` still returns `p1` | the remaining posts replace the posts table | high (not executed) | Views.DeletePostKeepsThePost | Views.DeletePostIntendedRemovesThePost |
| portfolio/models.py:251-275 | `update()` rebuilds every profile through the constructor, which stamps the read time, and writes that time back for every session | the table holds profiles `a` and `b`, both visited at `T0`; a tracking event for `a` at time `T1` rewrites `b`'s visit time to `T1` | profiles of other sessions keep their stored visit time | medium (not executed) | VisitorProfiles.UpdateResetsOtherVisitTimes | VisitorProfiles.UpdateKeepingTimesKeepsOtherRows |

For both findings, the handlers model the code as written: `Views.DeletePost` and `VisitorProfiles.Update`. The corrected behaviour is modelled beside them:

- `Views.DeletePostIntended` writes to the posts table.
- `VisitorProfiles.UpdatedRowsKeepingTimes` keeps stored visit times.
- `VisitorProfile.delete()` (models.py:277-289) loses the stored visit times in the same way; `VisitorProfiles.DeleteResetsVisitTimes` states it. `VisitorProfiles.UpdateKeepingTimesWritesMatches` proves the other half of its contract.
