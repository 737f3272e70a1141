/**
 * Visitor profiles stored one per row of `visitorprofiles.csv`. The three
 * list-valued fields are written as JSON arrays inside single cells. Update
 * and delete read every profile and rewrite the whole table.
 */
module VisitorProfiles {
  import opened Wrappers
  import opened Sequences
  import opened CsvStore
  import opened JsonCells

  /** The column header of `visitorprofiles.csv`. */
  const Fields: seq<string> := [
    "session_id", "ip_address", "utm_source", "user_agent", "device_type",
    "page_urls", "scroll_depth", "time_spent", "country", "region", "date_time_visited"]

  const Unknown: string := "Unknown"

  datatype VisitorProfile = VisitorProfile(
    sessionId: string, ipAddress: string, utmSource: string, userAgent: string, deviceType: string,
    pageUrls: seq<Scalar>, scrollDepth: seq<Scalar>, timeSpent: seq<Scalar>,
    country: string, region: string, dateTimeVisited: string)

  /** Every data row of `visitorprofiles.csv` has the eleven columns of `Fields`. */
  predicate WellFormed(rows: seq<Row>)
  {
    forall i :: 0 <= i < |rows| ==> |rows[i]| == |Fields|
  }

  /** The disk holds `visitorprofiles.csv` only with its proper header and row width. */
  predicate TableOk(files: map<string, Table>)
  {
    Conforms(files, VisitorProfileCsv, Fields)
  }

  /**
   * `VisitorProfile(...)`: country and region default to "Unknown", and
   * `date_time_visited` is always the current time.
   */
  function NewProfile(sessionId: string, ipAddress: string, utmSource: string, userAgent: string,
                      deviceType: string, pageUrls: seq<Scalar>, scrollDepth: seq<Scalar>,
                      timeSpent: seq<Scalar>, now: string,
                      country: string := Unknown, region: string := Unknown): (p: VisitorProfile)
    ensures p.sessionId == sessionId && p.ipAddress == ipAddress && p.utmSource == utmSource
    ensures p.userAgent == userAgent && p.deviceType == deviceType
    ensures p.pageUrls == pageUrls && p.scrollDepth == scrollDepth && p.timeSpent == timeSpent
    ensures p.country == country && p.region == region
    ensures p.dateTimeVisited == now
  {
    VisitorProfile(sessionId, ipAddress, utmSource, userAgent, deviceType,
                   pageUrls, scrollDepth, timeSpent, country, region, now)
  }

  /** A profile built without a location records "Unknown" for both country and region. */
  lemma NewProfileDefaults(sessionId: string, ipAddress: string, utmSource: string, userAgent: string,
                           deviceType: string, pageUrls: seq<Scalar>, scrollDepth: seq<Scalar>,
                           timeSpent: seq<Scalar>, now: string)
    ensures var p := NewProfile(sessionId, ipAddress, utmSource, userAgent, deviceType,
                                pageUrls, scrollDepth, timeSpent, now);
            p.country == Unknown && p.region == Unknown && p.dateTimeVisited == now
  {
  }

  /** The row written for a profile: the three lists JSON-encoded, in column order. */
  function ProfileRow(p: VisitorProfile): (r: Row)
    ensures |r| == |Fields|
  {
    [p.sessionId, p.ipAddress, p.utmSource, p.userAgent, p.deviceType,
     Encode(p.pageUrls), Encode(p.scrollDepth), Encode(p.timeSpent),
     p.country, p.region, p.dateTimeVisited]
  }

  function ProfileRows(ps: seq<VisitorProfile>): (rows: seq<Row>)
    ensures |rows| == |ps| && WellFormed(rows)
  {
    seq(|ps|, i requires 0 <= i < |ps| => ProfileRow(ps[i]))
  }

  /** The disk after `profile.save()`. */
  function AppendedProfile(files: map<string, Table>, p: VisitorProfile): (r: map<string, Table>)
    ensures VisitorProfileCsv in r && r[VisitorProfileCsv].rows == RowsAt(files, VisitorProfileCsv) + [ProfileRow(p)]
    ensures forall q :: q != VisitorProfileCsv ==> (q in r <==> q in files) && (q in files ==> r[q] == files[q])
  {
    Appended(files, VisitorProfileCsv, Fields, ProfileRow(p))
  }

  /** `profile.save()`: makes sure the table exists and appends exactly one row. */
  method Save(disk: Disk, p: VisitorProfile)
    modifies disk
    ensures disk.files == AppendedProfile(old(disk.files), p)
    ensures TableOk(old(disk.files)) ==> TableOk(disk.files)
  {
    disk.EnsureCsvExists(VisitorProfileCsv, Fields);
    disk.AppendRow(VisitorProfileCsv, ProfileRow(p));
  }

  // ----- all -----

  /**
   * The profile rebuilt from a row in the loop of `VisitorProfile.all()`: the
   * three list cells are JSON-decoded (`None` where a cell does not decode) and,
   * through the constructor, `date_time_visited` becomes the read time.
   */
  function ProfileOfRow(r: Row, now: string): Option<VisitorProfile>
    requires |r| == |Fields|
  {
    match (Decode(r[5]), Decode(r[6]), Decode(r[7]))
    case (Some(pu), Some(sd), Some(ts)) =>
      Some(NewProfile(r[0], r[1], r[2], r[3], r[4], pu, sd, ts, now, r[8], r[9]))
    case _ => None
  }

  /** Every row's list cells decode, so `all()` gives a profile for each row. */
  predicate Decodable(rows: seq<Row>, now: string)
    requires WellFormed(rows)
  {
    forall i :: 0 <= i < |rows| ==> ProfileOfRow(rows[i], now).Some?
  }

  /** What `VisitorProfile.all()` returns for the given rows: `None` when a list cell does not decode. */
  function ProfilesOf(rows: seq<Row>, now: string): (r: Option<seq<VisitorProfile>>)
    requires WellFormed(rows)
    ensures r.Some? <==> Decodable(rows, now)
    ensures r.Some? ==> |r.value| == |rows|
  {
    if Decodable(rows, now)
    then Some(seq(|rows|, i requires 0 <= i < |rows| && Decodable(rows, now) => ProfileOfRow(rows[i], now).value))
    else None
  }

  /** A saved profile reads back with the same lists, session, addresses and location; only its visit time is the read time. */
  lemma RowRoundTrip(p: VisitorProfile, now: string)
    ensures ProfileOfRow(ProfileRow(p), now) == Some(p.(dateTimeVisited := now))
  {
    DecodeEncode(p.pageUrls);
    DecodeEncode(p.scrollDepth);
    DecodeEncode(p.timeSpent);
  }

  /** A rewritten table reads back as the profiles written, each stamped with the read time. */
  lemma ProfileRowsRoundTrip(ps: seq<VisitorProfile>, now: string)
    ensures ProfilesOf(ProfileRows(ps), now).Some?
    ensures |ProfilesOf(ProfileRows(ps), now).value| == |ps|
    ensures forall i :: 0 <= i < |ps| ==> ProfilesOf(ProfileRows(ps), now).value[i] == ps[i].(dateTimeVisited := now)
  {
    var rows := ProfileRows(ps);
    forall i | 0 <= i < |ps| ensures ProfileOfRow(rows[i], now) == Some(ps[i].(dateTimeVisited := now)) {
      RowRoundTrip(ps[i], now);
    }
    assert Decodable(rows, now);
  }

  /**
   * `save()` then `all()`: the profiles already stored come back as before,
   * followed by the saved one with its lists intact.
   */
  lemma SaveThenAll(rows: seq<Row>, p: VisitorProfile, now: string)
    requires WellFormed(rows) && Decodable(rows, now)
    ensures WellFormed(rows + [ProfileRow(p)])
    ensures ProfilesOf(rows + [ProfileRow(p)], now)
         == Some(ProfilesOf(rows, now).value + [p.(dateTimeVisited := now)])
  {
    var all := rows + [ProfileRow(p)];
    RowRoundTrip(p, now);
    assert forall i :: 0 <= i < |rows| ==> all[i] == rows[i];
    assert all[|rows|] == ProfileRow(p);
    assert Decodable(all, now);
    var got := ProfilesOf(all, now).value;
    var want := ProfilesOf(rows, now).value + [p.(dateTimeVisited := now)];
    assert |got| == |want|;
    forall k | 0 <= k < |got| ensures got[k] == want[k] {
      if k < |rows| {
        assert got[k] == ProfileOfRow(rows[k], now).value;
      } else {
        assert got[k] == ProfileOfRow(ProfileRow(p), now).value;
      }
    }
    assert got == want;
  }

  /** The loop of `VisitorProfile.all()`: stops with `None` at the first row whose lists do not decode. */
  method ReadProfiles(rows: seq<Row>, now: string) returns (r: Option<seq<VisitorProfile>>)
    requires WellFormed(rows)
    ensures r == ProfilesOf(rows, now)
  {
    var ps: seq<VisitorProfile> := [];
    var i := 0;
    while i < |rows|
      invariant 0 <= i <= |rows| && |ps| == i
      invariant forall k :: 0 <= k < i ==> ProfileOfRow(rows[k], now) == Some(ps[k])
    {
      var p := ProfileOfRow(rows[i], now);
      if p.None? {
        return None;
      }
      ps := ps + [p.value];
      i := i + 1;
    }
    r := Some(ps);
    assert Decodable(rows, now);
    assert forall k :: 0 <= k < |rows| ==> ps[k] == ProfilesOf(rows, now).value[k];
    assert ps == ProfilesOf(rows, now).value;
  }

  /**
   * `VisitorProfile.all()`: makes sure the table exists (nothing else is
   * written) and returns one profile per row, or `None` where a list cell does not decode.
   */
  method All(disk: Disk, now: string) returns (r: Option<seq<VisitorProfile>>)
    requires TableOk(disk.files)
    modifies disk
    ensures r == ProfilesOf(RowsAt(old(disk.files), VisitorProfileCsv), now)
    ensures disk.files == Ensured(old(disk.files), VisitorProfileCsv, Fields)
    ensures TableOk(disk.files)
  {
    disk.EnsureCsvExists(VisitorProfileCsv, Fields);
    r := ReadProfiles(disk.files[VisitorProfileCsv].rows, now);
  }

  // ----- update -----

  /** The seven fields `update()` copies from the given profile onto a stored one. */
  function Overwrite(stored: VisitorProfile, src: VisitorProfile): (r: VisitorProfile)
    ensures r.sessionId == stored.sessionId && r.ipAddress == stored.ipAddress
    ensures r.userAgent == stored.userAgent && r.deviceType == stored.deviceType
    ensures r.pageUrls == src.pageUrls && r.scrollDepth == src.scrollDepth && r.timeSpent == src.timeSpent
    ensures r.utmSource == src.utmSource && r.country == src.country && r.region == src.region
    ensures r.dateTimeVisited == src.dateTimeVisited
  {
    stored.(pageUrls := src.pageUrls, scrollDepth := src.scrollDepth, timeSpent := src.timeSpent,
            utmSource := src.utmSource, country := src.country, region := src.region,
            dateTimeVisited := src.dateTimeVisited)
  }

  /** The profiles after `update()`: those with the same session get the seven fields, the rest are untouched. */
  function UpdatedProfiles(ps: seq<VisitorProfile>, src: VisitorProfile): (r: seq<VisitorProfile>)
    ensures |r| == |ps|
    ensures forall i :: 0 <= i < |ps| && ps[i].sessionId != src.sessionId ==> r[i] == ps[i]
    ensures forall i :: 0 <= i < |ps| && ps[i].sessionId == src.sessionId ==> r[i] == Overwrite(ps[i], src)
  {
    seq(|ps|, i requires 0 <= i < |ps| => if ps[i].sessionId == src.sessionId then Overwrite(ps[i], src) else ps[i])
  }

  /** The loop of `update()`. */
  method OverwriteMatching(ps: seq<VisitorProfile>, src: VisitorProfile) returns (r: seq<VisitorProfile>)
    ensures r == UpdatedProfiles(ps, src)
  {
    r := ps;
    var i := 0;
    while i < |r|
      invariant 0 <= i <= |r| == |ps|
      invariant forall k :: 0 <= k < i ==> r[k] == UpdatedProfiles(ps, src)[k]
      invariant forall k :: i <= k < |r| ==> r[k] == ps[k]
    {
      if r[i].sessionId == src.sessionId {
        r := r[i := Overwrite(r[i], src)];
      }
      i := i + 1;
    }
  }

  /** With a session that no profile has, `update()` writes back exactly what `all()` returned. */
  lemma UpdateUnknownSessionChangesNoProfile(ps: seq<VisitorProfile>, src: VisitorProfile)
    requires forall i :: 0 <= i < |ps| ==> ps[i].sessionId != src.sessionId
    ensures UpdatedProfiles(ps, src) == ps
  {
  }

  /** The rows `update()` writes for the rows it read; `None` where `all()` gives `None`. */
  function UpdatedRows(rows: seq<Row>, src: VisitorProfile, now: string): Option<seq<Row>>
    requires WellFormed(rows)
  {
    match ProfilesOf(rows, now)
    case None => None
    case Some(ps) => Some(ProfileRows(UpdatedProfiles(ps, src)))
  }

  /**
   * As written, `update()` resets the stored visit time of every other
   * visitor: their profiles were rebuilt by the constructor at read time, and
   * that time is what is written back.
   */
  lemma UpdateResetsOtherVisitTimes(rows: seq<Row>, src: VisitorProfile, now: string, i: nat)
    requires WellFormed(rows) && Decodable(rows, now)
    requires i < |rows| && rows[i][0] != src.sessionId
    ensures UpdatedRows(rows, src, now).Some?
    ensures |UpdatedRows(rows, src, now).value| == |rows|
    ensures UpdatedRows(rows, src, now).value[i][10] == now
  {
  }

  /** `profile.update()`: returns false (and writes nothing more than `all()`) where `all()` gives `None`. */
  method Update(disk: Disk, src: VisitorProfile, now: string) returns (ok: bool)
    requires TableOk(disk.files)
    modifies disk
    ensures var rows := RowsAt(old(disk.files), VisitorProfileCsv);
            ok == Decodable(rows, now) &&
            disk.files == if ok then old(disk.files)[VisitorProfileCsv := Table(Fields, UpdatedRows(rows, src, now).value)]
                          else Ensured(old(disk.files), VisitorProfileCsv, Fields)
    ensures TableOk(disk.files)
  {
    var all := All(disk, now);
    if all.None? {
      return false;
    }
    var ps := OverwriteMatching(all.value, src);
    disk.EnsureCsvExists(VisitorProfileCsv, Fields);
    disk.RewriteAll(VisitorProfileCsv, Fields, ProfileRows(ps));
    ok := true;
  }

  // ----- the intended update -----

  /**
   * The profile stored in a row, keeping its stored visit time; writing it
   * back reproduces the row's identity, location and time cells.
   */
  function StoredProfileOfRow(r: Row): (p: Option<VisitorProfile>)
    requires |r| == |Fields|
    ensures p == ProfileOfRow(r, r[10])
    ensures p.Some? ==> ProfileRow(p.value)[..5] == r[..5] && ProfileRow(p.value)[8..] == r[8..]
  {
    var p := ProfileOfRow(r, r[10]);
    if p.Some? then
      StoredCells(r, p.value);
      WrittenCells(p.value, r);
      p
    else p
  }

  /** A profile decoded with the row's own time keeps the row's identity, location and time. */
  lemma StoredCells(r: Row, q: VisitorProfile)
    requires |r| == |Fields| && ProfileOfRow(r, r[10]) == Some(q)
    ensures q.sessionId == r[0] && q.ipAddress == r[1] && q.utmSource == r[2]
    ensures q.userAgent == r[3] && q.deviceType == r[4]
    ensures q.country == r[8] && q.region == r[9] && q.dateTimeVisited == r[10]
  {
    var pu, sd, ts := Decode(r[5]), Decode(r[6]), Decode(r[7]);
    assert pu.Some? && sd.Some? && ts.Some?;
  }

  /** Writing a profile back reproduces the cells it shares with a row. */
  lemma WrittenCells(q: VisitorProfile, r: Row)
    requires |r| == |Fields|
    requires q.sessionId == r[0] && q.ipAddress == r[1] && q.utmSource == r[2]
    requires q.userAgent == r[3] && q.deviceType == r[4]
    requires q.country == r[8] && q.region == r[9] && q.dateTimeVisited == r[10]
    ensures ProfileRow(q)[..5] == r[..5] && ProfileRow(q)[8..] == r[8..]
  {
    var w := ProfileRow(q);
    assert w[..5] == [r[0], r[1], r[2], r[3], r[4]] == r[..5];
    assert w[8..] == [r[8], r[9], r[10]] == r[8..];
  }

  /** Every row decodes with its stored visit time. */
  predicate StoredDecodable(rows: seq<Row>)
    requires WellFormed(rows)
  {
    forall i :: 0 <= i < |rows| ==> StoredProfileOfRow(rows[i]).Some?
  }

  /**
   * The rows an update that keeps stored visit times would write: the stored
   * profiles, with the matching ones overwritten, written back.
   */
  function UpdatedRowsKeepingTimes(rows: seq<Row>, src: VisitorProfile): (r: seq<Row>)
    requires WellFormed(rows) && StoredDecodable(rows)
    ensures |r| == |rows| && WellFormed(r)
  {
    var ps := seq(|rows|, i requires 0 <= i < |rows| && StoredDecodable(rows) => StoredProfileOfRow(rows[i]).value);
    ProfileRows(UpdatedProfiles(ps, src))
  }

  /**
   * The intended update leaves the row of another session with its identity,
   * location and visit time cells as they were, and with lists that decode to
   * what they decoded to before.
   */
  lemma UpdateKeepingTimesKeepsOtherRows(rows: seq<Row>, src: VisitorProfile, i: nat)
    requires WellFormed(rows) && StoredDecodable(rows) && i < |rows|
    requires rows[i][0] != src.sessionId
    ensures var w := UpdatedRowsKeepingTimes(rows, src)[i];
            w[..5] == rows[i][..5] && w[8..] == rows[i][8..] &&
            StoredProfileOfRow(w) == StoredProfileOfRow(rows[i])
  {
    var p := StoredProfileOfRow(rows[i]).value;
    assert UpdatedRowsKeepingTimes(rows, src)[i] == ProfileRow(p);
    RowRoundTrip(p, p.dateTimeVisited);
  }

  /** The intended update gives the row of the updated session the seven new values, read back as written. */
  lemma UpdateKeepingTimesWritesMatches(rows: seq<Row>, src: VisitorProfile, i: nat)
    requires WellFormed(rows) && StoredDecodable(rows) && i < |rows|
    requires rows[i][0] == src.sessionId
    ensures var w := UpdatedRowsKeepingTimes(rows, src)[i];
            StoredProfileOfRow(w) == Some(Overwrite(StoredProfileOfRow(rows[i]).value, src))
  {
    var q := Overwrite(StoredProfileOfRow(rows[i]).value, src);
    assert UpdatedRowsKeepingTimes(rows, src)[i] == ProfileRow(q);
    RowRoundTrip(q, q.dateTimeVisited);
  }

  // ----- delete -----

  /** The test `profile.session_id == id`, and its negation. */
  function HasSession(id: string): VisitorProfile -> bool { (p: VisitorProfile) => p.sessionId == id }
  function LacksSession(id: string): VisitorProfile -> bool { (p: VisitorProfile) => p.sessionId != id }

  /** The profiles `delete()` keeps. */
  function WithoutSession(ps: seq<VisitorProfile>, id: string): seq<VisitorProfile>
  {
    Filter(ps, LacksSession(id))
  }

  /**
   * `delete()` keeps exactly the profiles of other sessions, in their original
   * relative order, and the list shrinks by the number of profiles of that session.
   */
  lemma DeleteKeepsExactlyOthers(ps: seq<VisitorProfile>, id: string)
    ensures forall p :: p in WithoutSession(ps, id) <==> p in ps && p.sessionId != id
    ensures |WithoutSession(ps, id)| == |ps| - Count(ps, HasSession(id))
    ensures forall a, b :: a + b == ps ==> WithoutSession(ps, id) == WithoutSession(a, id) + WithoutSession(b, id)
  {
    var keep := LacksSession(id);
    forall p | p in ps && p.sessionId != id ensures p in WithoutSession(ps, id) {
      FilterKeeps(ps, keep, p);
    }
    FilterLength(ps, keep, HasSession(id));
    forall a, b | a + b == ps ensures WithoutSession(ps, id) == WithoutSession(a, id) + WithoutSession(b, id) {
      FilterConcat(a, b, keep);
    }
  }

  /**
   * As written, `delete()` writes every remaining profile back with the read
   * time as its visit time, as `update()` does: the stored visit times are lost.
   */
  lemma DeleteResetsVisitTimes(rows: seq<Row>, id: string, now: string, i: nat)
    requires WellFormed(rows) && Decodable(rows, now)
    requires i < |ProfileRows(WithoutSession(ProfilesOf(rows, now).value, id))|
    ensures ProfileRows(WithoutSession(ProfilesOf(rows, now).value, id))[i][10] == now
  {
    var ps := ProfilesOf(rows, now).value;
    var kept := WithoutSession(ps, id);
    assert kept[i] in kept;
  }

  /** `profile.delete()`: rewrites the table with the profiles of every other session; false where `all()` gives `None`. */
  method Delete(disk: Disk, sessionId: string, now: string) returns (ok: bool)
    requires TableOk(disk.files)
    modifies disk
    ensures var rows := RowsAt(old(disk.files), VisitorProfileCsv);
            ok == Decodable(rows, now) &&
            disk.files == if ok then old(disk.files)[VisitorProfileCsv :=
                                       Table(Fields, ProfileRows(WithoutSession(ProfilesOf(rows, now).value, sessionId)))]
                          else Ensured(old(disk.files), VisitorProfileCsv, Fields)
    ensures TableOk(disk.files)
  {
    var all := All(disk, now);
    if all.None? {
      return false;
    }
    var ps := WithoutSession(all.value, sessionId);
    disk.EnsureCsvExists(VisitorProfileCsv, Fields);
    disk.RewriteAll(VisitorProfileCsv, Fields, ProfileRows(ps));
    ok := true;
  }
}
