/**
 * The analytics middleware: on each request it records in the session
 * whether the visitor still needs a profile, and on the response it creates
 * that profile once.
 */
module Middleware {
  import opened Wrappers
  import opened Sequences
  import opened CsvStore
  import opened JsonCells
  import opened HttpRequests
  import VP = VisitorProfiles

  /** `needle` occurs in `haystack` starting at position `i`. */
  predicate OccursAt(haystack: string, needle: string, i: nat)
  {
    i + |needle| <= |haystack| && haystack[i..i + |needle|] == needle
  }

  /** `needle in haystack` on strings. */
  ghost predicate Contains(haystack: string, needle: string)
  {
    exists i: nat :: OccursAt(haystack, needle, i)
  }

  /** The substring test by scanning, with its meaning as an `ensures`. */
  function ContainsFrom(haystack: string, needle: string, from: nat): (b: bool)
    requires from <= |haystack|
    ensures b <==> exists i: nat :: from <= i && OccursAt(haystack, needle, i)
    decreases |haystack| - from
  {
    if |haystack| - from < |needle| then false
    else if haystack[from..from + |needle|] == needle then assert OccursAt(haystack, needle, from); true
    else ContainsFrom(haystack, needle, from + 1)
  }

  /** `_get_device_type(user_agent)`: "Mobile" wins over "Tablet"; anything else is "Desktop". */
  function DeviceType(userAgent: string): (kind: string)
    ensures kind in {"Mobile", "Tablet", "Desktop"}
    ensures kind == "Mobile" <==> Contains(userAgent, "Mobile")
    ensures kind == "Tablet" <==> !Contains(userAgent, "Mobile") && Contains(userAgent, "Tablet")
    ensures kind == "Desktop" <==> !Contains(userAgent, "Mobile") && !Contains(userAgent, "Tablet")
  {
    if ContainsFrom(userAgent, "Mobile", 0) then "Mobile"
    else if ContainsFrom(userAgent, "Tablet", 0) then "Tablet"
    else "Desktop"
  }

  /** A user agent naming both "Mobile" and "Tablet" is classified as mobile. */
  lemma MobileTakesPrecedence(userAgent: string)
    requires Contains(userAgent, "Mobile") && Contains(userAgent, "Tablet")
    ensures DeviceType(userAgent) == "Mobile"
  {
  }

  /** The request session: its key (none until first saved) and the `is_new_profile_needed` entry. */
  class Session {
    var key: Option<string>
    var newProfileNeeded: Option<bool>

    constructor (key: Option<string>, newProfileNeeded: Option<bool>)
      ensures this.key == key && this.newProfileNeeded == newProfileNeeded
    {
      this.key := key;
      this.newProfileNeeded := newProfileNeeded;
    }

    /** `request.session.save()`: a session without a key receives the fresh one. */
    method Save(freshKey: Uuid)
      modifies this
      ensures key == if Truthy(old(key)) then old(key) else Some(freshKey)
      ensures newProfileNeeded == old(newProfileNeeded)
    {
      if !Truthy(key) {
        key := Some(freshKey);
      }
    }
  }

  /** Some stored profile belongs to the session: `any(p.session_id == id for p in profiles)`. */
  function HasProfile(ps: seq<VP.VisitorProfile>, id: string): (b: bool)
    ensures b <==> exists i :: 0 <= i < |ps| && ps[i].sessionId == id
  {
    FirstIndex(ps, VP.HasSession(id)) >= 0
  }

  /**
   * `process_request`: makes sure the session has a key, then sets
   * `is_new_profile_needed` to whether no stored profile carries it. Returns
   * false where a stored profile's list cell does not decode.
   */
  method ProcessRequest(disk: Disk, session: Session, freshKey: Uuid, now: string) returns (ok: bool)
    requires VP.TableOk(disk.files)
    modifies disk, session
    ensures session.key == if Truthy(old(session.key)) then old(session.key) else Some(freshKey)
    ensures disk.files == Ensured(old(disk.files), VisitorProfileCsv, VP.Fields)
    ensures var read := VP.ProfilesOf(RowsAt(old(disk.files), VisitorProfileCsv), now);
            ok == read.Some? &&
            session.newProfileNeeded ==
              if ok then Some(!HasProfile(read.value, session.key.value)) else old(session.newProfileNeeded)
  {
    session.Save(freshKey);
    var profiles := VP.All(disk, now);
    if profiles.None? {
      return false;
    }
    session.newProfileNeeded := Some(!HasProfile(profiles.value, session.key.value));
    ok := true;
  }

  /** `process_response` leaves these paths alone. */
  predicate Excluded(path: string)
    ensures Excluded(path) <==>
              (|path| >= 17 && path[..17] == "/track_analytics/") || (|path| >= 7 && path[..7] == "/media/")
  {
    "/track_analytics/" <= path || "/media/" <= path
  }

  /**
   * The profile created for a new visitor: empty lists, the first forwarded
   * address (written as an empty cell when there is none), the user agent and
   * its device class, the country from Cloudflare's header and the region and
   * campaign source from the form, each with its default.
   */
  function FirstProfile(req: Request, sessionId: string, now: string): (p: VP.VisitorProfile)
    ensures p.pageUrls == [] && p.scrollDepth == [] && p.timeSpent == []
    ensures p.sessionId == sessionId && p.dateTimeVisited == now
    ensures p.userAgent == GetOr(req.meta, "HTTP_USER_AGENT", "")
    ensures p.deviceType == DeviceType(p.userAgent)
    ensures p.country == GetOr(req.meta, "HTTP_CF_IPCOUNTRY", VP.Unknown)
    ensures p.region == GetOr(req.post, "region", VP.Unknown)
    ensures p.utmSource == GetOr(req.post, "utm_source", "")
    ensures ClientIp(req.meta).Some? ==> p.ipAddress == ClientIp(req.meta).value
    ensures ClientIp(req.meta).None? ==> p.ipAddress == ""
  {
    var ip := ClientIp(req.meta);
    var userAgent := GetOr(req.meta, "HTTP_USER_AGENT", "");
    VP.NewProfile(sessionId, if ip.Some? then ip.value else "", GetOr(req.post, "utm_source", ""),
                  userAgent, DeviceType(userAgent), [], [], [], now,
                  GetOr(req.meta, "HTTP_CF_IPCOUNTRY", VP.Unknown), GetOr(req.post, "region", VP.Unknown))
  }

  /**
   * `process_response`: makes sure the session has a key; outside the
   * excluded paths, a session flagged as needing a profile gets one appended
   * and the flag cleared. Nothing else is written.
   */
  method ProcessResponse(disk: Disk, session: Session, req: Request, freshKey: Uuid, now: string)
    modifies disk, session
    ensures session.key == if Truthy(old(session.key)) then old(session.key) else Some(freshKey)
    ensures var creates := !Excluded(req.pathInfo) && old(session.newProfileNeeded) == Some(true);
            (creates ==> disk.files == VP.AppendedProfile(old(disk.files), FirstProfile(req, session.key.value, now))
                         && session.newProfileNeeded == Some(false)) &&
            (!creates ==> disk.files == old(disk.files) && session.newProfileNeeded == old(session.newProfileNeeded))
  {
    session.Save(freshKey);
    if Excluded(req.pathInfo) {
      return;
    }
    if session.newProfileNeeded == Some(true) {
      VP.Save(disk, FirstProfile(req, session.key.value, now));
      session.newProfileNeeded := Some(false);
    }
  }

  /**
   * Two responses in a row for a flagged session append exactly one profile:
   * the first clears the flag, so the second writes nothing.
   */
  method TwoResponses(disk: Disk, session: Session, req: Request, freshKey: Uuid, now: string, later: string)
    requires session.newProfileNeeded == Some(true) && !Excluded(req.pathInfo)
    modifies disk, session
    ensures |RowsAt(disk.files, VisitorProfileCsv)| == |RowsAt(old(disk.files), VisitorProfileCsv)| + 1
  {
    ProcessResponse(disk, session, req, freshKey, now);
    ProcessResponse(disk, session, req, freshKey, later);
  }
}
