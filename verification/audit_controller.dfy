/**
 * `getAuditLogs` and the audit route in front of it. The route admits only
 * the two admin roles; the handler then scopes by the caller's region
 * alone: region "global" gets every log with its user populated, any other
 * region gets the logs whose user (found by a `$lookup` on `userId`) has
 * that region. Both branches order logs newest first.
 *
 * A sort on `createdAt` leaves the order of equal timestamps to the
 * database; the model keeps such logs in store order.
 */
module AuditController {
  import opened Wrappers
  import opened Domain
  import opened Http
  import opened AuthMiddleware
  import Seqs
  import Sorting
  import AuditLogSchema

  const GlobalRegion: string := "global"

  /** What a returned log's `userId` holds: the bare id, or a populated `{ _id, region }`, or `null`. */
  datatype UserRef = RefId(id: Id) | RefUser(id: Id, region: string) | RefNull

  /**
   * A log as sent back: the stored record, the rendering of its `userId`,
   * and the `user` virtual when the schema's pre-find hook populated it.
   */
  datatype AuditView = AuditView(record: AuditRecord, userId: UserRef, user: Option<User>)

  function CreatedAt(a: AuditRecord): nat {
    a.createdAt
  }

  function Records(vs: seq<AuditView>): (rs: seq<AuditRecord>)
    ensures |rs| == |vs|
    ensures forall i :: 0 <= i < |vs| ==> rs[i] == vs[i].record
  {
    seq(|vs|, i requires 0 <= i < |vs| => vs[i].record)
  }

  predicate NewestFirst(vs: seq<AuditView>) {
    forall i, j :: 0 <= i < j < |vs| ==> vs[i].record.createdAt >= vs[j].record.createdAt
  }

  /**
   * A `find` on audit logs: the pre-find hook populates the `user` virtual
   * with the whole referenced user, and `populate("userId", "region")`
   * replaces `userId` by that user's id and region. Both are `null` when
   * the user is gone.
   */
  function Populate(users: seq<User>, rec: AuditRecord): (v: AuditView)
    ensures v.record == rec
    ensures v.userId.RefNull? <==> forall i :: 0 <= i < |users| ==> users[i].id != rec.userId
    ensures v.userId.RefUser? ==>
      v.userId.id == rec.userId && exists i :: 0 <= i < |users| && users[i].id == rec.userId && users[i].region == v.userId.region
    ensures v.user == AuditLogSchema.UserOf(users, rec)
    ensures v.user.None? <==> v.userId.RefNull?
  {
    var u := FindUserById(users, rec.userId);
    if u.None? then AuditView(rec, RefNull, None)
    else
      var i :| 0 <= i < |users| && users[i] == u.value;
      AuditView(rec, RefUser(u.value.id, u.value.region), u)
  }

  /** Some stored user is the log's user and belongs to `region`: what `$lookup` and `$match` test. */
  predicate HasOwnerIn(users: seq<User>, region: string, rec: AuditRecord) {
    exists i :: 0 <= i < |users| && users[i].id == rec.userId && users[i].region == region
  }

  /** `$lookup` then `$unwind` then `$match`, for one log: one copy per matching user of that region. */
  function Joined(rec: AuditRecord, users: seq<User>, region: string): (r: seq<AuditRecord>)
    ensures |r| <= |users|
    ensures forall k :: 0 <= k < |r| ==> r[k] == rec
    ensures r != [] ==> HasOwnerIn(users, region, rec)
  {
    if users == [] then []
    else
      var rest := Joined(rec, users[1..], region);
      if users[0].id == rec.userId && users[0].region == region then
        assert rest != [] ==> exists i :: 1 <= i < |users| && users[i].id == rec.userId && users[i].region == region by {
          if rest != [] {
            var i :| 0 <= i < |users[1..]| && users[1..][i].id == rec.userId && users[1..][i].region == region;
            assert users[i + 1] == users[1..][i];
          }
        }
        [rec] + rest
      else
        assert rest != [] ==> exists i :: 1 <= i < |users| && users[i].id == rec.userId && users[i].region == region by {
          if rest != [] {
            var i :| 0 <= i < |users[1..]| && users[1..][i].id == rec.userId && users[1..][i].region == region;
            assert users[i + 1] == users[1..][i];
          }
        }
        rest
  }

  /** The region pipeline before its sort: the logs whose user has `region`, in store order. */
  function InRegion(audits: seq<AuditRecord>, users: seq<User>, region: string): (r: seq<AuditRecord>)
    ensures forall k :: 0 <= k < |r| ==> r[k] in audits
    ensures forall k :: 0 <= k < |r| ==> HasOwnerIn(users, region, r[k])
  {
    if audits == [] then []
    else
      var head := Joined(audits[0], users, region);
      var rest := InRegion(audits[1..], users, region);
      assert forall k :: 0 <= k < |rest| ==> rest[k] in audits by {
        forall k | 0 <= k < |rest| ensures rest[k] in audits {
          assert rest[k] in audits[1..];
        }
      }
      var r := head + rest;
      forall k | 0 <= k < |r| ensures HasOwnerIn(users, region, r[k]) {
        if k < |head| {
          assert r[k] == head[k] == audits[0];
        } else {
          assert r[k] == rest[k - |head|];
        }
      }
      r
  }

  /** The stored user of a log, when that user is of `region`: the `$match` condition with unique ids. */
  predicate OwnedIn(users: seq<User>, region: string, rec: AuditRecord) {
    var u := FindUserById(users, rec.userId);
    u.Some? && u.value.region == region
  }

  lemma {:induction false} JoinedNone(rec: AuditRecord, users: seq<User>, region: string)
    requires forall i :: 0 <= i < |users| ==> users[i].id != rec.userId
    ensures Joined(rec, users, region) == []
  {
    if users != [] {
      JoinedNone(rec, users[1..], region);
    }
  }

  /** With unique ids a log joins with at most its own user. */
  lemma {:induction false} JoinedUnique(rec: AuditRecord, users: seq<User>, region: string)
    requires UniqueUserIds(users)
    ensures Joined(rec, users, region) == if OwnedIn(users, region, rec) then [rec] else []
  {
    if users != [] {
      if users[0].id == rec.userId {
        assert forall i :: 0 <= i < |users[1..]| ==> users[1..][i].id != rec.userId by {
          forall i | 0 <= i < |users[1..]| ensures users[1..][i].id != rec.userId {
            assert users[1..][i] == users[i + 1];
          }
        }
        JoinedNone(rec, users[1..], region);
      } else {
        assert UniqueUserIds(users[1..]) by {
          forall i, j | 0 <= i < j < |users[1..]| ensures users[1..][i].id != users[1..][j].id {
            assert users[1..][i] == users[i + 1] && users[1..][j] == users[j + 1];
          }
        }
        JoinedUnique(rec, users[1..], region);
      }
    }
  }

  /** With unique ids the lookup pipeline is a plain filter on the owner's region. */
  lemma {:induction false} InRegionIsFilter(audits: seq<AuditRecord>, users: seq<User>, region: string)
    requires UniqueUserIds(users)
    ensures InRegion(audits, users, region) == Seqs.Filter(audits, a => OwnedIn(users, region, a))
  {
    if audits != [] {
      JoinedUnique(audits[0], users, region);
      InRegionIsFilter(audits[1..], users, region);
      Seqs.FilterCons(audits[0], audits[1..], a => OwnedIn(users, region, a));
      assert [audits[0]] + audits[1..] == audits;
    }
  }

  function Newest(audits: seq<AuditRecord>): seq<AuditRecord> {
    Sorting.SortDesc(audits, CreatedAt)
  }

  /** The global branch: every log, newest first, each with its user populated. */
  function GlobalLogs(st: Store): (vs: seq<AuditView>)
    ensures NewestFirst(vs)
    ensures multiset(Records(vs)) == multiset(st.audits)
    ensures forall k :: 0 <= k < |vs| ==> vs[k] == Populate(st.users, vs[k].record)
  {
    var logs := Newest(st.audits);
    var vs := seq(|logs|, k requires 0 <= k < |logs| => Populate(st.users, logs[k]));
    assert Records(vs) == logs;
    vs
  }

  /** The region pipeline with its sort: the logs owned by a user of `region`, newest first. */
  function RegionRecords(st: Store, region: string): (logs: seq<AuditRecord>)
    ensures Sorting.SortedDesc(logs, CreatedAt)
    ensures multiset(logs) == multiset(InRegion(st.audits, st.users, region))
    ensures forall k :: 0 <= k < |logs| ==> logs[k] in st.audits && HasOwnerIn(st.users, region, logs[k])
  {
    var scoped := InRegion(st.audits, st.users, region);
    Sorting.SortKeepsMembers(scoped, CreatedAt);
    Newest(scoped)
  }

  /**
   * The region branch: the logs owned by a user of `region`, newest first,
   * `userId` left as the id and the joined `user` projected away. An
   * aggregate does not run the pre-find hook.
   */
  function RegionLogs(st: Store, region: string): (vs: seq<AuditView>)
    ensures NewestFirst(vs)
    ensures forall k :: 0 <= k < |vs| ==>
      && vs[k].userId == RefId(vs[k].record.userId)
      && vs[k].user.None?
      && vs[k].record in st.audits
      && HasOwnerIn(st.users, region, vs[k].record)
    ensures multiset(Records(vs)) == multiset(InRegion(st.audits, st.users, region))
  {
    var logs := RegionRecords(st, region);
    var vs := seq(|logs|, k requires 0 <= k < |logs| => AuditView(logs[k], RefId(logs[k].userId), None));
    assert Records(vs) == logs;
    vs
  }

  /**
   * `getAuditLogs`: region "global" gets every log, newest first, with its
   * user populated twice over (`userId` and `user`); any other region gets the logs owned by a user of that
   * region, newest first, with `userId` left as the id. A failure is 500
   * "Failed to fetch audit logs", with the cause only in development.
   */
  function GetAuditLogs(caller: ReqUser, st: Store, fault: Option<string>, env: Env): (r: Response<seq<AuditView>>)
    ensures fault.Some? ==>
      r == Failure(500, "Failed to fetch audit logs", if env == Development then Some(fault.value) else None)
    ensures fault.None? ==> r.Reply? && r.status == 200
    ensures r.Reply? ==> NewestFirst(r.body)
    ensures r.Reply? && caller.region == GlobalRegion ==>
      && multiset(Records(r.body)) == multiset(st.audits)
      && forall k :: 0 <= k < |r.body| ==> r.body[k] == Populate(st.users, r.body[k].record)
    ensures r.Reply? && caller.region != GlobalRegion ==>
      forall k :: 0 <= k < |r.body| ==>
        && r.body[k].userId == RefId(r.body[k].record.userId)
        && r.body[k].user.None?
        && r.body[k].record in st.audits
        && HasOwnerIn(st.users, caller.region, r.body[k].record)
    ensures r.Reply? && caller.region != GlobalRegion && UniqueUserIds(st.users) ==>
      multiset(Records(r.body)) == multiset(Seqs.Filter(st.audits, a => OwnedIn(st.users, caller.region, a)))
  {
    if fault.Some? then
      Failure(500, "Failed to fetch audit logs", if env == Development then Some(fault.value) else None)
    else if caller.region == GlobalRegion then
      Reply(200, GlobalLogs(st))
    else
      if UniqueUserIds(st.users) then
        InRegionIsFilter(st.audits, st.users, caller.region);
        Reply(200, RegionLogs(st, caller.region))
      else
        Reply(200, RegionLogs(st, caller.region))
  }

  /** Scoping looks at the caller's region only: two callers of one region get the same answer, whatever their roles. */
  lemma ScopeIgnoresRole(c1: ReqUser, c2: ReqUser, st: Store, fault: Option<string>, env: Env)
    requires c1.region == c2.region
    ensures GetAuditLogs(c1, st, fault, env) == GetAuditLogs(c2, st, fault, env)
  {
  }

  /** A log whose user no longer exists is dropped for a regional caller and shown with `null` users to a global one. */
  lemma OrphanLog(caller: ReqUser, st: Store, rec: AuditRecord)
    requires rec in st.audits
    requires forall i :: 0 <= i < |st.users| ==> st.users[i].id != rec.userId
    ensures caller.region != GlobalRegion ==>
      forall k :: 0 <= k < |GetAuditLogs(caller, st, None, Production).body| ==>
        GetAuditLogs(caller, st, None, Production).body[k].record != rec
    ensures caller.region == GlobalRegion ==>
      AuditView(rec, RefNull, None) in GetAuditLogs(caller, st, None, Production).body
  {
    if caller.region == GlobalRegion {
      OrphanShownWithNullUser(caller, st, rec);
    } else {
      OrphanDropped(caller, st, rec);
    }
  }

  /** A regional caller sees only logs whose user exists in its region. */
  lemma OrphanDropped(caller: ReqUser, st: Store, rec: AuditRecord)
    requires caller.region != GlobalRegion
    requires forall i :: 0 <= i < |st.users| ==> st.users[i].id != rec.userId
    ensures forall k :: 0 <= k < |GetAuditLogs(caller, st, None, Production).body| ==>
      GetAuditLogs(caller, st, None, Production).body[k].record != rec
  {
    var body := GetAuditLogs(caller, st, None, Production).body;
    assert !HasOwnerIn(st.users, caller.region, rec);
  }

  /** A global caller sees every log; an orphan's `userId` populates to `null`. */
  lemma OrphanShownWithNullUser(caller: ReqUser, st: Store, rec: AuditRecord)
    requires caller.region == GlobalRegion && rec in st.audits
    requires forall i :: 0 <= i < |st.users| ==> st.users[i].id != rec.userId
    ensures AuditView(rec, RefNull, None) in GetAuditLogs(caller, st, None, Production).body
  {
    var body := GetAuditLogs(caller, st, None, Production).body;
    assert rec in multiset(st.audits);
    assert rec in multiset(Records(body));
    var k :| 0 <= k < |body| && Records(body)[k] == rec;
    assert body[k] == Populate(st.users, rec);
  }

  /** The audit route: `authenticate`, then `authorize(["global_admin", "regional_admin"])`, then `getAuditLogs`. */
  const AuditRoles: seq<Role> := [GlobalAdmin, RegionalAdmin]

  function AuditRoute(header: Option<string>, st: Store, jwt: Jwt, lookupFails: bool, fault: Option<string>, env: Env)
    : (r: Response<seq<AuditView>>)
    ensures Authenticate(header, st.users, jwt, lookupFails).Halt? ==> r.Failure? && r.status == 401
    ensures Authenticate(header, st.users, jwt, lookupFails).Pass? ==>
      var caller := Authenticate(header, st.users, jwt, lookupFails).user;
      && (caller.role in AuditRoles ==> r == GetAuditLogs(caller, st, fault, env))
      && (caller.role !in AuditRoles ==> r == Failure(403, "Unauthorized", None))
  {
    var g := Authenticate(header, st.users, jwt, lookupFails);
    if g.Halt? then Failure(g.status, g.error, None)
    else
      var a := Authorize(AuditRoles, g.user);
      if a.Halt? then Failure(a.status, a.error, None) else GetAuditLogs(a.user, st, fault, env)
  }

  /** Sending and receiving partners never see audit logs, whatever their region. */
  lemma PartnersForbidden(header: Option<string>, st: Store, jwt: Jwt, fault: Option<string>, env: Env)
    requires Authenticate(header, st.users, jwt, false).Pass?
    requires Authenticate(header, st.users, jwt, false).user.role in {SendingPartner, ReceivingPartner}
    ensures AuditRoute(header, st, jwt, false, fault, env) == Failure(403, "Unauthorized", None)
  {
  }

  /**
   * The unrestricted branch follows the region, not the role: a
   * `global_admin` whose region is not "global" sees only that region's logs.
   */
  lemma GlobalAdminOutsideGlobalRegionIsScoped(header: Option<string>, st: Store, jwt: Jwt)
    requires Authenticate(header, st.users, jwt, false).Pass?
    requires Authenticate(header, st.users, jwt, false).user.role == GlobalAdmin
    requires Authenticate(header, st.users, jwt, false).user.region != GlobalRegion
    ensures
      var region := Authenticate(header, st.users, jwt, false).user.region;
      var body := AuditRoute(header, st, jwt, false, None, Production).body;
      forall k :: 0 <= k < |body| ==> HasOwnerIn(st.users, region, body[k].record)
  {
  }
}
