/**
 * The audit-log schema: `action` (string) and `userId` (a user reference)
 * are required, `details` is optional, and the `user` virtual resolves
 * `userId` to at most one user.
 */
module AuditLogSchema {
  import opened Wrappers
  import opened Domain
  import UserSchema

  /** The fields handed to `AuditLog.create({...})`. */
  datatype AuditDoc = AuditDoc(action: Option<string>, userId: Option<Id>, details: Option<string>)

  type FieldError = UserSchema.FieldError

  function Errors(d: AuditDoc): (es: seq<FieldError>)
    ensures UserSchema.Required("action") in es <==> !UserSchema.Given(d.action)
    ensures UserSchema.Required("userId") in es <==> d.userId.None?
    ensures es == [] <==> UserSchema.Given(d.action) && d.userId.Some?
  {
    UserSchema.RequiredError("action", d.action) +
    (if d.userId.None? then [UserSchema.Required("userId")] else [])
  }

  function Validate(d: AuditDoc, id: Id, now: nat): (r: Result<AuditRecord, seq<FieldError>>)
    ensures r.Ok? <==> Errors(d) == []
    ensures r.Err? ==> r.error == Errors(d)
    ensures r.Ok? ==>
      && r.value.id == id
      && Some(r.value.action) == d.action
      && Some(r.value.userId) == d.userId
      && r.value.details == d.details
      && r.value.createdAt == now && r.value.updatedAt == now
  {
    var es := Errors(d);
    if es != [] then Err(es)
    else Ok(AuditRecord(id, d.action.value, d.userId.value, d.details, now, now))
  }

  /** `details` is optional: a record without it is accepted. */
  lemma DetailsOptional(action: string, userId: Id, id: Id, now: nat)
    requires action != ""
    ensures Validate(AuditDoc(Some(action), Some(userId), None), id, now).Ok?
  {
  }

  /**
   * The `user` virtual (`justOne`): the first stored user whose id is the
   * record's `userId`, or nothing when that user is gone.
   */
  function UserOf(users: seq<User>, rec: AuditRecord): (u: Option<User>)
    ensures u.Some? ==> u.value in users && u.value.id == rec.userId
    ensures u.None? <==> forall i :: 0 <= i < |users| ==> users[i].id != rec.userId
    ensures UniqueUserIds(users) ==>
      forall i :: 0 <= i < |users| && users[i].id == rec.userId ==> u == Some(users[i])
  {
    var r := FindUserById(users, rec.userId);
    assert UniqueUserIds(users) ==>
      forall i :: 0 <= i < |users| && users[i].id == rec.userId ==> r == Some(users[i]) by {
      if UniqueUserIds(users) {
        forall i | 0 <= i < |users| && users[i].id == rec.userId ensures r == Some(users[i]) {
          FindUserByIdUnique(users, i);
        }
      }
    }
    r
  }
}
