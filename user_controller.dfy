/** The access decisions of the user endpoints: listing, creating and
    deleting users need the ADMIN authority; reading or updating one user
    is allowed to an admin and to the user the record belongs to.

    The caller's name and authorities, which the endpoints read from the
    authentication, are explicit parameters. The user service behind the
    endpoints is not part of this model: its lookups read a map of user
    records, its mutations are recorded as the call the endpoint makes, and
    the records it returns from those calls are parameters. */
module UserController {
  import opened Wrappers

  /** The authority string that makes a caller an administrator. */
  const ADMIN: string := "ADMIN"

  /** The key of a stored user record; an id a client asks for is any
      `Long`, an `int` in the endpoints that take one. */
  type UserId = nat

  /** A user record as the user service returns it. */
  datatype UserResponse = UserResponse(id: UserId, username: string, email: string, role: string)

  /** The body of a create or update request; `role` may be left out. */
  datatype UserRequest = UserRequest(username: string, email: string, password: string, role: Option<string>)

  /** The authenticated caller: its name and its granted authorities. */
  datatype Caller = Caller(name: string, authorities: seq<string>)

  datatype HttpStatus = Ok | Created | NoContent | Forbidden {
    /** The numeric HTTP status code. */
    function Code(): int {
      match this
      case Ok => 200
      case Created => 201
      case NoContent => 204
      case Forbidden => 403
    }
  }

  /** The exception the user service throws when no user has the id. */
  datatype UserError = UserNotFound(id: int)

  /** What an endpoint answers: a status with an optional body, or the
      exception of the user service, which the endpoint does not catch. */
  datatype Reply<T> = Respond(status: HttpStatus, body: Option<T>) | Raised(error: UserError)

  /** The state-changing calls an endpoint makes on the user service. */
  datatype ServiceCall = CreateCall(request: UserRequest) | UpdateCall(id: int, request: UserRequest) | DeleteCall(id: int)

  /** The reply of a state-changing endpoint, with the call it made on the
      user service, if any. No call means no user record changed. */
  datatype Handled<T> = Handled(reply: Reply<T>, call: Option<ServiceCall>)

  /** The 403 answer, without a body. */
  function Denied<T>(): Reply<T> {
    Respond(Forbidden, None)
  }

  /** `anyMatch(a -> a.getAuthority().equals(authority))` over the
      authorities: true exactly when one of them is that string. */
  function HasAuthority(authorities: seq<string>, authority: string): (granted: bool)
    ensures granted <==> authority in authorities
  {
    |authorities| > 0 && (authorities[0] == authority || HasAuthority(authorities[1..], authority))
  }

  predicate IsAdmin(caller: Caller) {
    HasAuthority(caller.authorities, ADMIN)
  }

  /** The record a user-service lookup returns, or its exception. */
  function FindUser(users: map<UserId, UserResponse>, id: int): Result<UserResponse, UserError> {
    if id in users then Success(users[id]) else Failure(UserNotFound(id))
  }

  /** `getAllUsers` behind `hasAuthority('ADMIN')`: the list for an admin,
      403 for anyone else. */
  function GetAllUsers(caller: Caller, all: seq<UserResponse>): (r: Reply<seq<UserResponse>>)
    ensures r == Respond(Ok, Some(all)) <==> ADMIN in caller.authorities
    ensures r == Denied() <==> ADMIN !in caller.authorities
  {
    if IsAdmin(caller) then Respond(Ok, Some(all)) else Denied()
  }

  /** `getUserById`: a missing user raises the lookup exception for every
      caller; a found user is returned to an admin or to its owner and
      refused with 403 to anyone else. */
  function GetUserById(id: int, caller: Caller, users: map<UserId, UserResponse>): (r: Reply<UserResponse>)
    ensures id !in users ==> r == Raised(UserNotFound(id))
    ensures id in users ==>
      (r == Respond(Ok, Some(users[id])) <==> ADMIN in caller.authorities || users[id].username == caller.name)
    ensures id in users ==>
      (r == Denied() <==> ADMIN !in caller.authorities && users[id].username != caller.name)
  {
    if !IsAdmin(caller) then
      match FindUser(users, id)
      case Failure(e) => Raised(e)
      case Success(user) =>
        if user.username != caller.name then Denied() else Respond(Ok, Some(user))
    else
      match FindUser(users, id)
      case Failure(e) => Raised(e)
      case Success(user) => Respond(Ok, Some(user))
  }

  /** `createUser` behind `hasAuthority('ADMIN')`: an admin's request is
      passed to the user service and answered 201 with the created record;
      anyone else gets 403 and nothing is created. */
  function CreateUser(caller: Caller, request: UserRequest, created: UserResponse): (r: Handled<UserResponse>)
    ensures r.call.Some? <==> ADMIN in caller.authorities
    ensures r.call.Some? ==> r.call.value == CreateCall(request) && r.reply == Respond(Created, Some(created))
    ensures r.call.None? ==> r.reply == Denied()
    ensures r.reply.Respond? && (r.reply.status.Code() == 201 <==> r.call.Some?)
  {
    if IsAdmin(caller) then Handled(Respond(Created, Some(created)), Some(CreateCall(request)))
    else Handled(Denied(), None)
  }

  /** `updateUser`: the record is looked up first, for every caller, so a
      missing user raises the lookup exception; a found user is updated only
      for an admin or its owner (200 with the updated record), and anyone
      else gets 403 with the record left alone. */
  function UpdateUser(id: int, request: UserRequest, caller: Caller, users: map<UserId, UserResponse>,
                      updated: UserResponse): (r: Handled<UserResponse>)
    ensures r.call.Some? <==> id in users && (ADMIN in caller.authorities || users[id].username == caller.name)
    ensures r.call.Some? ==> r.call.value == UpdateCall(id, request) && r.reply == Respond(Ok, Some(updated))
    ensures id !in users ==> r == Handled(Raised(UserNotFound(id)), None)
    ensures id in users && r.call.None? ==> r.reply == Denied()
  {
    var isAdmin := IsAdmin(caller);
    match FindUser(users, id)
    case Failure(e) => Handled(Raised(e), None)
    case Success(user) =>
      if !isAdmin && user.username != caller.name then Handled(Denied(), None)
      else Handled(Respond(Ok, Some(updated)), Some(UpdateCall(id, request)))
  }

  /** `deleteUser` behind `hasAuthority('ADMIN')`: an admin's request is
      passed to the user service and answered 204 without a body; anyone
      else gets 403 and nothing is deleted. */
  function DeleteUser(id: int, caller: Caller): (r: Handled<()>)
    ensures r.call.Some? <==> ADMIN in caller.authorities
    ensures r.call.Some? ==> r.call.value == DeleteCall(id) && r.reply == Respond(NoContent, None)
    ensures r.call.None? ==> r.reply == Denied()
    ensures r.reply.Respond? && (r.reply.status.Code() == 204 <==> r.call.Some?)
  {
    if IsAdmin(caller) then Handled(Respond(NoContent, None), Some(DeleteCall(id)))
    else Handled(Denied(), None)
  }

  /** The user endpoints' actions. */
  datatype Action = ListAll | ReadOne | Create | Update | Delete

  /** The access policy of the user endpoints as one table: an admin may do
      everything; anyone else may only read or update a record of their own. */
  predicate Permitted(admin: bool, owner: bool, action: Action) {
    match action
    case ListAll => admin
    case ReadOne => admin || owner
    case Create => admin
    case Update => admin || owner
    case Delete => admin
  }

  /** Every endpoint refuses with 403 exactly when the table does not permit
      the action, and the endpoints that change users call the user service
      exactly when it does. The table decides for an existing record; for a
      missing one the lookup decides first, whatever the table says: reading
      and updating raise the lookup exception and call nothing, while the
      admin-only endpoints do not look the record up. */
  lemma EndpointsFollowPolicy(caller: Caller, id: int, users: map<UserId, UserResponse>,
                              all: seq<UserResponse>, request: UserRequest, result: UserResponse)
    ensures var admin := IsAdmin(caller);
      && (GetAllUsers(caller, all) == Denied() <==> !Permitted(admin, false, ListAll))
      && (CreateUser(caller, request, result).call.Some? <==> Permitted(admin, false, Create))
      && (DeleteUser(id, caller).call.Some? <==> Permitted(admin, false, Delete))
    ensures id in users ==>
      var admin, owner := IsAdmin(caller), users[id].username == caller.name;
      && (GetUserById(id, caller, users) == Denied() <==> !Permitted(admin, owner, ReadOne))
      && (UpdateUser(id, request, caller, users, result).call.Some? <==> Permitted(admin, owner, Update))
    ensures id !in users ==>
      && GetUserById(id, caller, users) == Raised(UserNotFound(id))
      && UpdateUser(id, request, caller, users, result) == Handled(Raised(UserNotFound(id)), None)
  {
  }

  /** A caller who is not an admin and asks for somebody else's existing
      record is refused, while an admin, or the owner with the same
      authorities, gets it: ownership alone turns the refusal around. */
  lemma OwnerOnlyForNonAdmins(other: Caller, admin: Caller, id: int, users: map<UserId, UserResponse>)
    requires id in users && users[id].username != other.name && ADMIN !in other.authorities
    requires ADMIN in admin.authorities
    ensures GetUserById(id, other, users) == Denied()
    ensures GetUserById(id, admin, users) == Respond(Ok, Some(users[id]))
    ensures GetUserById(id, Caller(users[id].username, other.authorities), users) == Respond(Ok, Some(users[id]))
  {
  }
}
