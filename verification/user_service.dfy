/** User registration and profile lookup over the user table, modelled as a
    map from user id to the stored row. */
module UserService {
  import opened Common

  type UserId = string

  /** A stored user row. */
  datatype User = User(
    id: UserId,
    email: string,
    password: string,
    firstName: string,
    lastName: string,
    createdAt: Timestamp,
    updatedAt: Timestamp)

  datatype RegisterRequest = RegisterRequest(
    email: string,
    password: string,
    firstName: string,
    lastName: string)

  /** The projection handed to callers: it has no password field, and its
      role is never filled in (Java null). */
  datatype UserResponse = UserResponse(
    id: UserId,
    email: string,
    firstName: string,
    lastName: string,
    role: Option<string>,
    createdAt: Timestamp,
    updatedAt: Timestamp)

  type UserStore = map<UserId, User>

  /** The store after a call, and what the call returned. */
  datatype Registration = Registration(store: UserStore, result: Result<UserResponse>)

  const EmailAlreadyExists := "Email already exists"
  const UserNotFound := "User not found"

  /** `existsByEmail`. */
  predicate ExistsByEmail(store: UserStore, email: string) {
    exists id :: id in store && store[id].email == email
  }

  /** Every row is stored under its own id. */
  predicate WellKeyed(store: UserStore) {
    forall id :: id in store ==> store[id].id == id
  }

  /** No two rows share an email. */
  predicate UniqueEmails(store: UserStore) {
    forall a, b :: a in store && b in store && store[a].email == store[b].email ==> a == b
  }

  /** The row a response describes, given the password it leaves out. */
  function WithPassword(response: UserResponse, password: string): User {
    User(response.id, response.email, password, response.firstName, response.lastName,
         response.createdAt, response.updatedAt)
  }

  /** The projection built at registration and at lookup: everything but the
      password survives it, and the role stays null. */
  function ToResponse(user: User): (r: UserResponse)
    ensures WithPassword(r, user.password) == user
    ensures r.role.None?
  {
    UserResponse(user.id, user.email, user.firstName, user.lastName, None, user.createdAt, user.updatedAt)
  }

  /** `register`: a taken email is refused and nothing is stored; otherwise
      exactly one row is added, under the id and timestamps the database
      assigns (`newId`, `now`), carrying the request's fields, and its
      projection is returned. */
  function Register(store: UserStore, request: RegisterRequest, newId: UserId, now: Timestamp): (r: Registration)
    requires newId !in store
    ensures ExistsByEmail(store, request.email) ==>
      r.store == store && r.result == Failure(EmailAlreadyExists)
    ensures !ExistsByEmail(store, request.email) ==>
      && r.store.Keys == store.Keys + {newId}
      && (forall id :: id in store ==> r.store[id] == store[id])
      && r.store[newId].id == newId
      && r.store[newId].email == request.email
      && r.store[newId].password == request.password
      && r.store[newId].firstName == request.firstName
      && r.store[newId].lastName == request.lastName
      && r.result.Success?
      && r.result.value.role.None?
      && r.result.value.id == newId
      && r.result.value.email == request.email
      && r.result.value.firstName == request.firstName
      && r.result.value.lastName == request.lastName
  {
    if ExistsByEmail(store, request.email) then
      Registration(store, Failure(EmailAlreadyExists))
    else
      var user := User(newId, request.email, request.password, request.firstName, request.lastName, now, now);
      var saved := store[newId := user];
      Registration(saved, Success(ToResponse(saved[newId])))
  }

  /** `getUserProfile`. */
  function GetUserProfile(store: UserStore, id: UserId): (r: Result<UserResponse>)
    ensures r.Failure? <==> id !in store
    ensures r.Failure? ==> r.error == UserNotFound
    ensures r.Success? ==>
      r.value == UserResponse(store[id].id, store[id].email, store[id].firstName, store[id].lastName,
                              None, store[id].createdAt, store[id].updatedAt)
  {
    if id in store then Success(ToResponse(store[id])) else Failure(UserNotFound)
  }

  /** The projection keeps every field of the user except the password:
      two users have the same projection exactly when they differ at most in
      their passwords. */
  lemma ProjectionHidesOnlyPassword(u: User, v: User)
    ensures ToResponse(u) == ToResponse(v) <==> u.(password := v.password) == v
  {
  }

  /** Looking up a just-registered user returns what registration returned. */
  lemma ProfileAfterRegister(store: UserStore, request: RegisterRequest, newId: UserId, now: Timestamp)
    requires newId !in store
    requires Register(store, request, newId, now).result.Success?
    ensures var r := Register(store, request, newId, now);
      GetUserProfile(r.store, r.result.value.id) == r.result
  {
  }

  /** Registration keeps rows under their own ids and emails unique. */
  lemma RegisterPreservesInvariants(store: UserStore, request: RegisterRequest, newId: UserId, now: Timestamp)
    requires newId !in store
    requires WellKeyed(store) && UniqueEmails(store)
    ensures var r := Register(store, request, newId, now);
      WellKeyed(r.store) && UniqueEmails(r.store)
  {
  }

  /** Once an email is registered, registering it again is refused and
      leaves the store as it is. */
  lemma SecondRegistrationRefused(store: UserStore, first: RegisterRequest, second: RegisterRequest,
                                  id1: UserId, id2: UserId, now: Timestamp)
    requires id1 !in store && id1 != id2 && id2 !in store
    requires second.email == first.email
    requires Register(store, first, id1, now).result.Success?
    ensures var after := Register(store, first, id1, now).store;
      Register(after, second, id2, now) == Registration(after, Failure(EmailAlreadyExists))
  {
    var after := Register(store, first, id1, now).store;
    assert after[id1].email == second.email;
  }
}
