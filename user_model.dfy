/**
 * The user record of src/models/User.js and the collection Mongoose keeps of it.
 * The collection is a sequence in insertion order; `findOne` and `save` are
 * specified by the functions FindByEmail and Insert.
 */
module UserModel {
  import opened Common

  /** Mongo's ObjectId, abstracted as a number the store hands out once. */
  type UserId = nat

  /** A stored user: the `_id` Mongoose adds, and the three schema paths. */
  datatype User = User(id: UserId, username: string, email: string, passwordHash: Option<string>)

  /** Why `save()` rejects a document. */
  datatype SaveError =
    | RequiredMissing   // a `required: true` path is undefined or the empty string
    | DuplicateEmail    // the unique index on `email` already holds the value

  /** Mongoose's `required` check on a String path fails for undefined and for "". */
  predicate HasRequired(u: User) {
    u.username != "" && u.email != ""
  }

  ghost predicate EmailsUnique(users: seq<User>) {
    forall i, j :: 0 <= i < j < |users| ==> users[i].email != users[j].email
  }

  ghost predicate IdsUnique(users: seq<User>) {
    forall i, j :: 0 <= i < j < |users| ==> users[i].id != users[j].id
  }

  /** What the schema and the unique index guarantee of every state of the collection. */
  ghost predicate StoreInvariant(users: seq<User>, nextId: nat) {
    && EmailsUnique(users)
    && IdsUnique(users)
    && forall u :: u in users ==> HasRequired(u) && u.id < nextId
  }

  /** `User.findOne({ email })`: the first stored user with that email, if any. */
  function FindByEmail(users: seq<User>, email: string): (r: Option<User>)
    ensures r.Some? ==> r.value in users && r.value.email == email
    ensures r.None? <==> forall u :: u in users ==> u.email != email
  {
    if |users| == 0 then None
    else if users[0].email == email then Some(users[0])
    else FindByEmail(users[1..], email)
  }

  /** Under the unique index, the lookup finds exactly the one user that holds the email. */
  lemma FindByEmailUnique(users: seq<User>, u: User)
    requires EmailsUnique(users)
    requires u in users
    ensures FindByEmail(users, u.email) == Some(u)
  {
  }

  /** At most one stored user holds a given email. */
  lemma AtMostOneWithEmail(users: seq<User>, u: User, v: User)
    requires EmailsUnique(users)
    requires u in users && v in users && u.email == v.email
    ensures u == v
  {
  }

  /**
   * `new User({ username, email, passwordHash }).save()`: the required check runs first,
   * then the unique index; a saved document gets the next fresh id.
   */
  function Insert(users: seq<User>, nextId: nat, username: string, email: string,
                  passwordHash: Option<string>): (r: Result<User, SaveError>)
    ensures r == Err(RequiredMissing) <==> username == "" || email == ""
    ensures r == Err(DuplicateEmail) <==>
              username != "" && email != "" && exists u :: u in users && u.email == email
    ensures r.Ok? ==> r.value == User(nextId, username, email, passwordHash) && r.value !in users
  {
    if username == "" || email == "" then Err(RequiredMissing)
    else if FindByEmail(users, email).Some? then Err(DuplicateEmail)
    else Ok(User(nextId, username, email, passwordHash))
  }

  /** A successful insert keeps emails unique, ids unique and required paths present. */
  lemma InsertPreservesInvariant(users: seq<User>, nextId: nat, username: string, email: string,
                                 passwordHash: Option<string>)
    requires StoreInvariant(users, nextId)
    requires Insert(users, nextId, username, email, passwordHash).Ok?
    ensures StoreInvariant(users + [Insert(users, nextId, username, email, passwordHash).value], nextId + 1)
  {
  }

  /** The collection, updated in place by `save` and read by `findOne`. */
  class UserStore {
    var users: seq<User>
    var nextId: nat

    ghost predicate Valid()
      reads this
    {
      StoreInvariant(users, nextId)
    }

    constructor ()
      ensures Valid() && users == []
    {
      users := [];
      nextId := 0;
    }

    /** `User.findOne({ email })` */
    method FindOne(email: string) returns (r: Option<User>)
      requires Valid()
      ensures r == FindByEmail(users, email)
      ensures r.Some? ==> forall u :: u in users && u.email == email ==> u == r.value
    {
      r := FindByEmail(users, email);
      if r.Some? {
        forall u | u in users && u.email == email ensures u == r.value {
          AtMostOneWithEmail(users, u, r.value);
        }
      }
    }

    /** `document.save()`: appends the new user, or fails and leaves the collection unchanged. */
    method Save(username: string, email: string, passwordHash: Option<string>)
      returns (r: Result<User, SaveError>)
      requires Valid()
      modifies this
      ensures Valid()
      ensures r == Insert(old(users), old(nextId), username, email, passwordHash)
      ensures users == if r.Ok? then old(users) + [r.value] else old(users)
      ensures nextId == if r.Ok? then old(nextId) + 1 else old(nextId)
    {
      r := Insert(users, nextId, username, email, passwordHash);
      if r.Ok? {
        InsertPreservesInvariant(users, nextId, username, email, passwordHash);
        users := users + [r.value];
        nextId := nextId + 1;
      }
    }
  }
}
