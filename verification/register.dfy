/**
 * The stand-alone registration service (register.py): users are kept in the
 * module-level list `mock_db`, with no check that an email is new.
 */
module MockRegister {
  import opened Values
  import opened Http
  import opened Registration

  /** A `mock_db` entry: the three fields `register` stores. */
  datatype Record = Record(fullName: string, email: string, password: string)

  /** The `UserResponse` model that `/users` answers with. */
  datatype UserResponse = UserResponse(fullName: string, email: string)

  class MockDb {
    var users: seq<Record>

    constructor ()
      ensures users == []
    {
      users := [];
    }

    /** `register`: on success exactly one record is appended; the retyped password and the terms flag are not kept. */
    method Register(u: UserForm) returns (r: Outcome<Value>)
      modifies this
      ensures FormError(u).Some? ==> r == HttpError(400, FormError(u).value) && users == old(users)
      ensures FormError(u).None? ==>
        r == Ok(Message("Registration successful")) &&
        users == old(users) + [Record(u.fullName, u.email, u.password)]
    {
      if u.password != u.retypePassword {
        return HttpError(400, "Passwords do not match");
      }
      if !u.agreeTerms {
        return HttpError(400, "You must agree to the terms");
      }
      users := users + [Record(u.fullName, u.email, u.password)];
      r := Ok(Message("Registration successful"));
    }

    /** `get_all_users`: every record in insertion order, as the response model shapes it. */
    method GetAllUsers() returns (r: Outcome<seq<UserResponse>>)
      ensures users == [] ==> r == HttpError(404, "No users found")
      ensures users != [] ==> r.Ok? && |r.value| == |users|
      ensures r.Ok? ==> forall i :: 0 <= i < |r.value| ==>
        r.value[i] == UserResponse(users[i].fullName, users[i].email)
    {
      if users == [] {
        return HttpError(404, "No users found");
      }
      var all := users;
      r := Ok(seq(|all|, i requires 0 <= i < |all| => UserResponse(all[i].fullName, all[i].email)));
    }
  }

  /** Two registrations with the same email both succeed and both are kept. */
  method DuplicateEmails(u: UserForm) returns (db: MockDb)
    requires FormError(u).None?
    ensures |db.users| == 2 && db.users[0] == db.users[1] && db.users[0].email == u.email
  {
    db := new MockDb();
    var r1 := db.Register(u);
    var r2 := db.Register(u);
    assert r1.Ok? && r2.Ok?;
  }
}
