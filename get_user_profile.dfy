/** Lookup of one user row by id. */
module UserProfile {
  import opened Wrappers
  import opened Text
  import opened Schema
  import opened Store

  function UserNotFound(userId: int): string {
    "User with ID " + IntToString(userId) + " not found"
  }

  function GetUserProfile(t: Tables, userId: int): Result<User> {
    if userId in t.users then Ok(t.users[userId]) else Err(UserNotFound(userId))
  }

  /** An existing id yields its stored row unchanged, password hash included,
      with the requested id; any other id yields the not-found error naming it. */
  lemma UserProfileSpec(t: Tables, userId: int)
    requires UsersConsistent(t)
    ensures var r := GetUserProfile(t, userId);
      && (r.Ok? <==> userId in t.users)
      && (r.Ok? ==> r.value == t.users[userId] && r.value.id == userId)
      && (r.Err? ==> r.message == UserNotFound(userId))
  {
  }

  /** The not-found messages of two different ids differ. */
  lemma NotFoundNamesTheId(a: int, b: int)
    ensures UserNotFound(a) == UserNotFound(b) <==> a == b
  {
    var p, q := "User with ID " + IntToString(a), "User with ID " + IntToString(b);
    if UserNotFound(a) == UserNotFound(b) {
      assert p == UserNotFound(a)[..|p|];
      assert |p| == |q|;
      assert IntToString(a) == p[13..] && IntToString(b) == q[13..];
      IntToStringInjective(a, b);
    }
  }
}
