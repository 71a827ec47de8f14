/** The `User` record of the struct walkthrough: building it with a
    function, changing one field of a mutable binding, and the struct update
    syntax `..user1`. */
module Structs {
  import opened RustPrelude

  datatype User = User(username: string, email: string, signInCount: u64, active: bool)

  /** `build_user`: the two strings given, an inactive account and a sign-in
      count of 2. */
  function BuildUser(email: string, username: string): (u: User)
    ensures u.email == email && u.username == username
    ensures !u.active && u.signInCount == 2
  {
    User(username := username, email := email, signInCount := 2, active := false)
  }

  /** `User { email, username, ..base }`: the two named fields replaced,
      `active` and `sign_in_count` taken from `base`. */
  function UpdateIdentity(base: User, email: string, username: string): (u: User)
    ensures u.email == email && u.username == username
    ensures u.active == base.active && u.signInCount == base.signInCount
  {
    base.(email := email, username := username)
  }

  /** `user.email = email` on a `let mut` binding: only `email` changes. */
  function WithEmail(user: User, email: string): (u: User)
    ensures u.email == email
    ensures u.username == user.username && u.active == user.active && u.signInCount == user.signInCount
  {
    user.(email := email)
  }

  /** `build_user` is the struct update of any user that is inactive with a
      sign-in count of 2, and of no other. */
  lemma BuildUserIsUpdateIff(base: User, email: string, username: string)
    ensures BuildUser(email, username) == UpdateIdentity(base, email, username)
        <==> !base.active && base.signInCount == 2
  {
    if !base.active && base.signInCount == 2 {
      assert BuildUser(email, username).active == UpdateIdentity(base, email, username).active;
    }
  }

  /** A struct update that keeps the username is a change of email. */
  lemma UpdateKeepingUsernameIsWithEmail(base: User, email: string)
    ensures UpdateIdentity(base, email, base.username) == WithEmail(base, email)
  {
  }

  /** The users of `main`, field by field: `user1` after its email changed,
      `user2` from `build_user`, and `user3` from `user1` by struct update
      (whose email and username strings the walkthrough gives the other way
      round from their names). */
  method StructsWalkthrough() returns (user1: User, user2: User, user3: User)
    ensures user1 == User("abc", "new_email@abc.com", 1, true)
    ensures user2 == User("aaabbb", "aaa@bbb.com", 2, false)
    ensures user3 == User("user3@newuser.com", "user3", 1, true)
  {
    user1 := User(username := "abc", email := "abc@xyz.com", signInCount := 1, active := true);
    user1 := WithEmail(user1, "new_email@abc.com");
    user2 := BuildUser("aaa@bbb.com", "aaabbb");
    user3 := UpdateIdentity(user1, "user3", "user3@newuser.com");
  }
}
