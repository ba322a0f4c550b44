/**
 * The email/password authentication backend: a profile is found by its email;
 * a password, when one is given, must check against the stored credential.
 * Both operations only read the profile table.
 */
module Backends {
  import opened Models

  /**
   * The first profile, in primary-key order, whose email is the given one
   * (a filter on email followed by first()).
   */
  function FirstWithEmail(profiles: seq<Profile>, email: string): (r: Option<Profile>)
    ensures r.None? <==> !EmailTaken(profiles, email)
    ensures r.Some? ==> exists i :: 0 <= i < |profiles| && profiles[i] == r.value && r.value.email == email
                                    && forall j :: 0 <= j < i ==> profiles[j].email != email
  {
    if profiles == [] then None
    else if profiles[0].email == email then Some(profiles[0])
    else
      var r := FirstWithEmail(profiles[1..], email);
      assert EmailTaken(profiles[1..], email) ==> EmailTaken(profiles, email) by {
        if EmailTaken(profiles[1..], email) {
          var k :| 0 <= k < |profiles[1..]| && profiles[1..][k].email == email;
          assert profiles[k + 1].email == email;
        }
      }
      assert r.Some? ==> exists i :: 0 <= i < |profiles| && profiles[i] == r.value
                                    && forall j :: 0 <= j < i ==> profiles[j].email != email by {
        if r.Some? {
          var k :| 0 <= k < |profiles[1..]| && profiles[1..][k] == r.value
                   && forall j :: 0 <= j < k ==> profiles[1..][j].email != email;
          assert profiles[k + 1] == r.value;
          forall j | 0 <= j < k + 1 ensures profiles[j].email != email {
            if j > 0 { assert profiles[j] == profiles[1..][j - 1]; }
          }
        }
      }
      r
  }

  /**
   * Whether a password counts as given: the truth value of the argument,
   * under which both an absent password and the empty text are false.
   */
  predicate PasswordGiven(password: Option<string>): (r: bool)
    ensures password.None? ==> !r
    ensures password == Some("") ==> !r
    ensures password.Some? && |password.value| > 0 ==> r
  {
    password.Some? && password.value != ""
  }

  /**
   * Finds the profile with the given email; when a non-empty password is
   * given, the profile is returned only if checkPassword accepts it against
   * the stored credential, and with no password (or an empty one) it is
   * returned outright. A missing email matches no row.
   */
  function Authenticate(profiles: seq<Profile>, email: Option<string>, password: Option<string>,
                        checkPassword: (Credential, string) -> bool): (r: Option<Profile>)
    ensures r.Some? ==> r.value in profiles && email == Some(r.value.email)
    ensures email.None? || !EmailTaken(profiles, email.value) ==> r.None?
    ensures r.Some? && PasswordGiven(password) ==> checkPassword(r.value.password, password.value)
    ensures !PasswordGiven(password) && email.Some? && EmailTaken(profiles, email.value) ==> r.Some?
  {
    if email.None? then None
    else
      match FirstWithEmail(profiles, email.value)
      case None => None
      case Some(profile) =>
        if PasswordGiven(password) then
          if checkPassword(profile.password, password.value) then Some(profile) else None
        else Some(profile)
  }

  /**
   * With emails unique, authentication succeeds with exactly the profile
   * that has the email, and exactly when no password is given or the given
   * one checks against that profile's credential.
   */
  lemma AuthenticateExactly(profiles: seq<Profile>, email: string, password: Option<string>,
                            checkPassword: (Credential, string) -> bool, p: Profile)
    requires UniqueEmails(profiles)
    ensures Authenticate(profiles, Some(email), password, checkPassword) == Some(p)
        <==> p in profiles && p.email == email
             && (PasswordGiven(password) ==> checkPassword(p.password, password.value))
  {
    if p in profiles && p.email == email {
      var first := FirstWithEmail(profiles, email);
      assert EmailTaken(profiles, email) by {
        var k :| 0 <= k < |profiles| && profiles[k] == p;
      }
      var i :| 0 <= i < |profiles| && profiles[i] == first.value;
      var k :| 0 <= k < |profiles| && profiles[k] == p;
      assert profiles[i].email == profiles[k].email;
      assert i == k;
    }
  }

  /** The profile whose primary key is userId, if there is one. */
  function GetUser(profiles: seq<Profile>, userId: nat): (r: Option<Profile>)
    ensures r.None? <==> !HasProfile(profiles, userId)
    ensures r.Some? ==> r.value in profiles && r.value.id == userId
  {
    if profiles == [] then None
    else if profiles[0].id == userId then Some(profiles[0])
    else
      var r := GetUser(profiles[1..], userId);
      assert HasProfile(profiles, userId) ==> HasProfile(profiles[1..], userId) by {
        if HasProfile(profiles, userId) {
          var k :| 0 <= k < |profiles| && profiles[k].id == userId;
          assert profiles[1..][k - 1] == profiles[k];
        }
      }
      assert HasProfile(profiles[1..], userId) ==> HasProfile(profiles, userId) by {
        if HasProfile(profiles[1..], userId) {
          var k :| 0 <= k < |profiles[1..]| && profiles[1..][k].id == userId;
          assert profiles[k + 1].id == userId;
        }
      }
      r
  }
}
