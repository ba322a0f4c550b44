/**
 * The records and tables of the friend-request backend: Profile, Friend and
 * the bearer Token of each profile, the database that holds them, and the
 * profile manager that inserts users and superusers.
 *
 * Primary keys are natural numbers handed out by a counter; timestamps are
 * integer seconds.
 */
module Models {

  datatype Option<+T> = None | Some(value: T)

  datatype Result<+T, +E> = Success(value: T) | Failure(error: E)

  // ---------------------------------------------------------------------
  // Friend status choices
  // ---------------------------------------------------------------------

  /** The three choices of a friend relationship's status. */
  datatype Status = Accept | Send | Reject

  /** The status a Friend row gets when none is given. */
  const DefaultStatus: Status := Send

  /** The text stored in the status column for each choice. */
  function StatusText(s: Status): string
  {
    match s
    case Accept => "ACCEPT"
    case Send => "SEND"
    case Reject => "REJECT"
  }

  /**
   * Reads a status from request text: only the exact text of a choice is
   * accepted (there is no blank choice).
   */
  function ParseStatus(text: string): (r: Option<Status>)
    ensures r.Some? ==> StatusText(r.value) == text
    ensures forall s: Status :: StatusText(s) == text ==> r == Some(s)
  {
    if text == "ACCEPT" then Some(Accept)
    else if text == "SEND" then Some(Send)
    else if text == "REJECT" then Some(Reject)
    else None
  }

  // ---------------------------------------------------------------------
  // Records
  // ---------------------------------------------------------------------

  /**
   * What a profile's password column holds: the empty text of a row
   * inserted without a password, the unusable marker left by
   * set_password(None), or a salted hash of a raw password. The hash is
   * opaque to the model; only a password checker (a parameter wherever one
   * is needed) inspects it.
   */
  datatype Credential = Blank | Unusable | HashOf(raw: string)

  datatype Profile = Profile(
    id: nat,
    email: string,
    name: Option<string>,
    password: Credential,
    isActive: bool,
    isAdmin: bool)

  /** All admins are staff, and only they. */
  predicate IsStaff(p: Profile): (r: bool)
    ensures p.isAdmin ==> r
    ensures r ==> p.isAdmin
  {
    p.isAdmin
  }

  /** Every profile holds every permission. */
  function HasPerm(p: Profile, perm: string, obj: Option<nat>): (r: bool)
    ensures r
  {
    true
  }

  /** Every profile may view every app. */
  function HasModulePerms(p: Profile, appLabel: string): (r: bool)
    ensures r
  {
    true
  }

  /** A directed relationship from owner to profile. */
  datatype Friend = Friend(
    id: nat,
    owner: nat,
    profile: nat,
    status: Status,
    created: int,
    updated: int)

  /** A bearer token; each profile has at most one. */
  datatype Token = Token(key: string, user: nat)

  // ---------------------------------------------------------------------
  // Queries: a table filtered by a row predicate, in stored order
  // ---------------------------------------------------------------------

  /** The rows of a table that satisfy keep, in table order. */
  function Where<T(!new)>(rows: seq<T>, keep: T -> bool): (r: seq<T>)
    ensures |r| <= |rows|
    ensures forall x :: x in r <==> x in rows && keep(x)
  {
    if rows == [] then []
    else (if keep(rows[0]) then [rows[0]] else []) + Where(rows[1..], keep)
  }

  lemma {:induction false} WhereAppend<T(!new)>(a: seq<T>, b: seq<T>, keep: T -> bool)
    ensures Where(a + b, keep) == Where(a, keep) + Where(b, keep)
  {
    if a == [] {
      assert a + b == b;
    } else {
      var head := if keep(a[0]) then [a[0]] else [];
      assert (a + b)[0] == a[0];
      assert (a + b)[1..] == a[1..] + b;
      WhereAppend(a[1..], b, keep);
      calc {
        Where(a + b, keep);
        head + Where(a[1..] + b, keep);
        head + (Where(a[1..], keep) + Where(b, keep));
        (head + Where(a[1..], keep)) + Where(b, keep);
      }
    }
  }

  /** A filter that no row passes selects nothing. */
  lemma {:induction false} WhereNone<T(!new)>(rows: seq<T>, keep: T -> bool)
    requires forall x :: x in rows ==> !keep(x)
    ensures Where(rows, keep) == []
  {
    if rows != [] {
      WhereNone(rows[1..], keep);
    }
  }

  /** A filter that every row passes selects the whole table. */
  lemma {:induction false} WhereAll<T(!new)>(rows: seq<T>, keep: T -> bool)
    requires forall x :: x in rows ==> keep(x)
    ensures Where(rows, keep) == rows
  {
    if rows != [] {
      WhereAll(rows[1..], keep);
      assert rows == [rows[0]] + rows[1..];
    }
  }

  /** Filtering by a weaker predicate first and a stronger one after is filtering by the stronger one. */
  lemma {:induction false} WhereNarrow<T(!new)>(rows: seq<T>, wide: T -> bool, narrow: T -> bool)
    requires forall x :: narrow(x) ==> wide(x)
    ensures Where(Where(rows, wide), narrow) == Where(rows, narrow)
  {
    if rows != [] {
      WhereNarrow(rows[1..], wide, narrow);
      var w := Where(rows, wide);
      if wide(rows[0]) {
        assert w == [rows[0]] + Where(rows[1..], wide);
        assert w[0] == rows[0] && w[1..] == Where(rows[1..], wide);
      } else {
        assert w == Where(rows[1..], wide);
        assert !narrow(rows[0]);
      }
    }
  }

  /** A stronger predicate never selects more rows. */
  lemma {:induction false} WhereMonotone<T(!new)>(rows: seq<T>, wide: T -> bool, narrow: T -> bool)
    requires forall x :: narrow(x) ==> wide(x)
    ensures |Where(rows, narrow)| <= |Where(rows, wide)|
  {
    if rows != [] {
      WhereMonotone(rows[1..], wide, narrow);
    }
  }

  /** Rows that agree on keep are filtered alike. */
  lemma {:induction false} WhereCongruent<T(!new)>(rows: seq<T>, p: T -> bool, q: T -> bool)
    requires forall x :: x in rows ==> (p(x) <==> q(x))
    ensures Where(rows, p) == Where(rows, q)
  {
    if rows != [] {
      WhereCongruent(rows[1..], p, q);
    }
  }

  /** The rows that satisfy both p and q. */
  function Both<T>(p: T -> bool, q: T -> bool): T -> bool
  {
    x => p(x) && q(x)
  }

  /** The rows that satisfy p but not q. */
  function ButNot<T>(p: T -> bool, q: T -> bool): T -> bool
  {
    x => p(x) && !q(x)
  }

  /** Splitting a selection on a second predicate splits its size. */
  lemma {:induction false} WhereSplit<T(!new)>(rows: seq<T>, keep: T -> bool, split: T -> bool)
    ensures |Where(rows, keep)| == |Where(rows, Both(keep, split))| + |Where(rows, ButNot(keep, split))|
  {
    if rows != [] {
      WhereSplit(rows[1..], keep, split);
    }
  }

  predicate Distinct<T(==)>(rows: seq<T>)
  {
    forall i, j :: 0 <= i < j < |rows| ==> rows[i] != rows[j]
  }

  /** The stored rows that satisfy keep, as a set. */
  ghost function Selected<T(!new)>(rows: seq<T>, keep: T -> bool): set<T>
  {
    set x | x in rows && keep(x)
  }

  /** The tail of a table without duplicates has none either, and lacks the head. */
  lemma DistinctTail<T>(rows: seq<T>)
    requires Distinct(rows) && rows != []
    ensures Distinct(rows[1..]) && rows[0] !in rows[1..]
  {
    var rest := rows[1..];
    forall i, j | 0 <= i < j < |rest| ensures rest[i] != rest[j] {
      assert rest[i] == rows[i + 1] && rest[j] == rows[j + 1];
    }
    forall k | 0 <= k < |rest| ensures rest[k] != rows[0] {
      assert rest[k] == rows[k + 1];
    }
  }

  /** The selection of a table is the head's selection joined with the tail's. */
  lemma SelectedStep<T(!new)>(rows: seq<T>, keep: T -> bool)
    requires rows != []
    ensures Selected(rows, keep)
         == (if keep(rows[0]) then {rows[0]} else {}) + Selected(rows[1..], keep)
  {
    assert rows == [rows[0]] + rows[1..];
  }

  /**
   * On a table without duplicate rows, the size of a selection is the number
   * of stored rows that satisfy the predicate, as a database count gives it.
   */
  lemma {:induction false} WhereCountsRows<T(!new)>(rows: seq<T>, keep: T -> bool)
    requires Distinct(rows)
    ensures |Where(rows, keep)| == |Selected(rows, keep)|
  {
    if rows == [] {
      assert Selected(rows, keep) == {};
    } else {
      DistinctTail(rows);
      WhereCountsRows(rows[1..], keep);
      SelectedStep(rows, keep);
      assert rows[0] !in Selected(rows[1..], keep);
    }
  }

  // ---------------------------------------------------------------------
  // Table invariants
  // ---------------------------------------------------------------------

  predicate HasProfile(profiles: seq<Profile>, id: nat)
  {
    exists i :: 0 <= i < |profiles| && profiles[i].id == id
  }

  predicate EmailTaken(profiles: seq<Profile>, email: string)
  {
    exists i :: 0 <= i < |profiles| && profiles[i].email == email
  }

  /** The email column is unique. */
  predicate UniqueEmails(profiles: seq<Profile>)
  {
    forall i, j :: 0 <= i < j < |profiles| ==> profiles[i].email != profiles[j].email
  }

  /** Some stored row already relates owner to profile. */
  predicate PairTaken(friends: seq<Friend>, owner: nat, profile: nat)
  {
    exists i :: 0 <= i < |friends| && friends[i].owner == owner && friends[i].profile == profile
  }

  /** The pair (owner, profile) is unique. */
  predicate UniquePairs(friends: seq<Friend>)
  {
    forall i, j :: 0 <= i < j < |friends| ==>
      friends[i].owner != friends[j].owner || friends[i].profile != friends[j].profile
  }

  /** Profiles in primary-key order, keys below the next one, emails unique. */
  ghost predicate ProfileTable(profiles: seq<Profile>, nextId: nat)
  {
    && (forall i, j :: 0 <= i < j < |profiles| ==> profiles[i].id < profiles[j].id)
    && (forall i :: 0 <= i < |profiles| ==> profiles[i].id < nextId)
    && UniqueEmails(profiles)
  }

  /** Friends in primary-key order, both foreign keys resolve, pairs unique. */
  ghost predicate FriendTable(friends: seq<Friend>, nextId: nat, profiles: seq<Profile>)
  {
    && (forall i, j :: 0 <= i < j < |friends| ==> friends[i].id < friends[j].id)
    && (forall i :: 0 <= i < |friends| ==> friends[i].id < nextId)
    && KeysResolve(friends, profiles)
    && UniquePairs(friends)
  }

  /** Both foreign keys of every Friend row name a stored profile. */
  ghost predicate KeysResolve(friends: seq<Friend>, profiles: seq<Profile>)
  {
    forall i :: 0 <= i < |friends| ==>
      HasProfile(profiles, friends[i].owner) && HasProfile(profiles, friends[i].profile)
  }

  /** Token keys are unique, each profile has at most one token, every token has its profile. */
  ghost predicate TokenTable(tokens: seq<Token>, profiles: seq<Profile>)
  {
    && (forall i, j :: 0 <= i < j < |tokens| ==> tokens[i].key != tokens[j].key)
    && (forall i, j :: 0 <= i < j < |tokens| ==> tokens[i].user != tokens[j].user)
    && (forall i :: 0 <= i < |tokens| ==> HasProfile(profiles, tokens[i].user))
  }

  lemma HasProfileGrows(profiles: seq<Profile>, p: Profile, id: nat)
    requires HasProfile(profiles, id)
    ensures HasProfile(profiles + [p], id)
  {
    var i :| 0 <= i < |profiles| && profiles[i].id == id;
    assert (profiles + [p])[i] == profiles[i];
  }

  /** Rows with increasing keys are pairwise distinct. */
  lemma FriendRowsDistinct(friends: seq<Friend>, nextId: nat, profiles: seq<Profile>)
    requires FriendTable(friends, nextId, profiles)
    ensures Distinct(friends)
  {
  }

  // ---------------------------------------------------------------------
  // The database and the profile manager
  // ---------------------------------------------------------------------

  /** Why the profile manager refused to create a user. */
  datatype ManagerError =
    | EmailRequired    // the email was empty
    | EmailNotUnique   // the database's unique constraint on email refused the row

  class Database {
    var profiles: seq<Profile>
    var friends: seq<Friend>
    var tokens: seq<Token>
    var nextProfileId: nat
    var nextFriendId: nat

    ghost predicate Valid()
      reads this
    {
      && ProfileTable(profiles, nextProfileId)
      && FriendTable(friends, nextFriendId, profiles)
      && TokenTable(tokens, profiles)
    }

    constructor ()
      ensures Valid()
      ensures profiles == [] && friends == [] && tokens == []
    {
      profiles, friends, tokens := [], [], [];
      nextProfileId, nextFriendId := 1, 1;
    }

    /**
     * Appends a profile under the next primary key, keeping every table
     * invariant as long as its email is not taken.
     */
    method InsertProfile(p: Profile) returns (saved: Profile)
      requires Valid()
      requires !EmailTaken(profiles, p.email)
      modifies this`profiles, this`nextProfileId
      ensures Valid()
      ensures saved == p.(id := old(nextProfileId))
      ensures profiles == old(profiles) + [saved]
      ensures nextProfileId == old(nextProfileId) + 1
    {
      saved := p.(id := nextProfileId);
      forall i | 0 <= i < |friends|
        ensures HasProfile(profiles + [saved], friends[i].owner)
        ensures HasProfile(profiles + [saved], friends[i].profile)
      {
        HasProfileGrows(profiles, saved, friends[i].owner);
        HasProfileGrows(profiles, saved, friends[i].profile);
      }
      forall i | 0 <= i < |tokens|
        ensures HasProfile(profiles + [saved], tokens[i].user)
      {
        HasProfileGrows(profiles, saved, tokens[i].user);
      }
      profiles := profiles + [saved];
      nextProfileId := nextProfileId + 1;
    }

    /**
     * The manager's create_user: refuses an empty email, stores the
     * normalized email with the password's hash (or the unusable marker when
     * no password is given), and is refused by the unique constraint when
     * the normalized email is already stored.
     */
    method CreateUser(email: string, password: Option<string>, normalize: string -> string)
      returns (r: Result<Profile, ManagerError>)
      requires Valid()
      modifies this`profiles, this`nextProfileId
      ensures Valid()
      ensures email == "" ==> r == Failure(EmailRequired)
      ensures email != "" && EmailTaken(old(profiles), normalize(email)) ==> r == Failure(EmailNotUnique)
      ensures r.Success? <==> email != "" && !EmailTaken(old(profiles), normalize(email))
      ensures r.Success? ==>
        && r.value == Profile(old(nextProfileId), normalize(email), None,
                              if password.None? then Unusable else HashOf(password.value), true, false)
        && profiles == old(profiles) + [r.value]
        && !IsStaff(r.value)
      ensures r.Failure? ==> profiles == old(profiles)
    {
      if email == "" {
        return Failure(EmailRequired);
      }
      var stored := normalize(email);
      if EmailTaken(profiles, stored) {
        return Failure(EmailNotUnique);
      }
      var credential := if password.None? then Unusable else HashOf(password.value);
      var saved := InsertProfile(Profile(0, stored, None, credential, true, false));
      r := Success(saved);
    }

    /**
     * The manager's create_superuser: create_user, then the admin flag is
     * set and saved, so the new profile is staff.
     */
    method CreateSuperuser(email: string, password: Option<string>, normalize: string -> string)
      returns (r: Result<Profile, ManagerError>)
      requires Valid()
      modifies this`profiles, this`nextProfileId
      ensures Valid()
      ensures email == "" ==> r == Failure(EmailRequired)
      ensures email != "" && EmailTaken(old(profiles), normalize(email)) ==> r == Failure(EmailNotUnique)
      ensures r.Success? <==> email != "" && !EmailTaken(old(profiles), normalize(email))
      ensures r.Success? ==>
        && r.value == Profile(old(nextProfileId), normalize(email), None,
                              if password.None? then Unusable else HashOf(password.value), true, true)
        && IsStaff(r.value)
        && profiles == old(profiles) + [r.value]
      ensures r.Failure? ==> profiles == old(profiles)
    {
      r := CreateUser(email, password, normalize);
      if r.Success? {
        var admin := r.value.(isAdmin := true);
        AdminFlagKeepsTables(profiles, nextProfileId, friends, nextFriendId, tokens, admin);
        profiles := profiles[|profiles| - 1 := admin];
        r := Success(admin);
      }
    }
  }

  /** Setting the admin flag of the newest profile keeps every table invariant. */
  lemma AdminFlagKeepsTables(profiles: seq<Profile>, nextId: nat, friends: seq<Friend>, nextFriendId: nat,
                             tokens: seq<Token>, admin: Profile)
    requires ProfileTable(profiles, nextId) && FriendTable(friends, nextFriendId, profiles)
    requires TokenTable(tokens, profiles)
    requires profiles != [] && admin == profiles[|profiles| - 1].(isAdmin := true)
    ensures ProfileTable(profiles[|profiles| - 1 := admin], nextId)
    ensures FriendTable(friends, nextFriendId, profiles[|profiles| - 1 := admin])
    ensures TokenTable(tokens, profiles[|profiles| - 1 := admin])
  {
    var after := profiles[|profiles| - 1 := admin];
    forall i | 0 <= i < |friends|
      ensures HasProfile(after, friends[i].owner) && HasProfile(after, friends[i].profile)
    {
      SameIdsSameProfiles(profiles, after, friends[i].owner);
      SameIdsSameProfiles(profiles, after, friends[i].profile);
    }
    forall i | 0 <= i < |tokens|
      ensures HasProfile(after, tokens[i].user)
    {
      SameIdsSameProfiles(profiles, after, tokens[i].user);
    }
  }

  /** Rewriting a profile's other columns keeps the set of primary keys. */
  lemma SameIdsSameProfiles(before: seq<Profile>, after: seq<Profile>, id: nat)
    requires |before| == |after|
    requires forall i :: 0 <= i < |before| ==> before[i].id == after[i].id
    requires HasProfile(before, id)
    ensures HasProfile(after, id)
  {
    var i :| 0 <= i < |before| && before[i].id == id;
    assert after[i].id == id;
  }
}
