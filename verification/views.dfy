/**
 * The request handlers: sending and updating friend requests (with the
 * throttle in front of the send), the two list queries, registration and
 * login. Each handler is modelled as a decision over the tables (a pure
 * function whose contract says what it decides) and, where the handler
 * writes, a method on the database that carries the decision out.
 *
 * The caller of the status and list handlers is an authenticated profile:
 * token authentication has already resolved the bearer token to a stored
 * profile before any handler runs.
 */
module Views {
  import opened Models
  import Backends
  import Throttles

  // ---------------------------------------------------------------------
  // Friend requests: validation
  // ---------------------------------------------------------------------

  /** The fields a client may send for a Friend row; each may be absent. */
  datatype FriendPayload = FriendPayload(owner: Option<nat>, profile: Option<nat>, status: Option<string>)

  /** The validation errors of the Friend serializer. */
  datatype FriendError =
    | OwnerRequired
    | OwnerDoesNotExist(pk: nat)
    | ProfileRequired
    | ProfileDoesNotExist(pk: nat)
    | InvalidChoice(text: string)
    | NotUniqueTogether

  /** The response of the status endpoint. */
  datatype StatusResponse =
    | Created(row: Friend)                 // its id, owner, profile and status are shown
    | BadRequest(errors: seq<FriendError>)
    | NotFound
    | TooManyRequests

  function Code(r: StatusResponse): nat
  {
    match r
    case Created(_) => 201
    case BadRequest(_) => 400
    case NotFound => 404
    case TooManyRequests => 429
  }

  /** Errors of a foreign key to Profile: required unless partial, and it must name a stored profile. */
  function OwnerErrors(profiles: seq<Profile>, owner: Option<nat>, partial: bool): (r: seq<FriendError>)
    ensures r == [] <==> (owner.None? ==> partial) && (owner.Some? ==> HasProfile(profiles, owner.value))
  {
    match owner
    case None => if partial then [] else [OwnerRequired]
    case Some(pk) => if HasProfile(profiles, pk) then [] else [OwnerDoesNotExist(pk)]
  }

  function ProfileErrors(profiles: seq<Profile>, profile: Option<nat>, partial: bool): (r: seq<FriendError>)
    ensures r == [] <==> (profile.None? ==> partial) && (profile.Some? ==> HasProfile(profiles, profile.value))
  {
    match profile
    case None => if partial then [] else [ProfileRequired]
    case Some(pk) => if HasProfile(profiles, pk) then [] else [ProfileDoesNotExist(pk)]
  }

  /** The status may be left out (the column has a default); if given it must be a choice. */
  function StatusErrors(status: Option<string>): (r: seq<FriendError>)
    ensures r == [] <==> (status.Some? ==> exists s: Status :: StatusText(s) == status.value)
  {
    match status
    case None => []
    case Some(text) =>
      if ParseStatus(text).Some? then [] else [InvalidChoice(text)]
  }

  /** The field-level errors, in field order: owner, profile, status. */
  function FieldErrors(profiles: seq<Profile>, data: FriendPayload, partial: bool): seq<FriendError>
  {
    OwnerErrors(profiles, data.owner, partial)
      + ProfileErrors(profiles, data.profile, partial)
      + StatusErrors(data.status)
  }

  /** The status the row ends up with: the given choice, or else the one it had. */
  function ChosenStatus(status: Option<string>, otherwise: Status): Status
  {
    if status.Some? && ParseStatus(status.value).Some? then ParseStatus(status.value).value else otherwise
  }

  // ---------------------------------------------------------------------
  // Friend requests: create
  // ---------------------------------------------------------------------

  datatype PostDecision =
    | Throttled
    | PostRejected(errors: seq<FriendError>)
    | Insert(profile: nat, status: Status)

  /**
   * What a POST to the status endpoint decides. The throttle runs first;
   * the payload's owner is replaced by the caller; field errors are reported
   * before the uniqueness of (owner, profile) is looked at.
   */
  function DecidePost(profiles: seq<Profile>, friends: seq<Friend>, caller: nat, data: FriendPayload, now: int)
    : (d: PostDecision)
    requires HasProfile(profiles, caller)
    ensures d.Throttled? <==> !Throttles.AllowRequest("POST", friends, caller, now)
    ensures d.PostRejected? ==> d.errors != []
    ensures d.PostRejected? && FieldErrors(profiles, data.(owner := Some(caller)), false) != []
        ==> d.errors == FieldErrors(profiles, data.(owner := Some(caller)), false)
    ensures d.Insert? ==>
      && data.profile == Some(d.profile)
      && HasProfile(profiles, d.profile)
      && !PairTaken(friends, caller, d.profile)
      && (data.status.None? ==> d.status == DefaultStatus)
      && (data.status.Some? ==> StatusText(d.status) == data.status.value)
    ensures Throttles.AllowRequest("POST", friends, caller, now)
         && data.profile.Some? && HasProfile(profiles, data.profile.value)
         && (data.status.Some? ==> exists s: Status :: StatusText(s) == data.status.value)
         && !PairTaken(friends, caller, data.profile.value)
         ==> d.Insert?
    ensures Throttles.AllowRequest("POST", friends, caller, now)
         && data.profile.Some? && HasProfile(profiles, data.profile.value)
         && (data.status.Some? ==> exists s: Status :: StatusText(s) == data.status.value)
         && PairTaken(friends, caller, data.profile.value)
         ==> d == PostRejected([NotUniqueTogether])
  {
    if !Throttles.AllowRequest("POST", friends, caller, now) then Throttled
    else
      var errors := FieldErrors(profiles, data.(owner := Some(caller)), false);
      if errors != [] then PostRejected(errors)
      else if PairTaken(friends, caller, data.profile.value) then PostRejected([NotUniqueTogether])
      else Insert(data.profile.value, ChosenStatus(data.status, DefaultStatus))
  }

  /** Whatever owner the payload names, the caller is the owner. */
  lemma PayloadOwnerIgnored(profiles: seq<Profile>, friends: seq<Friend>, caller: nat, data: FriendPayload,
                            now: int, claimed: Option<nat>)
    requires HasProfile(profiles, caller)
    ensures DecidePost(profiles, friends, caller, data.(owner := claimed), now)
         == DecidePost(profiles, friends, caller, data, now)
  {
    assert data.(owner := claimed).(owner := Some(caller)) == data.(owner := Some(caller));
  }

  /** A refused POST is one that inserts nothing. */
  lemma ThrottledPostInsertsNothing(profiles: seq<Profile>, friends: seq<Friend>, caller: nat,
                                    data: FriendPayload, now: int)
    requires HasProfile(profiles, caller)
    requires |Throttles.RecentRows(friends, caller, now)| >= Throttles.MaxRecent
    ensures DecidePost(profiles, friends, caller, data, now) == Throttled
  {
  }

  /**
   * A POST to the status endpoint by caller: the decision is carried out,
   * a new row getting the next key and now as both timestamps.
   */
  method StatusPost(db: Database, caller: nat, data: FriendPayload, now: int) returns (resp: StatusResponse)
    requires db.Valid()
    requires HasProfile(db.profiles, caller)
    modifies db`friends, db`nextFriendId
    ensures db.Valid()
    ensures match DecidePost(old(db.profiles), old(db.friends), caller, data, now)
      case Throttled => resp == TooManyRequests && db.friends == old(db.friends)
      case PostRejected(errors) => resp == BadRequest(errors) && db.friends == old(db.friends)
      case Insert(profile, status) =>
        && resp == Created(Friend(old(db.nextFriendId), caller, profile, status, now, now))
        && db.friends == old(db.friends) + [resp.row]
    ensures resp.Created? ==> resp.row.owner == caller && Code(resp) == 201
    ensures !resp.Created? ==> db.friends == old(db.friends)
    ensures resp == TooManyRequests <==> |Throttles.StoredRecent(old(db.friends), caller, now)| >= 3
  {
    FriendRowsDistinct(db.friends, db.nextFriendId, db.profiles);
    Throttles.DeniedIffThreeRecentRows(db.friends, caller, now);
    var d := DecidePost(db.profiles, db.friends, caller, data, now);
    match d
    case Throttled =>
      resp := TooManyRequests;
    case PostRejected(errors) =>
      resp := BadRequest(errors);
    case Insert(profile, status) =>
      var row := Friend(db.nextFriendId, caller, profile, status, now, now);
      AppendKeepsFriendTable(db.friends, db.nextFriendId, db.profiles, row);
      db.friends := db.friends + [row];
      db.nextFriendId := db.nextFriendId + 1;
      resp := Created(row);
  }

  lemma AppendKeepsFriendTable(friends: seq<Friend>, nextId: nat, profiles: seq<Profile>, row: Friend)
    requires FriendTable(friends, nextId, profiles)
    requires row.id == nextId
    requires HasProfile(profiles, row.owner) && HasProfile(profiles, row.profile)
    requires !PairTaken(friends, row.owner, row.profile)
    ensures FriendTable(friends + [row], nextId + 1, profiles)
  {
    var after := friends + [row];
    forall i, j | 0 <= i < j < |after|
      ensures after[i].owner != after[j].owner || after[i].profile != after[j].profile
    {
      if j == |friends| {
        assert after[i] == friends[i];
      }
    }
  }

  // ---------------------------------------------------------------------
  // Friend requests: partial update
  // ---------------------------------------------------------------------

  /** The position of the row with primary key pk, searching from position from. */
  function IndexOfFrom(friends: seq<Friend>, pk: nat, from: nat): (r: Option<nat>)
    requires from <= |friends|
    ensures r.Some? ==> from <= r.value < |friends| && friends[r.value].id == pk
    ensures r.None? ==> forall i :: from <= i < |friends| ==> friends[i].id != pk
    decreases |friends| - from
  {
    if from == |friends| then None
    else if friends[from].id == pk then Some(from)
    else IndexOfFrom(friends, pk, from + 1)
  }

  datatype PatchDecision =
    | Missing
    | PatchRejected(errors: seq<FriendError>)
    | Update(index: nat, row: Friend)

  /** The value a partial update leaves in a foreign-key column: the given one, or else the stored one. */
  function Patched(given: Option<nat>, stored: nat): nat
  {
    if given.Some? then given.value else stored
  }

  /** Whether a row other than the one at position i holds the pair (owner, profile). */
  predicate PairHeldElsewhere(friends: seq<Friend>, i: nat, owner: nat, profile: nat)
  {
    exists j :: 0 <= j < |friends| && j != i && friends[j].owner == owner && friends[j].profile == profile
  }

  /** Whether patching the row at position i with data gives it a pair another row holds. */
  predicate PatchCollides(friends: seq<Friend>, i: nat, data: FriendPayload)
    requires i < |friends|
  {
    PairHeldElsewhere(friends, i, Patched(data.owner, friends[i].owner), Patched(data.profile, friends[i].profile))
  }

  /**
   * What a PATCH of row pk decides: an unknown key is not found; the
   * fields present in the payload are validated and replace the stored
   * ones, the others are kept; the resulting (owner, profile) pair must
   * not be another row's. Nothing checks who the caller is.
   */
  function DecidePatch(profiles: seq<Profile>, friends: seq<Friend>, pk: nat, data: FriendPayload, now: int)
    : (d: PatchDecision)
    requires KeysResolve(friends, profiles)
    ensures d.Missing? <==> forall i :: 0 <= i < |friends| ==> friends[i].id != pk
    ensures d.PatchRejected? ==> d.errors != []
    ensures d.PatchRejected? && FieldErrors(profiles, data, true) != []
        ==> d.errors == FieldErrors(profiles, data, true)
    ensures d.Update? ==>
      && d.index < |friends|
      && var stored := friends[d.index];
      && stored.id == pk && d.row.id == pk
      && d.row.created == stored.created && d.row.updated == now
      && (data.owner.None? ==> d.row.owner == stored.owner)
      && (data.owner.Some? ==> d.row.owner == data.owner.value)
      && (data.profile.None? ==> d.row.profile == stored.profile)
      && (data.profile.Some? ==> d.row.profile == data.profile.value)
      && (data.status.None? ==> d.row.status == stored.status)
      && (data.status.Some? ==> StatusText(d.row.status) == data.status.value)
      && HasProfile(profiles, d.row.owner) && HasProfile(profiles, d.row.profile)
      && forall j :: 0 <= j < |friends| && j != d.index ==>
           friends[j].owner != d.row.owner || friends[j].profile != d.row.profile
    ensures IndexOfFrom(friends, pk, 0).Some? && FieldErrors(profiles, data, true) == []
         && !PatchCollides(friends, IndexOfFrom(friends, pk, 0).value, data)
         ==> d.Update? && d.index == IndexOfFrom(friends, pk, 0).value
    ensures IndexOfFrom(friends, pk, 0).Some? && FieldErrors(profiles, data, true) == []
         && PatchCollides(friends, IndexOfFrom(friends, pk, 0).value, data)
         ==> d == PatchRejected([NotUniqueTogether])
  {
    match IndexOfFrom(friends, pk, 0)
    case None => Missing
    case Some(i) =>
      var stored := friends[i];
      var errors := FieldErrors(profiles, data, true);
      if errors != [] then PatchRejected(errors)
      else
        var owner := Patched(data.owner, stored.owner);
        var profile := Patched(data.profile, stored.profile);
        if PatchCollides(friends, i, data) then PatchRejected([NotUniqueTogether])
        else Update(i, stored.(owner := owner, profile := profile,
                               status := ChosenStatus(data.status, stored.status), updated := now))
  }

  /**
   * A PATCH of row pk. The throttle lets every non-POST request through,
   * so it never answers 429.
   */
  method StatusPatch(db: Database, pk: nat, data: FriendPayload, now: int) returns (resp: StatusResponse)
    requires db.Valid()
    modifies db`friends
    ensures db.Valid()
    ensures match DecidePatch(old(db.profiles), old(db.friends), pk, data, now)
      case Missing => resp == NotFound && db.friends == old(db.friends)
      case PatchRejected(errors) => resp == BadRequest(errors) && db.friends == old(db.friends)
      case Update(i, row) =>
        && resp == Created(row)
        && i < |old(db.friends)|
        && db.friends == old(db.friends)[i := row]
    ensures |db.friends| == |old(db.friends)|
    ensures forall j :: 0 <= j < |db.friends| && db.friends[j] != old(db.friends)[j] ==> db.friends[j].id == pk
  {
    var d := DecidePatch(db.profiles, db.friends, pk, data, now);
    match d
    case Missing =>
      resp := NotFound;
    case PatchRejected(errors) =>
      resp := BadRequest(errors);
    case Update(i, row) =>
      ReplaceKeepsFriendTable(db.friends, db.nextFriendId, db.profiles, i, row);
      db.friends := db.friends[i := row];
      resp := Created(row);
  }

  lemma ReplaceKeepsFriendTable(friends: seq<Friend>, nextId: nat, profiles: seq<Profile>, i: nat, row: Friend)
    requires FriendTable(friends, nextId, profiles)
    requires i < |friends| && row.id == friends[i].id
    requires HasProfile(profiles, row.owner) && HasProfile(profiles, row.profile)
    requires forall j :: 0 <= j < |friends| && j != i ==>
               friends[j].owner != row.owner || friends[j].profile != row.profile
    ensures FriendTable(friends[i := row], nextId, profiles)
  {
  }

  // ---------------------------------------------------------------------
  // Friend requests: the two lists
  // ---------------------------------------------------------------------

  /** The filter of the rows owner holds with the given status. */
  /** The filter of the rows with the given status. */
  function StatusIs(status: Status): Friend -> bool
  {
    (f: Friend) => f.status == status
  }

  function OwnedWithStatus(owner: nat, status: Status): Friend -> bool
  {
    (f: Friend) => f.owner == owner && f.status == status
  }

  /** The friends list: the caller's own rows whose status is ACCEPT, in table order. */
  function FriendsList(friends: seq<Friend>, caller: nat): (r: seq<Friend>)
    ensures forall f :: f in r <==> f in friends && f.owner == caller && f.status == Accept
  {
    Where(friends, OwnedWithStatus(caller, Accept))
  }

  /**
   * The received list: the caller's own rows whose status is SEND, in table
   * order. It filters on the owner, so these are the requests the caller
   * sent, not ones addressed to the caller.
   */
  function ReceivedList(friends: seq<Friend>, caller: nat): (r: seq<Friend>)
    ensures forall f :: f in r <==> f in friends && f.owner == caller && f.status == Send
  {
    Where(friends, OwnedWithStatus(caller, Send))
  }

  /**
   * The friends list of a table holding some accepted rows of the caller
   * followed by rows that are not (another status, or another owner) is
   * exactly those accepted rows.
   */
  lemma FriendsListOfSeededTable(accepted: seq<Friend>, others: seq<Friend>, caller: nat)
    requires forall f :: f in accepted ==> f.owner == caller && f.status == Accept
    requires forall f :: f in others ==> f.owner != caller || f.status != Accept
    ensures FriendsList(accepted + others, caller) == accepted
  {
    WhereAppend(accepted, others, OwnedWithStatus(caller, Accept));
    WhereAll(accepted, OwnedWithStatus(caller, Accept));
    WhereNone(others, OwnedWithStatus(caller, Accept));
  }

  /** Likewise for the received list and the caller's SEND rows. */
  lemma ReceivedListOfSeededTable(sent: seq<Friend>, others: seq<Friend>, caller: nat)
    requires forall f :: f in sent ==> f.owner == caller && f.status == Send
    requires forall f :: f in others ==> f.owner != caller || f.status != Send
    ensures ReceivedList(sent + others, caller) == sent
  {
    WhereAppend(sent, others, OwnedWithStatus(caller, Send));
    WhereAll(sent, OwnedWithStatus(caller, Send));
    WhereNone(others, OwnedWithStatus(caller, Send));
  }

  /**
   * Every row the caller owns is in exactly one of: the friends list, the
   * received list, or the rejected rows (which no endpoint lists).
   */
  lemma OwnRowsPartitioned(friends: seq<Friend>, caller: nat)
    ensures |Throttles.OwnRows(friends, caller)|
         == |FriendsList(friends, caller)| + |ReceivedList(friends, caller)|
            + |Where(friends, OwnedWithStatus(caller, Reject))|
  {
    var own := Throttles.OwnedBy(caller);
    WhereSplit(friends, own, StatusIs(Accept));
    var notAccept := ButNot(own, StatusIs(Accept));
    WhereSplit(friends, notAccept, StatusIs(Send));
    WhereCongruent(friends, Both(own, StatusIs(Accept)), OwnedWithStatus(caller, Accept));
    WhereCongruent(friends, Both(notAccept, StatusIs(Send)), OwnedWithStatus(caller, Send));
    WhereCongruent(friends, ButNot(notAccept, StatusIs(Send)), OwnedWithStatus(caller, Reject));
  }

  // ---------------------------------------------------------------------
  // Registration
  // ---------------------------------------------------------------------

  /** The longest email the email column takes, in characters. */
  const MaxEmailLength: nat := 255

  /** The characters that text stripping removes at both ends: the Unicode whitespace. */
  predicate IsSpace(c: char)
  {
    var n := c as int;
    n == 32 || 9 <= n <= 13 || 28 <= n <= 31 || n == 133 || n == 160 || n == 5760
    || 8192 <= n <= 8202 || n == 8232 || n == 8233 || n == 8239 || n == 8287 || n == 12288
  }

  /** Drops leading whitespace. */
  function StripStart(s: string): (r: string)
    ensures |r| <= |s| && r == s[|s| - |r|..]
    ensures forall k :: 0 <= k < |s| - |r| ==> IsSpace(s[k])
    ensures r == [] || !IsSpace(r[0])
  {
    if s != [] && IsSpace(s[0]) then StripStart(s[1..]) else s
  }

  /** Drops trailing whitespace. */
  function StripEnd(s: string): (r: string)
    ensures |r| <= |s| && r == s[..|r|]
    ensures forall k :: |r| <= k < |s| ==> IsSpace(s[k])
    ensures r == [] || !IsSpace(r[|r| - 1])
  {
    if s != [] && IsSpace(s[|s| - 1]) then StripEnd(s[..|s| - 1]) else s
  }

  /** Drops whitespace at both ends. */
  function Strip(s: string): string
  {
    StripEnd(StripStart(s))
  }

  /** The text of s between positions i and j, with only whitespace before i and from j on. */
  ghost predicate IsMiddle(s: string, i: nat, j: nat)
  {
    i <= j <= |s|
    && (forall k :: 0 <= k < i ==> IsSpace(s[k]))
    && (forall k :: j <= k < |s| ==> IsSpace(s[k]))
  }

  /** Where the stripped text starts in s: the number of leading whitespace characters. */
  function LeadingSpace(s: string): nat
  {
    |s| - |StripStart(s)|
  }

  /** Where the stripped text ends in s. */
  function MiddleEnd(s: string): nat
  {
    LeadingSpace(s) + |Strip(s)|
  }

  /**
   * Cutting leading whitespace from s, giving t, and then trailing
   * whitespace from t, giving u, leaves u in the middle of s.
   */
  lemma MiddleOf(s: string, t: string, u: string)
    requires |t| <= |s| && t == s[|s| - |t|..] && |u| <= |t| && u == t[..|u|]
    requires forall k :: 0 <= k < |s| - |t| ==> IsSpace(s[k])
    requires forall k :: |u| <= k < |t| ==> IsSpace(t[k])
    ensures IsMiddle(s, |s| - |t|, |s| - |t| + |u|) && u == s[|s| - |t|..|s| - |t| + |u|]
  {
    var i := |s| - |t|;
    forall k | i + |u| <= k < |s| ensures IsSpace(s[k]) {
      assert s[k] == t[k - i];
    }
  }

  /** Stripping keeps exactly the text between the first and last non-space characters. */
  lemma StripIsMiddle(s: string)
    ensures MiddleEnd(s) <= |s| && IsMiddle(s, LeadingSpace(s), MiddleEnd(s))
    ensures Strip(s) == s[LeadingSpace(s)..MiddleEnd(s)]
  {
    MiddleOf(s, StripStart(s), Strip(s));
  }

  /** The stripped text neither starts nor ends with whitespace. */
  lemma StripHasNoOuterSpace(s: string)
    ensures Strip(s) == [] || (!IsSpace(Strip(s)[0]) && !IsSpace(Strip(s)[|Strip(s)| - 1]))
  {
    var t := StripStart(s);
    if Strip(s) != [] {
      assert Strip(s)[0] == t[0];
    }
  }

  /** The validation errors of the registration email. */
  datatype EmailError =
    | MissingEmail     // the field is required
    | BlankEmail       // the field may not be blank
    | DuplicateEmail   // a profile with this email address already exists
    | LongEmail        // longer than the column allows
    | NullCharacter    // contains the null character
    | MalformedEmail   // not an email address

  /** The position of each error's check in the field's validation order. */
  function CheckOrder(e: EmailError): nat
  {
    match e
    case MissingEmail => 0
    case BlankEmail => 1
    case DuplicateEmail => 2
    case LongEmail => 3
    case NullCharacter => 4
    case MalformedEmail => 5
  }

  /** An email given and not blank once stripped: the value its validators see. */
  predicate Checked(email: Option<string>)
  {
    email.Some? && Strip(email.value) != ""
  }

  /** Errors listed by check order, each check at most once. */
  predicate InCheckOrder(r: seq<EmailError>)
  {
    forall i, j :: 0 <= i < j < |r| ==> CheckOrder(r[i]) < CheckOrder(r[j])
  }

  /** Whether the text contains the null character. */
  predicate HasNullChar(s: string)
  {
    s != [] && (s[0] == '\0' || HasNullChar(s[1..]))
  }

  /** The null-character check is containment of the null character. */
  lemma {:induction false} HasNullCharIsContainment(s: string)
    ensures HasNullChar(s) <==> '\0' in s
  {
    if s != [] {
      HasNullCharIsContainment(s[1..]);
      assert s == [s[0]] + s[1..];
    }
  }

  /**
   * The errors reported for the outcomes of the field's checks on a
   * stripped, non-blank value, in the order the checks run: uniqueness,
   * length, null character, form. Each argument says whether that check fails.
   */
  function Report(duplicate: bool, long: bool, hasNull: bool, malformed: bool): (r: seq<EmailError>)
    ensures DuplicateEmail in r <==> duplicate
    ensures LongEmail in r <==> long
    ensures NullCharacter in r <==> hasNull
    ensures MalformedEmail in r <==> malformed
    ensures MissingEmail !in r && BlankEmail !in r
    ensures r == [] <==> !duplicate && !long && !hasNull && !malformed
    ensures duplicate ==> r != [] && r[0] == DuplicateEmail
  {
    (if duplicate then [DuplicateEmail] else [])
    + (if long then [LongEmail] else [])
    + (if hasNull then [NullCharacter] else [])
    + (if malformed then [MalformedEmail] else [])
  }

  /** Listing at most one error of a later check after the listed ones keeps the check order. */
  lemma AppendInCheckOrder(r: seq<EmailError>, s: seq<EmailError>, k: nat)
    requires InCheckOrder(r) && |s| <= 1
    requires forall x :: x in r ==> CheckOrder(x) < k
    requires forall y :: y in s ==> CheckOrder(y) == k
    ensures InCheckOrder(r + s)
    ensures forall x :: x in r + s ==> CheckOrder(x) <= k
  {
    var t := r + s;
    forall i, j | 0 <= i < j < |t| ensures CheckOrder(t[i]) < CheckOrder(t[j]) {
      assert t[i] == r[i];
      if j < |r| {
        assert t[j] == r[j];
      } else {
        assert r[i] in r && t[j] == s[0];
      }
    }
  }

  /** The errors are listed in the order the checks run, each at most once. */
  lemma ReportInCheckOrder(duplicate: bool, long: bool, hasNull: bool, malformed: bool)
    ensures InCheckOrder(Report(duplicate, long, hasNull, malformed))
  {
    var a: seq<EmailError> := if duplicate then [DuplicateEmail] else [];
    var b: seq<EmailError> := if long then [LongEmail] else [];
    var c: seq<EmailError> := if hasNull then [NullCharacter] else [];
    var d: seq<EmailError> := if malformed then [MalformedEmail] else [];
    AppendInCheckOrder(a, b, 3);
    AppendInCheckOrder(a + b, c, 4);
    AppendInCheckOrder(a + b + c, d, 5);
  }

  /** The validators' errors for a stripped, non-blank email. */
  function ValueErrors(profiles: seq<Profile>, value: string, isEmail: string -> bool): seq<EmailError>
  {
    Report(EmailTaken(profiles, value), |value| > MaxEmailLength, HasNullChar(value), !isEmail(value))
  }

  /**
   * The errors for a registration email, in the order the field reports
   * them: a missing or blank value stops there; otherwise the stripped value
   * is checked for uniqueness, then length, then for the null character,
   * then form (isEmail stands for the framework's email validator).
   */
  function EmailErrors(profiles: seq<Profile>, email: Option<string>, isEmail: string -> bool)
    : (r: seq<EmailError>)
    ensures r == [] <==>
      && email.Some?
      && Strip(email.value) != ""
      && !EmailTaken(profiles, Strip(email.value))
      && |Strip(email.value)| <= MaxEmailLength
      && !HasNullChar(Strip(email.value))
      && isEmail(Strip(email.value))
    ensures Checked(email) && EmailTaken(profiles, Strip(email.value))
        ==> r != [] && r[0] == DuplicateEmail
  {
    if email.None? then [MissingEmail]
    else
      var value := Strip(email.value);
      if value == "" then [BlankEmail]
      else ValueErrors(profiles, value, isEmail)
  }

  /** Each error is reported exactly when its check fails, in validation order. */
  lemma EmailErrorsListed(profiles: seq<Profile>, email: Option<string>, isEmail: string -> bool)
    ensures MissingEmail in EmailErrors(profiles, email, isEmail) <==> email.None?
    ensures BlankEmail in EmailErrors(profiles, email, isEmail) <==> email.Some? && Strip(email.value) == ""
    ensures DuplicateEmail in EmailErrors(profiles, email, isEmail)
        <==> Checked(email) && EmailTaken(profiles, Strip(email.value))
    ensures LongEmail in EmailErrors(profiles, email, isEmail)
        <==> Checked(email) && |Strip(email.value)| > MaxEmailLength
    ensures NullCharacter in EmailErrors(profiles, email, isEmail)
        <==> Checked(email) && HasNullChar(Strip(email.value))
    ensures MalformedEmail in EmailErrors(profiles, email, isEmail)
        <==> Checked(email) && !isEmail(Strip(email.value))
    ensures InCheckOrder(EmailErrors(profiles, email, isEmail))
  {
    var r := EmailErrors(profiles, email, isEmail);
    if email.None? {
      assert r == [MissingEmail];
    } else if Strip(email.value) == "" {
      assert r == [BlankEmail];
    } else {
      var value := Strip(email.value);
      assert r == Report(EmailTaken(profiles, value), |value| > MaxEmailLength, HasNullChar(value), !isEmail(value));
      ReportInCheckOrder(EmailTaken(profiles, value), |value| > MaxEmailLength, HasNullChar(value), !isEmail(value));
    }
  }

  /** The response of the register endpoint (a 200 either way, or a server error). */
  datatype RegisterResponse =
    | Registered                                // "User created successfully"
    | RegisterRejected(errors: seq<EmailError>) // the field errors
    | RegisterFailed                            // the token's insert failed after the profile's

  predicate KeyTaken(tokens: seq<Token>, key: string)
  {
    exists i :: 0 <= i < |tokens| && tokens[i].key == key
  }

  /**
   * Registers the given email: on valid input a profile is inserted with
   * the stripped email, no name and no password, then a token with the
   * generated key. A key that collides with a stored one makes the token's
   * insert fail, after the profile was saved.
   */
  method Register(db: Database, email: Option<string>, isEmail: string -> bool, key: string)
    returns (resp: RegisterResponse)
    requires db.Valid()
    modifies db`profiles, db`nextProfileId, db`tokens
    ensures db.Valid()
    ensures EmailErrors(old(db.profiles), email, isEmail) != [] ==>
      && resp == RegisterRejected(EmailErrors(old(db.profiles), email, isEmail))
      && db.profiles == old(db.profiles) && db.tokens == old(db.tokens)
    ensures EmailErrors(old(db.profiles), email, isEmail) == [] ==>
      && db.profiles == old(db.profiles) + [Profile(old(db.nextProfileId), Strip(email.value), None, Blank, true, false)]
      && (KeyTaken(old(db.tokens), key) ==> resp == RegisterFailed && db.tokens == old(db.tokens))
      && (!KeyTaken(old(db.tokens), key) ==>
            resp == Registered && db.tokens == old(db.tokens) + [Token(key, old(db.nextProfileId))])
  {
    var errors := EmailErrors(db.profiles, email, isEmail);
    if errors != [] {
      return RegisterRejected(errors);
    }
    resp := SaveRegistration(db, Strip(email.value), key);
  }

  /**
   * The writes of a valid registration: the profile with the given email,
   * no name and no password, then its token with the generated key, whose
   * insert fails when the key is already stored.
   */
  method SaveRegistration(db: Database, email: string, key: string) returns (resp: RegisterResponse)
    requires db.Valid() && !EmailTaken(db.profiles, email)
    modifies db`profiles, db`nextProfileId, db`tokens
    ensures db.Valid()
    ensures db.profiles == old(db.profiles) + [Profile(old(db.nextProfileId), email, None, Blank, true, false)]
    ensures KeyTaken(old(db.tokens), key) ==> resp == RegisterFailed && db.tokens == old(db.tokens)
    ensures !KeyTaken(old(db.tokens), key) ==>
      resp == Registered && db.tokens == old(db.tokens) + [Token(key, old(db.nextProfileId))]
  {
    var profile := db.InsertProfile(Profile(0, email, None, Blank, true, false));
    if KeyTaken(db.tokens, key) {
      return RegisterFailed;
    }
    NewTokenKeepsTokenTable(db.tokens, old(db.profiles), old(db.nextProfileId), profile, key);
    db.tokens := db.tokens + [Token(key, profile.id)];
    resp := Registered;
  }

  /**
   * A token with an unused key for a profile just appended under the next
   * primary key keeps the token table valid: no stored token belongs to it.
   */
  lemma NewTokenKeepsTokenTable(tokens: seq<Token>, profiles: seq<Profile>, nextId: nat, p: Profile, key: string)
    requires TokenTable(tokens, profiles) && ProfileTable(profiles, nextId)
    requires p.id == nextId && !KeyTaken(tokens, key)
    ensures TokenTable(tokens + [Token(key, p.id)], profiles + [p])
  {
    var after := tokens + [Token(key, p.id)];
    forall i | 0 <= i < |tokens| ensures tokens[i].user != nextId && HasProfile(profiles + [p], tokens[i].user) {
      var k :| 0 <= k < |profiles| && profiles[k].id == tokens[i].user;
      HasProfileGrows(profiles, p, tokens[i].user);
    }
    assert HasProfile(profiles + [p], p.id) by {
      assert (profiles + [p])[|profiles|] == p;
    }
    forall i, j | 0 <= i < j < |after| ensures after[i].key != after[j].key && after[i].user != after[j].user {
      if j == |tokens| {
        assert after[i] == tokens[i];
      }
    }
  }

  /** Registering an email that is already stored reports it as a duplicate first. */
  lemma SecondRegistrationIsDuplicate(profiles: seq<Profile>, p: Profile, email: string, isEmail: string -> bool)
    requires p.email == Strip(email) && p.email != ""
    ensures var errors := EmailErrors(profiles + [p], Some(email), isEmail);
      errors != [] && errors[0] == DuplicateEmail
  {
    assert (profiles + [p])[|profiles|] == p;
  }

  // ---------------------------------------------------------------------
  // Login
  // ---------------------------------------------------------------------

  /** The token of user, if one is stored. */
  function TokenOf(tokens: seq<Token>, user: nat): (r: Option<Token>)
    ensures r.Some? ==> r.value in tokens && r.value.user == user
    ensures r.None? ==> forall t :: t in tokens ==> t.user != user
  {
    if tokens == [] then None
    else if tokens[0].user == user then Some(tokens[0])
    else TokenOf(tokens[1..], user)
  }

  /** The response of the login endpoint. */
  datatype LoginResponse =
    | LoginOk(token: string)   // 200 with the token's key
    | InvalidCredentials       // 400 "Invalid credentials"
    | LoginFailed              // the authenticated profile has no token: a server error

  /**
   * Logs in with an email and an optional password: the authenticated
   * profile's token key is returned; a failed authentication is answered
   * with "Invalid credentials" and no token.
   */
  function Login(profiles: seq<Profile>, tokens: seq<Token>, email: Option<string>, password: Option<string>,
                 checkPassword: (Credential, string) -> bool): (r: LoginResponse)
    ensures r == InvalidCredentials <==> Backends.Authenticate(profiles, email, password, checkPassword).None?
    ensures r.LoginOk? ==>
      && Backends.Authenticate(profiles, email, password, checkPassword).Some?
      && Token(r.token, Backends.Authenticate(profiles, email, password, checkPassword).value.id) in tokens
  {
    match Backends.Authenticate(profiles, email, password, checkPassword)
    case None => InvalidCredentials
    case Some(user) =>
      match TokenOf(tokens, user.id)
      case None => LoginFailed
      case Some(token) => LoginOk(token.key)
  }

  /**
   * With the tables valid, login with a stored email answers with key k
   * exactly when k is that profile's token and either no password is given
   * or the given one checks against the profile's credential.
   */
  lemma LoginReturnsOwnToken(profiles: seq<Profile>, nextId: nat, tokens: seq<Token>, p: Profile,
                             password: Option<string>, checkPassword: (Credential, string) -> bool, k: string)
    requires ProfileTable(profiles, nextId) && TokenTable(tokens, profiles)
    requires p in profiles
    ensures Login(profiles, tokens, Some(p.email), password, checkPassword) == LoginOk(k)
        <==> Token(k, p.id) in tokens
             && (Backends.PasswordGiven(password) ==> checkPassword(p.password, password.value))
  {
    Backends.AuthenticateExactly(profiles, p.email, password, checkPassword, p);
    var auth := Backends.Authenticate(profiles, Some(p.email), password, checkPassword);
    if Token(k, p.id) in tokens && auth == Some(p) {
      var t := TokenOf(tokens, p.id);
      var a :| 0 <= a < |tokens| && tokens[a] == Token(k, p.id);
      var b :| 0 <= b < |tokens| && tokens[b] == t.value;
      assert tokens[a].user == tokens[b].user;
      assert a == b;
    }
  }

  /** A checker that accepts exactly the raw password a hash was made from. */
  ghost predicate ChecksLikeHashing(checkPassword: (Credential, string) -> bool)
  {
    && (forall raw, given :: checkPassword(HashOf(raw), given) <==> raw == given)
    && (forall given :: !checkPassword(Blank, given) && !checkPassword(Unusable, given))
  }

  /** A profile with a token logs in by email alone, whatever its credential. */
  lemma EmailOnlyLogin(profiles: seq<Profile>, nextId: nat, tokens: seq<Token>, p: Profile,
                       checkPassword: (Credential, string) -> bool, k: string)
    requires ProfileTable(profiles, nextId) && TokenTable(tokens, profiles)
    requires p in profiles && Token(k, p.id) in tokens
    ensures Login(profiles, tokens, Some(p.email), None, checkPassword) == LoginOk(k)
    ensures Login(profiles, tokens, Some(p.email), Some(""), checkPassword) == LoginOk(k)
  {
    LoginReturnsOwnToken(profiles, nextId, tokens, p, None, checkPassword, k);
    LoginReturnsOwnToken(profiles, nextId, tokens, p, Some(""), checkPassword, k);
  }

  /**
   * For a profile whose password was set to "password": that password logs
   * in, "wrong_password" is refused as invalid credentials.
   */
  lemma PasswordLogin(profiles: seq<Profile>, nextId: nat, tokens: seq<Token>, p: Profile,
                      checkPassword: (Credential, string) -> bool, k: string)
    requires ProfileTable(profiles, nextId) && TokenTable(tokens, profiles)
    requires ChecksLikeHashing(checkPassword)
    requires p in profiles && p.password == HashOf("password") && Token(k, p.id) in tokens
    ensures Login(profiles, tokens, Some(p.email), Some("password"), checkPassword) == LoginOk(k)
    ensures Login(profiles, tokens, Some(p.email), Some("wrong_password"), checkPassword) == InvalidCredentials
  {
    LoginReturnsOwnToken(profiles, nextId, tokens, p, Some("password"), checkPassword, k);
    assert !checkPassword(p.password, "wrong_password");
  }
}
