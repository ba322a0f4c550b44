/**
 * The friend-request throttle: a POST is refused when its caller already
 * owns three or more Friend rows created within the last three minutes
 * (a sliding window, recomputed on every request, bound included). Every
 * other method passes. The throttle only reads the Friend table.
 */
module Throttles {
  import opened Models

  /** The window's length in seconds: three minutes. */
  const WindowSeconds: int := 3 * 60

  /** How many recent rows a caller may already own and still be admitted. */
  const MaxRecent: nat := 3

  /** A row the throttle's query selects: owned by user, created at or after since. */
  predicate IsRecent(f: Friend, user: nat, since: int)
  {
    f.owner == user && f.created >= since
  }

  /** The throttle's row filter for user at time now. */
  function InWindow(user: nat, now: int): Friend -> bool
  {
    (f: Friend) => IsRecent(f, user, now - WindowSeconds)
  }

  /** The rows the throttle counts for user at time now. */
  function RecentRows(friends: seq<Friend>, user: nat, now: int): seq<Friend>
  {
    Where(friends, InWindow(user, now))
  }

  /** Whether a request with the given HTTP method from user is admitted at time now. */
  function AllowRequest(httpMethod: string, friends: seq<Friend>, user: nat, now: int): (r: bool)
    ensures httpMethod != "POST" ==> r
  {
    httpMethod != "POST" || |RecentRows(friends, user, now)| < MaxRecent
  }

  /** The stored rows, as a set, that user created no earlier than three minutes before now. */
  ghost function StoredRecent(friends: seq<Friend>, user: nat, now: int): set<Friend>
  {
    set f | f in friends && f.owner == user && f.created >= now - WindowSeconds
  }

  /**
   * A POST is refused exactly when at least three stored rows belong to the
   * caller and were created no earlier than three minutes before now.
   */
  lemma DeniedIffThreeRecentRows(friends: seq<Friend>, user: nat, now: int)
    requires Distinct(friends)
    ensures !AllowRequest("POST", friends, user, now)
        <==> |StoredRecent(friends, user, now)| >= 3
  {
    var keep := InWindow(user, now);
    WhereCountsRows(friends, keep);
    assert |RecentRows(friends, user, now)| == |Where(friends, keep)|;
    assert Selected(friends, keep) == StoredRecent(friends, user, now);
  }

  /** The rows user owns, in table order. */
  function OwnRows(friends: seq<Friend>, user: nat): seq<Friend>
  {
    Where(friends, OwnedBy(user))
  }

  /** The filter of the rows user owns. */
  function OwnedBy(user: nat): Friend -> bool
  {
    (f: Friend) => f.owner == user
  }

  /** The decision for user depends on user's own rows only. */
  lemma {:induction false} OnlyOwnRowsMatter(httpMethod: string, friends: seq<Friend>, user: nat, now: int)
    ensures AllowRequest(httpMethod, friends, user, now) == AllowRequest(httpMethod, OwnRows(friends, user), user, now)
  {
    WhereNarrow(friends, OwnedBy(user), InWindow(user, now));
  }

  /** Two tables in which user owns the same rows get the same decision for user. */
  lemma OtherOwnersIrrelevant(httpMethod: string, a: seq<Friend>, b: seq<Friend>, user: nat, now: int)
    requires OwnRows(a, user) == OwnRows(b, user)
    ensures AllowRequest(httpMethod, a, user, now) == AllowRequest(httpMethod, b, user, now)
  {
    OnlyOwnRowsMatter(httpMethod, a, user, now);
    OnlyOwnRowsMatter(httpMethod, b, user, now);
  }

  /** Rows created before the window opened never change the decision, wherever they sit. */
  lemma StaleRowsIrrelevant(httpMethod: string, before: seq<Friend>, stale: seq<Friend>, after: seq<Friend>,
                            user: nat, now: int)
    requires forall f :: f in stale ==> f.created < now - WindowSeconds
    ensures AllowRequest(httpMethod, before + stale + after, user, now)
         == AllowRequest(httpMethod, before + after, user, now)
  {
    var keep := InWindow(user, now);
    WhereAppend(before + stale, after, keep);
    WhereAppend(before, stale, keep);
    WhereAppend(before, after, keep);
    WhereNone(stale, keep);
  }

  /** A row created exactly three minutes ago is counted; one a second older is not. */
  lemma WindowBoundIsInclusive(friends: seq<Friend>, user: nat, now: int, row: Friend)
    requires row.owner == user
    ensures row.created == now - WindowSeconds
        ==> |RecentRows(friends + [row], user, now)| == |RecentRows(friends, user, now)| + 1
    ensures row.created == now - WindowSeconds - 1
        ==> |RecentRows(friends + [row], user, now)| == |RecentRows(friends, user, now)|
  {
    var keep := InWindow(user, now);
    WhereAppend(friends, [row], keep);
  }

  /** Once refused, a caller stays refused however many rows are added. */
  lemma {:induction false} MoreRowsNeverReadmit(friends: seq<Friend>, extra: seq<Friend>, user: nat, now: int)
    requires !AllowRequest("POST", friends, user, now)
    ensures !AllowRequest("POST", friends + extra, user, now)
  {
    WhereAppend(friends, extra, InWindow(user, now));
  }

  /** With the table unchanged, a caller admitted now is admitted at any later time. */
  lemma WaitingNeverHurts(httpMethod: string, friends: seq<Friend>, user: nat, now: int, later: int)
    requires now <= later
    requires AllowRequest(httpMethod, friends, user, now)
    ensures AllowRequest(httpMethod, friends, user, later)
  {
    WhereMonotone(friends, InWindow(user, now), InWindow(user, later));
  }

  /** Three own rows created 30, 20 and 10 seconds ago: the next POST is refused. */
  lemma ThreeRecentRowsRefused(user: nat, now: int, p1: nat, p2: nat, p3: nat)
    ensures !AllowRequest("POST", [Friend(1, user, p3, Send, now - 30, now - 30),
                                   Friend(2, user, p2, Send, now - 20, now - 20),
                                   Friend(3, user, p1, Send, now - 10, now - 10)], user, now)
  {
    var rows := [Friend(1, user, p3, Send, now - 30, now - 30),
                 Friend(2, user, p2, Send, now - 20, now - 20),
                 Friend(3, user, p1, Send, now - 10, now - 10)];
    WhereAll(rows, InWindow(user, now));
  }

  /** One own row created 70 seconds ago: the next POST is admitted. */
  lemma OneRecentRowAdmitted(user: nat, now: int, p1: nat)
    ensures AllowRequest("POST", [Friend(1, user, p1, Send, now - 70, now - 70)], user, now)
  {
  }
}
