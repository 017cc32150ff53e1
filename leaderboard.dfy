/** The leaderboard: a projection of the store, recomputed on every request. Active users
    only, ordered by total points (highest first) and then by account age (oldest first),
    numbered 1, 2, ... with ROW_NUMBER (so tied users get distinct consecutive ranks),
    each with the number of approved submission rows, cut to the limit. */
module Leaderboard {
  import opened Models
  import opened Seqs
  import Auth
  import Submissions

  const DefaultLimit: nat := 10

  /** ORDER BY total_points DESC, created_at ASC. */
  predicate RanksAhead(a: User, b: User)
  {
    a.totalPoints > b.totalPoints || (a.totalPoints == b.totalPoints && a.createdAt <= b.createdAt)
  }

  lemma RanksAheadIsPreorder()
    ensures TotalPreorder(RanksAhead)
  {
  }

  /** The active users in leaderboard order, before the limit is applied. */
  function Ranking(users: seq<User>): (r: seq<User>)
    ensures forall u :: multiset(r)[u] == if u.isActive then multiset(users)[u] else 0
    ensures forall u :: u in r <==> u in users && u.isActive
    ensures forall i, j :: 0 <= i < j < |r| ==> RanksAhead(r[i], r[j])
  {
    RanksAheadIsPreorder();
    var active := Filter(users, (u: User) => u.isActive);
    var r := SortBy(active, RanksAhead);
    assert forall u :: u in r <==> u in active by {
      forall u ensures u in r <==> u in active {
        assert u in r <==> u in multiset(r);
      }
    }
    r
  }

  /** One row of the result. */
  function Entry(u: User, rank: nat, subs: seq<Submission>): LeaderboardEntry
  {
    LeaderboardEntry(rank, u.id, u.username, u.firstName, u.lastName, u.avatar, u.totalPoints,
                     Submissions.ApprovedCount(subs, u.id))
  }

  /** The ranked users numbered from 1 in list order. */
  function Numbered(ranked: seq<User>, subs: seq<Submission>): (r: seq<LeaderboardEntry>)
    ensures |r| == |ranked|
    ensures forall i :: 0 <= i < |r| ==> r[i] == Entry(ranked[i], i + 1, subs)
  {
    seq(|ranked|, i requires 0 <= i < |ranked| => Entry(ranked[i], i + 1, subs))
  }

  /** The leaderboard query with a given LIMIT. */
  function Leaderboard(users: seq<User>, subs: seq<Submission>, limit: nat): (r: seq<LeaderboardEntry>)
    ensures |r| <= limit
    ensures |r| == if limit < |Ranking(users)| then limit else |Ranking(users)|
    ensures forall i :: 0 <= i < |r| ==> r[i] == Entry(Ranking(users)[i], i + 1, subs)
  {
    Numbered(Take(Ranking(users), limit), subs)
  }

  /** Ranks are exactly 1..n in list order, points never increase down the list, and
      of two rows with equal points the older account is listed first. */
  lemma LeaderboardIsOrdered(users: seq<User>, subs: seq<Submission>, limit: nat)
    ensures forall i :: 0 <= i < |Leaderboard(users, subs, limit)| ==> Leaderboard(users, subs, limit)[i].rank == i + 1
    ensures forall i, j :: 0 <= i < j < |Leaderboard(users, subs, limit)| ==>
              Leaderboard(users, subs, limit)[i].totalPoints >= Leaderboard(users, subs, limit)[j].totalPoints
    ensures forall i, j ::
              (0 <= i < j < |Leaderboard(users, subs, limit)|
               && Leaderboard(users, subs, limit)[i].totalPoints == Leaderboard(users, subs, limit)[j].totalPoints)
              ==> Ranking(users)[i].createdAt <= Ranking(users)[j].createdAt
  {
    var r := Leaderboard(users, subs, limit);
    var ranked := Ranking(users);
    forall i, j | 0 <= i < j < |r| ensures r[i].totalPoints >= r[j].totalPoints {
      assert RanksAhead(ranked[i], ranked[j]);
    }
  }

  /** Every row is an active stored user, showing that user's stored total and the
      number of that user's approved submission rows. */
  lemma {:induction false} LeaderboardRowsAreActiveUsers(users: seq<User>, subs: seq<Submission>, limit: nat, i: nat)
    requires i < |Leaderboard(users, subs, limit)|
    ensures exists k :: 0 <= k < |users| && users[k].isActive
              && users[k].id == Leaderboard(users, subs, limit)[i].userId
              && users[k].username == Leaderboard(users, subs, limit)[i].username
              && users[k].totalPoints == Leaderboard(users, subs, limit)[i].totalPoints
              && Submissions.ApprovedCount(subs, users[k].id) == Leaderboard(users, subs, limit)[i].questsCompleted
  {
    var u := Ranking(users)[i];
    assert u in Ranking(users);
    var k :| 0 <= k < |users| && users[k] == u;
  }

  /** The cut keeps the best: an active user left out of the result does not rank
      ahead of the last row shown, and the result is a full page. */
  lemma {:induction false} LeaderboardKeepsTheTop(users: seq<User>, subs: seq<Submission>, limit: nat, u: User)
    requires u in users && u.isActive
    requires forall i :: 0 <= i < |Leaderboard(users, subs, limit)| ==> Leaderboard(users, subs, limit)[i].userId != u.id
    ensures |Leaderboard(users, subs, limit)| == limit
    ensures limit > 0 ==> RanksAhead(Ranking(users)[limit - 1], u)
  {
    var ranked := Ranking(users);
    var r := Leaderboard(users, subs, limit);
    assert u in ranked;
    var j :| 0 <= j < |ranked| && ranked[j] == u;
    if j < limit {
      assert false;
    }
    if limit > 0 {
      assert RanksAhead(ranked[limit - 1], ranked[j]);
    }
  }

  /** With the conservation invariant, every shown total is the user's approved sum. */
  lemma LeaderboardTotalsAreEarned(users: seq<User>, subs: seq<Submission>, limit: nat, i: nat)
    requires Submissions.PointsConserved(users, subs)
    requires i < |Leaderboard(users, subs, limit)|
    ensures Leaderboard(users, subs, limit)[i].totalPoints
            == Submissions.ApprovedPoints(subs, Leaderboard(users, subs, limit)[i].userId)
  {
    LeaderboardRowsAreActiveUsers(users, subs, limit, i);
  }

  /** The limit as intended: the `limit` query value when it parses as a positive id,
      10 otherwise. */
  function EffectiveLimit(queryLimit: string): (n: nat)
    ensures n > 0
    ensures Auth.ParseId(queryLimit).Some? && Auth.ParseId(queryLimit).value > 0 ==> n == Auth.ParseId(queryLimit).value
    ensures Auth.ParseId(queryLimit).None? || Auth.ParseId(queryLimit).value == 0 ==> n == DefaultLimit
  {
    if queryLimit != "" && Auth.ParseId(queryLimit).Some? && Auth.ParseId(queryLimit).value > 0 then
      Auth.ParseId(queryLimit).value
    else DefaultLimit
  }

  /** The limit as written: the handler tests that the `limit` query value is present
      but then parses the route parameter named "limit". */
  function LimitAsWritten(queryLimit: string, routeLimit: string): (n: nat)
    ensures n > 0
    ensures queryLimit != "" && Auth.ParseId(routeLimit).Some? && Auth.ParseId(routeLimit).value > 0
            ==> n == Auth.ParseId(routeLimit).value
    ensures queryLimit == "" || Auth.ParseId(routeLimit).None? || Auth.ParseId(routeLimit).value == 0
            ==> n == DefaultLimit
  {
    if queryLimit != "" && Auth.ParseId(routeLimit).Some? && Auth.ParseId(routeLimit).value > 0 then
      Auth.ParseId(routeLimit).value
    else DefaultLimit
  }

  /** The leaderboard route declares no "limit" parameter, so the route value is empty and
      any requested limit, "5" for one, yields 10; the intended reading yields 5. */
  lemma LimitQueryIsIgnoredAsWritten(queryLimit: string)
    ensures LimitAsWritten(queryLimit, "") == DefaultLimit
    ensures LimitAsWritten("5", "") == 10 && EffectiveLimit("5") == 5
  {
    assert "5"[..0] == "";
    assert Auth.DecimalValue("5") == 5;
  }

  /** The intended limit honours every positive 32-bit value. */
  lemma EffectiveLimitHonoursRequest(n: nat)
    requires 0 < n <= Auth.MaxUint32
    ensures EffectiveLimit(Auth.Decimal(n)) == n
  {
    Auth.ParseIdOfDecimal(n);
  }

  /** GetLeaderboard as written: the route value of "limit" is always empty, so whatever
      the query asks for, the result is the top 10 of the ranking. */
  function GetLeaderboard(users: seq<User>, subs: seq<Submission>, queryLimit: string): (r: seq<LeaderboardEntry>)
    ensures r == Leaderboard(users, subs, DefaultLimit)
    ensures |r| == if |Ranking(users)| < DefaultLimit then |Ranking(users)| else DefaultLimit
  {
    Leaderboard(users, subs, LimitAsWritten(queryLimit, ""))
  }

  /** The leaderboard as intended: cut to the requested limit (10 by default). */
  function IntendedLeaderboard(users: seq<User>, subs: seq<Submission>, queryLimit: string): (r: seq<LeaderboardEntry>)
    ensures |r| <= EffectiveLimit(queryLimit)
    ensures queryLimit == "" ==> r == GetLeaderboard(users, subs, queryLimit)
  {
    Leaderboard(users, subs, EffectiveLimit(queryLimit))
  }

  /** When every user is active the ranking is a permutation of all of them. */
  lemma RankingOfActiveUsers(users: seq<User>)
    requires forall k :: 0 <= k < |users| ==> users[k].isActive
    ensures multiset(Ranking(users)) == multiset(users)
  {
    var r := Ranking(users);
    forall u ensures multiset(r)[u] == multiset(users)[u] {
      if !u.isActive {
        assert u !in users;
      }
    }
  }

  /** A list holding exactly three users and ordered by RanksAhead, where each of the
      three strictly outranks the next, is those three in that order. */
  lemma {:induction false} StrictlyRankedThree(r: seq<User>, a: User, b: User, c: User)
    requires multiset(r) == multiset([a, b, c])
    requires forall i, j :: 0 <= i < j < |r| ==> RanksAhead(r[i], r[j])
    requires !RanksAhead(b, a) && !RanksAhead(c, a) && !RanksAhead(c, b)
    ensures r == [a, b, c]
  {
    assert |r| == 3 by {
      assert |multiset(r)| == |r|;
    }
    assert a in multiset(r) && b in multiset(r) && c in multiset(r);
    var i :| 0 <= i < 3 && r[i] == a;
    var j :| 0 <= j < 3 && r[j] == b;
    var k :| 0 <= k < 3 && r[k] == c;
    assert RanksAhead(a, a) && RanksAhead(b, b);
    assert i < j < k;
    assert r[0] == a && r[1] == b && r[2] == c;
  }

  /** Users stored as a permutation of three active users are all active. */
  lemma ActiveThree(users: seq<User>, a: User, b: User, c: User)
    requires a.isActive && b.isActive && c.isActive
    requires multiset(users) == multiset([a, b, c])
    ensures forall k :: 0 <= k < |users| ==> users[k].isActive
  {
    forall k | 0 <= k < |users| ensures users[k].isActive {
      assert users[k] in multiset(users);
    }
  }

  /** Two active users tied on points are ranked oldest account first, ahead of an
      active user with fewer points, whatever order the three are stored in. */
  lemma TiedUsersAreRankedByAge(users: seq<User>, a: User, b: User, c: User)
    requires a.isActive && b.isActive && c.isActive
    requires a.totalPoints == b.totalPoints > c.totalPoints
    requires a.createdAt < b.createdAt
    requires multiset(users) == multiset([a, b, c])
    ensures Ranking(users) == [a, b, c]
  {
    ActiveThree(users, a, b, c);
    var r := Ranking(users);
    RankingOfActiveUsers(users);
    StrictlyRankedThree(r, a, b, c);
  }

  /** With those three users, in any stored order, the rows are numbered 1, 2, 3: a tie
      does not share a rank. */
  lemma TiedUsersGetConsecutiveRanks(users: seq<User>, a: User, b: User, c: User, subs: seq<Submission>)
    requires a.isActive && b.isActive && c.isActive
    requires a.totalPoints == b.totalPoints > c.totalPoints
    requires a.createdAt < b.createdAt
    requires multiset(users) == multiset([a, b, c])
    ensures GetLeaderboard(users, subs, "")
            == [Entry(a, 1, subs), Entry(b, 2, subs), Entry(c, 3, subs)]
  {
    TiedUsersAreRankedByAge(users, a, b, c);
    var ranked := Ranking(users);
    var r := Leaderboard(users, subs, DefaultLimit);
    assert |ranked| == 3 && ranked[0] == a && ranked[1] == b && ranked[2] == c;
    assert |r| == 3;
    assert r[0] == Entry(ranked[0], 1, subs);
    assert r[1] == Entry(ranked[1], 2, subs);
    assert r[2] == Entry(ranked[2], 3, subs);
  }

  /** quests_completed counts approved rows: two approved submissions to one quest count 2. */
  lemma CompletedCountsRowsNotQuests()
    ensures var s := Submission(1, 1, 1, 7, 3, "", "", "", Approved, 5, "", None, None);
            Submissions.ApprovedCount([s, s.(id := 2)], 7) == 2
  {
    var s := Submission(1, 1, 1, 7, 3, "", "", "", Approved, 5, "", None, None);
    assert [s, s.(id := 2)][..1] == [s];
    assert [s][..0] == [];
    assert Submissions.ApprovedCount([s], 7) == 1;
    assert Submissions.ApprovedCount([s, s.(id := 2)], 7) == Submissions.ApprovedCount([s], 7) + 1;
  }
}
