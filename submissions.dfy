/** The submission review state machine and the submission listing. A submission starts
    pending; approve and reject each accept only a pending submission and make it final.
    Approval records the quest's points on the submission and adds the same amount to
    the owner's total, so every user's total stays the sum of the points awarded on their
    approved submissions. */
module Submissions {
  import opened Models
  import opened Seqs
  import Auth

  /** What one submission adds to a user's total: its award, once it is approved and if
      the user owns it. */
  function Contribution(s: Submission, userId: nat): int
  {
    if s.userId == userId && s.status == Approved then s.pointsAwarded else 0
  }

  /** The sum of points_awarded over the user's approved submissions. */
  function ApprovedPoints(subs: seq<Submission>, userId: nat): int
  {
    if subs == [] then 0
    else ApprovedPoints(subs[..|subs| - 1], userId) + Contribution(subs[|subs| - 1], userId)
  }

  /** The number of the user's approved submission rows (several may be for one quest). */
  function ApprovedCount(subs: seq<Submission>, userId: nat): nat
  {
    if subs == [] then 0
    else ApprovedCount(subs[..|subs| - 1], userId)
         + (if subs[|subs| - 1].userId == userId && subs[|subs| - 1].status == Approved then 1 else 0)
  }

  /** The conservation invariant: each stored user's total equals the points awarded on
      their approved submissions. */
  ghost predicate PointsConserved(users: seq<User>, subs: seq<Submission>)
  {
    forall i :: 0 <= i < |users| ==> users[i].totalPoints == ApprovedPoints(subs, users[i].id)
  }

  lemma ApprovedPointsAppend(subs: seq<Submission>, s: Submission, userId: nat)
    ensures ApprovedPoints(subs + [s], userId) == ApprovedPoints(subs, userId) + Contribution(s, userId)
  {
    assert (subs + [s])[..|subs|] == subs;
  }

  /** Replacing one submission changes each user's sum by the difference of the two
      contributions, and by nothing else. */
  lemma {:induction false} ApprovedPointsUpdate(subs: seq<Submission>, k: nat, t: Submission, userId: nat)
    requires k < |subs|
    ensures ApprovedPoints(subs[k := t], userId)
            == ApprovedPoints(subs, userId) - Contribution(subs[k], userId) + Contribution(t, userId)
  {
    var n := |subs|;
    if k == n - 1 {
      assert subs[k := t][..n - 1] == subs[..n - 1];
    } else {
      assert subs[k := t][..n - 1] == subs[..n - 1][k := t];
      ApprovedPointsUpdate(subs[..n - 1], k, t, userId);
    }
  }

  /** A user who owns no submission has a sum of 0. */
  lemma {:induction false} ApprovedPointsOfNonOwner(subs: seq<Submission>, userId: nat)
    requires forall k :: 0 <= k < |subs| ==> subs[k].userId != userId
    ensures ApprovedPoints(subs, userId) == 0
  {
    if subs != [] {
      ApprovedPointsOfNonOwner(subs[..|subs| - 1], userId);
    }
  }

  /** `First(&submission, id)`: the position of the row whose primary key is `id`, if any.
      Submission ids are assigned by a sequence that a refused insert also advances, so
      an id need not be its row's position plus one. */
  function FindSubmission(subs: seq<Submission>, id: nat): (r: Option<nat>)
    ensures r.Some? ==> r.value < |subs| && subs[r.value].id == id
    ensures r.Some? ==> forall j :: 0 <= j < r.value ==> subs[j].id != id
    ensures r.None? ==> forall j :: 0 <= j < |subs| ==> subs[j].id != id
  {
    if subs == [] then None
    else if subs[0].id == id then Some(0)
    else match FindSubmission(subs[1..], id)
      case None => None
      case Some(i) => Some(i + 1)
  }

  /** Replacing a row by one with the same id leaves every lookup where it was. */
  lemma FindSubmissionAfterUpdate(subs: seq<Submission>, k: nat, t: Submission, id: nat)
    requires k < |subs| && t.id == subs[k].id
    ensures FindSubmission(subs[k := t], id) == FindSubmission(subs, id)
  {
    var before := FindSubmission(subs, id);
    if before.Some? {
      assert subs[k := t][before.value].id == id;
    }
  }

  /** ApproveSubmission and RejectSubmission share their checks, in this order: a
      well-formed id, an existing submission, and a pending status. The result is the
      index of the submission to review. */
  function ReviewGate(subs: seq<Submission>, idParam: string): (r: Result<nat>)
    ensures Auth.ParseId(idParam).None? ==> r == Err(StatusBadRequest, "Invalid submission ID")
    ensures r.Ok? <==> (Auth.ParseId(idParam).Some? && FindSubmission(subs, Auth.ParseId(idParam).value).Some?
                        && subs[FindSubmission(subs, Auth.ParseId(idParam).value).value].status == Pending)
    ensures r.Ok? ==> r.value < |subs| && subs[r.value].id == Auth.ParseId(idParam).value
    ensures r.Ok? ==> r.value == FindSubmission(subs, Auth.ParseId(idParam).value).value
    ensures Auth.ParseId(idParam).Some? && FindSubmission(subs, Auth.ParseId(idParam).value).Some?
            && subs[FindSubmission(subs, Auth.ParseId(idParam).value).value].status != Pending
            ==> r == Err(StatusBadRequest, "Submission already reviewed")
    ensures Auth.ParseId(idParam).Some? && FindSubmission(subs, Auth.ParseId(idParam).value).None?
            ==> r == Err(StatusNotFound, "Submission not found")
  {
    match Auth.ParseId(idParam)
    case None => Err(StatusBadRequest, "Invalid submission ID")
    case Some(id) =>
      match FindSubmission(subs, id)
      case None => Err(StatusNotFound, "Submission not found")
      case Some(k) =>
        if subs[k].status != Pending then Err(StatusBadRequest, "Submission already reviewed")
        else Ok(k)
  }

  /** The points approval awards: the points of the submission's quest as preloaded.
      Preloading skips a soft-deleted quest and leaves a zero quest, worth 0. */
  function AwardFor(quests: seq<Quest>, questId: nat): (p: int)
    ensures 1 <= questId <= |quests| && !quests[questId - 1].Deleted() ==> p == quests[questId - 1].points
    ensures !(1 <= questId <= |quests|) || quests[questId - 1].Deleted() ==> p == 0
  {
    if 1 <= questId <= |quests| && !quests[questId - 1].Deleted() then quests[questId - 1].points else 0
  }

  /** The submission after approval: approved, awarded the points, and stamped with the
      reviewer and the review time. Content, owner, quest and notes are kept. */
  function ApprovedAs(s: Submission, points: int, adminId: nat, now: nat): (t: Submission)
    ensures t.status == Approved && t.pointsAwarded == points
    ensures t.reviewedById == Some(adminId) && t.reviewedAt == Some(now)
    ensures t.id == s.id && t.userId == s.userId && t.questId == s.questId && t.content == s.content
    ensures t.adminNotes == s.adminNotes && t.createdAt == s.createdAt
    ensures t.updatedAt == now
    ensures t.(status := s.status, pointsAwarded := s.pointsAwarded, reviewedAt := s.reviewedAt,
               reviewedById := s.reviewedById, updatedAt := s.updatedAt) == s
  {
    s.(status := Approved, pointsAwarded := points, reviewedAt := Some(now),
       reviewedById := Some(adminId), updatedAt := now)
  }

  /** The submission after rejection: rejected, with the notes and the reviewer; the
      award is left as it was. */
  function RejectedAs(s: Submission, notes: string, adminId: nat, now: nat): (t: Submission)
    ensures t.status == Rejected && t.adminNotes == notes && t.pointsAwarded == s.pointsAwarded
    ensures t.reviewedById == Some(adminId) && t.reviewedAt == Some(now)
    ensures t.id == s.id && t.userId == s.userId && t.questId == s.questId && t.content == s.content
    ensures t.createdAt == s.createdAt && t.updatedAt == now
    ensures t.(status := s.status, adminNotes := s.adminNotes, reviewedAt := s.reviewedAt,
               reviewedById := s.reviewedById, updatedAt := s.updatedAt) == s
  {
    s.(status := Rejected, adminNotes := notes, reviewedAt := Some(now),
       reviewedById := Some(adminId), updatedAt := now)
  }

  /** The owner's row after `total_points = total_points + points` (an UpdateColumn: no
      other column, not even updated_at, is written). */
  function Credited(u: User, points: int): (v: User)
    ensures v.totalPoints == u.totalPoints + points
    ensures v.(totalPoints := u.totalPoints) == u
  {
    u.(totalPoints := u.totalPoints + points)
  }

  /** Approving a pending submission and crediting its owner with the same points keeps
      every user's total equal to their approved sum. */
  lemma ApprovalConservesPoints(users: seq<User>, subs: seq<Submission>, k: nat, points: int,
                                adminId: nat, now: nat)
    requires Auth.UsersKeyed(users) && PointsConserved(users, subs)
    requires k < |subs| && subs[k].status == Pending && 1 <= subs[k].userId <= |users|
    ensures PointsConserved(users[subs[k].userId - 1 := Credited(users[subs[k].userId - 1], points)],
                            subs[k := ApprovedAs(subs[k], points, adminId, now)])
  {
    var t := ApprovedAs(subs[k], points, adminId, now);
    var o := subs[k].userId - 1;
    var users' := users[o := Credited(users[o], points)];
    forall i | 0 <= i < |users'|
      ensures users'[i].totalPoints == ApprovedPoints(subs[k := t], users'[i].id)
    {
      ApprovedPointsUpdate(subs, k, t, users[i].id);
    }
  }

  /** Rejecting a pending submission changes no user's approved sum. */
  lemma RejectionConservesPoints(users: seq<User>, subs: seq<Submission>, k: nat, notes: string,
                                 adminId: nat, now: nat)
    requires PointsConserved(users, subs)
    requires k < |subs| && subs[k].status == Pending
    ensures PointsConserved(users, subs[k := RejectedAs(subs[k], notes, adminId, now)])
  {
    var t := RejectedAs(subs[k], notes, adminId, now);
    forall i | 0 <= i < |users|
      ensures users[i].totalPoints == ApprovedPoints(subs[k := t], users[i].id)
    {
      ApprovedPointsUpdate(subs, k, t, users[i].id);
    }
  }

  /** A new pending submission changes no user's approved sum. */
  lemma NewSubmissionConservesPoints(users: seq<User>, subs: seq<Submission>, s: Submission)
    requires PointsConserved(users, subs) && s.status == Pending
    ensures PointsConserved(users, subs + [s])
  {
    forall i | 0 <= i < |users|
      ensures users[i].totalPoints == ApprovedPoints(subs + [s], users[i].id)
    {
      ApprovedPointsAppend(subs, s, users[i].id);
    }
  }

  /** A new account with no points, whose id no submission names, keeps the invariant. */
  lemma NewUserConservesPoints(users: seq<User>, subs: seq<Submission>, u: User)
    requires PointsConserved(users, subs) && u.totalPoints == 0
    requires forall k :: 0 <= k < |subs| ==> subs[k].userId != u.id
    ensures PointsConserved(users + [u], subs)
  {
    ApprovedPointsOfNonOwner(subs, u.id);
  }

  /** Once reviewed, a submission is refused by both review operations: it can be
      approved at most once, and never after a rejection. */
  lemma ReviewIsFinal(subs: seq<Submission>, idParam: string, t: Submission)
    requires ReviewGate(subs, idParam).Ok?
    requires t.status != Pending
    requires t.id == subs[ReviewGate(subs, idParam).value].id
    ensures ReviewGate(subs[ReviewGate(subs, idParam).value := t], idParam)
            == Err(StatusBadRequest, "Submission already reviewed")
  {
    FindSubmissionAfterUpdate(subs, ReviewGate(subs, idParam).value, t, Auth.ParseId(idParam).value);
  }

  /** GetSubmissions's WHERE clause: the status filter compares the column text; a
      quest or user filter applies only when it parses as a 32-bit id and is ignored
      otherwise. */
  predicate Selected(s: Submission, status: string, questIdParam: string, userIdParam: string)
  {
    && (status == "" || StatusName(s.status) == status)
    && (questIdParam == "" || Auth.ParseId(questIdParam).None? || s.questId == Auth.ParseId(questIdParam).value)
    && (userIdParam == "" || Auth.ParseId(userIdParam).None? || s.userId == Auth.ParseId(userIdParam).value)
  }

  /** ORDER BY created_at DESC. */
  predicate NewerOrSame(a: Submission, b: Submission)
  {
    a.createdAt >= b.createdAt
  }

  lemma NewerOrSameIsPreorder()
    ensures TotalPreorder(NewerOrSame)
  {
  }

  /** GetSubmissions: exactly the selected submissions, each once per stored row, newest first. */
  function GetSubmissions(subs: seq<Submission>, status: string, questIdParam: string,
                          userIdParam: string): (r: seq<Submission>)
    ensures forall s :: s in r <==> s in subs && Selected(s, status, questIdParam, userIdParam)
    ensures forall s :: multiset(r)[s] ==
                        if Selected(s, status, questIdParam, userIdParam) then multiset(subs)[s] else 0
    ensures forall i, j :: 0 <= i < j < |r| ==> r[i].createdAt >= r[j].createdAt
  {
    NewerOrSameIsPreorder();
    var matching := Filter(subs, s => Selected(s, status, questIdParam, userIdParam));
    var r := SortBy(matching, NewerOrSame);
    assert forall s :: s in r <==> s in matching by {
      forall s ensures s in r <==> s in matching {
        assert s in r <==> s in multiset(r);
      }
    }
    r
  }

  /** A status filter that names no status selects nothing. */
  lemma UnknownStatusSelectsNothing(subs: seq<Submission>, status: string, questIdParam: string,
                                    userIdParam: string)
    requires status != "" && status != "pending" && status != "approved" && status != "rejected"
    ensures GetSubmissions(subs, status, questIdParam, userIdParam) == []
  {
  }

  /** A quest or user filter that does not parse selects the same rows as no filter. */
  lemma MalformedIdFiltersAreIgnored(subs: seq<Submission>, status: string, questIdParam: string,
                                     userIdParam: string)
    requires Auth.ParseId(questIdParam).None? && Auth.ParseId(userIdParam).None?
    ensures multiset(GetSubmissions(subs, status, questIdParam, userIdParam))
            == multiset(GetSubmissions(subs, status, "", ""))
  {
    var r1 := GetSubmissions(subs, status, questIdParam, userIdParam);
    var r2 := GetSubmissions(subs, status, "", "");
    forall s ensures multiset(r1)[s] == multiset(r2)[s] {
      assert Selected(s, status, questIdParam, userIdParam) == Selected(s, status, "", "");
    }
  }
}
