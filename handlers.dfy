/** The handler object over the database: the three tables as sequences the mutating
    handlers reassign. Row id k of the users and quests tables is stored at index k - 1
    (ids are assigned by autoincrement, no insert into them is refused, and no handler
    removes a row; a quest delete only stamps deleted_at). Submission ids come from a
    sequence that a refused insert also advances, so they only increase along the table
    and submissions are looked up by id.
    The read-only handlers are the functions of the Auth, Quests, Submissions and
    Leaderboard modules applied to these fields. */
module Handlers {
  import opened Models
  import Auth
  import Quests
  import Submissions

  /** What a successful register or login returns: the claims the signed token carries,
      and the account row. */
  datatype AuthResponse = AuthResponse(claims: Claims, user: User)

  /** Submission ids are positive, increase along the table, and lie below the next value
      of the id sequence. */
  ghost predicate SubmissionIds(subs: seq<Submission>, next: nat)
  {
    && 1 <= next
    && (forall i :: 0 <= i < |subs| ==> 1 <= subs[i].id < next)
    && (forall i, j :: 0 <= i < j < |subs| ==> subs[i].id < subs[j].id)
  }

  /** A review rewrites a row under the same id. */
  lemma ReviewKeepsIds(subs: seq<Submission>, next: nat, k: nat, t: Submission)
    requires SubmissionIds(subs, next) && k < |subs| && t.id == subs[k].id
    ensures SubmissionIds(subs[k := t], next)
  {
    assert forall i :: 0 <= i < |subs| ==> subs[k := t][i].id == subs[i].id;
  }

  class Handler {
    var users: seq<User>
    var quests: seq<Quest>
    var submissions: seq<Submission>
    /** The next value of the submissions id sequence. */
    var nextSubmissionId: nat

    /** The store invariant: user and quest ids are positions, submission ids increase
        along the table and lie below the sequence's next value, every submission names a stored user and
        a stored quest, usernames and emails are unique, a submission that is not
        approved carries no award, and every user's total is the sum of the points
        awarded on their approved submissions. */
    ghost predicate Valid()
      reads this
    {
      && Auth.UsersKeyed(users)
      && (forall i :: 0 <= i < |quests| ==> quests[i].id == i + 1)
      && SubmissionIds(submissions, nextSubmissionId)
      && (forall i :: 0 <= i < |submissions| ==>
            1 <= submissions[i].userId <= |users| && 1 <= submissions[i].questId <= |quests|)
      && (forall i :: 0 <= i < |submissions| && submissions[i].status != Approved ==>
            submissions[i].pointsAwarded == 0)
      && (forall i, j :: 0 <= i < j < |users| ==>
            users[i].username != users[j].username && users[i].email != users[j].email)
      && Submissions.PointsConserved(users, submissions)
    }

    /** An empty database. */
    constructor ()
      ensures Valid()
      ensures users == [] && quests == [] && submissions == [] && nextSubmissionId == 1
    {
      users := [];
      quests := [];
      submissions := [];
      nextSubmissionId := 1;
    }

    /** Register: the checks, then a new active account with role "user" and no points,
        appended with the next id. `hashed` is what bcrypt made of the password. */
    method Register(username: string, email: string, password: string, firstName: string,
                    lastName: string, hashed: string, now: nat) returns (r: Result<AuthResponse>)
      requires Valid()
      modifies this
      ensures Valid()
      ensures quests == old(quests) && submissions == old(submissions) && nextSubmissionId == old(nextSubmissionId)
      ensures Auth.RegisterCheck(old(users), username, email, password).Err? ==>
                && users == old(users)
                && r == Err(Auth.RegisterCheck(old(users), username, email, password).status,
                            Auth.RegisterCheck(old(users), username, email, password).message)
      ensures Auth.RegisterCheck(old(users), username, email, password).Ok? ==>
                && users == old(users) + [Auth.NewAccount(|old(users)| + 1, username, email, hashed,
                                                          firstName, lastName, now)]
                && r == Ok(AuthResponse(Claims(|old(users)| + 1, RoleUser), users[|old(users)|]))
    {
      var check := Auth.RegisterCheck(users, username, email, password);
      if check.Err? {
        return Err(check.status, check.message);
      }
      var u := Auth.NewAccount(|users| + 1, username, email, hashed, firstName, lastName, now);
      Submissions.NewUserConservesPoints(users, submissions, u);
      users := users + [u];
      r := Ok(AuthResponse(Claims(u.id, u.role), u));
    }

    /** Login: the checks, then the account's last-login time is recorded. */
    method Login(ident: string, password: string, verify: (string, string) -> bool, now: nat)
      returns (r: Result<AuthResponse>)
      requires Valid()
      modifies this
      ensures Valid()
      ensures quests == old(quests) && submissions == old(submissions) && nextSubmissionId == old(nextSubmissionId)
      ensures Auth.LoginCheck(old(users), ident, password, verify).Err? ==>
                && users == old(users)
                && r == Err(Auth.LoginCheck(old(users), ident, password, verify).status,
                            Auth.LoginCheck(old(users), ident, password, verify).message)
      ensures Auth.LoginCheck(old(users), ident, password, verify).Ok? ==>
                var i := Auth.LoginCheck(old(users), ident, password, verify).value;
                && users == old(users)[i := Auth.LoggedIn(old(users)[i], now)]
                && r == Ok(AuthResponse(Claims(users[i].id, users[i].role), users[i]))
    {
      var check := Auth.LoginCheck(users, ident, password, verify);
      if check.Err? {
        return Err(check.status, check.message);
      }
      var i := check.value;
      var u := Auth.LoggedIn(users[i], now);
      users := users[i := u];
      r := Ok(AuthResponse(Claims(u.id, u.role), u));
      assert forall j :: 0 <= j < |users| ==> users[j].(lastLogin := old(users)[j].lastLogin,
                                                      updatedAt := old(users)[j].updatedAt) == old(users)[j];
    }

    /** UpdateProfile: the caller's name, bio and avatar are overwritten. For an id with
        no row nothing is written and the handler answers with a zero user (None). */
    method UpdateProfile(caller: Claims, firstName: string, lastName: string, bio: string,
                         avatar: string, now: nat) returns (r: Option<User>)
      requires Valid()
      modifies this
      ensures Valid()
      ensures quests == old(quests) && submissions == old(submissions) && nextSubmissionId == old(nextSubmissionId)
      ensures 1 <= caller.userId <= |old(users)| ==>
                && users == old(users)[caller.userId - 1 :=
                     Auth.ProfileUpdated(old(users)[caller.userId - 1], firstName, lastName, bio, avatar, now)]
                && r == Some(users[caller.userId - 1])
      ensures !(1 <= caller.userId <= |old(users)|) ==> users == old(users) && r == None
    {
      if !(1 <= caller.userId <= |users|) {
        return None;
      }
      var k := caller.userId - 1;
      var u := Auth.ProfileUpdated(users[k], firstName, lastName, bio, avatar, now);
      users := users[k := u];
      r := Some(u);
    }

    /** CreateQuest, reachable only by an admin: a valid request is stored as a new
        active quest with the next id. */
    method CreateQuest(caller: Claims, req: Quests.QuestFields, now: nat) returns (r: Result<Quest>)
      requires Valid()
      requires caller.role == RoleAdmin
      modifies this
      ensures Valid()
      ensures users == old(users) && submissions == old(submissions) && nextSubmissionId == old(nextSubmissionId)
      ensures Quests.ValidateQuest(req).Err? ==>
                quests == old(quests) && r == Err(StatusBadRequest, "Title, type, and points are required")
      ensures Quests.ValidateQuest(req).Ok? ==>
                && quests == old(quests) + [Quests.NewQuest(|old(quests)| + 1, req, now)]
                && r == Ok(quests[|old(quests)|])
    {
      var check := Quests.ValidateQuest(req);
      if check.Err? {
        return Err(check.status, check.message);
      }
      var q := Quests.NewQuest(|quests| + 1, req, now);
      quests := quests + [q];
      r := Ok(q);
    }

    /** UpdateQuest, reachable only by an admin: the non-zero fields of the request are
        written to a stored quest that is not soft-deleted; any other id writes nothing and
        is answered with a zero quest (None). A malformed id is a bad request. */
    method UpdateQuest(caller: Claims, idParam: string, req: Quests.QuestFields, now: nat)
      returns (r: Result<Option<Quest>>)
      requires Valid()
      requires caller.role == RoleAdmin
      modifies this
      ensures Valid()
      ensures users == old(users) && submissions == old(submissions) && nextSubmissionId == old(nextSubmissionId)
      ensures Auth.ParseId(idParam).None? ==> quests == old(quests) && r == Err(StatusBadRequest, "Invalid quest ID")
      ensures Auth.ParseId(idParam).Some? ==>
                var id := Auth.ParseId(idParam).value;
                if 1 <= id <= |old(quests)| && !old(quests)[id - 1].Deleted() then
                  && quests == old(quests)[id - 1 := Quests.ApplyEdit(old(quests)[id - 1], req, now)]
                  && r == Ok(Some(quests[id - 1]))
                else
                  quests == old(quests) && r == Ok(None)
    {
      var parsed := Auth.ParseId(idParam);
      if parsed.None? {
        return Err(StatusBadRequest, "Invalid quest ID");
      }
      var id := parsed.value;
      if 1 <= id <= |quests| && !quests[id - 1].Deleted() {
        var q := Quests.ApplyEdit(quests[id - 1], req, now);
        quests := quests[id - 1 := q];
        r := Ok(Some(q));
      } else {
        r := Ok(None);
      }
    }

    /** DeleteQuest, reachable only by an admin: the soft delete of a stored quest; an unknown id writes nothing, and
        either way the answer is the success message. */
    method DeleteQuest(caller: Claims, idParam: string, now: nat) returns (r: Result<string>)
      requires Valid()
      requires caller.role == RoleAdmin
      modifies this
      ensures Valid()
      ensures users == old(users) && submissions == old(submissions) && nextSubmissionId == old(nextSubmissionId)
      ensures Auth.ParseId(idParam).None? ==> quests == old(quests) && r == Err(StatusBadRequest, "Invalid quest ID")
      ensures Auth.ParseId(idParam).Some? ==>
                var id := Auth.ParseId(idParam).value;
                && r == Ok("Quest deleted successfully")
                && quests == if 1 <= id <= |old(quests)| then old(quests)[id - 1 := Quests.SoftDeleted(old(quests)[id - 1], now)]
                             else old(quests)
    {
      var parsed := Auth.ParseId(idParam);
      if parsed.None? {
        return Err(StatusBadRequest, "Invalid quest ID");
      }
      var id := parsed.value;
      if 1 <= id <= |quests| {
        quests := quests[id - 1 := Quests.SoftDeleted(quests[id - 1], now)];
      }
      r := Ok("Quest deleted successfully");
    }

    /** SubmitQuest: a malformed id is a bad request; then the gate; then a pending
        submission is appended with the next value of the id sequence. The user's foreign
        key makes the insert fail when the caller's id names no stored user; the refused
        insert has still drawn its id, which no row will ever carry. */
    method SubmitQuest(caller: Claims, idParam: string, content: string, mediaUrl: string,
                       mediaType: string, now: nat) returns (r: Result<Submission>)
      requires Valid()
      modifies this
      ensures Valid()
      ensures users == old(users) && quests == old(quests)
      ensures Auth.ParseId(idParam).None? ==>
                && submissions == old(submissions) && nextSubmissionId == old(nextSubmissionId)
                && r == Err(StatusBadRequest, "Invalid quest ID")
      ensures Auth.ParseId(idParam).Some? ==>
                var gate := Quests.SubmitGate(old(quests), old(submissions), caller.userId, Auth.ParseId(idParam).value);
                && (gate.Err? ==>
                      && submissions == old(submissions) && nextSubmissionId == old(nextSubmissionId)
                      && r == Err(gate.status, gate.message))
                && (gate.Ok? && !(1 <= caller.userId <= |old(users)|) ==>
                      && submissions == old(submissions) && nextSubmissionId == old(nextSubmissionId) + 1
                      && r == Err(StatusInternalServerError, "Failed to create submission"))
                && (gate.Ok? && 1 <= caller.userId <= |old(users)| ==>
                      && submissions == old(submissions) + [Quests.NewSubmission(old(nextSubmissionId), caller.userId,
                                                              Auth.ParseId(idParam).value, content, mediaUrl, mediaType, now)]
                      && nextSubmissionId == old(nextSubmissionId) + 1
                      && r == Ok(submissions[|old(submissions)|]))
    {
      var parsed := Auth.ParseId(idParam);
      if parsed.None? {
        return Err(StatusBadRequest, "Invalid quest ID");
      }
      var questId := parsed.value;
      var gate := Quests.SubmitGate(quests, submissions, caller.userId, questId);
      if gate.Err? {
        return Err(gate.status, gate.message);
      }
      var id := nextSubmissionId;
      nextSubmissionId := nextSubmissionId + 1;
      if !(1 <= caller.userId <= |users|) {
        return Err(StatusInternalServerError, "Failed to create submission");
      }
      var s := Quests.NewSubmission(id, caller.userId, questId, content, mediaUrl, mediaType, now);
      Submissions.NewSubmissionConservesPoints(users, submissions, s);
      submissions := submissions + [s];
      r := Ok(s);
    }

    /** ApproveSubmission, reachable only by an admin: the review gate, then in one
        transaction the submission is approved with its quest's points (0 when the quest
        is soft-deleted) and the same points are added to the owner's total. */
    method ApproveSubmission(reviewer: Claims, idParam: string, now: nat) returns (r: Result<Submission>)
      requires Valid()
      requires reviewer.role == RoleAdmin
      modifies this
      ensures Valid()
      ensures quests == old(quests) && nextSubmissionId == old(nextSubmissionId)
      ensures Submissions.ReviewGate(old(submissions), idParam).Err? ==>
                && users == old(users) && submissions == old(submissions)
                && r == Err(Submissions.ReviewGate(old(submissions), idParam).status,
                            Submissions.ReviewGate(old(submissions), idParam).message)
      ensures Submissions.ReviewGate(old(submissions), idParam).Ok? ==>
                var k := Submissions.ReviewGate(old(submissions), idParam).value;
                var s := old(submissions)[k];
                var points := Submissions.AwardFor(old(quests), s.questId);
                && submissions == old(submissions)[k := Submissions.ApprovedAs(s, points, reviewer.userId, now)]
                && 1 <= s.userId <= |old(users)|
                && users == old(users)[s.userId - 1 := Submissions.Credited(old(users)[s.userId - 1], points)]
                && r == Ok(submissions[k])
    {
      var gate := Submissions.ReviewGate(submissions, idParam);
      if gate.Err? {
        return Err(gate.status, gate.message);
      }
      var k := gate.value;
      var s := submissions[k];
      var points := Submissions.AwardFor(quests, s.questId);
      var t := Submissions.ApprovedAs(s, points, reviewer.userId, now);
      var o := s.userId - 1;
      Submissions.ApprovalConservesPoints(users, submissions, k, points, reviewer.userId, now);
      ReviewKeepsIds(submissions, nextSubmissionId, k, t);
      submissions := submissions[k := t];
      users := users[o := Submissions.Credited(users[o], points)];
      r := Ok(t);
    }

    /** RejectSubmission, reachable only by an admin: the review gate, then the submission
        is rejected with the notes; no total changes. */
    method RejectSubmission(reviewer: Claims, idParam: string, notes: string, now: nat)
      returns (r: Result<Submission>)
      requires Valid()
      requires reviewer.role == RoleAdmin
      modifies this
      ensures Valid()
      ensures users == old(users) && quests == old(quests) && nextSubmissionId == old(nextSubmissionId)
      ensures Submissions.ReviewGate(old(submissions), idParam).Err? ==>
                && submissions == old(submissions)
                && r == Err(Submissions.ReviewGate(old(submissions), idParam).status,
                            Submissions.ReviewGate(old(submissions), idParam).message)
      ensures Submissions.ReviewGate(old(submissions), idParam).Ok? ==>
                var k := Submissions.ReviewGate(old(submissions), idParam).value;
                && submissions == old(submissions)[k := Submissions.RejectedAs(old(submissions)[k], notes, reviewer.userId, now)]
                && r == Ok(submissions[k])
    {
      var gate := Submissions.ReviewGate(submissions, idParam);
      if gate.Err? {
        return Err(gate.status, gate.message);
      }
      var k := gate.value;
      var t := Submissions.RejectedAs(submissions[k], notes, reviewer.userId, now);
      Submissions.RejectionConservesPoints(users, submissions, k, notes, reviewer.userId, now);
      ReviewKeepsIds(submissions, nextSubmissionId, k, t);
      submissions := submissions[k := t];
      r := Ok(t);
    }
  }
}
