/** The records of the koinonia backend (users, quests, submissions, leaderboard rows)
    and the small enumerations they use. Timestamps are abstract clock readings (nat);
    optional timestamps and ids (Go pointers) are Options. */
module Models {

  datatype Option<+T> = None | Some(value: T)

  /** The outcome of a handler: a value, or the HTTP status and message that the
      handler writes with writeJSONError. */
  datatype Result<+T> = Ok(value: T) | Err(status: int, message: string)

  const StatusBadRequest := 400
  const StatusUnauthorized := 401
  const StatusForbidden := 403
  const StatusNotFound := 404
  const StatusConflict := 409
  const StatusInternalServerError := 500

  /** Roles are plain strings in the source; these are the two it writes and checks. */
  const RoleUser := "user"
  const RoleAdmin := "admin"

  /** The four QuestType constants. A quest's type is a string column, so any
      non-empty string is storable; these are the names the program defines. */
  const QuestTypeScripture := "scripture"
  const QuestTypeSideQuest := "side_quest"
  const QuestTypeTrivia := "trivia"
  const QuestTypeEncouragement := "encouragement"

  predicate IsKnownQuestType(t: string)
  {
    t == QuestTypeScripture || t == QuestTypeSideQuest || t == QuestTypeTrivia || t == QuestTypeEncouragement
  }

  /** The review state of a submission; no other value can be stored. */
  datatype SubmissionStatus = Pending | Approved | Rejected

  /** The column value of each status. */
  function StatusName(s: SubmissionStatus): (name: string)
    ensures name == "pending" || name == "approved" || name == "rejected"
    ensures name == "pending" <==> s == Pending
    ensures name == "approved" <==> s == Approved
    ensures name == "rejected" <==> s == Rejected
  {
    match s
    case Pending => "pending"
    case Approved => "approved"
    case Rejected => "rejected"
  }

  datatype User = User(
    id: nat,
    createdAt: nat,
    updatedAt: nat,
    username: string,
    email: string,
    password: string,     // the bcrypt hash; never published
    firstName: string,
    lastName: string,
    avatar: string,
    bio: string,
    totalPoints: int,
    role: string,
    isActive: bool,
    lastLogin: Option<nat>)

  /** A quest. `deleted` stands for a non-null DeletedAt (GORM soft delete). */
  datatype Quest = Quest(
    id: nat,
    createdAt: nat,
    updatedAt: nat,
    deletedAt: Option<nat>,
    title: string,
    description: string,
    questType: string,
    points: int,
    difficulty: string,
    scriptureReference: string,
    scriptureText: string,
    triviaQuestion: string,
    triviaOptions: string,
    correctAnswer: string,  // never published
    isActive: bool,
    startDate: Option<nat>,
    endDate: Option<nat>,
    maxSubmissions: int)    // 0 = unlimited
  {
    predicate Deleted() { deletedAt.Some? }
  }

  datatype Submission = Submission(
    id: nat,
    createdAt: nat,
    updatedAt: nat,
    userId: nat,
    questId: nat,
    content: string,
    mediaUrl: string,
    mediaType: string,
    status: SubmissionStatus,
    pointsAwarded: int,
    adminNotes: string,
    reviewedAt: Option<nat>,
    reviewedById: Option<nat>)

  datatype LeaderboardEntry = LeaderboardEntry(
    rank: nat,
    userId: nat,
    username: string,
    firstName: string,
    lastName: string,
    avatar: string,
    totalPoints: int,
    questsCompleted: nat)

  /** The JSON view of a user: every field but the password hash. */
  datatype PublicUser = PublicUser(
    id: nat, createdAt: nat, updatedAt: nat, username: string, email: string,
    firstName: string, lastName: string, avatar: string, bio: string,
    totalPoints: int, role: string, isActive: bool, lastLogin: Option<nat>)

  /** The JSON view of a quest: every field but the correct answer and DeletedAt. */
  datatype PublicQuest = PublicQuest(
    id: nat, createdAt: nat, updatedAt: nat, title: string, description: string,
    questType: string, points: int, difficulty: string, scriptureReference: string,
    scriptureText: string, triviaQuestion: string, triviaOptions: string,
    isActive: bool, startDate: Option<nat>, endDate: Option<nat>, maxSubmissions: int)

  function PublishUser(u: User): (p: PublicUser)
    ensures p.id == u.id && p.username == u.username && p.email == u.email
    ensures p.totalPoints == u.totalPoints && p.role == u.role && p.isActive == u.isActive
  {
    PublicUser(u.id, u.createdAt, u.updatedAt, u.username, u.email, u.firstName, u.lastName,
               u.avatar, u.bio, u.totalPoints, u.role, u.isActive, u.lastLogin)
  }

  function PublishQuest(q: Quest): (p: PublicQuest)
    ensures p.id == q.id && p.title == q.title && p.questType == q.questType && p.points == q.points
  {
    PublicQuest(q.id, q.createdAt, q.updatedAt, q.title, q.description, q.questType, q.points,
                q.difficulty, q.scriptureReference, q.scriptureText, q.triviaQuestion,
                q.triviaOptions, q.isActive, q.startDate, q.endDate, q.maxSubmissions)
  }

  /** The published user reveals nothing about the password: two users that differ only
      in their password hash publish identically. */
  lemma PublishedUserHidesPassword(u: User, otherHash: string)
    ensures PublishUser(u.(password := otherHash)) == PublishUser(u)
  {
  }

  /** The published quest reveals nothing about the correct answer. */
  lemma PublishedQuestHidesAnswer(q: Quest, otherAnswer: string)
    ensures PublishQuest(q.(correctAnswer := otherAnswer)) == PublishQuest(q)
  {
  }

  /** The JWT claims issued at register and login, and propagated by the auth middleware
      as the request identity. */
  datatype Claims = Claims(userId: nat, role: string)
}
