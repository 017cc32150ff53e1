/** The quest catalogue and the gate in front of submission creation: the active-quest
    listing and lookup, quest validation and creation, the partial update and the soft
    delete. Quest id k is stored at index k - 1 of the quest sequence. */
module Quests {
  import opened Models
  import opened Seqs
  import Auth

  /** A quest the reads can see: not soft-deleted, and active. */
  predicate IsOpen(quests: seq<Quest>, id: nat)
  {
    1 <= id <= |quests| && !quests[id - 1].Deleted() && quests[id - 1].isActive
  }

  /** GetQuests's WHERE clause: active, not soft-deleted, and matching each filter that
      is given (an empty filter matches everything). */
  predicate Listed(q: Quest, questType: string, difficulty: string)
  {
    && !q.Deleted()
    && q.isActive
    && (questType == "" || q.questType == questType)
    && (difficulty == "" || q.difficulty == difficulty)
  }

  /** ORDER BY created_at DESC. */
  predicate NewerOrSame(a: Quest, b: Quest)
  {
    a.createdAt >= b.createdAt
  }

  lemma NewerOrSameIsPreorder()
    ensures TotalPreorder(NewerOrSame)
  {
  }

  /** GetQuests: exactly the listed quests, each as often as it is stored, newest first. */
  function GetQuests(quests: seq<Quest>, questType: string, difficulty: string): (r: seq<Quest>)
    ensures forall q :: q in r <==> q in quests && Listed(q, questType, difficulty)
    ensures forall q :: multiset(r)[q] == if Listed(q, questType, difficulty) then multiset(quests)[q] else 0
    ensures forall i, j :: 0 <= i < j < |r| ==> r[i].createdAt >= r[j].createdAt
  {
    NewerOrSameIsPreorder();
    var matching := Filter(quests, q => Listed(q, questType, difficulty));
    var r := SortBy(matching, NewerOrSame);
    assert forall q :: q in r <==> q in matching by {
      forall q ensures q in r <==> q in matching {
        assert q in r <==> q in multiset(r);
      }
    }
    r
  }

  /** GetQuest: a malformed id is a bad request; an id that is not an open quest is not
      found; otherwise the stored quest. */
  function GetQuest(quests: seq<Quest>, idParam: string): (r: Result<Quest>)
    ensures Auth.ParseId(idParam).None? ==> r == Err(StatusBadRequest, "Invalid quest ID")
    ensures r.Ok? <==> Auth.ParseId(idParam).Some? && IsOpen(quests, Auth.ParseId(idParam).value)
    ensures r.Ok? ==> r.value == quests[Auth.ParseId(idParam).value - 1]
    ensures r.Err? && Auth.ParseId(idParam).Some? ==> r == Err(StatusNotFound, "Quest not found")
  {
    match Auth.ParseId(idParam)
    case None => Err(StatusBadRequest, "Invalid quest ID")
    case Some(id) =>
      if IsOpen(quests, id) then Ok(quests[id - 1]) else Err(StatusNotFound, "Quest not found")
  }

  /** The decoded body of a quest create or update request: the quest columns the JSON
      decoder can fill. The id and the nested submissions are not modelled; the correct
      answer and the deletion time are tagged `json:"-"`, so no request carries them.
      A time left out of the body is None (Go's zero time). */
  datatype QuestFields = QuestFields(
    createdAt: Option<nat>,
    updatedAt: Option<nat>,
    title: string,
    description: string,
    questType: string,
    points: int,
    difficulty: string,
    scriptureReference: string,
    scriptureText: string,
    triviaQuestion: string,
    triviaOptions: string,
    isActive: bool,
    startDate: Option<nat>,
    endDate: Option<nat>,
    maxSubmissions: int)

  /** CreateQuest's validation: a title, a type and positive points are required. */
  function ValidateQuest(req: QuestFields): (r: Result<()>)
    ensures r.Ok? <==> req.title != "" && req.questType != "" && req.points > 0
    ensures r.Err? ==> r == Err(StatusBadRequest, "Title, type, and points are required")
  {
    if req.title == "" || req.questType == "" || req.points <= 0 then
      Err(StatusBadRequest, "Title, type, and points are required")
    else Ok(())
  }

  /** The type is not checked against the four names the program defines: any non-empty
      type outside them passes validation, "riddle" for one. */
  lemma AnyQuestTypeIsAccepted(req: QuestFields)
    requires req.title != "" && req.points > 0
    requires req.questType != "" && !IsKnownQuestType(req.questType)
    ensures ValidateQuest(req).Ok?
    ensures ValidateQuest(req.(questType := "riddle")).Ok? && !IsKnownQuestType("riddle")
  {
  }

  /** The row CreateQuest inserts. The content columns come from the request. The
      timestamps come from the request when it gives them and are `now` otherwise.
      is_active has a database default of true and a false (zero) value is not sent, so
      every created quest is active. The correct answer cannot be decoded and is stored
      empty. */
  function NewQuest(id: nat, req: QuestFields, now: nat): (q: Quest)
    ensures q.id == id && !q.Deleted() && q.isActive && q.correctAnswer == ""
    ensures q.createdAt == (if req.createdAt.Some? then req.createdAt.value else now)
    ensures q.updatedAt == (if req.updatedAt.Some? then req.updatedAt.value else now)
    ensures q.title == req.title && q.description == req.description && q.questType == req.questType
    ensures q.points == req.points && q.difficulty == req.difficulty && q.maxSubmissions == req.maxSubmissions
    ensures q.scriptureReference == req.scriptureReference && q.scriptureText == req.scriptureText
    ensures q.triviaQuestion == req.triviaQuestion && q.triviaOptions == req.triviaOptions
    ensures q.startDate == req.startDate && q.endDate == req.endDate
  {
    var created := if req.createdAt.Some? then req.createdAt.value else now;
    var updated := if req.updatedAt.Some? then req.updatedAt.value else now;
    Quest(id, created, updated, None, req.title, req.description, req.questType, req.points, req.difficulty,
          req.scriptureReference, req.scriptureText, req.triviaQuestion, req.triviaOptions,
          "", true, req.startDate, req.endDate, req.maxSubmissions)
  }

  /** A quest created by a valid request is read back by its id, field for field. */
  lemma CreatedQuestIsFetched(quests: seq<Quest>, req: QuestFields, now: nat)
    requires ValidateQuest(req).Ok?
    requires |quests| + 1 <= Auth.MaxUint32
    ensures GetQuest(quests + [NewQuest(|quests| + 1, req, now)], Auth.Decimal(|quests| + 1))
            == Ok(NewQuest(|quests| + 1, req, now))
  {
    Auth.ParseIdOfDecimal(|quests| + 1);
  }

  function PickText(given: string, current: string): string { if given != "" then given else current }
  function PickInt(given: int, current: int): int { if given != 0 then given else current }
  function PickTime(given: Option<nat>, current: Option<nat>): Option<nat> { if given.Some? then given else current }

  /** UpdateQuest's `Updates` with a struct: only non-zero fields of the request are
      written, so an empty string, a 0, a false and a missing time leave the column as it
      was; updated_at is always set to `now`. */
  function ApplyEdit(q: Quest, req: QuestFields, now: nat): (r: Quest)
    ensures r.id == q.id && r.deletedAt == q.deletedAt && r.correctAnswer == q.correctAnswer
    ensures r.updatedAt == now
    ensures r.createdAt == (if req.createdAt.Some? then req.createdAt.value else q.createdAt)
    ensures r.title == (if req.title != "" then req.title else q.title)
    ensures r.description == (if req.description != "" then req.description else q.description)
    ensures r.questType == (if req.questType != "" then req.questType else q.questType)
    ensures r.points == (if req.points != 0 then req.points else q.points)
    ensures r.difficulty == (if req.difficulty != "" then req.difficulty else q.difficulty)
    ensures r.scriptureReference == (if req.scriptureReference != "" then req.scriptureReference else q.scriptureReference)
    ensures r.scriptureText == (if req.scriptureText != "" then req.scriptureText else q.scriptureText)
    ensures r.triviaQuestion == (if req.triviaQuestion != "" then req.triviaQuestion else q.triviaQuestion)
    ensures r.triviaOptions == (if req.triviaOptions != "" then req.triviaOptions else q.triviaOptions)
    ensures r.isActive == (req.isActive || q.isActive)
    ensures r.startDate == (if req.startDate.Some? then req.startDate else q.startDate)
    ensures r.endDate == (if req.endDate.Some? then req.endDate else q.endDate)
    ensures r.maxSubmissions == (if req.maxSubmissions != 0 then req.maxSubmissions else q.maxSubmissions)
  {
    q.(createdAt := if req.createdAt.Some? then req.createdAt.value else q.createdAt,
       updatedAt := now,
       title := PickText(req.title, q.title),
       description := PickText(req.description, q.description),
       questType := PickText(req.questType, q.questType),
       points := PickInt(req.points, q.points),
       difficulty := PickText(req.difficulty, q.difficulty),
       scriptureReference := PickText(req.scriptureReference, q.scriptureReference),
       scriptureText := PickText(req.scriptureText, q.scriptureText),
       triviaQuestion := PickText(req.triviaQuestion, q.triviaQuestion),
       triviaOptions := PickText(req.triviaOptions, q.triviaOptions),
       isActive := req.isActive || q.isActive,
       startDate := PickTime(req.startDate, q.startDate),
       endDate := PickTime(req.endDate, q.endDate),
       maxSubmissions := PickInt(req.maxSubmissions, q.maxSubmissions))
  }

  /** The request with every field at its zero value. */
  const EmptyEdit := QuestFields(None, None, "", "", "", 0, "", "", "", "", "", false, None, None, 0)

  /** An update can never deactivate a quest, reset its points or its cap to 0, or clear
      a text column; an all-zero request changes nothing but the update time. */
  lemma EditKeepsWhatZeroCannotSay(q: Quest, req: QuestFields, now: nat)
    ensures q.isActive ==> ApplyEdit(q, req, now).isActive
    ensures q.points != 0 ==> ApplyEdit(q, req, now).points != 0
    ensures q.maxSubmissions != 0 ==> ApplyEdit(q, req, now).maxSubmissions != 0
    ensures q.title != "" ==> ApplyEdit(q, req, now).title != ""
    ensures ApplyEdit(q, EmptyEdit, now) == q.(updatedAt := now)
  {
  }

  /** A request that sets one field writes that column and the update time, and leaves
      every other column as it was. */
  lemma EditWritesOnlyWhatIsGiven(q: Quest, now: nat, text: string, n: int, t: nat)
    requires text != "" && n != 0
    ensures ApplyEdit(q, EmptyEdit.(title := text), now) == q.(updatedAt := now, title := text)
    ensures ApplyEdit(q, EmptyEdit.(description := text), now) == q.(updatedAt := now, description := text)
    ensures ApplyEdit(q, EmptyEdit.(questType := text), now) == q.(updatedAt := now, questType := text)
    ensures ApplyEdit(q, EmptyEdit.(difficulty := text), now) == q.(updatedAt := now, difficulty := text)
    ensures ApplyEdit(q, EmptyEdit.(scriptureReference := text), now) == q.(updatedAt := now, scriptureReference := text)
    ensures ApplyEdit(q, EmptyEdit.(scriptureText := text), now) == q.(updatedAt := now, scriptureText := text)
    ensures ApplyEdit(q, EmptyEdit.(triviaQuestion := text), now) == q.(updatedAt := now, triviaQuestion := text)
    ensures ApplyEdit(q, EmptyEdit.(triviaOptions := text), now) == q.(updatedAt := now, triviaOptions := text)
    ensures ApplyEdit(q, EmptyEdit.(points := n), now) == q.(updatedAt := now, points := n)
    ensures ApplyEdit(q, EmptyEdit.(maxSubmissions := n), now) == q.(updatedAt := now, maxSubmissions := n)
    ensures ApplyEdit(q, EmptyEdit.(isActive := true), now) == q.(updatedAt := now, isActive := true)
    ensures ApplyEdit(q, EmptyEdit.(startDate := Some(t)), now) == q.(updatedAt := now, startDate := Some(t))
    ensures ApplyEdit(q, EmptyEdit.(endDate := Some(t)), now) == q.(updatedAt := now, endDate := Some(t))
    ensures ApplyEdit(q, EmptyEdit.(createdAt := Some(t)), now) == q.(updatedAt := now, createdAt := t)
  {
  }

  /** Applying the same update twice is the same as applying it once. */
  lemma EditIsIdempotent(q: Quest, req: QuestFields, now: nat)
    ensures ApplyEdit(ApplyEdit(q, req, now), req, now) == ApplyEdit(q, req, now)
  {
  }

  /** Whether the user has any submission for the quest, in any status. */
  predicate HasSubmitted(subs: seq<Submission>, userId: nat, questId: nat)
  {
    exists k :: 0 <= k < |subs| && subs[k].userId == userId && subs[k].questId == questId
  }

  /** SubmitQuest's gate: the quest must be open, and a repeat submission is refused only
      when the quest's cap is exactly 1. Start and end dates and caps above 1 are not
      consulted. The result is the quest submitted to. */
  function SubmitGate(quests: seq<Quest>, subs: seq<Submission>, userId: nat, questId: nat): (r: Result<Quest>)
    ensures r.Ok? <==> (IsOpen(quests, questId)
                        && !(quests[questId - 1].maxSubmissions == 1 && HasSubmitted(subs, userId, questId)))
    ensures r.Ok? ==> r.value == quests[questId - 1]
    ensures !IsOpen(quests, questId) ==> r == Err(StatusNotFound, "Quest not found or inactive")
    ensures IsOpen(quests, questId) && quests[questId - 1].maxSubmissions == 1 && HasSubmitted(subs, userId, questId)
            ==> r == Err(StatusConflict, "You have already submitted this quest")
  {
    if !IsOpen(quests, questId) then Err(StatusNotFound, "Quest not found or inactive")
    else if quests[questId - 1].maxSubmissions == 1 && HasSubmitted(subs, userId, questId) then
      Err(StatusConflict, "You have already submitted this quest")
    else Ok(quests[questId - 1])
  }

  /** Only a cap of exactly 1 is enforced: with a cap of 2 and two earlier submissions
      by the same user, a third is still let through, and so are any number under a cap of 0. */
  lemma CapAboveOneIsNotEnforced(quests: seq<Quest>, subs: seq<Submission>, userId: nat, questId: nat)
    requires IsOpen(quests, questId) && quests[questId - 1].maxSubmissions != 1
    ensures SubmitGate(quests, subs, userId, questId) == Ok(quests[questId - 1])
  {
  }

  /** The row SubmitQuest inserts: pending, owned by the caller, for the quest, carrying
      the request's content and media, with nothing awarded and no review. */
  function NewSubmission(id: nat, userId: nat, questId: nat, content: string, mediaUrl: string,
                         mediaType: string, now: nat): (s: Submission)
    ensures s.id == id && s.userId == userId && s.questId == questId && s.createdAt == now
    ensures s.content == content && s.mediaUrl == mediaUrl && s.mediaType == mediaType
    ensures s.status == Pending && s.pointsAwarded == 0
    ensures s.reviewedAt.None? && s.reviewedById.None? && s.adminNotes == ""
  {
    Submission(id, now, now, userId, questId, content, mediaUrl, mediaType, Pending, 0, "", None, None)
  }

  /** DeleteQuest's soft delete: stamps deleted_at on a quest that is not yet deleted. */
  function SoftDeleted(q: Quest, now: nat): (r: Quest)
    ensures r.Deleted()
    ensures r.(deletedAt := q.deletedAt) == q
    ensures q.Deleted() ==> r == q
  {
    if q.Deleted() then q else q.(deletedAt := Some(now))
  }

  /** After a soft delete the quest is gone from the listing and from lookups by id. */
  lemma SoftDeletedQuestIsHidden(quests: seq<Quest>, id: nat, now: nat, questType: string, difficulty: string)
    requires 1 <= id <= |quests|
    ensures !IsOpen(quests[id - 1 := SoftDeleted(quests[id - 1], now)], id)
    ensures SoftDeleted(quests[id - 1], now) !in GetQuests(quests[id - 1 := SoftDeleted(quests[id - 1], now)], questType, difficulty)
    ensures GetQuest(quests[id - 1 := SoftDeleted(quests[id - 1], now)], Auth.Decimal(id)).Err?
  {
    Auth.ParseIdOfDecimal(id);
  }
}
