/**
 * The bot's data-access helpers: the anonymous id, the catalog queries that
 * sequence a survey, and the small writes that keep a session and a
 * respondent up to date.
 */
module Handlers {
  import opened Wrappers
  import opened Text
  import opened Tables
  import opened Models
  import opened Store

  // ---------------------------------------------------------------- anonymous id

  predicate IsLowerHex(c: char) {
    '0' <= c <= '9' || 'a' <= c <= 'f'
  }

  /** A SHA-256 `hexdigest()`: 64 lower-case hexadecimal characters (FIPS 180-4 digests are 256 bits). */
  type HexDigest = s: string | |s| == 64 && forall i :: 0 <= i < |s| ==> IsLowerHex(s[i])
    witness seq(64, _ => '0')

  datatype ConfigError = SaltNotSet

  /** The text that is hashed: the salt, a colon, and the decimal Telegram id. */
  function HashInput(salt: string, telegramId: int): (s: string)
    ensures salt + ":" <= s
    ensures s[|salt| + 1..] == IntToDecimal(telegramId)
  {
    salt + ":" + IntToDecimal(telegramId)
  }

  /** Recovers the Telegram id from a hash input made with `salt`. */
  function TelegramIdOf(salt: string, s: string): Option<int> {
    if salt + ":" <= s then ParseInt(s[|salt| + 1..]) else None
  }

  lemma HashInputRoundTrip(salt: string, telegramId: int)
    ensures TelegramIdOf(salt, HashInput(salt, telegramId)) == Some(telegramId)
  {
    assert HashInput(salt, telegramId)[|salt| + 1..] == IntToDecimal(telegramId);
    ParseIntOfDecimal(telegramId);
  }

  /** The salt's own colon is the last colon of a hash input. */
  lemma ColonOnlyAfterSalt(salt: string, telegramId: int)
    ensures var h := HashInput(salt, telegramId);
      && |salt| < |h| && h[|salt|] == ':'
      && forall k :: |salt| < k < |h| ==> h[k] != ':'
  {
    var h := HashInput(salt, telegramId);
    var d := IntToDecimal(telegramId);
    forall k | |salt| < k < |h| ensures h[k] != ':' {
      assert h[k] == d[k - |salt| - 1];
    }
  }

  /**
   * The hash input determines both the salt and the Telegram id: the decimal
   * part has no colon, so the last colon separates the two.
   */
  lemma HashInputInjective(salt1: string, id1: int, salt2: string, id2: int)
    requires HashInput(salt1, id1) == HashInput(salt2, id2)
    ensures salt1 == salt2 && id1 == id2
  {
    var x := HashInput(salt1, id1);
    ColonOnlyAfterSalt(salt1, id1);
    ColonOnlyAfterSalt(salt2, id2);
    assert |salt1| == |salt2|;
    assert salt1 == x[..|salt1|] == salt2;
    assert IntToDecimal(id1) == x[|salt1| + 1..] == IntToDecimal(id2);
    DecimalInjective(id1, id2);
  }

  /**
   * `generate_anonymous_id`: fails before any hashing when the salt is unset
   * or empty; otherwise the SHA-256 hex digest of the hash input. The digest
   * (with the UTF-8 encoding before it) is the parameter `sha256Hex`.
   */
  function GenerateAnonymousId(salt: Option<string>, telegramId: int, sha256Hex: string -> HexDigest)
    : (r: Result<HexDigest, ConfigError>)
    ensures r.Failure? <==> !TextTruthy(salt)
    ensures r.Success? ==> r.value == sha256Hex(HashInput(salt.value, telegramId))
  {
    if !TextTruthy(salt) then Failure(SaltNotSet)
    else Success(sha256Hex(HashInput(salt.value, telegramId)))
  }

  /**
   * For one configured salt, equal Telegram ids give equal anonymous ids, and
   * distinct ids are hashed from distinct inputs.
   */
  lemma AnonymousIdsSeparate(salt: string, id1: int, id2: int, sha256Hex: string -> HexDigest)
    requires salt != ""
    ensures id1 == id2 ==> GenerateAnonymousId(Some(salt), id1, sha256Hex) == GenerateAnonymousId(Some(salt), id2, sha256Hex)
    ensures id1 != id2 ==> HashInput(salt, id1) != HashInput(salt, id2)
  {
    if HashInput(salt, id1) == HashInput(salt, id2) {
      HashInputInjective(salt, id1, salt, id2);
    }
  }

  // ---------------------------------------------------------------- catalog queries

  /** `get_active_survey`: the most recently created active survey (surveys sort newest first). */
  function GetActiveSurvey(surveys: seq<Survey>): (r: Option<Survey>)
    ensures r.None? <==> forall s :: s in surveys ==> !s.isActive
    ensures r.Some? ==> r.value in surveys && r.value.isActive
    ensures r.Some? ==> forall s :: s in surveys && s.isActive ==> s.createdAt <= r.value.createdAt
  {
    match FirstMin(surveys, (s: Survey) => s.isActive, (s: Survey) => -s.createdAt)
    case None => None
    case Some(i) => Some(surveys[i])
  }

  /** `get_first_question`: a question of the survey with the least order; None when it has none. */
  function GetFirstQuestion(questions: seq<Question>, survey: nat): (r: Option<Question>)
    ensures r.None? <==> forall q :: q in questions ==> q.survey != survey
    ensures r.Some? ==> r.value in questions && r.value.survey == survey
    ensures r.Some? ==> forall q :: q in questions && q.survey == survey ==> r.value.order <= q.order
  {
    match FirstMin(questions, (q: Question) => q.survey == survey, (q: Question) => q.order)
    case None => None
    case Some(i) => Some(questions[i])
  }

  /**
   * `get_next_question`: a question of the survey whose order is above
   * `currentOrder` with no question of the survey ordered strictly between the
   * two; None when no question of the survey is ordered above `currentOrder`.
   */
  function GetNextQuestion(questions: seq<Question>, survey: nat, currentOrder: int): (r: Option<Question>)
    ensures r.None? <==> forall q :: q in questions && q.survey == survey ==> q.order <= currentOrder
    ensures r.Some? ==> r.value in questions && r.value.survey == survey && r.value.order > currentOrder
    ensures r.Some? ==> forall q :: q in questions && q.survey == survey && currentOrder < q.order ==> r.value.order <= q.order
  {
    match FirstMin(questions, (q: Question) => q.survey == survey && q.order > currentOrder, (q: Question) => q.order)
    case None => None
    case Some(i) => Some(questions[i])
  }

  /**
   * `find_option_by_text`: an option of the question whose text equals `text`
   * exactly, the lowest-ordered among such; None when no option text matches.
   */
  function FindOptionByText(options: seq<QuestionOption>, question: nat, text: string): (r: Option<QuestionOption>)
    ensures r.None? <==> forall o :: o in options && o.question == question ==> o.text != text
    ensures r.Some? ==> r.value in options && r.value.question == question && r.value.text == text
    ensures r.Some? ==> forall o :: o in options && o.question == question && o.text == text ==> r.value.order <= o.order
  {
    match FirstMin(options, (o: QuestionOption) => o.question == question && o.text == text, (o: QuestionOption) => o.order)
    case None => None
    case Some(i) => Some(options[i])
  }

  // ---------------------------------------------------------------- lookups and counts

  /** `get_respondent`: the respondent with that anonymous id; None stands for `DoesNotExist`. */
  function GetRespondent(respondents: seq<Respondent>, anonymousId: string): (r: Option<Respondent>)
    ensures r.None? <==> forall x :: x in respondents ==> x.anonymousId != anonymousId
    ensures r.Some? ==> r.value in respondents && r.value.anonymousId == anonymousId
  {
    match RespondentIndex(respondents, anonymousId)
    case None => None
    case Some(i) => Some(respondents[i])
  }

  /** `get_session`: the session with that id; None stands for `DoesNotExist`. */
  function GetSession(sessions: seq<SurveySession>, id: nat): (r: Option<SurveySession>)
    ensures r.None? <==> forall s :: s in sessions ==> s.id != id
    ensures r.Some? ==> r.value in sessions && r.value.id == id
  {
    match SessionIndex(sessions, id)
    case None => None
    case Some(i) => Some(sessions[i])
  }

  /** The sessions of `user` that are in `status`. */
  function SessionsIn(sessions: seq<SurveySession>, user: nat, status: SessionStatus): (r: seq<SurveySession>)
    ensures forall s :: s in r <==> s in sessions && s.user == user && s.status == status
    ensures |r| == |set i | 0 <= i < |sessions| && sessions[i].user == user && sessions[i].status == status|
  {
    var mine := (s: SurveySession) => s.user == user && s.status == status;
    var r := Filter(sessions, mine);
    FilterCount(sessions, mine);
    assert Positions(sessions, mine)
      == (set i | 0 <= i < |sessions| && sessions[i].user == user && sessions[i].status == status);
    r
  }

  /** `count_completed_sessions`: how many of the user's sessions are completed. */
  function CountCompletedSessions(sessions: seq<SurveySession>, user: nat): (n: nat)
    ensures n == |set i | 0 <= i < |sessions| && sessions[i].user == user && sessions[i].status == Completed|
    ensures n <= |sessions|
    ensures n == 0 <==> forall s :: s in sessions && s.user == user ==> s.status != Completed
  {
    var r := SessionsIn(sessions, user, Completed);
    assert r != [] ==> r[0] in r;
    |r|
  }

  /** `count_in_progress_sessions`: how many of the user's sessions are in progress. */
  function CountInProgressSessions(sessions: seq<SurveySession>, user: nat): (n: nat)
    ensures n == |set i | 0 <= i < |sessions| && sessions[i].user == user && sessions[i].status == InProgress|
    ensures n <= |sessions|
    ensures n == 0 <==> forall s :: s in sessions && s.user == user ==> s.status != InProgress
  {
    var r := SessionsIn(sessions, user, InProgress);
    assert r != [] ==> r[0] in r;
    |r|
  }

  /**
   * Completing one of a user's in-progress sessions moves it from the
   * in-progress count to the completed count.
   */
  lemma CompletingMovesCount(sessions: seq<SurveySession>, i: nat, now: int)
    requires i < |sessions| && sessions[i].status == InProgress
    ensures var after := sessions[i := sessions[i].(status := Completed, completedAt := Some(now))];
      var u := sessions[i].user;
      && CountCompletedSessions(after, u) == CountCompletedSessions(sessions, u) + 1
      && CountInProgressSessions(after, u) + 1 == CountInProgressSessions(sessions, u)
  {
    var x := sessions[i].(status := Completed, completedAt := Some(now));
    var u := sessions[i].user;
    FilterUpdateCount(sessions, (s: SurveySession) => s.user == u && s.status == Completed, i, x);
    FilterUpdateCount(sessions, (s: SurveySession) => s.user == u && s.status == InProgress, i, x);
  }

  /** Abandoning one of a user's in-progress sessions removes it from the in-progress count only. */
  lemma AbandoningMovesCount(sessions: seq<SurveySession>, i: nat)
    requires i < |sessions| && sessions[i].status == InProgress
    ensures var after := sessions[i := sessions[i].(status := Abandoned)];
      var u := sessions[i].user;
      && CountCompletedSessions(after, u) == CountCompletedSessions(sessions, u)
      && CountInProgressSessions(after, u) + 1 == CountInProgressSessions(sessions, u)
  {
    var x := sessions[i].(status := Abandoned);
    var u := sessions[i].user;
    FilterUpdateCount(sessions, (s: SurveySession) => s.user == u && s.status == Completed, i, x);
    FilterUpdateCount(sessions, (s: SurveySession) => s.user == u && s.status == InProgress, i, x);
  }

  // ---------------------------------------------------------------- respondents

  /** One keyword argument of `update_respondent`: a profile column and the value to set. */
  datatype ProfileUpdate =
    | SetGender(gender: Option<string>)
    | SetAge(age: Option<nat>)
    | SetOccupationType(occupationType: Option<string>)
    | SetUniversityCourse(course: Option<nat>)
    | SetWorkExperienceYears(years: Option<nat>)
    | SetProfileComplete(complete: bool)

  datatype ProfileField = Gender | Age | OccupationType | UniversityCourse | WorkExperienceYears | ProfileComplete

  datatype FieldValue = TextValue(text: Option<string>) | NumberValue(number: Option<nat>) | FlagValue(flag: bool)

  function FieldOf(u: ProfileUpdate): ProfileField {
    match u
    case SetGender(_) => Gender
    case SetAge(_) => Age
    case SetOccupationType(_) => OccupationType
    case SetUniversityCourse(_) => UniversityCourse
    case SetWorkExperienceYears(_) => WorkExperienceYears
    case SetProfileComplete(_) => ProfileComplete
  }

  function ValueOf(u: ProfileUpdate): FieldValue {
    match u
    case SetGender(v) => TextValue(v)
    case SetAge(v) => NumberValue(v)
    case SetOccupationType(v) => TextValue(v)
    case SetUniversityCourse(v) => NumberValue(v)
    case SetWorkExperienceYears(v) => NumberValue(v)
    case SetProfileComplete(v) => FlagValue(v)
  }

  /** The value of one profile column. */
  function Get(r: Respondent, f: ProfileField): FieldValue {
    match f
    case Gender => TextValue(r.gender)
    case Age => NumberValue(r.age)
    case OccupationType => TextValue(r.occupationType)
    case UniversityCourse => NumberValue(r.universityCourse)
    case WorkExperienceYears => NumberValue(r.workExperienceYears)
    case ProfileComplete => FlagValue(r.isProfileComplete)
  }

  /** `setattr` of one update: the named column takes the value and no other column changes. */
  function Apply(r: Respondent, u: ProfileUpdate): (r': Respondent)
    ensures Get(r', FieldOf(u)) == ValueOf(u)
    ensures forall f :: f != FieldOf(u) ==> Get(r', f) == Get(r, f)
    ensures r'.id == r.id && r'.anonymousId == r.anonymousId && r'.createdAt == r.createdAt
  {
    match u
    case SetGender(v) => r.(gender := v)
    case SetAge(v) => r.(age := v)
    case SetOccupationType(v) => r.(occupationType := v)
    case SetUniversityCourse(v) => r.(universityCourse := v)
    case SetWorkExperienceYears(v) => r.(workExperienceYears := v)
    case SetProfileComplete(v) => r.(isProfileComplete := v)
  }

  /** The updates applied one after another, in the order given. */
  function ApplyAll(r: Respondent, us: seq<ProfileUpdate>): Respondent
    decreases |us|
  {
    if |us| == 0 then r else Apply(ApplyAll(r, us[..|us| - 1]), us[|us| - 1])
  }

  /** The value the last update of `f` in `us` sets, if any update names `f`. */
  function LastValue(us: seq<ProfileUpdate>, f: ProfileField): Option<FieldValue>
    decreases |us|
  {
    if |us| == 0 then None
    else if FieldOf(us[|us| - 1]) == f then Some(ValueOf(us[|us| - 1]))
    else LastValue(us[..|us| - 1], f)
  }

  /**
   * After a batch of updates each named column holds the value of its last
   * update, every column not named keeps its value, and the identity columns
   * never change.
   */
  lemma {:induction false} ApplyAllFrame(r: Respondent, us: seq<ProfileUpdate>, f: ProfileField)
    ensures Get(ApplyAll(r, us), f) == LastValue(us, f).GetOr(Get(r, f))
    ensures var r' := ApplyAll(r, us);
      r'.id == r.id && r'.anonymousId == r.anonymousId && r'.createdAt == r.createdAt
    decreases |us|
  {
    if |us| > 0 {
      ApplyAllFrame(r, us[..|us| - 1], f);
    }
  }

  /** `get_or_create_respondent`: the respondent with that anonymous id, created with defaults if missing. */
  method GetOrCreateRespondent(db: Database, anonymousId: string, now: int) returns (r: Respondent, created: bool)
    requires db.Valid()
    modifies db`respondents, db`nextId
    ensures db.Valid()
    ensures created <==> GetRespondent(old(db.respondents), anonymousId).None?
    ensures !created ==> Some(r) == GetRespondent(old(db.respondents), anonymousId)
    ensures !created ==> db.respondents == old(db.respondents) && db.nextId == old(db.nextId)
    ensures created ==> r == NewRespondent(old(db.nextId), anonymousId, now)
    ensures created ==> db.respondents == old(db.respondents) + [r] && db.nextId == old(db.nextId) + 1
  {
    var existing := GetRespondent(db.respondents, anonymousId);
    if existing.Some? {
      r, created := existing.value, false;
    } else {
      r, created := NewRespondent(db.nextId, anonymousId, now), true;
      ghost var t := db.State();
      RespondentAdded(t, r);
      db.respondents, db.nextId := db.respondents + [r], db.nextId + 1;
      assert db.State() == t.(respondents := t.respondents + [r], nextId := t.nextId + 1);
    }
  }

  /**
   * `update_respondent`: sets each given column on the respondent with that
   * anonymous id, in order, then saves; None stands for `DoesNotExist`.
   */
  method UpdateRespondent(db: Database, anonymousId: string, updates: seq<ProfileUpdate>) returns (r: Option<Respondent>)
    requires db.Valid()
    modifies db`respondents
    ensures db.Valid()
    ensures r.None? <==> RespondentIndex(old(db.respondents), anonymousId).None?
    ensures r.None? ==> db.respondents == old(db.respondents)
    ensures r.Some? ==> var i := RespondentIndex(old(db.respondents), anonymousId).value;
      && r.value == ApplyAll(old(db.respondents)[i], updates)
      && db.respondents == old(db.respondents)[i := r.value]
  {
    var found := RespondentIndex(db.respondents, anonymousId);
    if found.None? {
      return None;
    }
    var i := found.value;
    var respondent := db.respondents[i];
    var k := 0;
    while k < |updates|
      invariant 0 <= k <= |updates|
      invariant respondent == ApplyAll(db.respondents[i], updates[..k])
    {
      assert updates[..k + 1][..k] == updates[..k];
      respondent := Apply(respondent, updates[k]);
      k := k + 1;
    }
    assert updates[..k] == updates;
    ApplyAllFrame(db.respondents[i], updates, Gender);
    ghost var t := db.State();
    RespondentReplaced(t, i, respondent);
    db.respondents := db.respondents[i := respondent];
    assert db.State() == t.(respondents := t.respondents[i := respondent]);
    r := Some(respondent);
  }

  // ---------------------------------------------------------------- sessions

  /** `create_survey_session`: a new session for that respondent and survey, started directly as in progress. */
  method CreateSurveySession(db: Database, user: nat, survey: nat, now: int) returns (s: SurveySession)
    requires db.Valid()
    requires user in Keys(db.respondents, RespondentKey) && survey in Keys(db.surveys, SurveyKey)
    modifies db`sessions, db`nextId
    ensures db.Valid()
    ensures s.status == InProgress && s.currentQuestion.None? && s.completedAt.None?
    ensures s == NewSession(old(db.nextId), user, survey, now).(status := InProgress)
    ensures db.sessions == old(db.sessions) + [s] && db.nextId == old(db.nextId) + 1
  {
    s := NewSession(db.nextId, user, survey, now).(status := InProgress);
    ghost var t := db.State();
    SessionAdded(t, s);
    db.sessions, db.nextId := db.sessions + [s], db.nextId + 1;
    assert db.State() == t.(sessions := t.sessions + [s], nextId := t.nextId + 1);
  }

  /** `update_session_question`: only the session's current question changes. */
  method UpdateSessionQuestion(db: Database, session: nat, question: Option<nat>)
    requires db.Valid()
    requires SessionIndex(db.sessions, session).Some?
    requires question.Some? ==> question.value in Keys(db.questions, QuestionKey)
    modifies db`sessions
    ensures db.Valid()
    ensures var i := SessionIndex(old(db.sessions), session).value;
      db.sessions == old(db.sessions)[i := old(db.sessions)[i].(currentQuestion := question)]
  {
    var i := SessionIndex(db.sessions, session).value;
    var s := db.sessions[i].(currentQuestion := question);
    assert db.sessions[i] in db.sessions;
    ghost var t := db.State();
    SessionReplaced(t, i, s);
    db.sessions := db.sessions[i := s];
    assert db.State() == t.(sessions := t.sessions[i := s]);
  }

  /** `abandon_session`: only the status changes, to abandoned. */
  method AbandonSession(db: Database, session: nat)
    requires db.Valid()
    requires SessionIndex(db.sessions, session).Some?
    modifies db`sessions
    ensures db.Valid()
    ensures var i := SessionIndex(old(db.sessions), session).value;
      db.sessions == old(db.sessions)[i := old(db.sessions)[i].(status := Abandoned)]
  {
    var i := SessionIndex(db.sessions, session).value;
    var s := db.sessions[i].(status := Abandoned);
    assert db.sessions[i] in db.sessions;
    ghost var t := db.State();
    SessionReplaced(t, i, s);
    db.sessions := db.sessions[i := s];
    assert db.State() == t.(sessions := t.sessions[i := s]);
  }

  /** `complete_session`: the status becomes completed and the completion time is `now`; nothing else changes. */
  method CompleteSession(db: Database, session: nat, now: int)
    requires db.Valid()
    requires SessionIndex(db.sessions, session).Some?
    modifies db`sessions
    ensures db.Valid()
    ensures var i := SessionIndex(old(db.sessions), session).value;
      db.sessions == old(db.sessions)[i := old(db.sessions)[i].(status := Completed, completedAt := Some(now))]
  {
    var i := SessionIndex(db.sessions, session).value;
    var s := db.sessions[i].(status := Completed, completedAt := Some(now));
    assert db.sessions[i] in db.sessions;
    ghost var t := db.State();
    SessionReplaced(t, i, s);
    db.sessions := db.sessions[i := s];
    assert db.State() == t.(sessions := t.sessions[i := s]);
  }

  // ---------------------------------------------------------------- responses

  /** The payload keyword arguments `create_response` passes through. */
  datatype Answer = Answer(
    textAnswer: Option<string>,
    selectedOption: Option<nat>,
    voiceFile: Option<string>,
    telegramFileId: Option<string>)

  /** `create_response`: one new response row for that session and question. */
  method CreateResponse(db: Database, session: nat, question: nat, answer: Answer, now: int) returns (r: Response)
    requires db.Valid()
    requires session in Keys(db.sessions, SessionKey) && question in Keys(db.questions, QuestionKey)
    requires answer.selectedOption.Some? ==> answer.selectedOption.value in Keys(db.options, OptionKey)
    modifies db`responses, db`nextId
    ensures db.Valid()
    ensures r == Response(old(db.nextId), session, question, answer.textAnswer, answer.selectedOption,
                          answer.voiceFile, answer.telegramFileId, now)
    ensures db.responses == old(db.responses) + [r] && db.nextId == old(db.nextId) + 1
  {
    r := Response(db.nextId, session, question, answer.textAnswer, answer.selectedOption,
                  answer.voiceFile, answer.telegramFileId, now);
    ghost var t := db.State();
    ResponseAdded(t, r);
    db.responses, db.nextId := db.responses + [r], db.nextId + 1;
    assert db.State() == t.(responses := t.responses + [r], nextId := t.nextId + 1);
  }
}
