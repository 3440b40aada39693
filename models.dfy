/**
 * The records of the survey application (respondents, surveys, questions,
 * options, sessions, responses) and the display helpers declared beside them.
 * Nullable columns are `Option`s; a foreign key is the referenced row's id.
 */
module Models {
  import opened Wrappers
  import opened Text

  // ---------------------------------------------------------------- Respondent

  const Student := "student"
  const Working := "working"
  const StudentLabel := "Учится в вузе"
  const WorkingLabel := "Работает по специальности"
  const OccupationChoices: seq<(string, string)> := [(Student, StudentLabel), (Working, WorkingLabel)]
  const NotSpecified := "Не указано"
  const StudentPrefix := "Студент "
  const StudentSuffix := " курса"
  const WorkingPrefix := "Работает (стаж "
  const WorkingSuffix := " лет)"
  const RespondentPrefix := "Респондент "
  const Ellipsis := "..."
  /** How many characters of the anonymous id a display shows. */
  const ShownIdLength := 8

  /**
   * An anonymous respondent. The character columns keep whatever string was
   * stored, including the empty string a blank form field leaves.
   */
  datatype Respondent = Respondent(
    id: nat,
    anonymousId: string,
    gender: Option<string>,
    age: Option<nat>,
    occupationType: Option<string>,
    universityCourse: Option<nat>,
    workExperienceYears: Option<nat>,
    isProfileComplete: bool,
    createdAt: int)

  /** A respondent row as `get_or_create` makes it: the anonymous id, every other column at its default. */
  function NewRespondent(id: nat, anonymousId: string, now: int): Respondent {
    Respondent(id, anonymousId, None, None, None, None, None, false, now)
  }

  /** Python truthiness of a nullable integer column: null and 0 are false. */
  predicate NumberTruthy(n: Option<nat>) {
    n.Some? && n.value != 0
  }

  /** Python truthiness of a nullable character column: null and "" are false. */
  predicate TextTruthy(s: Option<string>) {
    s.Some? && s.value != ""
  }

  /**
   * Django's `get_FOO_display`: the label declared for the stored `value`,
   * and `value` itself when no choice declares it. The choices are looked up
   * as a dictionary, so when a value is declared twice the later label wins.
   */
  function ChoiceLabel(choices: seq<(string, string)>, value: string): (shown: string)
    ensures (forall i :: 0 <= i < |choices| ==> choices[i].0 != value) ==> shown == value
    ensures forall i ::
      (0 <= i < |choices| && choices[i].0 == value && forall j :: i < j < |choices| ==> choices[j].0 != value)
      ==> shown == choices[i].1
    decreases |choices|
  {
    if |choices| == 0 then value
    else
      var rest := ChoiceLabel(choices[1..], value);
      if choices[0].0 == value && forall j :: 0 <= j < |choices| - 1 ==> choices[1..][j].0 != value then choices[0].1
      else rest
  }

  /**
   * `Respondent.get_occupation_display_full`; its cases are stated by the
   * lemmas below. Whatever the columns hold, the display is never blank.
   */
  function OccupationDisplayFull(r: Respondent): (shown: string)
    ensures shown != ""
  {
    if r.occupationType == Some(Student) && NumberTruthy(r.universityCourse) then
      StudentPrefix + NatToDecimal(r.universityCourse.value) + StudentSuffix
    else if r.occupationType == Some(Working) && r.workExperienceYears.Some? then
      WorkingPrefix + NatToDecimal(r.workExperienceYears.value) + WorkingSuffix
    else if TextTruthy(r.occupationType) then
      ChoiceLabel(OccupationChoices, r.occupationType.value)
    else
      NotSpecified
  }

  /** `Respondent.__str__`: a fixed word and the first eight characters of the anonymous id. */
  function RespondentStr(r: Respondent): (s: string)
    ensures RespondentPrefix <= s
    ensures |s| == |RespondentPrefix| + |Prefix(r.anonymousId, ShownIdLength)| + |Ellipsis|
    ensures s[|s| - |Ellipsis|..] == Ellipsis
  {
    RespondentPrefix + Prefix(r.anonymousId, ShownIdLength) + Ellipsis
  }

  /**
   * A student with a non-zero course is shown with the course number, and the
   * number can be read back from the text.
   */
  lemma StudentDisplay(r: Respondent)
    requires r.occupationType == Some(Student) && NumberTruthy(r.universityCourse)
    ensures var d := OccupationDisplayFull(r);
      && d == StudentPrefix + NatToDecimal(r.universityCourse.value) + StudentSuffix
      && ParseNat(d[|StudentPrefix|..|d| - |StudentSuffix|]) == Some(r.universityCourse.value)
  {
    var d := OccupationDisplayFull(r);
    assert d[|StudentPrefix|..|d| - |StudentSuffix|] == NatToDecimal(r.universityCourse.value);
    ParseNatOfDecimal(r.universityCourse.value);
  }

  /** The course test is truthiness: a student whose course is null or 0 gets the plain choice label. */
  lemma StudentWithoutCourseDisplay(r: Respondent)
    requires r.occupationType == Some(Student) && !NumberTruthy(r.universityCourse)
    ensures OccupationDisplayFull(r) == StudentLabel
  {
  }

  /**
   * The experience test is `is not None`: a working respondent with any
   * recorded experience, 0 included, is shown with it, and it can be read back.
   */
  lemma WorkingDisplay(r: Respondent)
    requires r.occupationType == Some(Working) && r.workExperienceYears.Some?
    ensures var d := OccupationDisplayFull(r);
      && d == WorkingPrefix + NatToDecimal(r.workExperienceYears.value) + WorkingSuffix
      && ParseNat(d[|WorkingPrefix|..|d| - |WorkingSuffix|]) == Some(r.workExperienceYears.value)
      && (r.workExperienceYears.value == 0 ==> d == "Работает (стаж 0 лет)")
  {
    var d := OccupationDisplayFull(r);
    assert d[|WorkingPrefix|..|d| - |WorkingSuffix|] == NatToDecimal(r.workExperienceYears.value);
    ParseNatOfDecimal(r.workExperienceYears.value);
  }

  /** A working respondent without recorded experience gets the plain choice label. */
  lemma WorkingWithoutExperienceDisplay(r: Respondent)
    requires r.occupationType == Some(Working) && r.workExperienceYears.None?
    ensures OccupationDisplayFull(r) == WorkingLabel
  {
    assert OccupationChoices[0].0 != Working && OccupationChoices[1] == (Working, WorkingLabel);
  }

  /**
   * With no occupation (null or blank) the display is "Не указано"; any other
   * stored value outside the two branches is shown as its label, or verbatim
   * when it is not a declared choice.
   */
  lemma OtherOccupationDisplay(r: Respondent)
    requires r.occupationType != Some(Student) && r.occupationType != Some(Working)
    ensures !TextTruthy(r.occupationType) ==> OccupationDisplayFull(r) == NotSpecified
    ensures TextTruthy(r.occupationType) ==> OccupationDisplayFull(r) == r.occupationType.value
  {
  }

  /**
   * The string form of a respondent shows the first eight characters of the
   * anonymous id and nothing else of it: two respondents print alike exactly
   * when those characters agree.
   */
  lemma RespondentStrShowsOnlyPrefix(a: Respondent, b: Respondent)
    ensures RespondentStr(a) == RespondentStr(b)
        <==> Prefix(a.anonymousId, ShownIdLength) == Prefix(b.anonymousId, ShownIdLength)
  {
    var sa, sb := RespondentStr(a), RespondentStr(b);
    var pa, pb := Prefix(a.anonymousId, ShownIdLength), Prefix(b.anonymousId, ShownIdLength);
    assert sa[|RespondentPrefix|..|sa| - |Ellipsis|] == pa;
    assert sb[|RespondentPrefix|..|sb| - |Ellipsis|] == pb;
  }

  // ---------------------------------------------------------------- Survey

  datatype Survey = Survey(id: nat, title: string, description: string, isActive: bool, createdAt: int)

  // ---------------------------------------------------------------- Question

  datatype QuestionType = TextQuestion | ChoiceQuestion | VoiceQuestion

  datatype Question = Question(
    id: nat,
    survey: nat,
    text: string,
    questionType: QuestionType,
    order: nat,
    isRequired: bool)

  /** `Question.__str__`: the survey's title and at most 50 characters of the question. */
  function QuestionStr(q: Question, survey: Survey): (s: string)
    requires survey.id == q.survey
    ensures |s| == |survey.title| + 3 + |Prefix(q.text, 50)| <= |survey.title| + 3 + 50
    ensures survey.title <= s
    ensures s[|survey.title|..|survey.title| + 3] == " - "
    ensures Prefix(q.text, 50) <= s[|survey.title| + 3..]
  {
    survey.title + " - " + Prefix(q.text, 50)
  }

  datatype QuestionOption = QuestionOption(id: nat, question: nat, text: string, order: nat)

  /** `QuestionOption.__str__`: at most 30 characters of the question, then the option's own text. */
  function OptionStr(o: QuestionOption, question: Question): (s: string)
    requires question.id == o.question
    ensures |s| == |Prefix(question.text, 30)| + 3 + |o.text| <= 30 + 3 + |o.text|
    ensures Prefix(question.text, 30) <= s
    ensures s[|Prefix(question.text, 30)|..|Prefix(question.text, 30)| + 3] == " - "
    ensures s[|s| - |o.text|..] == o.text
  {
    Prefix(question.text, 30) + " - " + o.text
  }

  // ---------------------------------------------------------------- SurveySession

  datatype SessionStatus = Started | InProgress | Completed | Abandoned

  /** The status a session row gets when its creator names none. */
  const DefaultStatus := Started

  /** The stored value of each status, as `STATUS_CHOICES` declares it. */
  const StatusCodes := ["started", "in_progress", "completed", "abandoned"]

  function StatusCode(st: SessionStatus): (code: string)
    ensures code in StatusCodes
  {
    match st
    case Started => "started"
    case InProgress => "in_progress"
    case Completed => "completed"
    case Abandoned => "abandoned"
  }

  /** The status stored as `code`, if it is one of the declared choices. */
  function StatusOfCode(code: string): (st: Option<SessionStatus>)
    ensures st.Some? <==> code in StatusCodes
  {
    if code == "started" then Some(Started)
    else if code == "in_progress" then Some(InProgress)
    else if code == "completed" then Some(Completed)
    else if code == "abandoned" then Some(Abandoned)
    else None
  }

  /** Every status is stored as one of the declared choices, and reads back as itself. */
  lemma StatusCodeRoundTrip(st: SessionStatus)
    ensures StatusOfCode(StatusCode(st)) == Some(st)
  {
  }

  datatype SurveySession = SurveySession(
    id: nat,
    user: nat,
    survey: nat,
    status: SessionStatus,
    currentQuestion: Option<nat>,
    startedAt: int,
    completedAt: Option<int>)

  /** A session row as the ORM creates it when only its owner and survey are given. */
  function NewSession(id: nat, user: nat, survey: nat, now: int): SurveySession {
    SurveySession(id, user, survey, DefaultStatus, None, now, None)
  }

  /**
   * A session created without a status starts as `started`, at no question
   * and not completed; whatever its status, it is stored as a declared choice.
   */
  lemma NewSessionDefaults(id: nat, user: nat, survey: nat, now: int)
    ensures var s := NewSession(id, user, survey, now);
      && s.status == Started && StatusCode(s.status) == StatusCodes[0]
      && s.currentQuestion.None? && s.completedAt.None?
      && s.user == user && s.survey == survey && s.startedAt == now
  {
  }

  /** `SurveySession.__str__`: the respondent, the survey's title and the stored status code. */
  function SessionStr(s: SurveySession, user: Respondent, survey: Survey): (r: string)
    requires user.id == s.user && survey.id == s.survey
    ensures var u, code := RespondentStr(user), StatusCode(s.status);
      && |r| == |u| + 3 + |survey.title| + 2 + |code| + 1
      && r[..|u|] == u
      && r[|u|..|u| + 3] == " - "
      && r[|u| + 3..|r| - |code| - 3] == survey.title
      && r[|r| - |code| - 3..] == " (" + code + ")"
  {
    RespondentStr(user) + " - " + survey.title + " (" + StatusCode(s.status) + ")"
  }

  // ---------------------------------------------------------------- Response

  datatype Response = Response(
    id: nat,
    session: nat,
    question: nat,
    textAnswer: Option<string>,
    selectedOption: Option<nat>,
    voiceFile: Option<string>,
    telegramFileId: Option<string>,
    createdAt: int)

  /**
   * `Response.__str__`: the respondent of the response's session and at most
   * 30 characters of the question answered.
   */
  function ResponseStr(resp: Response, session: SurveySession, user: Respondent, question: Question): (s: string)
    requires session.id == resp.session && user.id == session.user && question.id == resp.question
    ensures var u := RespondentStr(user);
      && |s| == |u| + 3 + |Prefix(question.text, 30)| <= |u| + 3 + 30
      && s[..|u|] == u
      && s[|u|..|u| + 3] == " - "
      && s[|u| + 3..] == Prefix(question.text, 30)
  {
    RespondentStr(user) + " - " + Prefix(question.text, 30)
  }

  // ---------------------------------------------------------------- primary keys

  function RespondentKey(r: Respondent): nat { r.id }
  function SurveyKey(s: Survey): nat { s.id }
  function QuestionKey(q: Question): nat { q.id }
  function OptionKey(o: QuestionOption): nat { o.id }
  function SessionKey(s: SurveySession): nat { s.id }
  function ResponseKey(r: Response): nat { r.id }
}
