/**
 * The relational store the ORM persists to, as one object whose fields are
 * the tables. Each table is a sequence of rows in primary-key order; `Valid`
 * is the database's integrity: unique keys, the unique anonymous id of a
 * respondent, and every foreign key resolving to a row.
 */
module Store {
  import opened Wrappers
  import opened Tables
  import opened Models

  /** The position of the respondent with that anonymous id. */
  function RespondentIndex(respondents: seq<Respondent>, anonymousId: string): (r: Option<nat>)
    ensures r.None? <==> forall i :: 0 <= i < |respondents| ==> respondents[i].anonymousId != anonymousId
    ensures r.Some? ==> r.value < |respondents| && respondents[r.value].anonymousId == anonymousId
  {
    Find(respondents, (x: Respondent) => x.anonymousId == anonymousId)
  }

  /** The position of the survey with primary key `id`. */
  function SurveyIndex(surveys: seq<Survey>, id: nat): (r: Option<nat>)
    ensures r.None? <==> id !in Keys(surveys, SurveyKey)
    ensures r.Some? ==> r.value < |surveys| && surveys[r.value].id == id
  {
    var r := Find(surveys, (x: Survey) => x.id == id);
    assert r.None? ==> id !in Keys(surveys, SurveyKey);
    assert r.Some? ==> surveys[r.value] in surveys && SurveyKey(surveys[r.value]) == id;
    r
  }

  /** The position of the question with primary key `id`. */
  function QuestionIndex(questions: seq<Question>, id: nat): (r: Option<nat>)
    ensures r.None? <==> id !in Keys(questions, QuestionKey)
    ensures r.Some? ==> r.value < |questions| && questions[r.value].id == id
  {
    var r := Find(questions, (x: Question) => x.id == id);
    assert r.None? ==> id !in Keys(questions, QuestionKey);
    assert r.Some? ==> questions[r.value] in questions && QuestionKey(questions[r.value]) == id;
    r
  }

  /** The position of the option with primary key `id`. */
  function OptionIndex(options: seq<QuestionOption>, id: nat): (r: Option<nat>)
    ensures r.None? <==> id !in Keys(options, OptionKey)
    ensures r.Some? ==> r.value < |options| && options[r.value].id == id
  {
    var r := Find(options, (x: QuestionOption) => x.id == id);
    assert r.None? ==> id !in Keys(options, OptionKey);
    assert r.Some? ==> options[r.value] in options && OptionKey(options[r.value]) == id;
    r
  }

  /** The position of the session with primary key `id`. */
  function SessionIndex(sessions: seq<SurveySession>, id: nat): (r: Option<nat>)
    ensures r.None? <==> id !in Keys(sessions, SessionKey)
    ensures r.Some? ==> r.value < |sessions| && sessions[r.value].id == id
  {
    var r := Find(sessions, (x: SurveySession) => x.id == id);
    assert r.None? ==> id !in Keys(sessions, SessionKey);
    assert r.Some? ==> sessions[r.value] in sessions && SessionKey(sessions[r.value]) == id;
    r
  }

  // ---------------------------------------------------------------- integrity

  /** No two respondents share an anonymous id (the column is unique). */
  ghost predicate UniqueAnonymousIds(respondents: seq<Respondent>) {
    forall i, j :: 0 <= i < j < |respondents| ==> respondents[i].anonymousId != respondents[j].anonymousId
  }

  /** Every question belongs to one of `surveys`. */
  ghost predicate QuestionsLinked(questions: seq<Question>, surveys: set<nat>) {
    forall q :: q in questions ==> q.survey in surveys
  }

  /** Every option belongs to one of `questions`. */
  ghost predicate OptionsLinked(options: seq<QuestionOption>, questions: set<nat>) {
    forall o :: o in options ==> o.question in questions
  }

  /** The session's respondent, survey and current question (if any) are among the given keys. */
  ghost predicate SessionLinked(s: SurveySession, users: set<nat>, surveys: set<nat>, questions: set<nat>) {
    && s.user in users
    && s.survey in surveys
    && (s.currentQuestion.Some? ==> s.currentQuestion.value in questions)
  }

  ghost predicate SessionsLinked(sessions: seq<SurveySession>, users: set<nat>, surveys: set<nat>, questions: set<nat>) {
    forall s :: s in sessions ==> SessionLinked(s, users, surveys, questions)
  }

  /** The response's session, question and selected option (if any) are among the given keys. */
  ghost predicate ResponseLinked(r: Response, sessions: set<nat>, questions: set<nat>, options: set<nat>) {
    && r.session in sessions
    && r.question in questions
    && (r.selectedOption.Some? ==> r.selectedOption.value in options)
  }

  ghost predicate ResponsesLinked(responses: seq<Response>, sessions: set<nat>, questions: set<nat>, options: set<nat>) {
    forall r :: r in responses ==> ResponseLinked(r, sessions, questions, options)
  }

  /** The content of every table and the next primary key to hand out. */
  datatype DbState = DbState(
    respondents: seq<Respondent>,
    surveys: seq<Survey>,
    questions: seq<Question>,
    options: seq<QuestionOption>,
    sessions: seq<SurveySession>,
    responses: seq<Response>,
    nextId: nat)
  {
    ghost function RespondentKeys(): set<nat> { Keys(respondents, RespondentKey) }
    ghost function SurveyKeys(): set<nat> { Keys(surveys, SurveyKey) }
    ghost function QuestionKeys(): set<nat> { Keys(questions, QuestionKey) }
    ghost function OptionKeys(): set<nat> { Keys(options, OptionKey) }
    ghost function SessionKeys(): set<nat> { Keys(sessions, SessionKey) }

    /** Primary keys are unique and below `nextId`. */
    ghost predicate KeysValid() {
      && Keyed(respondents, RespondentKey, nextId)
      && Keyed(surveys, SurveyKey, nextId)
      && Keyed(questions, QuestionKey, nextId)
      && Keyed(options, OptionKey, nextId)
      && Keyed(sessions, SessionKey, nextId)
      && Keyed(responses, ResponseKey, nextId)
    }

    /** Every foreign key refers to an existing row. */
    ghost predicate LinksValid() {
      && QuestionsLinked(questions, SurveyKeys())
      && OptionsLinked(options, QuestionKeys())
      && SessionsLinked(sessions, RespondentKeys(), SurveyKeys(), QuestionKeys())
      && ResponsesLinked(responses, SessionKeys(), QuestionKeys(), OptionKeys())
    }

    /** The database's integrity: unique keys, unique anonymous ids, resolving foreign keys. */
    ghost predicate Consistent() {
      KeysValid() && UniqueAnonymousIds(respondents) && LinksValid()
    }
  }

  /** Handing out one more key keeps every table keyed. */
  lemma KeysValidBelow(t: DbState)
    requires t.KeysValid()
    ensures t.(nextId := t.nextId + 1).KeysValid()
  {
    KeyedBelow(t.respondents, RespondentKey, t.nextId, t.nextId + 1);
    KeyedBelow(t.surveys, SurveyKey, t.nextId, t.nextId + 1);
    KeyedBelow(t.questions, QuestionKey, t.nextId, t.nextId + 1);
    KeyedBelow(t.options, OptionKey, t.nextId, t.nextId + 1);
    KeyedBelow(t.sessions, SessionKey, t.nextId, t.nextId + 1);
    KeyedBelow(t.responses, ResponseKey, t.nextId, t.nextId + 1);
  }

  // ---------------------------------------------------------------- writes that keep the integrity

  /** Links into a table stay valid when the table gains keys. */
  lemma LinksGrow(t: DbState, u: DbState)
    requires t.LinksValid()
    requires u.questions == t.questions && u.options == t.options
    requires u.sessions == t.sessions && u.responses == t.responses
    requires t.RespondentKeys() <= u.RespondentKeys() && t.SurveyKeys() <= u.SurveyKeys()
    requires t.QuestionKeys() <= u.QuestionKeys() && t.OptionKeys() <= u.OptionKeys()
    requires t.SessionKeys() <= u.SessionKeys()
    ensures u.LinksValid()
  {
  }

  /** Appending a respondent with the next key and a new anonymous id. */
  lemma RespondentAdded(t: DbState, r: Respondent)
    requires t.Consistent() && r.id == t.nextId
    requires forall x :: x in t.respondents ==> x.anonymousId != r.anonymousId
    ensures t.(respondents := t.respondents + [r], nextId := t.nextId + 1).Consistent()
  {
    var u := t.(respondents := t.respondents + [r], nextId := t.nextId + 1);
    AppendKeyed(t.respondents, RespondentKey, t.nextId, r);
    KeysValidBelow(t);
    forall i, j | 0 <= i < j < |u.respondents|
      ensures u.respondents[i].anonymousId != u.respondents[j].anonymousId
    {
      assert u.respondents[i] == t.respondents[i];
      if j < |t.respondents| {
        assert u.respondents[j] == t.respondents[j];
      } else {
        assert t.respondents[i] in t.respondents;
      }
    }
    LinksGrow(t, u.(respondents := u.respondents));
  }

  /** Replacing a respondent's row by one with the same key and anonymous id. */
  lemma RespondentReplaced(t: DbState, i: nat, r: Respondent)
    requires t.Consistent() && i < |t.respondents|
    requires r.id == t.respondents[i].id && r.anonymousId == t.respondents[i].anonymousId
    ensures t.(respondents := t.respondents[i := r]).Consistent()
  {
    UpdateKeyed(t.respondents, RespondentKey, t.nextId, i, r);
  }

  /** Replacing a survey's row by one with the same key. */
  lemma SurveyReplaced(t: DbState, i: nat, s: Survey)
    requires t.Consistent() && i < |t.surveys| && s.id == t.surveys[i].id
    ensures t.(surveys := t.surveys[i := s]).Consistent()
  {
    UpdateKeyed(t.surveys, SurveyKey, t.nextId, i, s);
  }

  /** Appending a question of an existing survey with the next key. */
  lemma QuestionAdded(t: DbState, q: Question)
    requires t.Consistent() && q.id == t.nextId && q.survey in t.SurveyKeys()
    ensures t.(questions := t.questions + [q], nextId := t.nextId + 1).Consistent()
  {
    var u := t.(questions := t.questions + [q], nextId := t.nextId + 1);
    AppendKeyed(t.questions, QuestionKey, t.nextId, q);
    KeysValidBelow(t);
    assert QuestionsLinked(u.questions, u.SurveyKeys());
    assert OptionsLinked(u.options, u.QuestionKeys());
    assert SessionsLinked(u.sessions, u.RespondentKeys(), u.SurveyKeys(), u.QuestionKeys());
  }

  /** Replacing a question's row by one with the same key and an existing survey. */
  lemma QuestionReplaced(t: DbState, i: nat, q: Question)
    requires t.Consistent() && i < |t.questions| && q.id == t.questions[i].id && q.survey in t.SurveyKeys()
    ensures t.(questions := t.questions[i := q]).Consistent()
  {
    UpdateKeyed(t.questions, QuestionKey, t.nextId, i, q);
    var u := t.(questions := t.questions[i := q]);
    forall x | x in u.questions ensures x.survey in u.SurveyKeys() {
      var j :| 0 <= j < |u.questions| && u.questions[j] == x;
      if j != i { assert t.questions[j] in t.questions; }
    }
  }

  /** Appending an option of an existing question with the next key. */
  lemma OptionAdded(t: DbState, o: QuestionOption)
    requires t.Consistent() && o.id == t.nextId && o.question in t.QuestionKeys()
    ensures t.(options := t.options + [o], nextId := t.nextId + 1).Consistent()
  {
    var u := t.(options := t.options + [o], nextId := t.nextId + 1);
    AppendKeyed(t.options, OptionKey, t.nextId, o);
    KeysValidBelow(t);
    assert OptionsLinked(u.options, u.QuestionKeys());
    assert ResponsesLinked(u.responses, u.SessionKeys(), u.QuestionKeys(), u.OptionKeys());
  }

  /** Replacing an option's row by one with the same key and an existing question. */
  lemma OptionReplaced(t: DbState, i: nat, o: QuestionOption)
    requires t.Consistent() && i < |t.options| && o.id == t.options[i].id && o.question in t.QuestionKeys()
    ensures t.(options := t.options[i := o]).Consistent()
  {
    UpdateKeyed(t.options, OptionKey, t.nextId, i, o);
    var u := t.(options := t.options[i := o]);
    forall x | x in u.options ensures x.question in u.QuestionKeys() {
      var j :| 0 <= j < |u.options| && u.options[j] == x;
      if j != i { assert t.options[j] in t.options; }
    }
  }

  /** Appending a linked session with the next key. */
  lemma SessionAdded(t: DbState, s: SurveySession)
    requires t.Consistent() && s.id == t.nextId
    requires SessionLinked(s, t.RespondentKeys(), t.SurveyKeys(), t.QuestionKeys())
    ensures t.(sessions := t.sessions + [s], nextId := t.nextId + 1).Consistent()
  {
    var u := t.(sessions := t.sessions + [s], nextId := t.nextId + 1);
    AppendKeyed(t.sessions, SessionKey, t.nextId, s);
    KeysValidBelow(t);
    assert SessionsLinked(u.sessions, u.RespondentKeys(), u.SurveyKeys(), u.QuestionKeys());
    assert ResponsesLinked(u.responses, u.SessionKeys(), u.QuestionKeys(), u.OptionKeys());
  }

  /** Replacing a session's row by a linked one with the same key. */
  lemma SessionReplaced(t: DbState, i: nat, s: SurveySession)
    requires t.Consistent() && i < |t.sessions| && s.id == t.sessions[i].id
    requires SessionLinked(s, t.RespondentKeys(), t.SurveyKeys(), t.QuestionKeys())
    ensures t.(sessions := t.sessions[i := s]).Consistent()
  {
    UpdateKeyed(t.sessions, SessionKey, t.nextId, i, s);
    var u := t.(sessions := t.sessions[i := s]);
    forall x | x in u.sessions ensures SessionLinked(x, u.RespondentKeys(), u.SurveyKeys(), u.QuestionKeys()) {
      var j :| 0 <= j < |u.sessions| && u.sessions[j] == x;
      if j != i { assert t.sessions[j] in t.sessions; }
    }
  }

  /** Appending a linked response with the next key. */
  lemma ResponseAdded(t: DbState, r: Response)
    requires t.Consistent() && r.id == t.nextId
    requires ResponseLinked(r, t.SessionKeys(), t.QuestionKeys(), t.OptionKeys())
    ensures t.(responses := t.responses + [r], nextId := t.nextId + 1).Consistent()
  {
    var u := t.(responses := t.responses + [r], nextId := t.nextId + 1);
    AppendKeyed(t.responses, ResponseKey, t.nextId, r);
    KeysValidBelow(t);
    assert ResponsesLinked(u.responses, u.SessionKeys(), u.QuestionKeys(), u.OptionKeys());
  }

  class Database {
    var respondents: seq<Respondent>
    var surveys: seq<Survey>
    var questions: seq<Question>
    var options: seq<QuestionOption>
    var sessions: seq<SurveySession>
    var responses: seq<Response>
    /** The next primary key to hand out. */
    var nextId: nat

    function State(): DbState
      reads this
    {
      DbState(respondents, surveys, questions, options, sessions, responses, nextId)
    }

    ghost predicate Valid()
      reads this
    {
      State().Consistent()
    }

    /** An empty database. */
    constructor ()
      ensures Valid()
      ensures respondents == [] && surveys == [] && questions == [] && options == []
      ensures sessions == [] && responses == [] && nextId == 0
    {
      respondents, surveys, questions, options := [], [], [], [];
      sessions, responses, nextId := [], [], 0;
    }
  }
}
