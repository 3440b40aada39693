/**
 * The survey editor's endpoints: partial updates of a survey, a question or
 * an option; creation of a question or an option at the end of the order;
 * deletion with the database's cascades. A request body is a record whose
 * `Option` fields are the keys the request carries. A missing target row is
 * the 404 answer of `get_object_or_404`: nothing changes.
 */
module Views {
  import opened Wrappers
  import opened Tables
  import opened Models
  import opened Store
  import opened Sequencing

  const DefaultQuestionText := "New question"
  const DefaultOptionText := "New option"

  // ---------------------------------------------------------------- request bodies

  datatype SurveyPatch = SurveyPatch(title: Option<string>, description: Option<string>, isActive: Option<bool>)

  datatype QuestionDraft = QuestionDraft(text: Option<string>, questionType: Option<QuestionType>, isRequired: Option<bool>)

  datatype QuestionPatch = QuestionPatch(
    text: Option<string>,
    questionType: Option<QuestionType>,
    order: Option<nat>,
    isRequired: Option<bool>)

  datatype OptionPatch = OptionPatch(text: Option<string>, order: Option<nat>)

  /** The fields of `update_survey`: each key present replaces its column, the others stay. */
  function PatchSurvey(s: Survey, p: SurveyPatch): (r: Survey)
    ensures r.id == s.id && r.createdAt == s.createdAt
    ensures r.title == (if p.title.Some? then p.title.value else s.title)
    ensures r.description == (if p.description.Some? then p.description.value else s.description)
    ensures r.isActive == (if p.isActive.Some? then p.isActive.value else s.isActive)
  {
    s.(title := p.title.GetOr(s.title),
       description := p.description.GetOr(s.description),
       isActive := p.isActive.GetOr(s.isActive))
  }

  /** The fields of `update_question`: the order is taken verbatim, even when another question has it. */
  function PatchQuestion(q: Question, p: QuestionPatch): (r: Question)
    ensures r.id == q.id && r.survey == q.survey
    ensures r.text == (if p.text.Some? then p.text.value else q.text)
    ensures r.questionType == (if p.questionType.Some? then p.questionType.value else q.questionType)
    ensures r.order == (if p.order.Some? then p.order.value else q.order)
    ensures r.isRequired == (if p.isRequired.Some? then p.isRequired.value else q.isRequired)
  {
    q.(text := p.text.GetOr(q.text),
       questionType := p.questionType.GetOr(q.questionType),
       order := p.order.GetOr(q.order),
       isRequired := p.isRequired.GetOr(q.isRequired))
  }

  /** The fields of `update_option`. */
  function PatchOption(o: QuestionOption, p: OptionPatch): (r: QuestionOption)
    ensures r.id == o.id && r.question == o.question
    ensures r.text == (if p.text.Some? then p.text.value else o.text)
    ensures r.order == (if p.order.Some? then p.order.value else o.order)
  {
    o.(text := p.text.GetOr(o.text), order := p.order.GetOr(o.order))
  }

  /** The keys of `second` win over those of `first`, as when one body follows another. */
  function MergeQuestionPatches(first: QuestionPatch, second: QuestionPatch): QuestionPatch {
    QuestionPatch(
      if second.text.Some? then second.text else first.text,
      if second.questionType.Some? then second.questionType else first.questionType,
      if second.order.Some? then second.order else first.order,
      if second.isRequired.Some? then second.isRequired else first.isRequired)
  }

  /**
   * Two partial updates in a row act as one carrying the keys of both, the
   * later request winning; repeating a request changes nothing more.
   */
  lemma QuestionPatchesCompose(q: Question, first: QuestionPatch, second: QuestionPatch)
    ensures PatchQuestion(PatchQuestion(q, first), second) == PatchQuestion(q, MergeQuestionPatches(first, second))
    ensures PatchQuestion(PatchQuestion(q, first), first) == PatchQuestion(q, first)
  {
  }

  // ---------------------------------------------------------------- orders of new rows

  /** The largest order among the survey's questions, 0 when it has none. */
  function MaxQuestionOrder(questions: seq<Question>, survey: nat): (m: nat)
    ensures forall q :: q in questions && q.survey == survey ==> q.order <= m
    ensures m == 0 || exists q :: q in questions && q.survey == survey && q.order == m
  {
    MaxOr0(questions, (q: Question) => q.survey == survey, (q: Question) => q.order)
  }

  /** The largest order among the question's options, 0 when it has none. */
  function MaxOptionOrder(options: seq<QuestionOption>, question: nat): (m: nat)
    ensures forall o :: o in options && o.question == question ==> o.order <= m
    ensures m == 0 || exists o :: o in options && o.question == question && o.order == m
  {
    MaxOr0(options, (o: QuestionOption) => o.question == question, (o: QuestionOption) => o.order)
  }

  /** The question `create_question` adds to the survey. */
  function NewQuestion(id: nat, questions: seq<Question>, survey: nat, draft: QuestionDraft): (q: Question)
    ensures q.id == id && q.survey == survey
    ensures q.text == (if draft.text.Some? then draft.text.value else DefaultQuestionText)
    ensures q.questionType == (if draft.questionType.Some? then draft.questionType.value else TextQuestion)
    ensures q.isRequired == (draft.isRequired.None? || draft.isRequired.value)
    ensures forall x :: x in questions && x.survey == survey ==> x.order < q.order
    ensures q.order == 1 || exists x :: x in questions && x.survey == survey && x.order + 1 == q.order
  {
    Question(id, survey, draft.text.GetOr(DefaultQuestionText), draft.questionType.GetOr(TextQuestion),
             MaxQuestionOrder(questions, survey) + 1, draft.isRequired.GetOr(true))
  }

  /**
   * A new question is ordered above every question of its survey, so it is the
   * last one of the traversal; a survey with no question, or only questions of
   * order 0, gets it at order 1.
   */
  lemma NewQuestionAskedLast(id: nat, questions: seq<Question>, survey: nat, draft: QuestionDraft)
    ensures var q := NewQuestion(id, questions, survey, draft);
      var t := Traversal(questions + [q], survey);
      && (forall x :: x in questions && x.survey == survey ==> x.order < q.order)
      && |t| > 0 && t[|t| - 1] == q
      && ((forall x :: x in questions && x.survey == survey ==> x.order == 0) ==> q.order == 1)
  {
    var q := NewQuestion(id, questions, survey, draft);
    var qs := questions + [q];
    TraversalEndsAtMaxOrder(qs, survey, q);
    TraversalSound(qs, survey);
    var t := Traversal(qs, survey);
    var last := t[|t| - 1];
    assert last in qs;
    assert last in questions ==> last.survey == survey && last.order < q.order;
  }

  /** The option `create_option` adds to the question. */
  function NewOption(id: nat, options: seq<QuestionOption>, question: nat, text: Option<string>): (o: QuestionOption)
    ensures o.id == id && o.question == question
    ensures o.text == (if text.Some? then text.value else DefaultOptionText)
    ensures forall x :: x in options && x.question == question ==> x.order < o.order
    ensures o.order == 1 || exists x :: x in options && x.question == question && x.order + 1 == o.order
  {
    QuestionOption(id, question, text.GetOr(DefaultOptionText), MaxOptionOrder(options, question) + 1)
  }

  /**
   * A new option is ordered above every option of its question and so listed
   * last; a question with no option, or only options of order 0, gets it at
   * order 1.
   */
  lemma NewOptionListedLast(id: nat, options: seq<QuestionOption>, question: nat, text: Option<string>)
    ensures var o := NewOption(id, options, question, text);
      && (forall x :: x in options && x.question == question ==> x.order < o.order)
      && ((forall x :: x in options && x.question == question ==> x.order == 0) ==> o.order == 1)
  {
  }

  // ---------------------------------------------------------------- cascades

  /** Keeps the rows whose id is not `id`. */
  function QuestionIdIsNot(id: nat): Question -> bool {
    (q: Question) => q.id != id
  }

  function OptionIdIsNot(id: nat): QuestionOption -> bool {
    (o: QuestionOption) => o.id != id
  }

  /** Keeps the options of every question but `question`. */
  function OptionQuestionIsNot(question: nat): QuestionOption -> bool {
    (o: QuestionOption) => o.question != question
  }

  /** Keeps the responses to every question but `question`. */
  function ResponseQuestionIsNot(question: nat): Response -> bool {
    (r: Response) => r.question != question
  }

  function QuestionsWithout(questions: seq<Question>, id: nat): (r: seq<Question>)
    ensures forall q :: q in r <==> q in questions && q.id != id
  {
    Filter(questions, QuestionIdIsNot(id))
  }

  function OptionsWithout(options: seq<QuestionOption>, id: nat): (r: seq<QuestionOption>)
    ensures forall o :: o in r <==> o in options && o.id != id
  {
    Filter(options, OptionIdIsNot(id))
  }

  /** The options of every question but `question` (options cascade with their question). */
  function OptionsNotOf(options: seq<QuestionOption>, question: nat): (r: seq<QuestionOption>)
    ensures forall o :: o in r <==> o in options && o.question != question
  {
    Filter(options, OptionQuestionIsNot(question))
  }

  /** The ids of the options of `question`. */
  function OptionIdsOf(options: seq<QuestionOption>, question: nat): set<nat> {
    set o | o in options && o.question == question :: o.id
  }

  /** The responses to every question but `question` (responses cascade with their question). */
  function ResponsesNotTo(responses: seq<Response>, question: nat): (r: seq<Response>)
    ensures forall x :: x in r <==> x in responses && x.question != question
  {
    Filter(responses, ResponseQuestionIsNot(question))
  }

  /** `on_delete=SET_NULL` for a response's selected option when that option goes. */
  function ClearSelected(responses: seq<Response>, gone: set<nat>): (r: seq<Response>)
    ensures |r| == |responses|
    ensures forall i :: 0 <= i < |r| ==>
      r[i] == if responses[i].selectedOption.Some? && responses[i].selectedOption.value in gone
              then responses[i].(selectedOption := None) else responses[i]
  {
    seq(|responses|, i requires 0 <= i < |responses| =>
      if responses[i].selectedOption.Some? && responses[i].selectedOption.value in gone
      then responses[i].(selectedOption := None) else responses[i])
  }

  /** `on_delete=SET_NULL` for a session's current question when that question goes. */
  function ClearCurrentQuestion(sessions: seq<SurveySession>, question: nat): (r: seq<SurveySession>)
    ensures |r| == |sessions|
    ensures forall i :: 0 <= i < |r| ==>
      r[i] == if sessions[i].currentQuestion == Some(question)
              then sessions[i].(currentQuestion := None) else sessions[i]
  {
    seq(|sessions|, i requires 0 <= i < |sessions| =>
      if sessions[i].currentQuestion == Some(question)
      then sessions[i].(currentQuestion := None) else sessions[i])
  }

  // ---------------------------------------------------------------- endpoints

  /** `update_survey`: only the title, description and active flag the request carries change. */
  method UpdateSurvey(db: Database, survey: nat, patch: SurveyPatch) returns (found: bool)
    requires db.Valid()
    modifies db`surveys
    ensures db.Valid()
    ensures found <==> survey in Keys(old(db.surveys), SurveyKey)
    ensures !found ==> db.surveys == old(db.surveys)
    ensures found ==> var i := SurveyIndex(old(db.surveys), survey).value;
      db.surveys == old(db.surveys)[i := PatchSurvey(old(db.surveys)[i], patch)]
  {
    var at := SurveyIndex(db.surveys, survey);
    if at.None? {
      return false;
    }
    var i := at.value;
    ghost var t := db.State();
    SurveyReplaced(t, i, PatchSurvey(db.surveys[i], patch));
    db.surveys := db.surveys[i := PatchSurvey(db.surveys[i], patch)];
    assert db.State() == t.(surveys := t.surveys[i := PatchSurvey(t.surveys[i], patch)]);
    found := true;
  }

  /** `create_question`: a new question of the survey, one above the survey's largest order. */
  method CreateQuestion(db: Database, survey: nat, draft: QuestionDraft) returns (created: Option<Question>)
    requires db.Valid()
    modifies db`questions, db`nextId
    ensures db.Valid()
    ensures created.None? <==> survey !in Keys(old(db.surveys), SurveyKey)
    ensures created.None? ==> db.questions == old(db.questions) && db.nextId == old(db.nextId)
    ensures created.Some? ==>
      && created.value == NewQuestion(old(db.nextId), old(db.questions), survey, draft)
      && db.questions == old(db.questions) + [created.value]
      && db.nextId == old(db.nextId) + 1
  {
    if SurveyIndex(db.surveys, survey).None? {
      return None;
    }
    var q := NewQuestion(db.nextId, db.questions, survey, draft);
    ghost var t := db.State();
    QuestionAdded(t, q);
    db.questions, db.nextId := db.questions + [q], db.nextId + 1;
    assert db.State() == t.(questions := t.questions + [q], nextId := t.nextId + 1);
    created := Some(q);
  }

  /** `update_question`: only the columns the request carries change. */
  method UpdateQuestion(db: Database, question: nat, patch: QuestionPatch) returns (found: bool)
    requires db.Valid()
    modifies db`questions
    ensures db.Valid()
    ensures found <==> question in Keys(old(db.questions), QuestionKey)
    ensures !found ==> db.questions == old(db.questions)
    ensures found ==> var i := QuestionIndex(old(db.questions), question).value;
      db.questions == old(db.questions)[i := PatchQuestion(old(db.questions)[i], patch)]
  {
    var at := QuestionIndex(db.questions, question);
    if at.None? {
      return false;
    }
    var i := at.value;
    var q := PatchQuestion(db.questions[i], patch);
    assert db.questions[i] in db.questions;
    ghost var t := db.State();
    QuestionReplaced(t, i, q);
    db.questions := db.questions[i := q];
    assert db.State() == t.(questions := t.questions[i := q]);
    found := true;
  }

  /**
   * `delete_question`: the question goes together with its options and the
   * responses to it; responses that selected one of its options lose the
   * selection and sessions standing at it lose their current question.
   */
  method DeleteQuestion(db: Database, question: nat) returns (found: bool)
    requires db.Valid()
    modifies db`questions, db`options, db`sessions, db`responses
    ensures db.Valid()
    ensures found <==> question in Keys(old(db.questions), QuestionKey)
    ensures !found ==>
      && db.questions == old(db.questions) && db.options == old(db.options)
      && db.sessions == old(db.sessions) && db.responses == old(db.responses)
    ensures found ==>
      && db.questions == QuestionsWithout(old(db.questions), question)
      && db.options == OptionsNotOf(old(db.options), question)
      && db.responses == ClearSelected(ResponsesNotTo(old(db.responses), question), OptionIdsOf(old(db.options), question))
      && db.sessions == ClearCurrentQuestion(old(db.sessions), question)
    ensures question !in Keys(db.questions, QuestionKey)
  {
    if QuestionIndex(db.questions, question).None? {
      return false;
    }
    DeleteQuestionKeepsValid(db.State(), question);
    WriteCatalog(db, AfterQuestionDeleted(db.State(), question));
    found := true;
  }

  /** Stores new content for the catalog and answer tables, keeping the database consistent. */
  method WriteCatalog(db: Database, after: DbState)
    requires after.Consistent()
    requires after.respondents == db.respondents && after.surveys == db.surveys && after.nextId == db.nextId
    modifies db`questions, db`options, db`sessions, db`responses
    ensures db.State() == after
    ensures db.Valid()
  {
    db.questions, db.options, db.sessions, db.responses := after.questions, after.options, after.sessions, after.responses;
  }

  /** `create_option`: a new option of the question, one above the question's largest option order. */
  method CreateOption(db: Database, question: nat, text: Option<string>) returns (created: Option<QuestionOption>)
    requires db.Valid()
    modifies db`options, db`nextId
    ensures db.Valid()
    ensures created.None? <==> question !in Keys(old(db.questions), QuestionKey)
    ensures created.None? ==> db.options == old(db.options) && db.nextId == old(db.nextId)
    ensures created.Some? ==>
      && created.value == NewOption(old(db.nextId), old(db.options), question, text)
      && db.options == old(db.options) + [created.value]
      && db.nextId == old(db.nextId) + 1
  {
    if QuestionIndex(db.questions, question).None? {
      return None;
    }
    var o := NewOption(db.nextId, db.options, question, text);
    ghost var t := db.State();
    OptionAdded(t, o);
    db.options, db.nextId := db.options + [o], db.nextId + 1;
    assert db.State() == t.(options := t.options + [o], nextId := t.nextId + 1);
    created := Some(o);
  }

  /** `update_option`: only the text and order the request carries change. */
  method UpdateOption(db: Database, option: nat, patch: OptionPatch) returns (found: bool)
    requires db.Valid()
    modifies db`options
    ensures db.Valid()
    ensures found <==> option in Keys(old(db.options), OptionKey)
    ensures !found ==> db.options == old(db.options)
    ensures found ==> var i := OptionIndex(old(db.options), option).value;
      db.options == old(db.options)[i := PatchOption(old(db.options)[i], patch)]
  {
    var at := OptionIndex(db.options, option);
    if at.None? {
      return false;
    }
    var i := at.value;
    var o := PatchOption(db.options[i], patch);
    assert db.options[i] in db.options;
    ghost var t := db.State();
    OptionReplaced(t, i, o);
    db.options := db.options[i := o];
    assert db.State() == t.(options := t.options[i := o]);
    found := true;
  }

  /** `delete_option`: the option goes; responses that selected it lose the selection. */
  method DeleteOption(db: Database, option: nat) returns (found: bool)
    requires db.Valid()
    modifies db`options, db`responses
    ensures db.Valid()
    ensures found <==> option in Keys(old(db.options), OptionKey)
    ensures !found ==> db.options == old(db.options) && db.responses == old(db.responses)
    ensures found ==>
      && db.options == OptionsWithout(old(db.options), option)
      && db.responses == ClearSelected(old(db.responses), {option})
    ensures option !in Keys(db.options, OptionKey)
  {
    if OptionIndex(db.options, option).None? {
      return false;
    }
    var options' := OptionsWithout(db.options, option);
    var responses' := ClearSelected(db.responses, {option});
    ghost var t := db.State();
    DeleteOptionKeepsValid(t, option);
    db.options, db.responses := options', responses';
    assert db.State() == AfterOptionDeleted(t, option);
    found := true;
  }

  // ---------------------------------------------------------------- integrity after deletes

  /** Deleting a question keeps the table keyed and removes exactly its id. */
  lemma QuestionsWithoutKeys(questions: seq<Question>, id: nat, next: nat)
    requires Keyed(questions, QuestionKey, next)
    ensures Keyed(QuestionsWithout(questions, id), QuestionKey, next)
    ensures Keys(QuestionsWithout(questions, id), QuestionKey) == Keys(questions, QuestionKey) - {id}
  {
    var r := QuestionsWithout(questions, id);
    FilterKeyed(questions, QuestionIdIsNot(id), QuestionKey, next);
    forall k | k in Keys(questions, QuestionKey) - {id} ensures k in Keys(r, QuestionKey) {
      var q :| q in questions && q.id == k;
      assert q in r;
    }
  }

  /** Deleting an option keeps the table keyed and removes exactly its id. */
  lemma OptionsWithoutKeys(options: seq<QuestionOption>, id: nat, next: nat)
    requires Keyed(options, OptionKey, next)
    ensures Keyed(OptionsWithout(options, id), OptionKey, next)
    ensures Keys(OptionsWithout(options, id), OptionKey) == Keys(options, OptionKey) - {id}
  {
    var r := OptionsWithout(options, id);
    FilterKeyed(options, OptionIdIsNot(id), OptionKey, next);
    forall k | k in Keys(options, OptionKey) - {id} ensures k in Keys(r, OptionKey) {
      var o :| o in options && o.id == k;
      assert o in r;
    }
  }

  /** The cascade on options keeps the table keyed and every option of another question. */
  lemma OptionsNotOfKeys(options: seq<QuestionOption>, question: nat, next: nat)
    requires Keyed(options, OptionKey, next)
    ensures Keyed(OptionsNotOf(options, question), OptionKey, next)
    ensures Keys(options, OptionKey) - OptionIdsOf(options, question) <= Keys(OptionsNotOf(options, question), OptionKey)
  {
    var r := OptionsNotOf(options, question);
    FilterKeyed(options, OptionQuestionIsNot(question), OptionKey, next);
    forall k | k in Keys(options, OptionKey) - OptionIdsOf(options, question) ensures k in Keys(r, OptionKey) {
      var o :| o in options && o.id == k;
      assert o in r;
    }
  }

  /** Clearing a nullable link keeps every row and its key. */
  lemma ClearedKeys(sessions: seq<SurveySession>, question: nat, responses: seq<Response>, gone: set<nat>, next: nat)
    requires Keyed(sessions, SessionKey, next) && Keyed(responses, ResponseKey, next)
    ensures Keyed(ClearCurrentQuestion(sessions, question), SessionKey, next)
    ensures Keys(ClearCurrentQuestion(sessions, question), SessionKey) == Keys(sessions, SessionKey)
    ensures Keyed(ClearSelected(responses, gone), ResponseKey, next)
    ensures Keys(ClearSelected(responses, gone), ResponseKey) == Keys(responses, ResponseKey)
  {
    SameKeysAt(sessions, SessionKey, ClearCurrentQuestion(sessions, question), SessionKey, next);
    SameKeysAt(responses, ResponseKey, ClearSelected(responses, gone), ResponseKey, next);
  }

  /** Sessions keep their links when the question they stand at goes and is cleared. */
  lemma SessionsStayLinked(sessions: seq<SurveySession>, question: nat, users: set<nat>, surveys: set<nat>,
                           before: set<nat>, after: set<nat>)
    requires SessionsLinked(sessions, users, surveys, before)
    requires before - {question} <= after
    ensures SessionsLinked(ClearCurrentQuestion(sessions, question), users, surveys, after)
  {
    var r := ClearCurrentQuestion(sessions, question);
    forall s | s in r ensures SessionLinked(s, users, surveys, after) {
      var i :| 0 <= i < |r| && r[i] == s;
      assert sessions[i] in sessions;
    }
  }

  /**
   * The responses left after the cascade keep their links: those to the
   * deleted question are gone, and a selection of a deleted option is cleared.
   */
  lemma ResponsesStayLinked(responses: seq<Response>, question: nat, gone: set<nat>, sessions: set<nat>,
                            questionsBefore: set<nat>, questionsAfter: set<nat>,
                            optionsBefore: set<nat>, optionsAfter: set<nat>)
    requires ResponsesLinked(responses, sessions, questionsBefore, optionsBefore)
    requires questionsBefore - {question} <= questionsAfter
    requires optionsBefore - gone <= optionsAfter
    ensures ResponsesLinked(ClearSelected(ResponsesNotTo(responses, question), gone), sessions, questionsAfter, optionsAfter)
  {
    var kept := ResponsesNotTo(responses, question);
    var r := ClearSelected(kept, gone);
    forall x | x in r ensures ResponseLinked(x, sessions, questionsAfter, optionsAfter) {
      var i :| 0 <= i < |r| && r[i] == x;
      assert kept[i] in kept;
    }
  }

  /** The state `delete_question` leaves. */
  function AfterQuestionDeleted(t: DbState, question: nat): DbState {
    t.(questions := QuestionsWithout(t.questions, question),
       options := OptionsNotOf(t.options, question),
       sessions := ClearCurrentQuestion(t.sessions, question),
       responses := ClearSelected(ResponsesNotTo(t.responses, question), OptionIdsOf(t.options, question)))
  }

  /** The delete cascade keeps every table keyed; exactly the question's key goes from the questions. */
  lemma DeleteQuestionKeepsKeys(t: DbState, question: nat)
    requires t.KeysValid()
    ensures var u := AfterQuestionDeleted(t, question);
      && u.KeysValid()
      && u.QuestionKeys() == t.QuestionKeys() - {question}
      && t.OptionKeys() - OptionIdsOf(t.options, question) <= u.OptionKeys()
      && u.SessionKeys() == t.SessionKeys()
  {
    var kept := ResponsesNotTo(t.responses, question);
    QuestionsWithoutKeys(t.questions, question, t.nextId);
    OptionsNotOfKeys(t.options, question, t.nextId);
    FilterKeyed(t.responses, ResponseQuestionIsNot(question), ResponseKey, t.nextId);
    ClearedKeys(t.sessions, question, kept, OptionIdsOf(t.options, question), t.nextId);
  }

  /** After the delete cascade every key is unique and every link names an existing row. */
  lemma DeleteQuestionKeepsValid(t: DbState, question: nat)
    requires t.Consistent()
    ensures AfterQuestionDeleted(t, question).Consistent()
    ensures question !in AfterQuestionDeleted(t, question).QuestionKeys()
  {
    var u := AfterQuestionDeleted(t, question);
    DeleteQuestionKeepsKeys(t, question);
    forall o | o in u.options ensures o.question in u.QuestionKeys() {
      assert o in t.options;
    }
    SessionsStayLinked(t.sessions, question, t.RespondentKeys(), t.SurveyKeys(), t.QuestionKeys(), u.QuestionKeys());
    ResponsesStayLinked(t.responses, question, OptionIdsOf(t.options, question), t.SessionKeys(),
                        t.QuestionKeys(), u.QuestionKeys(), t.OptionKeys(), u.OptionKeys());
  }

  /** The state `delete_option` leaves. */
  function AfterOptionDeleted(t: DbState, option: nat): DbState {
    t.(options := OptionsWithout(t.options, option), responses := ClearSelected(t.responses, {option}))
  }

  /** After an option is deleted every key is unique and every link names an existing row. */
  lemma DeleteOptionKeepsValid(t: DbState, option: nat)
    requires t.Consistent()
    ensures AfterOptionDeleted(t, option).Consistent()
    ensures option !in AfterOptionDeleted(t, option).OptionKeys()
  {
    var u := AfterOptionDeleted(t, option);
    OptionsWithoutKeys(t.options, option, t.nextId);
    SameKeysAt(t.responses, ResponseKey, u.responses, ResponseKey, t.nextId);
    forall r | r in u.responses ensures ResponseLinked(r, u.SessionKeys(), u.QuestionKeys(), u.OptionKeys()) {
      var i :| 0 <= i < |u.responses| && u.responses[i] == r;
      assert t.responses[i] in t.responses;
    }
  }
}
