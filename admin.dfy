/**
 * The computed columns of the admin site's change lists: the shortened
 * anonymous id of a respondent, the respondent of a session, and the preview
 * of a response's answer.
 */
module Admin {
  import opened Wrappers
  import opened Text
  import opened Models

  /** Shown in the preview of a response that carries only a voice file. */
  const VoicePrefix := "Голосовой файл: "
  /** Shown in the preview of a response that carries nothing. */
  const NoAnswer := "-"
  /** How much of a text answer the preview shows. */
  const PreviewLength := 50

  /** `RespondentAdmin.get_anonymous_id_short`: the first eight characters and an ellipsis. */
  function AnonymousIdShort(r: Respondent): (shown: string)
    ensures |shown| == |Prefix(r.anonymousId, ShownIdLength)| + |Ellipsis|
    ensures shown[..|shown| - |Ellipsis|] <= r.anonymousId
    ensures shown[|shown| - |Ellipsis|..] == Ellipsis
  {
    Prefix(r.anonymousId, ShownIdLength) + Ellipsis
  }

  /** `SurveySessionAdmin.get_user_short`, given the session's respondent. */
  function UserShort(user: Respondent): (shown: string)
    ensures RespondentPrefix <= shown
  {
    RespondentPrefix + AnonymousIdShort(user)
  }

  /** `ResponseAdmin.get_session_info`, given the session's respondent and survey. */
  function SessionInfo(user: Respondent, survey: Survey): (shown: string)
    ensures UserShort(user) <= shown
    ensures |shown| == |UserShort(user)| + 3 + |survey.title|
    ensures shown[|UserShort(user)|..|UserShort(user)| + 3] == " - "
    ensures shown[|shown| - |survey.title|..] == survey.title
  {
    UserShort(user) + " - " + survey.title
  }

  /**
   * The admin's short forms agree with the model's own `__str__`: a session's
   * respondent is shown as the respondent itself is.
   */
  lemma UserShortIsRespondentStr(user: Respondent)
    ensures UserShort(user) == RespondentStr(user)
    ensures RespondentStr(user) == RespondentPrefix + AnonymousIdShort(user)
  {
  }

  /**
   * An anonymous id of at least eight characters (a SHA-256 hexdigest has 64)
   * is shown as exactly its first eight characters and the ellipsis, so two
   * respondents look the same exactly when their ids share those eight.
   */
  lemma ShortIdOfLongId(a: Respondent, b: Respondent)
    requires |a.anonymousId| >= ShownIdLength && |b.anonymousId| >= ShownIdLength
    ensures AnonymousIdShort(a) == a.anonymousId[..ShownIdLength] + Ellipsis
    ensures |AnonymousIdShort(a)| == ShownIdLength + |Ellipsis|
    ensures AnonymousIdShort(a) == AnonymousIdShort(b) <==> a.anonymousId[..ShownIdLength] == b.anonymousId[..ShownIdLength]
  {
    var sa, sb := AnonymousIdShort(a), AnonymousIdShort(b);
    assert Prefix(a.anonymousId, ShownIdLength) == a.anonymousId[..ShownIdLength];
    assert Prefix(b.anonymousId, ShownIdLength) == b.anonymousId[..ShownIdLength];
    assert sa[..ShownIdLength] == a.anonymousId[..ShownIdLength];
    assert sb[..ShownIdLength] == b.anonymousId[..ShownIdLength];
  }

  /**
   * `ResponseAdmin.get_answer_preview`, given the response's selected option
   * (None when it has none). A non-empty text wins, then an option, then a
   * voice file with a non-empty name.
   */
  function AnswerPreview(r: Response, selected: Option<QuestionOption>): (shown: string)
    requires selected.Some? <==> r.selectedOption.Some?
    requires selected.Some? ==> selected.value.id == r.selectedOption.value
    ensures TextTruthy(r.textAnswer) ==>
      |shown| == (if |r.textAnswer.value| < PreviewLength then |r.textAnswer.value| else PreviewLength)
      && shown <= r.textAnswer.value
    ensures !TextTruthy(r.textAnswer) && selected.Some? ==> shown == selected.value.text
    ensures !TextTruthy(r.textAnswer) && selected.None? && TextTruthy(r.voiceFile) ==>
      VoicePrefix <= shown && shown[|VoicePrefix|..] == r.voiceFile.value
    ensures !TextTruthy(r.textAnswer) && selected.None? && !TextTruthy(r.voiceFile) ==> shown == NoAnswer
  {
    if TextTruthy(r.textAnswer) then Prefix(r.textAnswer.value, PreviewLength)
    else if selected.Some? then selected.value.text
    else if TextTruthy(r.voiceFile) then VoicePrefix + r.voiceFile.value
    else NoAnswer
  }

  /**
   * The preview only looks further down its list when the earlier payloads are
   * absent: a non-empty text hides any option and voice file, an option hides
   * any voice file.
   */
  lemma AnswerPreviewPriority(r: Response, option: QuestionOption, voice: Option<string>)
    ensures TextTruthy(r.textAnswer) ==>
      AnswerPreview(r.(selectedOption := Some(option.id), voiceFile := voice), Some(option))
      == AnswerPreview(r.(selectedOption := None, voiceFile := None), None)
    ensures !TextTruthy(r.textAnswer) ==>
      AnswerPreview(r.(selectedOption := Some(option.id), voiceFile := voice), Some(option)) == option.text
  {
  }

  /** A text answer of at most fifty characters is shown whole. */
  lemma ShortTextShownWhole(r: Response, selected: Option<QuestionOption>)
    requires selected.Some? <==> r.selectedOption.Some?
    requires selected.Some? ==> selected.value.id == r.selectedOption.value
    requires TextTruthy(r.textAnswer) && |r.textAnswer.value| <= PreviewLength
    ensures AnswerPreview(r, selected) == r.textAnswer.value
  {
  }
}
