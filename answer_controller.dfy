/** The answer endpoints. Each strips the `Bearer ` prefix from the
    authorization header, resolves the session first, and only then looks up
    the question or answer it works on. Session failures surface exactly as
    the gate raised them: no operation-specific message replaces them. */
module AnswerController {
  import opened Common
  import opened Strings
  import opened Entities
  import opened Dao
  import opened ErrorConditions
  import opened Http
  import opened UserService
  import opened Policy
  import QuestionService
  import AnswerService

  const BearerPrefix: string := "Bearer "

  /** The token in an authorization header: the text after the first
      `Bearer `, or the whole header when it holds none. */
  function BearerToken(authorization: string): (token: string)
    ensures IndexOf(authorization, BearerPrefix).None? ==> token == authorization
    ensures IndexOf(authorization, BearerPrefix).Some? ==>
      authorization == authorization[..IndexOf(authorization, BearerPrefix).value] + BearerPrefix + token
  {
    if IndexOf(authorization, BearerPrefix).Some? then SubstringAfter(authorization, BearerPrefix)
    else authorization
  }

  /** A header made of the prefix and a token yields the token, even when
      the token itself holds the prefix again. */
  lemma {:induction false} BearerTokenOfPrefixed(t: string)
    ensures BearerToken(BearerPrefix + t) == t
  {
    var h := BearerPrefix + t;
    assert h[..|BearerPrefix|] == BearerPrefix;
    assert IndexOf(h, BearerPrefix) == Some(0);
    assert h[|BearerPrefix|..] == t;
  }

  /** A header without the prefix is taken whole as the token. */
  lemma BearerTokenOfBare(h: string)
    requires forall i :: !OccursAt(h, BearerPrefix, i)
    ensures BearerToken(h) == h
  {
  }

  // ---- createAnswer ----

  /** The catch clause of `createAnswer`: a missing question is reported as
      ANS_CREATE_FAILURE; every other error passes unchanged. */
  function CreateAnswerError(e: Error): (r: Error)
    ensures e.Raised? && e.kind == InvalidQuestionException ==> r == Raise(InvalidQuestionException, AnsCreateFailure)
    ensures !(e.Raised? && e.kind == InvalidQuestionException) ==> r == e
  {
    if e.Raised? && e.kind == InvalidQuestionException then Raise(InvalidQuestionException, AnsCreateFailure)
    else e
  }

  /** `createAnswer`: the signed-in user posts `content` as an answer to the
      question with uuid `questionUuid`; `uuid` is the fresh uuid and `today`
      the current date. */
  function CreateAnswerOutcome(st: Store, questionUuid: string, authorization: string, content: string, today: Day, uuid: string, now: Time)
    : (out: (Result<Response<string>>, Store))
    ensures GetCurrentUser(st, BearerToken(authorization), now).Err? ==>
      out == (Err(GetCurrentUser(st, BearerToken(authorization), now).error), st)
    ensures GetCurrentUser(st, BearerToken(authorization), now).Ok? && (forall q :: q in st.questions ==> q.uuid != questionUuid) ==>
      out == (Err(Raise(InvalidQuestionException, AnsCreateFailure)), st)
    ensures out.0.Ok? <==>
      GetCurrentUser(st, BearerToken(authorization), now).Ok? && QuestionService.GetQuestionByUuid(st, questionUuid).Ok?
      && FitsAnswer(Answer(0, uuid, content, today, NoUser, 0))
    ensures out.0.Ok? ==> out.0.value == Response(uuid, HttpCreated)
    ensures out.0.Ok? ==> QuestionService.GetQuestionByUuid(st, questionUuid).Ok?
    ensures out.0.Ok? ==>
      var owner := GetCurrentUser(st, BearerToken(authorization), now).value;
      var q := QuestionService.GetQuestionByUuid(st, questionUuid).value;
      out.1 == st.(answers := st.answers + [Answer(st.nextId, uuid, content, today, owner, q.id)], nextId := st.nextId + 1)
    ensures out.0.Err? ==> out.1 == st
  {
    var token := BearerToken(authorization);
    match GetCurrentUser(st, token, now)
    case Err(e) => (Err(e), st)
    case Ok(user) =>
      match QuestionService.GetQuestionByUuid(st, questionUuid)
      case Err(e) => (Err(CreateAnswerError(e)), st)
      case Ok(question) =>
        var (created, st') := InsertAnswer(st, Answer(0, uuid, content, today, user, question.id));
        if created.Ok? then (Ok(Response(created.value.uuid, HttpCreated)), st')
        else (Err(CreateAnswerError(created.error)), st)
  }

  /** `createAnswer` as the controller runs it: the answer entity is filled
      in through its setters and handed to the answer service. */
  method CreateAnswer(db: Database, questionUuid: string, authorization: string, content: string, today: Day, uuid: string, now: Time)
    returns (r: Result<Response<string>>)
    modifies db
    ensures (r, db.State()) == CreateAnswerOutcome(old(db.State()), questionUuid, authorization, content, today, uuid, now)
  {
    var token := BearerToken(authorization);
    var user := GetCurrentUser(db.State(), token, now);
    if user.Err? {
      return Err(user.error);
    }
    var question := QuestionService.GetQuestionByUuid(db.State(), questionUuid);
    if question.Err? {
      return Err(CreateAnswerError(question.error));
    }
    var answer := Answer(0, "", "", 0, NoUser, 0);
    answer := answer.(answer := content);
    answer := answer.(date := today);
    answer := answer.(uuid := uuid);
    answer := answer.(user := user.value);
    answer := answer.(questionId := question.value.id);
    var created := AnswerService.CreateAnswer(db, answer);
    if created.Err? {
      return Err(CreateAnswerError(created.error));
    }
    r := Ok(Response(created.value.uuid, HttpCreated));
  }

  // ---- editAnswer and deleteAnswer ----

  /** `editAnswer`: session, then answer lookup, then the owner-only merge
      of the answer with its new content. */
  function EditAnswerOutcome(st: Store, answerUuid: string, authorization: string, content: string, now: Time)
    : (out: (Result<Response<string>>, Store))
    ensures GetCurrentUser(st, BearerToken(authorization), now).Err? ==>
      out == (Err(GetCurrentUser(st, BearerToken(authorization), now).error), st)
    ensures GetCurrentUser(st, BearerToken(authorization), now).Ok? && (forall a :: a in st.answers ==> a.uuid != answerUuid) ==>
      out == (Err(Raise(AnswerNotFoundException, AnsNotFound)), st)
    ensures out.0.Ok? ==> out.0.value == Response(answerUuid, HttpOk)
    ensures out.0.Ok? ==> AnswerService.GetAnswerByUuid(st, answerUuid).Ok?
    ensures out.0.Ok? ==> var a := AnswerService.GetAnswerByUuid(st, answerUuid).value;
      && MayEdit(GetCurrentUser(st, BearerToken(authorization), now).value, a.user)
      && out.1 == MergeAnswer(st, a.(answer := content)).1
    ensures GetCurrentUser(st, BearerToken(authorization), now).Ok? && AnswerService.GetAnswerByUuid(st, answerUuid).Ok? ==>
      var a := AnswerService.GetAnswerByUuid(st, answerUuid).value;
      MayEdit(GetCurrentUser(st, BearerToken(authorization), now).value, a.user) && FitsAnswer(a.(answer := content)) ==> out.0.Ok?
    ensures out.0.Err? ==> out.1 == st
  {
    match GetCurrentUser(st, BearerToken(authorization), now)
    case Err(e) => (Err(e), st)
    case Ok(user) =>
      match AnswerService.GetAnswerByUuid(st, answerUuid)
      case Err(e) => (Err(e), st)
      case Ok(answer) =>
        var (edited, st') := AnswerService.EditAnswerOutcome(st, user, answer.(answer := content));
        if edited.Ok? then (Ok(Response(edited.value, HttpOk)), st') else (Err(edited.error), st)
  }

  method EditAnswer(db: Database, answerUuid: string, authorization: string, content: string, now: Time)
    returns (r: Result<Response<string>>)
    modifies db
    ensures (r, db.State()) == EditAnswerOutcome(old(db.State()), answerUuid, authorization, content, now)
  {
    var token := BearerToken(authorization);
    var user := GetCurrentUser(db.State(), token, now);
    if user.Err? {
      return Err(user.error);
    }
    var answer := AnswerService.GetAnswerByUuid(db.State(), answerUuid);
    if answer.Err? {
      return Err(answer.error);
    }
    var changed := answer.value.(answer := content);
    var edited := AnswerService.EditAnswer(db, user.value, changed);
    if edited.Err? {
      return Err(edited.error);
    }
    r := Ok(Response(edited.value, HttpOk));
  }

  /** `deleteAnswer`: session, then answer lookup, then the owner-or-admin
      deletion. */
  function DeleteAnswerOutcome(st: Store, answerUuid: string, authorization: string, now: Time)
    : (out: (Result<Response<string>>, Store))
    ensures GetCurrentUser(st, BearerToken(authorization), now).Err? ==>
      out == (Err(GetCurrentUser(st, BearerToken(authorization), now).error), st)
    ensures GetCurrentUser(st, BearerToken(authorization), now).Ok? && (forall a :: a in st.answers ==> a.uuid != answerUuid) ==>
      out == (Err(Raise(AnswerNotFoundException, AnsNotFound)), st)
    ensures out.0.Ok? ==> out.0.value == Response(answerUuid, HttpOk)
    ensures out.0.Ok? ==> AnswerService.GetAnswerByUuid(st, answerUuid).Ok?
    ensures out.0.Ok? ==> var a := AnswerService.GetAnswerByUuid(st, answerUuid).value;
      && MayDelete(GetCurrentUser(st, BearerToken(authorization), now).value, a.user)
      && out.1 == DeleteAnswerRow(st, a)
    ensures GetCurrentUser(st, BearerToken(authorization), now).Ok? && AnswerService.GetAnswerByUuid(st, answerUuid).Ok? ==>
      MayDelete(GetCurrentUser(st, BearerToken(authorization), now).value, AnswerService.GetAnswerByUuid(st, answerUuid).value.user) ==> out.0.Ok?
    ensures out.0.Err? ==> out.1 == st
  {
    match GetCurrentUser(st, BearerToken(authorization), now)
    case Err(e) => (Err(e), st)
    case Ok(user) =>
      match AnswerService.GetAnswerByUuid(st, answerUuid)
      case Err(e) => (Err(e), st)
      case Ok(answer) =>
        var (deleted, st') := AnswerService.DeleteAnswerOutcome(st, user, answer);
        if deleted.Ok? then (Ok(Response(deleted.value, HttpOk)), st') else (Err(deleted.error), st)
  }

  method DeleteAnswer(db: Database, answerUuid: string, authorization: string, now: Time)
    returns (r: Result<Response<string>>)
    modifies db
    ensures (r, db.State()) == DeleteAnswerOutcome(old(db.State()), answerUuid, authorization, now)
  {
    var token := BearerToken(authorization);
    var user := GetCurrentUser(db.State(), token, now);
    if user.Err? {
      return Err(user.error);
    }
    var answer := AnswerService.GetAnswerByUuid(db.State(), answerUuid);
    if answer.Err? {
      return Err(answer.error);
    }
    var deleted := AnswerService.DeleteAnswer(db, user.value, answer.value);
    if deleted.Err? {
      return Err(deleted.error);
    }
    r := Ok(Response(deleted.value, HttpOk));
  }

  /** A refused session is reported before the answer is looked up, so an
      unknown answer uuid with a bad token gives the session's error; and a
      closed session surfaces with the profile message of the gate, not an
      answer-specific one. */
  lemma SessionCheckedFirst(st: Store, answerUuid: string, authorization: string, content: string, now: Time)
    requires SessionWithToken(st, BearerToken(authorization)).One?
    requires !Live(SessionWithToken(st, BearerToken(authorization)).row, now)
    ensures EditAnswerOutcome(st, answerUuid, authorization, content, now).0 == Err(Raise(AuthorizationFailedException, UserGetAuthFailure))
    ensures DeleteAnswerOutcome(st, answerUuid, authorization, now).0 == Err(Raise(AuthorizationFailedException, UserGetAuthFailure))
  {
  }

  // ---- getAllAnswersToQuestion ----

  /** One item of the answer list. */
  datatype AnswerDetails = AnswerDetails(id: string, answerContent: string, questionContent: string)

  /** The items of the answer list: one per answer, in the same order, each
      carrying the content of the question answered. */
  method DetailsOf(found: AnswerService.AnswersTo) returns (response: seq<AnswerDetails>)
    ensures |response| == |found.answers|
    ensures forall i :: 0 <= i < |found.answers| ==>
      response[i] == AnswerDetails(found.answers[i].uuid, found.answers[i].answer, found.question.content)
  {
    var answers := found.answers;
    response := [];
    var i := 0;
    while i < |answers|
      invariant 0 <= i <= |answers|
      invariant |response| == i
      invariant forall j :: 0 <= j < i ==>
        response[j] == AnswerDetails(answers[j].uuid, answers[j].answer, found.question.content)
    {
      response := response + [AnswerDetails(answers[i].uuid, answers[i].answer, found.question.content)];
      i := i + 1;
    }
  }

  /** `getAllAnswersToQuestion`: one item per answer to the question, in the
      order the query returns them; no content when there is none. */
  method GetAllAnswersToQuestion(db: Database, questionUuid: string, authorization: string, now: Time)
    returns (r: Result<Response<seq<AnswerDetails>>>)
    ensures GetCurrentUser(db.State(), BearerToken(authorization), now).Err? ==>
      r == Err(GetCurrentUser(db.State(), BearerToken(authorization), now).error)
    ensures GetCurrentUser(db.State(), BearerToken(authorization), now).Ok? && AnswerService.GetAnswersForQuestion(db.State(), questionUuid).Err? ==>
      r == Err(AnswerService.GetAnswersForQuestion(db.State(), questionUuid).error)
    ensures r.Ok? <==>
      GetCurrentUser(db.State(), BearerToken(authorization), now).Ok? && AnswerService.GetAnswersForQuestion(db.State(), questionUuid).Ok?
    ensures r.Ok? ==> var found := AnswerService.GetAnswersForQuestion(db.State(), questionUuid).value;
      && |r.value.body| == |found.answers|
      && (forall i :: 0 <= i < |found.answers| ==>
            r.value.body[i] == AnswerDetails(found.answers[i].uuid, found.answers[i].answer, found.question.content))
      && r.value.status == (if found.answers == [] then HttpNoContent else HttpOk)
  {
    var token := BearerToken(authorization);
    var user := GetCurrentUser(db.State(), token, now);
    if user.Err? {
      return Err(user.error);
    }
    var found := AnswerService.GetAnswersForQuestion(db.State(), questionUuid);
    if found.Err? {
      return Err(found.error);
    }
    var response := DetailsOf(found.value);
    r := Ok(Response(response, ListStatus(response)));
  }
}
