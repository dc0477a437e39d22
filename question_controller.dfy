/** The question endpoints. They receive the bearer token already taken out
    of the authorization header and hand it to the question service, which
    resolves the session. Editing and deleting look the question up before
    the session is checked. */
module QuestionController {
  import opened Common
  import opened Entities
  import opened Dao
  import opened ErrorConditions
  import opened Http
  import opened Policy
  import UserService
  import QuestionService

  /** One item of a question list: the uuid and the content. */
  datatype QuestionDetails = QuestionDetails(id: string, content: string)

  /** `mapListResponseItems`: one item per question, in the same order. */
  method MapListResponseItems(questions: seq<Question>) returns (response: seq<QuestionDetails>)
    ensures |response| == |questions|
    ensures forall i :: 0 <= i < |questions| ==> response[i] == QuestionDetails(questions[i].uuid, questions[i].content)
  {
    response := [];
    var i := 0;
    while i < |questions|
      invariant 0 <= i <= |questions|
      invariant |response| == i
      invariant forall j :: 0 <= j < i ==> response[j] == QuestionDetails(questions[j].uuid, questions[j].content)
    {
      response := response + [QuestionDetails(questions[i].uuid, questions[i].content)];
      i := i + 1;
    }
  }

  // ---- createQuestion ----

  /** `createQuestion`: a question with the given content, date and fresh
      uuid is handed to the service, which sets its owner. */
  function CreateQuestionOutcome(st: Store, token: string, content: string, today: Day, uuid: string, now: Time)
    : (out: (Result<Response<string>>, Store))
    ensures UserService.GetCurrentUser(st, token, now).Err? ==>
      out == (Err(QuestionService.Rewrap(UserService.GetCurrentUser(st, token, now).error, QuesCreateAuthFailure)), st)
    ensures out.0.Ok? <==> UserService.GetCurrentUser(st, token, now).Ok? && FitsQuestion(Question(0, uuid, content, today, NoUser))
    ensures out.0.Ok? ==> out.0.value == Response(uuid, HttpCreated)
    ensures out.0.Ok? ==> out.1 == st.(questions := st.questions + [Question(st.nextId, uuid, content, today, UserService.GetCurrentUser(st, token, now).value)], nextId := st.nextId + 1)
    ensures out.0.Err? ==> out.1 == st
  {
    var (created, st') := QuestionService.CreateQuestionOutcome(st, token, Question(0, uuid, content, today, NoUser), now);
    if created.Ok? then (Ok(Response(created.value.uuid, HttpCreated)), st') else (Err(created.error), st)
  }

  method CreateQuestion(db: Database, token: string, content: string, today: Day, uuid: string, now: Time)
    returns (r: Result<Response<string>>)
    modifies db
    ensures (r, db.State()) == CreateQuestionOutcome(old(db.State()), token, content, today, uuid, now)
  {
    var question := Question(0, "", "", 0, NoUser);
    question := question.(content := content);
    question := question.(date := today);
    question := question.(uuid := uuid);
    var created := QuestionService.CreateQuestion(db, token, question, now);
    if created.Err? {
      return Err(created.error);
    }
    r := Ok(Response(created.value.uuid, HttpCreated));
  }

  // ---- getAllQuestions and getUserQuestions ----

  /** `getAllQuestions`: every question, as uuid and content, in stored
      order; no content when there is none. */
  method GetAllQuestions(db: Database, token: string, now: Time) returns (r: Result<Response<seq<QuestionDetails>>>)
    ensures QuestionService.GetAllQuestions(db.State(), token, now).Err? ==>
      r == Err(QuestionService.GetAllQuestions(db.State(), token, now).error)
    ensures r.Ok? <==> UserService.GetCurrentUser(db.State(), token, now).Ok?
    ensures r.Ok? ==>
      && |r.value.body| == |db.questions|
      && (forall i :: 0 <= i < |db.questions| ==> r.value.body[i] == QuestionDetails(db.questions[i].uuid, db.questions[i].content))
      && r.value.status == (if db.questions == [] then HttpNoContent else HttpOk)
  {
    var questions := QuestionService.GetAllQuestions(db.State(), token, now);
    if questions.Err? {
      return Err(questions.error);
    }
    var response := MapListResponseItems(questions.value);
    r := Ok(Response(response, ListStatus(response)));
  }

  /** `getUserQuestions`: the questions of the user with uuid `userUuid`, as
      uuid and content, in stored order; no content when there is none. */
  method GetUserQuestions(db: Database, token: string, userUuid: string, now: Time) returns (r: Result<Response<seq<QuestionDetails>>>)
    ensures QuestionService.GetUserQuestions(db.State(), token, userUuid, now).Err? ==>
      r == Err(QuestionService.GetUserQuestions(db.State(), token, userUuid, now).error)
    ensures r.Ok? <==> QuestionService.GetUserQuestions(db.State(), token, userUuid, now).Ok?
    ensures r.Ok? ==> var found := QuestionService.GetUserQuestions(db.State(), token, userUuid, now).value;
      && |r.value.body| == |found|
      && (forall i :: 0 <= i < |found| ==> r.value.body[i] == QuestionDetails(found[i].uuid, found[i].content))
      && r.value.status == (if found == [] then HttpNoContent else HttpOk)
  {
    var questions := QuestionService.GetUserQuestions(db.State(), token, userUuid, now);
    if questions.Err? {
      return Err(questions.error);
    }
    var response := MapListResponseItems(questions.value);
    r := Ok(Response(response, ListStatus(response)));
  }

  // ---- editQuestion and deleteQuestion ----

  /** `editQuestion`: the question is looked up first, given its new content,
      and then handed to the service, which checks the session and the
      owner. */
  function EditQuestionOutcome(st: Store, token: string, questionUuid: string, content: string, now: Time)
    : (out: (Result<Response<string>>, Store))
    ensures (forall q :: q in st.questions ==> q.uuid != questionUuid) ==>
      out == (Err(Raise(InvalidQuestionException, QuesNotFound)), st)
    ensures out.0.Ok? ==> out.0.value == Response(questionUuid, HttpOk)
    ensures out.0.Ok? ==> QuestionService.GetQuestionByUuid(st, questionUuid).Ok? && UserService.GetCurrentUser(st, token, now).Ok?
    ensures out.0.Ok? ==> var q := QuestionService.GetQuestionByUuid(st, questionUuid).value;
      && MayEdit(UserService.GetCurrentUser(st, token, now).value, q.user)
      && out.1 == MergeQuestion(st, q.(content := content)).1
    ensures QuestionService.GetQuestionByUuid(st, questionUuid).Ok? && UserService.GetCurrentUser(st, token, now).Ok? ==>
      var q := QuestionService.GetQuestionByUuid(st, questionUuid).value;
      MayEdit(UserService.GetCurrentUser(st, token, now).value, q.user) && FitsQuestion(q.(content := content)) ==> out.0.Ok?
    ensures out.0.Err? ==> out.1 == st
  {
    match QuestionService.GetQuestionByUuid(st, questionUuid)
    case Err(e) => (Err(e), st)
    case Ok(q) =>
      var (edited, st') := QuestionService.EditQuestionOutcome(st, token, q.(content := content), now);
      if edited.Ok? then (Ok(Response(edited.value, HttpOk)), st') else (Err(edited.error), st)
  }

  method EditQuestion(db: Database, token: string, questionUuid: string, content: string, now: Time)
    returns (r: Result<Response<string>>)
    modifies db
    ensures (r, db.State()) == EditQuestionOutcome(old(db.State()), token, questionUuid, content, now)
  {
    var question := QuestionService.GetQuestionByUuid(db.State(), questionUuid);
    if question.Err? {
      return Err(question.error);
    }
    var changed := question.value.(content := content);
    var edited := QuestionService.EditQuestion(db, token, changed, now);
    if edited.Err? {
      return Err(edited.error);
    }
    r := Ok(Response(edited.value, HttpOk));
  }

  /** `deleteQuestion`: the question is looked up first and then handed to
      the service, which checks the session, the owner and the role. */
  function DeleteQuestionOutcome(st: Store, token: string, questionUuid: string, now: Time)
    : (out: (Result<Response<string>>, Store))
    ensures (forall q :: q in st.questions ==> q.uuid != questionUuid) ==>
      out == (Err(Raise(InvalidQuestionException, QuesNotFound)), st)
    ensures out.0.Ok? ==> out.0.value == Response(questionUuid, HttpOk)
    ensures out.0.Ok? ==> QuestionService.GetQuestionByUuid(st, questionUuid).Ok? && UserService.GetCurrentUser(st, token, now).Ok?
    ensures out.0.Ok? ==> var q := QuestionService.GetQuestionByUuid(st, questionUuid).value;
      && MayDelete(UserService.GetCurrentUser(st, token, now).value, q.user)
      && out.1 == DeleteQuestionCascade(st, q)
    ensures QuestionService.GetQuestionByUuid(st, questionUuid).Ok? && UserService.GetCurrentUser(st, token, now).Ok? ==>
      MayDelete(UserService.GetCurrentUser(st, token, now).value, QuestionService.GetQuestionByUuid(st, questionUuid).value.user) ==> out.0.Ok?
    ensures out.0.Err? ==> out.1 == st
  {
    match QuestionService.GetQuestionByUuid(st, questionUuid)
    case Err(e) => (Err(e), st)
    case Ok(q) =>
      var (deleted, st') := QuestionService.DeleteQuestionOutcome(st, token, q, now);
      if deleted.Ok? then (Ok(Response(deleted.value, HttpOk)), st') else (Err(deleted.error), st)
  }

  method DeleteQuestion(db: Database, token: string, questionUuid: string, now: Time)
    returns (r: Result<Response<string>>)
    modifies db
    ensures (r, db.State()) == DeleteQuestionOutcome(old(db.State()), token, questionUuid, now)
  {
    var question := QuestionService.GetQuestionByUuid(db.State(), questionUuid);
    if question.Err? {
      return Err(question.error);
    }
    var deleted := QuestionService.DeleteQuestion(db, token, question.value, now);
    if deleted.Err? {
      return Err(deleted.error);
    }
    r := Ok(Response(deleted.value, HttpOk));
  }

  /** The lookup comes before the session check: an unknown question uuid is
      reported as QUES-001 even when the token names no session at all,
      while a known question with such a token is refused as not signed
      in. */
  lemma LookupBeforeSession(st: Store, token: string, questionUuid: string, content: string, now: Time)
    requires forall a :: a in st.sessions ==> a.accessToken != token
    ensures (forall q :: q in st.questions ==> q.uuid != questionUuid) ==>
      EditQuestionOutcome(st, token, questionUuid, content, now).0.error.code == "QUES-001" &&
      DeleteQuestionOutcome(st, token, questionUuid, now).0.error.code == "QUES-001"
    ensures QuestionService.GetQuestionByUuid(st, questionUuid).Ok? ==>
      EditQuestionOutcome(st, token, questionUuid, content, now).0 == Err(Raise(AuthorizationFailedException, UserNotSignedIn)) &&
      DeleteQuestionOutcome(st, token, questionUuid, now).0 == Err(Raise(AuthorizationFailedException, UserNotSignedIn))
  {
    var refused := Err(Raise(AuthorizationFailedException, UserNotSignedIn));
    assert UserService.GetCurrentUser(st, token, now) == refused;
    assert QuestionService.Rewrap(refused.error, QuesEditAuthFailure) == refused.error;
    assert QuestionService.Rewrap(refused.error, QuesDeleteAuthFailure) == refused.error;
  }
}
