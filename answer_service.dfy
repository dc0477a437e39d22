/** The answer service: posting, fetching, editing and deleting an answer and
    listing the answers to a question. It runs no session check of its own:
    editing and deleting take the user the controller has already resolved. */
module AnswerService {
  import opened Common
  import opened Tables
  import opened Entities
  import opened Dao
  import opened ErrorConditions
  import opened Policy
  import QuestionService

  /** `createAnswer` stores the answer as given, under the next key. */
  method CreateAnswer(db: Database, a: Answer) returns (r: Result<Answer>)
    modifies db
    ensures r.Ok? <==> FitsAnswer(a)
    ensures r.Ok? ==> r.value == a.(id := old(db.nextId))
    ensures r.Ok? ==> db.State() == old(db.State()).(answers := old(db.answers) + [r.value], nextId := old(db.nextId) + 1)
    ensures r.Err? ==> r == Err(Persistence(ValidationFailure)) && !FitsAnswer(a) && db.State() == old(db.State())
  {
    r := db.CreateAnswer(a);
  }

  /** `getAnswer`: the answer with uuid `uuid`. */
  function GetAnswerByUuid(st: Store, uuid: string): (r: Result<Answer>)
    ensures (forall a :: a in st.answers ==> a.uuid != uuid) <==>
      r == Err(Raise(AnswerNotFoundException, AnsNotFound))
    ensures Valid(st) && (exists a :: a in st.answers && a.uuid == uuid) ==> r.Ok?
    ensures r.Ok? ==> r.value in st.answers && r.value.uuid == uuid
  {
    match GetAnswer(st, uuid)
    case NoResult => Err(Raise(AnswerNotFoundException, AnsNotFound))
    case NonUnique => Err(Persistence(NonUniqueResult))
    case One(a) => Ok(a)
  }

  /** `editAnswer`: only the owner of the answer may merge it. */
  function EditAnswerOutcome(st: Store, user: User, a: Answer): (out: (Result<string>, Store))
    ensures !MayEdit(user, a.user) ==> out == (Err(Raise(AuthorizationFailedException, AnsEditUnauthorized)), st)
    ensures MayEdit(user, a.user) && FitsAnswer(a) ==> out == (Ok(a.uuid), MergeAnswer(st, a).1)
    ensures out.0.Err? ==> out.1 == st
  {
    if user.id == a.user.id then
      var (m, st') := MergeAnswer(st, a);
      if m.Ok? then (Ok(a.uuid), st') else (Err(m.error), st)
    else
      (Err(Raise(AuthorizationFailedException, AnsEditUnauthorized)), st)
  }

  /** `editAnswer` as the service runs it against the DAO. */
  method EditAnswer(db: Database, user: User, a: Answer) returns (r: Result<string>)
    modifies db
    ensures (r, db.State()) == EditAnswerOutcome(old(db.State()), user, a)
  {
    if user.id != a.user.id {
      return Err(Raise(AuthorizationFailedException, AnsEditUnauthorized));
    }
    var merged := db.UpdateAnswer(a);
    r := if merged.Ok? then Ok(a.uuid) else Err(merged.error);
  }

  /** `deleteAnswer`: the owner or an administrator may delete the answer. */
  function DeleteAnswerOutcome(st: Store, user: User, a: Answer): (out: (Result<string>, Store))
    ensures !MayDelete(user, a.user) ==> out == (Err(Raise(AuthorizationFailedException, AnsDeleteUnauthorized)), st)
    ensures MayDelete(user, a.user) ==> out == (Ok(a.uuid), DeleteAnswerRow(st, a))
  {
    if user.id == a.user.id || IsAdmin(user) then (Ok(a.uuid), DeleteAnswerRow(st, a))
    else (Err(Raise(AuthorizationFailedException, AnsDeleteUnauthorized)), st)
  }

  /** `deleteAnswer` as the service runs it against the DAO. */
  method DeleteAnswer(db: Database, user: User, a: Answer) returns (r: Result<string>)
    modifies db
    ensures (r, db.State()) == DeleteAnswerOutcome(old(db.State()), user, a)
  {
    if !(user.id == a.user.id || IsAdmin(user)) {
      return Err(Raise(AuthorizationFailedException, AnsDeleteUnauthorized));
    }
    db.DeleteAnswer(a);
    r := Ok(a.uuid);
  }

  /** The answers to a question, with the question they refer to. */
  datatype AnswersTo = AnswersTo(question: Question, answers: seq<Answer>)

  /** `getAnswersForQuestion`: the answers to the question with uuid
      `questionUuid`. A missing question is reported with the ANS_GET_FAILURE
      entry instead of QUES_NOT_FOUND. */
  function GetAnswersForQuestion(st: Store, questionUuid: string): (r: Result<AnswersTo>)
    ensures (forall q :: q in st.questions ==> q.uuid != questionUuid) ==>
      r == Err(Raise(InvalidQuestionException, AnsGetFailure))
    ensures Valid(st) && (exists q :: q in st.questions && q.uuid == questionUuid) ==> r.Ok?
    ensures r.Ok? ==> r.value.question in st.questions && r.value.question.uuid == questionUuid
    ensures r.Ok? ==> forall a :: a in r.value.answers <==> a in st.answers && a.questionId == r.value.question.id
  {
    match QuestionService.GetQuestionByUuid(st, questionUuid)
    case Err(e) =>
      if e.Raised? && e.kind == InvalidQuestionException then Err(Raise(InvalidQuestionException, AnsGetFailure))
      else Err(e)
    case Ok(q) => Ok(AnswersTo(q, AnswersOf(st, q)))
  }

  /** The two refusals for a missing question share the code QUES-001 but
      not the message. */
  lemma MissingQuestionReports(st: Store, questionUuid: string)
    requires forall q :: q in st.questions ==> q.uuid != questionUuid
    ensures GetAnswersForQuestion(st, questionUuid).error.code == QuestionService.GetQuestionByUuid(st, questionUuid).error.code
    ensures GetAnswersForQuestion(st, questionUuid).error.message != QuestionService.GetQuestionByUuid(st, questionUuid).error.message
  {
    PairsDistinct(AnsGetFailure, QuesNotFound);
  }

  /** Only the owner edits, whatever the role; the owner or an administrator
      deletes. A refused edit or delete changes nothing. */
  lemma AnswerPolicy(st: Store, user: User, a: Answer)
    ensures EditAnswerOutcome(st, user, a).0.Ok? ==> user.id == a.user.id
    ensures DeleteAnswerOutcome(st, user, a).0.Ok? <==> user.id == a.user.id || IsAdmin(user)
    ensures IsAdmin(user) && user.id != a.user.id ==>
      EditAnswerOutcome(st, user, a) == (Err(Raise(AuthorizationFailedException, AnsEditUnauthorized)), st)
  {
  }

  /** A posted answer with a fresh uuid can be fetched back by that uuid;
      deleting an answer leaves no answer with its key. */
  lemma CreateThenGetAnswer(st: Store, a: Answer)
    requires FitsAnswer(a)
    requires forall b :: b in st.answers ==> b.uuid != a.uuid
    ensures GetAnswerByUuid(InsertAnswer(st, a).1, a.uuid) == InsertAnswer(st, a).0
  {
    var st' := InsertAnswer(st, a).1;
    var p := (b: Answer) => b.uuid == a.uuid;
    forall i | 0 <= i < |st'.answers| && i != |st.answers| ensures !p(st'.answers[i]) {
      assert st.answers[i] in st.answers;
    }
    SingleAt(st'.answers, p, |st.answers|);
  }

  lemma DeleteAnswerRemoves(st: Store, user: User, a: Answer)
    requires DeleteAnswerOutcome(st, user, a).0.Ok?
    ensures forall b :: b in DeleteAnswerOutcome(st, user, a).1.answers ==> b.id != a.id
    ensures forall b :: b in st.answers && b.id != a.id ==> b in DeleteAnswerOutcome(st, user, a).1.answers
  {
  }

  // ---- the operations keep the store valid ----

  /** Editing keeps the store valid when the answer keeps its owner, its
      question and its uuid, as an answer fetched and then changed does. */
  lemma EditAnswerKeepsValid(st: Store, user: User, a: Answer)
    requires Valid(st) && a.user in st.users
    requires exists q :: q in st.questions && q.id == a.questionId
    requires forall b :: b in st.answers && b.id == a.id ==> b.uuid == a.uuid
    ensures Valid(EditAnswerOutcome(st, user, a).1)
  {
    MergeAnswerKeepsValid(st, a);
  }

  lemma DeleteAnswerOutcomeKeepsValid(st: Store, user: User, a: Answer)
    requires Valid(st)
    ensures Valid(DeleteAnswerOutcome(st, user, a).1)
  {
    DeleteAnswerKeepsValid(st, a);
  }
}
