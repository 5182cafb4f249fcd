/** The request handlers over an in-memory store of the three tables. The
    read-only pages are functions of the store's tables; the handlers that
    save (vote, create, edit) are methods of the store that change its
    tables as the corresponding result function says. */
module Views {
  import opened Entities
  import opened Http
  import opened Voting
  import opened Editing

  const AnswersTemplate := "questions/answers.html"

  /** `DetailView.detail`: the question's page, or Not-Found. */
  function Detail(questions: seq<Row<Question>>, qid: nat): (r: Response)
    ensures r.NotFound? <==> !HasId(questions, qid)
    ensures !r.NotFound? ==> r == Render(DetailTemplate, Some(qid), None, None)
  {
    if Find(questions, qid).None? then NotFound else Render(DetailTemplate, Some(qid), None, None)
  }

  /** `AnswersView.answers`: the question's answers page, or Not-Found. */
  function AnswersPage(questions: seq<Row<Question>>, qid: nat): (r: Response)
    ensures r.NotFound? <==> !HasId(questions, qid)
    ensures !r.NotFound? ==> r == Render(AnswersTemplate, Some(qid), None, None)
  {
    if Find(questions, qid).None? then NotFound else Render(AnswersTemplate, Some(qid), None, None)
  }

  /** Creating a question with a valid form and then opening its detail page
      finds the submitted row under the key the store gave it. */
  lemma CreateThenDetail(t: seq<Row<Question>>, u: User, sub: Submission<Question>)
    requires HasPerm(u, AddPermission(QuestionKind)) && sub.isValid(Full)
    ensures var r := CreateResult(QuestionKind, t, Some(u), Post, sub);
      var id := NextId(t);
      && r.0 == Redirect(ListRoute(QuestionKind), [])
      && Find(r.1, id) == Some(|t|)
      && r.1[|t|] == sub.created.(id := id)
      && Detail(r.1, id) == Render(DetailTemplate, Some(id), None, None)
  {
    var id := NextId(t);
    var t' := t + [sub.created.(id := id)];
    var r := CreateResult(QuestionKind, t, Some(u), Post, sub);
    assert r.0.Redirect?;
    assert r.1 == t';
    assert t'[|t'| - 1].id == id;
  }

  class Store {
    var questions: seq<Row<Question>>
    var answers: seq<Row<Answer>>
    var comments: seq<Row<Comment>>

    /** Primary keys are unique in every table. */
    ghost predicate Valid()
      reads this
    {
      Keyed(questions) && Keyed(answers) && Keyed(comments)
    }

    constructor ()
      ensures Valid()
      ensures questions == [] && answers == [] && comments == []
    {
      questions, answers, comments := [], [], [];
    }

    /** `VoteView.vote` */
    method Vote(qid: nat, posted: Posted) returns (resp: Response)
      requires Valid()
      modifies this
      ensures Valid()
      ensures (resp, answers) == VoteResult(old(questions), old(answers), qid, posted)
      ensures questions == old(questions) && comments == old(comments)
    {
      if Find(questions, qid).None? {
        return NotFound;
      }
      match posted
      case Missing =>
        resp := Rejected(qid);
      case NonNumeric =>
        resp := ServerError;
      case Numeric(aid) =>
        var found := Find(answers, aid);
        if found.None? || answers[found.value].fields.question != qid {
          return Rejected(qid);
        }
        var i := found.value;
        var selected := answers[i];
        selected := selected.(fields := selected.fields.(votes := selected.fields.votes + 1));
        answers := answers[i := selected];
        resp := Redirect(AnswersRoute, [qid]);
    }

    /** `create_question` */
    method CreateQuestion(user: Option<User>, m: Method, sub: Submission<Question>) returns (resp: Response)
      requires Valid()
      modifies this
      ensures Valid()
      ensures (resp, questions) == CreateResult(QuestionKind, old(questions), user, m, sub)
      ensures answers == old(answers) && comments == old(comments)
    {
      var r := CreateResult(QuestionKind, questions, user, m, sub);
      resp, questions := r.0, r.1;
    }

    /** `edit_question` */
    method EditQuestion(user: Option<User>, id: nat, m: Method, sub: Submission<Question>) returns (resp: Response)
      requires Valid()
      modifies this
      ensures Valid()
      ensures (resp, questions) == EditResult(QuestionKind, old(questions), user, id, m, sub)
      ensures answers == old(answers) && comments == old(comments)
    {
      var r := EditResult(QuestionKind, questions, user, id, m, sub);
      resp, questions := r.0, r.1;
    }

    /** `create_answer` */
    method CreateAnswer(user: Option<User>, m: Method, sub: Submission<Answer>) returns (resp: Response)
      requires Valid()
      modifies this
      ensures Valid()
      ensures (resp, answers) == CreateResult(AnswerKind, old(answers), user, m, sub)
      ensures questions == old(questions) && comments == old(comments)
    {
      var r := CreateResult(AnswerKind, answers, user, m, sub);
      resp, answers := r.0, r.1;
    }

    /** `edit_answer` */
    method EditAnswer(user: Option<User>, id: nat, m: Method, sub: Submission<Answer>) returns (resp: Response)
      requires Valid()
      modifies this
      ensures Valid()
      ensures (resp, answers) == EditResult(AnswerKind, old(answers), user, id, m, sub)
      ensures questions == old(questions) && comments == old(comments)
    {
      var r := EditResult(AnswerKind, answers, user, id, m, sub);
      resp, answers := r.0, r.1;
    }

    /** `create_comment` */
    method CreateComment(user: Option<User>, m: Method, sub: Submission<Comment>) returns (resp: Response)
      requires Valid()
      modifies this
      ensures Valid()
      ensures (resp, comments) == CreateResult(CommentKind, old(comments), user, m, sub)
      ensures questions == old(questions) && answers == old(answers)
    {
      var r := CreateResult(CommentKind, comments, user, m, sub);
      resp, comments := r.0, r.1;
    }

    /** `edit_comment` */
    method EditComment(user: Option<User>, id: nat, m: Method, sub: Submission<Comment>) returns (resp: Response)
      requires Valid()
      modifies this
      ensures Valid()
      ensures (resp, comments) == EditResult(CommentKind, old(comments), user, id, m, sub)
      ensures questions == old(questions) && answers == old(answers)
    {
      var r := EditResult(CommentKind, comments, user, id, m, sub);
      resp, comments := r.0, r.1;
    }
  }
}
