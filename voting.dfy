/** `VoteView.vote`: look the question up, resolve the submitted `answer`
    key among that question's own answers, and either count one vote for it
    and redirect to the answers page, or redisplay the detail page with a
    fixed message and change nothing. */
module Voting {
  import opened Entities
  import opened Http

  const NoAnswerMessage := "You didn't post an answer."
  const DetailTemplate := "questions/detail.html"
  const AnswersRoute := "questions:answers"

  /** The `answer` field of the POST body: absent (a KeyError), not a number
      (the primary-key lookup raises a conversion error the handler does not
      catch), or a number. */
  datatype Posted = Missing | NonNumeric | Numeric(id: int)

  /** `question.answer_set.get(pk=aid)` finds a row. */
  predicate Resolves(answers: seq<Row<Answer>>, qid: nat, aid: int) {
    exists j :: 0 <= j < |answers| && answers[j].id == aid && answers[j].fields.question == qid
  }

  /** The detail page redisplayed with the error message. */
  function Rejected(qid: nat): Response {
    Render(DetailTemplate, Some(qid), Some(NoAnswerMessage), None)
  }

  /** `selected_answer.votes += 1` */
  function WithVote(a: Row<Answer>): Row<Answer> {
    a.(fields := a.fields.(votes := a.fields.votes + 1))
  }

  /** The response and the new answer table after one vote request. */
  function VoteResult(questions: seq<Row<Question>>, answers: seq<Row<Answer>>, qid: nat, posted: Posted)
    : (r: (Response, seq<Row<Answer>>))
    requires Keyed(answers)
    ensures r.0.NotFound? <==> !HasId(questions, qid)
    ensures HasId(questions, qid) && posted.NonNumeric? ==> r.0 == ServerError
    ensures r.0.Redirect? <==> HasId(questions, qid) && posted.Numeric? && Resolves(answers, qid, posted.id)
    ensures !r.0.Redirect? ==> r.1 == answers
    ensures |r.1| == |answers|
    ensures forall k :: 0 <= k < |answers| ==>
              r.1[k].id == answers[k].id && r.1[k].fields.votes >= answers[k].fields.votes
  {
    if Find(questions, qid).None? then (NotFound, answers)
    else match posted
      case Missing => (Rejected(qid), answers)
      case NonNumeric => (ServerError, answers)
      case Numeric(aid) =>
        match Find(answers, aid)
        case None => (Rejected(qid), answers)
        case Some(i) =>
          if answers[i].fields.question == qid then
            (Redirect(AnswersRoute, [qid]), answers[i := WithVote(answers[i])])
          else
            (Rejected(qid), answers)
  }

  /** A vote for an answer of the question adds exactly one to that answer's
      count, leaves its other columns and every other answer as they were,
      and redirects to the question's answers page. */
  lemma VoteCountsOne(questions: seq<Row<Question>>, answers: seq<Row<Answer>>, qid: nat, j: nat)
    requires Keyed(answers) && HasId(questions, qid)
    requires j < |answers| && answers[j].fields.question == qid
    ensures var r := VoteResult(questions, answers, qid, Numeric(answers[j].id));
      && r.0 == Redirect(AnswersRoute, [qid])
      && r.1[j].fields.votes == answers[j].fields.votes + 1
      && r.1[j] == answers[j].(fields := answers[j].fields.(votes := answers[j].fields.votes + 1))
      && forall k :: 0 <= k < |answers| && k != j ==> r.1[k] == answers[k]
  {
    FindUnique(answers, j, answers[j].id);
  }

  /** A missing `answer` key, or an id that is not one of this question's
      answers, redisplays the detail page with the message and counts nothing. */
  lemma VoteRejected(questions: seq<Row<Question>>, answers: seq<Row<Answer>>, qid: nat, posted: Posted)
    requires Keyed(answers) && HasId(questions, qid)
    requires posted.Missing? || (posted.Numeric? && !Resolves(answers, qid, posted.id))
    ensures VoteResult(questions, answers, qid, posted) == (Rejected(qid), answers)
  {
  }

  /** Sum of the vote counts of a table. */
  function TotalVotes(answers: seq<Row<Answer>>): nat {
    if |answers| == 0 then 0 else answers[0].fields.votes + TotalVotes(answers[1..])
  }

  lemma {:induction false} TotalVotesUpdate(answers: seq<Row<Answer>>, i: nat, a: Row<Answer>)
    requires i < |answers|
    ensures TotalVotes(answers[i := a]) == TotalVotes(answers) - answers[i].fields.votes + a.fields.votes
  {
    if i == 0 {
      assert answers[i := a][1..] == answers[1..];
    } else {
      assert answers[i := a][1..] == answers[1..][i - 1 := a];
      TotalVotesUpdate(answers[1..], i - 1, a);
    }
  }

  /** Over the whole table a request adds one vote when it redirects and none
      otherwise: votes are counted once per accepted POST, never removed. */
  lemma VoteAddsAtMostOne(questions: seq<Row<Question>>, answers: seq<Row<Answer>>, qid: nat, posted: Posted)
    requires Keyed(answers)
    ensures var r := VoteResult(questions, answers, qid, posted);
      TotalVotes(r.1) == TotalVotes(answers) + (if r.0.Redirect? then 1 else 0)
  {
    var r := VoteResult(questions, answers, qid, posted);
    if r.0.Redirect? {
      var i := Find(answers, posted.id).value;
      TotalVotesUpdate(answers, i, WithVote(answers[i]));
    }
  }

  /** Each repeated submission of the same vote counts again: there is no
      de-duplication, so two accepted requests add two votes. */
  lemma VoteTwiceCountsTwice(questions: seq<Row<Question>>, answers: seq<Row<Answer>>, qid: nat, j: nat)
    requires Keyed(answers) && HasId(questions, qid)
    requires j < |answers| && answers[j].fields.question == qid
    ensures var once := VoteResult(questions, answers, qid, Numeric(answers[j].id)).1;
      && Keyed(once)
      && VoteResult(questions, once, qid, Numeric(answers[j].id)).1[j].fields.votes == answers[j].fields.votes + 2
  {
    VoteCountsOne(questions, answers, qid, j);
    var once := VoteResult(questions, answers, qid, Numeric(answers[j].id)).1;
    assert once[j].id == answers[j].id && once[j].fields.question == qid;
    VoteCountsOne(questions, once, qid, j);
  }
}
