/** The create and edit handlers for the three entity kinds
    (`create_question`, `edit_question`, `create_answer`, `edit_answer`,
    `create_comment`, `edit_comment`). The three copies differ only in the
    permission strings, templates and routes they name, so each is one
    function here, parameterised by the kind. The form classes are not part
    of this model: a `Submission` stands for what they make of one POST body. */
module Editing {
  import opened Entities
  import opened Http

  datatype Kind = QuestionKind | AnswerKind | CommentKind

  /** What the entity's form classes make of a POST body: whether the form
      of each variant validates, the row `Form(request.POST).save()` stores,
      and the row `Form(request.POST, instance=row).save()` writes over `row`. */
  datatype Submission<!T> = Submission(
    isValid: FormVariant -> bool,
    created: Row<T>,
    update: (FormVariant, Row<T>) -> Row<T>)

  /** The `permission_required` argument of each create handler. Note the
      answer's add permission sits under `questions.` while its change
      permission sits under `answers.`. */
  function AddPermission(k: Kind): string {
    match k
    case QuestionKind => "questions.add_question"
    case AnswerKind => "questions.add_answer"
    case CommentKind => "answers.add_comment"
  }

  /** The `has_perm` argument of each edit handler. */
  function ChangePermission(k: Kind): string {
    match k
    case QuestionKind => "questions.change_question"
    case AnswerKind => "answers.change_answer"
    case CommentKind => "answers.change_comment"
  }

  /** Template of the create page. */
  function NewTemplate(k: Kind): string {
    match k
    case QuestionKind => "questions/new.html"
    case AnswerKind => "answers/new.html"
    case CommentKind => "answers/comments.html"
  }

  /** Template of the edit page. */
  function EditTemplate(k: Kind): string {
    match k
    case QuestionKind => "questions/edit.html"
    case AnswerKind => "answers/new.html"
    case CommentKind => "answers/comments.html"
  }

  /** Route a successful create redirects to. */
  function ListRoute(k: Kind): string {
    match k
    case QuestionKind => "questions:list"
    case AnswerKind => "answers:list"
    case CommentKind => "answers:list"
  }

  /** Route a successful edit redirects to, with the entity's key. */
  function ShowRoute(k: Kind): string {
    match k
    case QuestionKind => "questions:show"
    case AnswerKind => "answers:show"
    case CommentKind => "comments:show"
  }

  /** The edit handlers' guard: the requester owns the entity or holds the
      kind's change permission. */
  predicate MayEdit(k: Kind, u: User, owner: UserId) {
    u.id == owner || HasPerm(u, ChangePermission(k))
  }

  /** The owner gets the restricted form, anyone else (a privileged
      non-owner, once the guard has passed) the full one. */
  function VariantFor(u: User, owner: UserId): FormVariant {
    if u.id == owner then Disabled else Full
  }

  /** The response and the new table after one request to a create handler. */
  function CreateResult<T>(k: Kind, t: seq<Row<T>>, user: Option<User>, m: Method, sub: Submission<T>)
    : (r: (Response, seq<Row<T>>))
    ensures user.None? ==> r.0 == LoginRedirect
    ensures user.Some? && !HasPerm(user.value, AddPermission(k)) ==> r.0 == Forbidden
    ensures r.0.Redirect? <==>
              user.Some? && HasPerm(user.value, AddPermission(k)) && m.Post? && sub.isValid(Full)
    ensures r.0.Redirect? ==> r.0 == Redirect(ListRoute(k), []) && r.1 == t + [sub.created.(id := NextId(t))]
    ensures user.Some? && HasPerm(user.value, AddPermission(k)) && !(m.Post? && sub.isValid(Full)) ==>
              r.0 == Render(NewTemplate(k), None, None, Some(Form(Full, m.Post?)))
    ensures !r.0.Redirect? ==> r.1 == t
    ensures Keyed(t) ==> Keyed(r.1)
  {
    if user.None? then (LoginRedirect, t)
    else if !HasPerm(user.value, AddPermission(k)) then (Forbidden, t)
    else if m.Get? then (Render(NewTemplate(k), None, None, Some(Form(Full, false))), t)
    else if sub.isValid(Full) then
      var t' := t + [sub.created.(id := NextId(t))];
      assert Keyed(t) ==> Keyed(t') by {
        if Keyed(t) { InsertKeyed(t, sub.created); }
      }
      (Redirect(ListRoute(k), []), t')
    else (Render(NewTemplate(k), None, None, Some(Form(Full, true))), t)
  }

  /** The response and the new table after one request to an edit handler, as
      the handlers are written: a POST calls `save()` on the bound form
      without asking whether it is valid. A model form refuses to save a
      form with errors by raising an exception the handler does not catch,
      so an invalid POST ends in a server error and writes nothing. */
  function EditResult<T>(k: Kind, t: seq<Row<T>>, user: Option<User>, id: nat, m: Method, sub: Submission<T>)
    : (r: (Response, seq<Row<T>>))
    ensures user.None? ==> r.0 == LoginRedirect
    ensures user.Some? && !HasId(t, id) ==> r.0 == NotFound
    ensures !r.0.Redirect? ==> r.1 == t
    ensures r.0.Redirect? ==> r.0 == Redirect(ShowRoute(k), [id])
    ensures r.0.Redirect? || r.0.Render? || r.0.ServerError? ==>
              user.Some? && exists i :: 0 <= i < |t| && t[i].id == id && MayEdit(k, user.value, t[i].owner)
    ensures |r.1| == |t| && forall j :: 0 <= j < |t| ==> r.1[j].id == t[j].id
    ensures Keyed(t) ==> Keyed(r.1)
  {
    if user.None? then (LoginRedirect, t)
    else match Find(t, id)
      case None => (NotFound, t)
      case Some(i) =>
        var u := user.value;
        var owner := t[i].owner;
        var v := VariantFor(u, owner);
        if !MayEdit(k, u, owner) then (Forbidden, t)
        else if m.Post? then
          if sub.isValid(v) then (Redirect(ShowRoute(k), [id]), t[i := sub.update(v, t[i]).(id := id)])
          else (ServerError, t)
        else
          (Render(EditTemplate(k), Some(id), None, Some(Form(v, false))), t)
  }

  /** The edit handlers with the validity gate the create handlers have: an
      invalid POST redisplays the bound form and saves nothing. */
  function EditCheckedResult<T>(k: Kind, t: seq<Row<T>>, user: Option<User>, id: nat, m: Method, sub: Submission<T>)
    : (r: (Response, seq<Row<T>>))
    ensures !r.0.Redirect? ==> r.1 == t
    ensures r.0.Redirect? ==>
              user.Some? && exists i :: 0 <= i < |t| && t[i].id == id && MayEdit(k, user.value, t[i].owner)
                                          && sub.isValid(VariantFor(user.value, t[i].owner))
    ensures Keyed(t) ==> Keyed(r.1)
  {
    if user.None? then (LoginRedirect, t)
    else match Find(t, id)
      case None => (NotFound, t)
      case Some(i) =>
        var u := user.value;
        var owner := t[i].owner;
        var v := VariantFor(u, owner);
        if !MayEdit(k, u, owner) then (Forbidden, t)
        else if m.Post? && sub.isValid(v) then
          (Redirect(ShowRoute(k), [id]), t[i := sub.update(v, t[i]).(id := id)])
        else
          (Render(EditTemplate(k), Some(id), None, Some(Form(v, m.Post?))), t)
  }

  /** Authorization truth table: on an existing entity, a logged-in requester
      is refused exactly when it neither owns the entity nor holds the
      change permission, and a refusal changes nothing. */
  lemma EditForbiddenIff<T>(k: Kind, t: seq<Row<T>>, u: User, i: nat, m: Method, sub: Submission<T>)
    requires Keyed(t) && i < |t|
    ensures var r := EditResult(k, t, Some(u), t[i].id, m, sub);
      && (r.0 == Forbidden <==> u.id != t[i].owner && !HasPerm(u, ChangePermission(k)))
      && (r.0 == Forbidden ==> r.1 == t)
  {
    FindUnique(t, i, t[i].id);
  }

  /** Variant choice: an allowed requester sees, and on POST saves through,
      the restricted form when it owns the entity and the full form otherwise;
      a POST that form rejects fails and writes nothing. */
  lemma EditUsesVariant<T>(k: Kind, t: seq<Row<T>>, u: User, i: nat, m: Method, sub: Submission<T>)
    requires Keyed(t) && i < |t| && MayEdit(k, u, t[i].owner)
    ensures var v := if u.id == t[i].owner then Disabled else Full;
      var r := EditResult(k, t, Some(u), t[i].id, m, sub);
      && (m.Get? ==> r == (Render(EditTemplate(k), Some(t[i].id), None, Some(Form(v, false))), t))
      && (m.Post? && sub.isValid(v) ==>
            r == (Redirect(ShowRoute(k), [t[i].id]), t[i := sub.update(v, t[i]).(id := t[i].id)]))
      && (m.Post? && !sub.isValid(v) ==> r == (ServerError, t))
  {
    FindUnique(t, i, t[i].id);
  }

  /** A privileged non-owner always gets the full form, an owner always the
      restricted one, whatever permissions the owner holds. */
  lemma VariantTruthTable(k: Kind, u: User, owner: UserId)
    requires MayEdit(k, u, owner)
    ensures VariantFor(u, owner) == Disabled <==> u.id == owner
    ensures VariantFor(u, owner) == Full <==> u.id != owner && HasPerm(u, ChangePermission(k))
  {
  }

  /** An edit on a key no row carries is a Not-Found and changes nothing;
      an anonymous edit is sent to log in before the lookup. */
  lemma EditMissing<T>(k: Kind, t: seq<Row<T>>, user: Option<User>, id: nat, m: Method, sub: Submission<T>)
    requires user.None? || !HasId(t, id)
    ensures EditResult(k, t, user, id, m, sub) == (if user.None? then LoginRedirect else NotFound, t)
  {
  }

  /** The restricted form keeps the owner if it never reassigns one. */
  ghost predicate LocksOwner<T(!new)>(sub: Submission<T>) {
    forall row :: sub.update(Disabled, row).owner == row.owner
  }

  /** An owner's edit never hands the entity to someone else, given a
      restricted form that locks the owner field. */
  lemma OwnerEditKeepsOwner<T(!new)>(k: Kind, t: seq<Row<T>>, u: User, i: nat, m: Method, sub: Submission<T>)
    requires Keyed(t) && i < |t| && u.id == t[i].owner && LocksOwner(sub)
    ensures EditResult(k, t, Some(u), t[i].id, m, sub).1[i].owner == u.id
  {
    EditUsesVariant(k, t, u, i, m, sub);
  }

  /** As written, an edit POST by an allowed requester whose selected form
      does not validate ends in a server error, where the create handlers
      redisplay the bound form. */
  lemma EditFailsOnInvalidForm<T>(k: Kind, t: seq<Row<T>>, u: User, i: nat, sub: Submission<T>)
    requires Keyed(t) && i < |t| && MayEdit(k, u, t[i].owner)
    requires !sub.isValid(VariantFor(u, t[i].owner))
    ensures EditResult(k, t, Some(u), t[i].id, Post, sub) == (ServerError, t)
  {
    EditUsesVariant(k, t, u, i, Post, sub);
  }

  /** With the gate, an invalid POST redisplays the bound form and the table
      is unchanged, ... */
  lemma EditCheckedRejectsInvalid<T>(k: Kind, t: seq<Row<T>>, u: User, i: nat, sub: Submission<T>)
    requires Keyed(t) && i < |t| && MayEdit(k, u, t[i].owner)
    requires !sub.isValid(VariantFor(u, t[i].owner))
    ensures EditCheckedResult(k, t, Some(u), t[i].id, Post, sub)
         == (Render(EditTemplate(k), Some(t[i].id), None, Some(Form(VariantFor(u, t[i].owner), true))), t)
  {
    FindUnique(t, i, t[i].id);
  }

  /** ... while a POST whose selected form validates is saved through that
      form and redirected to the show route, ... */
  lemma EditCheckedSavesValid<T>(k: Kind, t: seq<Row<T>>, u: User, i: nat, sub: Submission<T>)
    requires Keyed(t) && i < |t| && MayEdit(k, u, t[i].owner)
    requires sub.isValid(VariantFor(u, t[i].owner))
    ensures EditCheckedResult(k, t, Some(u), t[i].id, Post, sub)
         == (Redirect(ShowRoute(k), [t[i].id]), t[i := sub.update(VariantFor(u, t[i].owner), t[i]).(id := t[i].id)])
  {
    FindUnique(t, i, t[i].id);
  }

  /** ... and it differs from the handlers only where they fail with a server
      error, ... */
  lemma EditCheckedAgreesUnlessFailed<T>(k: Kind, t: seq<Row<T>>, user: Option<User>, id: nat, m: Method, sub: Submission<T>)
    requires !EditResult(k, t, user, id, m, sub).0.ServerError?
    ensures EditCheckedResult(k, t, user, id, m, sub) == EditResult(k, t, user, id, m, sub)
  {
  }

  /** ... so whenever every variant validates, it behaves exactly as they do. */
  lemma EditCheckedAgreesWhenValid<T>(k: Kind, t: seq<Row<T>>, user: Option<User>, id: nat, m: Method, sub: Submission<T>)
    requires user.Some? ==> forall v :: sub.isValid(v)
    ensures EditCheckedResult(k, t, user, id, m, sub) == EditResult(k, t, user, id, m, sub)
  {
  }
}
