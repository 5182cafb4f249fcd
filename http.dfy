/** The request and response vocabulary of the handlers: the requesting user
    with its permission set, the request method, which form class a page
    carries, and the response a handler produces. Templates and routes are
    kept as the names the handlers pass to `render` and `reverse`. */
module Http {
  import opened Entities

  /** An authenticated user: its key and the permission strings it holds. */
  datatype User = User(id: UserId, perms: set<string>)

  /** `Get` stands for every method other than POST: the handlers test only
      `request.method == 'POST'`. */
  datatype Method = Get | Post

  /** `Full` is the entity's form class (QuestionForm, AnswerForm,
      CommentForm), `Disabled` its restricted sibling (DisabledQuestionForm, ...). */
  datatype FormVariant = Full | Disabled

  /** The form a rendered page carries; `bound` when it was built from POST data. */
  datatype Form = Form(variant: FormVariant, bound: bool)

  datatype Response =
    | Redirect(route: string, args: seq<nat>)
    | Render(template: string, subject: Option<nat>, errorMessage: Option<string>, form: Option<Form>)
    | NotFound       // Http404 raised by get_object_or_404
    | Forbidden      // PermissionDenied
    | LoginRedirect  // login_required sending an anonymous request to the login page
    | ServerError    // an exception the handler does not catch

  predicate HasPerm(u: User, perm: string) {
    perm in u.perms
  }
}
