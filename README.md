# Question board request handlers, modelled in Dafny

This project models the request handlers of a small question-and-answer
board (`mysite/questions/views.py`) over an in-memory store with three
tables: questions, answers and comments. It covers:

- the index page query (published questions, newest first, at most five);
- the question detail and answers pages, each with a lookup that yields
  Not-Found;
- the vote handler, the one place where a counter changes;
- the create handlers, which persist only a valid form;
- the edit handlers, including their owner-or-permission guard and their
  choice between the full form and the restricted ("Disabled") form.

Modules:

- `Entities` (entities.dfy): the stored rows and the key operations the ORM
  provides. These are primary-key lookup (`Find`) and the key a new row
  receives (`NextId`). A table is a sequence of rows with distinct keys
  (`Keyed`).
- `Http` (http.dfy): the requesting user and its permission strings, the
  request method, form variants and the `Response` datatype. The response
  is one of: redirect, render, Not-Found, Forbidden, login redirect, or
  server error.
- `Listing` (listing.dfy): `IndexView.get_queryset`.
- `Voting` (voting.dfy): `VoteView.vote` as a function from the tables to
  a response and a new answer table, with its properties.
- `Editing` (editing.dfy): one create function and one edit function for
  all three entity kinds. They are parameterised by the kind's exact
  permission strings, templates and routes. This module also holds the
  authorization and form-variant lemmas.
- `Views` (views.dfy): the detail and answers pages, plus the `Store`
  class. Its `Vote`, `Create*` and `Edit*` methods change the store's
  tables exactly as the result functions say. Each method changes no
  other table, and each keeps primary keys unique.

The clock (`now`) and the requesting user (`Option<User>`, where `None` is
an anonymous request) are parameters. The form classes are abstract. A
`Submission` gives three things: whether each form variant validates, the
row a create form saves, and the row an edit form writes over an existing
row.

The permission strings are kept exactly as the source spells them. They
are not consistent across apps. The answer's add permission is
`questions.add_answer` (views.py:115), but its change permission is
`answers.change_answer` (views.py:138).

## Model

| member | source | states |
|---|---|---|
| `Entities.Find` | mysite/questions/views.py:32 | The lookup behind `get_object_or_404` returns an index whose row carries the key. It returns None exactly when no row has that key. |
| `Entities.FindUnique` | mysite/questions/views.py:52 | In a table with unique primary keys, lookup by key returns the one row that carries it. |
| `Entities.NextId` | mysite/questions/views.py:78 | The key the store gives a row saved by a create form is positive and larger than every key in use. |
| `Entities.InsertKeyed` | mysite/questions/views.py:78 | Saving a new row under that key keeps keys unique, and the new row can then be found by its key. |
| `Listing.Published` | mysite/questions/views.py:22-23 | `filter(pub_date__lte=now)` keeps each row published by `now`, with its multiplicity, and drops every future-dated row. |
| `Listing.Insert` | mysite/questions/views.py:24 | Inserting into a newest-first sequence keeps it newest-first and adds exactly that one row. |
| `Listing.SortNewestFirst` | mysite/questions/views.py:24 | `order_by('-pub_date')` gives a newest-first permutation of its input. |
| `Listing.Latest` | mysite/questions/views.py:17-24 | The index list has at most 5 entries. Each entry has `pub_date <= now`, entries are in non-increasing `pub_date` order, and each entry is a stored question. |
| `Listing.LatestAreMostRecent` | mysite/questions/views.py:17-24 | A question published by `now` is left off the list only when the list already has 5 entries. Every listed entry is then at least as recent as it. So the list holds the most recent questions, and all of them when fewer than 5 are published. |
| `Voting.VoteResult` | mysite/questions/views.py:49-65 | Not-Found exactly when the question is missing. A server error for a non-numeric `answer` on an existing question. A redirect exactly when the posted id is one of that question's answers. Otherwise the answer table is unchanged. Keys are unchanged and no count decreases. |
| `Voting.VoteCountsOne` | mysite/questions/views.py:52-65 | Voting for an answer of the question adds exactly 1 to that answer's `votes`. Its other columns and every other answer stay the same, and the response redirects to `questions:answers` for that question. |
| `Voting.VoteRejected` | mysite/questions/views.py:51-58 | A missing `answer` key, or an id that is not among the question's answers, re-renders `questions/detail.html` with "You didn't post an answer." and leaves the table unchanged. |
| `Voting.VoteAddsAtMostOne` | mysite/questions/views.py:60-61 | Over the whole answer table, a vote request adds 1 vote when it redirects and 0 otherwise. |
| `Voting.VoteTwiceCountsTwice` | mysite/questions/views.py:59-65 | Submitting the same accepted vote twice adds 2. Repeated submissions are not de-duplicated. |
| `Editing.CreateResult` | mysite/questions/views.py:70-86 | Create handlers (the answer and comment copies are at 114-130 and 158-174). Anonymous requests go to login, and missing the add permission gives Forbidden. A new row is saved, with a redirect to the kind's list route, exactly on a POST whose form is valid. For a permitted user, a GET renders the create template with an empty form, and an invalid POST renders it with the bound form. In every case but the redirect the table is unchanged. |
| `Editing.EditResult` | mysite/questions/views.py:89-112 | Edit handlers (the answer and comment copies are at 133-156 and 177-200). Anonymous requests go to login, and a missing key gives Not-Found. Only a redirect changes the table, and a redirect goes to the kind's show route with the key. A page, a redirect or a failed save happens only for the owner or a holder of the change permission. Keys and row count are unchanged. |
| `Editing.EditForbiddenIff` | mysite/questions/views.py:93-95 | On an existing entity, a logged-in requester gets Forbidden exactly when it is neither the owner nor a holder of the kind's change permission. A refusal leaves the table unchanged. |
| `Editing.EditUsesVariant` | mysite/questions/views.py:97-112 | For an allowed requester, GET renders the edit template with the restricted form for the owner and the full form otherwise. POST goes through that same variant. When the form validates, POST saves, keeps the key and redirects to the show route. When it does not, POST ends in a server error and writes nothing. |
| `Editing.VariantTruthTable` | mysite/questions/views.py:98-110 | Among allowed requesters, the owner always gets the Disabled variant, whatever permissions it holds. A privileged non-owner always gets the full variant. |
| `Editing.EditMissing` | mysite/questions/views.py:89-91 | An edit on a key no row carries gives Not-Found and changes nothing. An anonymous edit goes to login before any lookup. |
| `Editing.OwnerEditKeepsOwner` | mysite/questions/views.py:98-99 | An owner's edit leaves the entity with the same owner, provided the restricted form never reassigns the owner. |
| `Editing.EditFailsOnInvalidForm` | mysite/questions/views.py:97-104 | As written, an allowed edit POST whose selected form does not validate ends in a server error and writes nothing. The create handlers re-render the form in that case. |
| `Editing.EditCheckedResult` | mysite/questions/views.py:97-104 | Corrected edit: a redirect, and so a change to the table, happens only for an allowed requester whose selected form validates. |
| `Editing.EditCheckedSavesValid` | mysite/questions/views.py:97-104 | With the validity gate, an allowed POST whose selected variant validates is saved through that variant, and redirects to the show route. This holds even when the other variant would not validate. |
| `Editing.EditCheckedAgreesUnlessFailed` | mysite/questions/views.py:97-104 | The gated edit gives the same response and table as the handlers in every case where they do not end in a server error. |
| `Editing.EditCheckedRejectsInvalid` | mysite/questions/views.py:97-104 | With the validity gate, an invalid edit POST re-renders the bound form of the selected variant and changes nothing. |
| `Editing.EditCheckedAgreesWhenValid` | mysite/questions/views.py:97-104 | When every variant validates, the gated edit and the handler as written give the same response and table. |
| `Views.Detail` | mysite/questions/views.py:31-33 | Not-Found exactly when the question is missing. Otherwise the detail template for that question, never an error. |
| `Views.AnswersPage` | mysite/questions/views.py:40-42 | Not-Found exactly when the question is missing. Otherwise the answers template for that question. |
| `Views.CreateThenDetail` | mysite/questions/views.py:72-79 | After a valid create by a permitted user, the stored row is the submitted one under its new key, and the detail page for that key renders. |
| `Views.Store.Vote` | mysite/questions/views.py:49-65 | Updates the answer table in place, as `VoteResult` says, and returns its response. Questions and comments are unchanged, and keys stay unique. |
| `Views.Store.CreateQuestion` | mysite/questions/views.py:70-86 | Changes only the question table, as `CreateResult` says for questions. |
| `Views.Store.EditQuestion` | mysite/questions/views.py:89-112 | Changes only the question table, as `EditResult` says for questions. |
| `Views.Store.CreateAnswer` | mysite/questions/views.py:114-130 | Changes only the answer table, as `CreateResult` says for answers (`questions.add_answer`). |
| `Views.Store.EditAnswer` | mysite/questions/views.py:133-156 | Changes only the answer table, as `EditResult` says for answers (`answers.change_answer`). |
| `Views.Store.CreateComment` | mysite/questions/views.py:158-174 | Changes only the comment table, as `CreateResult` says for comments. |
| `Views.Store.EditComment` | mysite/questions/views.py:177-200 | Changes only the comment table, as `EditResult` says for comments. |

## Findings

| source | as written | input that shows it | evidently intended | confidence | as-written member | corrected member |
|---|---|---|---|---|---|---|
| mysite/questions/views.py:97-104 | The edit handlers call `save()` on the bound form without calling `is_valid()`. The same happens at lines 141-148 and 185-192. A model form raises an exception when asked to save a form with errors, and the handler does not catch it. | An owner, or a holder of the change permission, POSTs data that the selected form rejects. The request ends in a server error; nothing is written. | The create handlers' gate: re-render the bound form with its errors and save nothing. | medium, not executed | `Editing.EditFailsOnInvalidForm` | `Editing.EditCheckedResult` |

The `Store` edit methods follow the handlers as written, using
`EditResult`. The gated version, `EditCheckedResult`, is proved to
re-render an invalid POST and write nothing (`EditCheckedRejectsInvalid`).
It is proved to save a POST whose selected form validates
(`EditCheckedSavesValid`). It also agrees with the handlers wherever they
do not fail (`EditCheckedAgreesUnlessFailed`).

## Left out

- EditResult: the failed save of an invalid edit form is a bare `ServerError`. The exception's type and message are not modelled.
- Rendering, templates and `reverse`: a response carries only the template or route name, the subject's key, the error message and which form it shows.
- The `login_required`/`permission_required` session machinery: the requester is an explicit `Option<User>` with a permission set. Django's superuser and inactive-user rules for `has_perm` are assumed to be folded into that set.
- The form classes (questions/forms.py, which is not part of this model): validity, the rows a form saves, and which fields the Disabled variants lock are all abstract (`Submission`). `OwnerEditKeepsOwner` assumes the lock as a hypothesis (`LocksOwner`).
- Referential integrity: the rule that an answer names an existing question and a comment an existing answer is the forms' and the database's concern, and is not modelled.
- The answer table is not shown to the answers page. `Render` carries only the question key, as the handler passes only the question.
- `timezone.now()` is the parameter `now`, and publication times are integers.
- Listing.Latest: the order among questions with equal `pub_date` is left open by the database. The model keeps table order, and no proved property depends on it.
- Entities.NextId: the key the database assigns is modelled as one more than the largest key in use. The proved properties need only that the key is unused.
- The `answer` field is modelled before parsing: missing, numeric, or non-numeric. The non-numeric case, where the key conversion raises an error the handler does not catch, is a `ServerError`. Text-to-number parsing is not modelled.
- Request methods other than POST behave as GET, since the handlers test only for POST.
- Lost updates from concurrent `votes += 1` requests are a storage concern and are not modelled.
- The `print` statements in the create handlers are debug output only.
- mysite/questions/urls.py, the routing table, is not part of this model. Its line 11 names `views.vote`, which views.py defines only as a method of `VoteView`. The index, detail and answers routes use the generic class-based views, whose lookup behaves like the one modelled.
- The second `get_object_or_404` in each edit GET branch repeats the first lookup on an unchanged store, so it is folded into the first.
