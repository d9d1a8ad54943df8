# Comments widget of the Ride CMS ORM comments module, in Dafny

This project models the decision layer of `CommentsWidget`, the CMS widget that
puts a comment form and a list of comments on a page. The widget's
collaborators (the ORM, the form framework, the translator, routing and
templating) become inputs and recorded outcomes. What is left is pure
functions over small datatypes:

- `CommentsWidget.IndexAction` is the index action. It builds a draft comment
  for the page's content, or for the node when there is no content. It shows the
  form only when anonymous posting is on or a user is logged in. A valid
  submission is saved and redirected, either to the finish node's route or back
  to the page with a success message. In every other case it renders the title,
  the form and the query for the comments already posted on the page.
  Validation is an oracle carried in the request: a `ValidationException` from
  `validate` or from `save`, or none.
- `PropertiesEditor.PropertiesAction` is the properties action. Cancel returns
  false and writes nothing. A valid submission writes `title.<locale>`,
  `approval`, `anonymous` and `finish`, sets the template and returns true.
  Otherwise the properties form is rendered.
- `PropertiesEditor.Preview` is the properties preview. It gives labelled lines
  for the title and the finish node, each present only when set.
- `CommentStore` defines `Admits`, `Written` and `Serve`, and the lemmas about them. `Admits` is the filter that a listing query
  stands for. `Written` is what one request saves. `Serve` is the store after a sequence of index requests.
- `RouteIds` builds the route id `cms.front.<root>.<node>.<locale>` of the
  finish redirect. It proves that splitting the id on '.' gives back its parts when no part contains a '.'.

Properties are a typed record: flags are `bool`, and the title and finish
node are `Option<string>`. `WidgetProperties.Filled` follows PHP's truthiness
for strings: null, `""` and `"0"` count as unset.

Two details of the code are easy to miss:

- The draft is prefilled with the logged-in user's name and e-mail. The form
  then binds the submitted name, e-mail and body over them, so the saved
  comment carries the submitted values and keeps the user's id.
- When `save` throws, the listing query is built from the bound entry rather
  than from the draft. The two share type, entry and locale, so the query is
  the same.

## Model

| member | source | states |
|---|---|---|
| CommentsWidget.IndexAction | src/ride/web/cms/controller/widget/CommentsWidget.php:40-143 | It redirects exactly when posting is allowed (anonymous or logged in), the form was submitted and nothing threw. When it renders, the form is there iff posting is allowed and carries errors iff it was submitted. The draft has the context's type and entry and the request locale and client, has no body and is not approved. It holds the user's name, e-mail and id when there is a user, and no name, e-mail or user id otherwise. The saved comment keeps the context's type and entry, the locale, client and user id, takes the submitted name, e-mail and body, and is approved iff approval is off. The redirect goes to `cms.front.<root>.<finish>.<locale>` iff finish is set, else to the request URL. A message is added iff finish is unset; its key is the approval variant iff approval is on, and its entry parameter is the context label. A render shows the localized title, and the listing iff `comments.skip` is off, keyed by (type, entry, locale) and filtered to approved (true) iff approval is on, else null. |
| CommentsWidget.SubjectOf | src/ride/web/cms/controller/widget/CommentsWidget.php:58-72 | A Content context gives the content's type, its data id and its title as label. Anything else gives type `Node`, the node id and the node's localized name. |
| WidgetProperties.SetLocalizedTitle | src/ride/web/cms/controller/widget/CommentsWidget.php:219 | Writing `title.<locale>` makes it read back as written. Every other locale's title and every other property is unchanged. |
| PropertiesEditor.StoreData | src/ride/web/cms/controller/widget/CommentsWidget.php:217-224 | Loading the form data after the write gives back exactly the submitted title, approval, anonymous, finish and template. `comments.skip` and other locales' titles are untouched. |
| PropertiesEditor.PropertiesAction | src/ride/web/cms/controller/widget/CommentsWidget.php:171-235 | It returns false iff submitted with cancel, and returns true iff submitted without cancel and valid. Anything but true leaves the widget unchanged. True writes exactly the submitted values and nothing else. The properties view is set iff null is returned: it is loaded from the current settings and has errors iff it was submitted. |
| PropertiesEditor.Preview | src/ride/web/cms/controller/widget/CommentsWidget.php:149-164 | The preview is empty iff neither title nor finish is set, and has at most two lines. The title line comes first when the title is set, and the finish line comes last when finish is set. No other labels appear. |
| PropertiesEditor.CancelIsNoOp | src/ride/web/cms/controller/widget/CommentsWidget.php:209-212 | A cancelled submission returns false and leaves the widget as it was, whatever data came with it. |
| PropertiesEditor.SaveIsIdempotent | src/ride/web/cms/controller/widget/CommentsWidget.php:217-224 | Saving the same properties a second time changes nothing more. |
| PropertiesEditor.PreviewAfterSave | src/ride/web/cms/controller/widget/CommentsWidget.php:151-163 | After a save, the preview has a title line iff the saved title is set, and a finish line iff the saved finish is set. |
| PropertiesEditor.SettingsGovernIndex | src/ride/web/cms/controller/widget/CommentsWidget.php:43-44 | After a save, the next index request follows the saved settings. It shows the form iff anonymous is on or a user is logged in, and shows the saved title. A save stores an approved comment iff approval is off, and redirects to a route iff finish is set. |
| CommentStore.Written | src/ride/web/cms/controller/widget/CommentsWidget.php:110 | One index request writes at most one comment, and writes one exactly when it redirects. That comment is the outcome's saved comment. |
| CommentStore.Serve | src/ride/web/cms/controller/widget/CommentsWidget.php:101-127 | Handling requests only appends to the store, at most one comment per request. A sequence made only of requests without a submission writes nothing. So does a sequence made only of anonymous visitors where anonymous posting is off. In a sequence where every request has approval on, every comment added is unapproved. |
| CommentStore.ServeKeepsPosts | src/ride/web/cms/controller/widget/CommentsWidget.php:101-110 | Every request in a sequence that redirects, that is an allowed, submitted and valid post, has its saved comment among the comments the sequence appends to the store. |
| CommentStore.ServeOnlyPosts | src/ride/web/cms/controller/widget/CommentsWidget.php:101-110 | Every comment appended by a sequence of requests is the saved comment of one of its requests that redirects. |
| CommentStore.ServeSkipsNonPosts | src/ride/web/cms/controller/widget/CommentsWidget.php:101-127 | Inserting a request that does not redirect at any position of a sequence leaves the resulting store exactly as it was without it, so such a request never writes, in any mix of requests. |
| CommentStore.PostedCommentListed | src/ride/web/cms/controller/widget/CommentsWidget.php:106-110 | The listing query of the same page admits a just-posted comment iff approval is off. Once the comment is approved, the query always admits it. |
| CommentStore.ModeratedListingHidesUnapproved | src/ride/web/cms/controller/widget/CommentsWidget.php:138 | With approval on, every comment the listing query admits is approved. |
| RouteIds.RouteIdSplits | src/ride/web/cms/controller/widget/CommentsWidget.php:114 | When root node id, finish node and locale contain no '.', splitting the route id on '.' gives back `cms`, `front`, root, node and locale. |
| RouteIds.RouteIdInjective | src/ride/web/cms/controller/widget/CommentsWidget.php:114 | Distinct dot-free (root, finish, locale) triples give distinct redirect routes. |
| Scenarios.PostWithoutModeration | src/ride/web/cms/controller/widget/CommentsWidget.php:105-122 | A logged-in post on an article with approval and finish off is saved approved. It redirects back with `success.comment.posted` for "Hello". |
| Scenarios.PostWithModeration | src/ride/web/cms/controller/widget/CommentsWidget.php:116-117 | The same post with approval on is saved unapproved, with `success.comment.posted.approval`. |
| Scenarios.PostWithFinishNode | src/ride/web/cms/controller/widget/CommentsWidget.php:113-114 | With finish `thankyou`, root node 7 and locale `en`, the post redirects to `cms.front.7.thankyou.en` and adds no message. |
| Scenarios.AnonymousVisitorWithoutForm | src/ride/web/cms/controller/widget/CommentsWidget.php:43 | An anonymous visitor where anonymous posting is off gets no form, but still gets the unfiltered listing query. |

## Left out

- ORM persistence (`createEntry`, `save`, `getComments`). The saved comment and the listing query are recorded in the outcome. `createEntry` is taken to start with `isApproved` false. The contents and order of a listing belong to the comment model. `CommentStore.Admits` states only which comments a query selects.
- A persistence failure other than a `ValidationException` propagates out of the action. It is not modelled.
- The form framework. Field rules such as required `name` and `body`, e-mail format, and the required template are framework behaviour, so validation is an oracle. The form views carry only the entry or data they were built on and whether errors are attached.
- The translator, `getTemplate`, `getAvailableTemplates`, `getNodeList` and the template rendering are foreign services. Preview labels are translation keys. The current template is a field of the widget.
- URL generation by `getUrl` and the response object are not modelled. A redirect target is the route id or the request URL.
- The node's `getName(locale)` is foreign, so the node's localized name is an input.
- The HTML markup of the preview is not modelled. The preview is a sequence of labelled lines.
- PHP loose truthiness of the `anonymous`, `approval` and `comments.skip` properties is not modelled. They are `bool`.
- `getWidgetStyleOptions` is a constant map with nothing to state.
- RouteIds.RouteIdInjective: holds only for dot-free ids. With dots, as in root `1.2` and finish `3` versus root `1` and finish `2.3`, two targets share a route id.
