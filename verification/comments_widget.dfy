/**
 * The decision layer of the comments widget's index action: it builds a draft
 * comment for the page, shows the comment form to those allowed to post, saves
 * a valid submission and redirects, and otherwise renders the form together
 * with the query for the comments already posted on the page.
 *
 * The ORM, the form framework, the translator and the templating engine are
 * collaborators: validation is an oracle in the request, saving is the saved
 * comment recorded in the outcome, loading the listing is the query recorded
 * in the outcome.
 */
module CommentsWidget {
  import opened Wrappers
  import opened WidgetProperties
  import RouteIds

  /** The logged-in user. */
  datatype User = User(displayName: string, email: string, id: string)

  /** The "content" context of the page: a Content instance, or anything else (nothing, or another class). */
  datatype ContentContext =
    | Content(contentType: string, dataId: string, title: string)
    | NoContent

  /** The node the widget is placed on; localizedName is its name in the request locale. */
  datatype Node = Node(id: string, rootNodeId: string, localizedName: string)

  /** A comment entry of the ORM. */
  datatype Comment = Comment(
    locale: string,
    name: Option<string>,
    email: Option<string>,
    user: Option<string>,
    client: string,
    entryType: string,
    entry: string,
    body: Option<string>,
    isApproved: bool)

  /** The values the comment form binds onto the entry. */
  datatype CommentFields = CommentFields(name: Option<string>, email: Option<string>, body: Option<string>)

  /** How validation went: a ValidationException from validate or from save, or none. */
  datatype Verdict = Valid | FormInvalid | SaveInvalid

  datatype Submission = NotSubmitted | Submitted(fields: CommentFields, verdict: Verdict)

  datatype Request = Request(
    props: Properties,
    user: Option<User>,
    content: ContentContext,
    node: Node,
    locale: string,
    client: string,
    url: string,
    submission: Submission)

  /** What the comment is about: its type and entry, and the label used in messages. */
  datatype Subject = Subject(entryType: string, entry: string, entryLabel: string)

  datatype Target = Route(routeId: string) | RequestUrl(url: string)

  /** A success message: its translation key and its "entry" parameter. */
  datatype Message = Message(key: string, entry: string)

  /** The arguments of getComments: the grouping key and the approved filter (null is None). */
  datatype Query = Query(entryType: string, entry: string, locale: string, approved: Option<bool>)

  /** The comment form: the entry it was built on and whether validation errors are attached. */
  datatype FormView = FormView(draft: Comment, hasErrors: bool)

  datatype Outcome =
    | Redirect(target: Target, message: Option<Message>, saved: Comment)
    | Render(title: Option<string>, form: Option<FormView>, comments: Option<Query>)

  const NodeType: string := "Node"
  const PostedMessage: string := "success.comment.posted"
  const PostedApprovalMessage: string := "success.comment.posted.approval"

  /** Whether the comment form is built at all. */
  predicate AllowComment(p: Properties, user: Option<User>) {
    p.anonymous || user.Some?
  }

  predicate NeedsApproval(p: Properties) {
    p.approval
  }

  /** The context of the comment: the content when it is a Content, the node otherwise. */
  function SubjectOf(content: ContentContext, node: Node): (s: Subject)
    ensures content.Content? ==>
      s.entryType == content.contentType && s.entry == content.dataId && s.entryLabel == content.title
    ensures !content.Content? ==>
      s.entryType == NodeType && s.entry == node.id && s.entryLabel == node.localizedName
  {
    match content
    case Content(contentType, dataId, title) => Subject(contentType, dataId, title)
    case NoContent => Subject(NodeType, node.id, node.localizedName)
  }

  /** The entry created before the form is built; createEntry leaves isApproved false. */
  function Draft(req: Request): Comment {
    var s := SubjectOf(req.content, req.node);
    match req.user
    case Some(u) =>
      Comment(req.locale, Some(u.displayName), Some(u.email), Some(u.id), req.client, s.entryType, s.entry, None, false)
    case None =>
      Comment(req.locale, None, None, None, req.client, s.entryType, s.entry, None, false)
  }

  /** getData: the draft with the submitted fields bound onto it. */
  function Bind(draft: Comment, fields: CommentFields): Comment {
    draft.(name := fields.name, email := fields.email, body := fields.body)
  }

  /** The entry handed to save: approved straight away unless moderation is on. */
  function Approve(c: Comment, needsApproval: bool): Comment {
    if needsApproval then c else c.(isApproved := true)
  }

  function ListingQuery(c: Comment, needsApproval: bool): Query {
    Query(c.entryType, c.entry, c.locale, if needsApproval then Some(true) else None)
  }

  /** Where to go after a save, and the success message to add. */
  function AfterSave(req: Request, entryLabel: string): (Target, Option<Message>) {
    var finish := req.props.finish;
    if Filled(finish) then
      (Route(RouteIds.RouteId(req.node.rootNodeId, finish.value, req.locale)), None)
    else
      var key := if NeedsApproval(req.props) then PostedApprovalMessage else PostedMessage;
      (RequestUrl(req.url), Some(Message(key, entryLabel)))
  }

  /** indexAction. */
  function IndexAction(req: Request): (r: Outcome)
    // the form exists iff anonymous posting is on or a user is logged in, and
    // only an allowed, submitted, valid comment is saved
    ensures r.Redirect? <==>
      AllowComment(req.props, req.user) && req.submission.Submitted? && req.submission.verdict == Valid
    ensures r.Render? ==> (r.form.Some? <==> AllowComment(req.props, req.user))
    ensures r.Render? && r.form.Some? ==> (r.form.value.hasErrors <==> req.submission.Submitted?)
    // the entry the form is built on
    ensures r.Render? && r.form.Some? ==>
      && r.form.value.draft.locale == req.locale
      && r.form.value.draft.client == req.client
      && !r.form.value.draft.isApproved
      && (req.user.Some? ==>
            r.form.value.draft.name == Some(req.user.value.displayName)
            && r.form.value.draft.email == Some(req.user.value.email)
            && r.form.value.draft.user == Some(req.user.value.id))
      && (req.user.None? ==> r.form.value.draft.user.None?)
    ensures r.Render? && r.form.Some? ==>
      var s := SubjectOf(req.content, req.node);
      && r.form.value.draft.entryType == s.entryType
      && r.form.value.draft.entry == s.entry
      && r.form.value.draft.body.None?
      && (req.user.None? ==> r.form.value.draft.name.None? && r.form.value.draft.email.None?)
    // the saved comment
    ensures r.Redirect? ==>
      var s := SubjectOf(req.content, req.node);
      && r.saved.entryType == s.entryType && r.saved.entry == s.entry
      && r.saved.locale == req.locale && r.saved.client == req.client
      && r.saved.user == (if req.user.Some? then Some(req.user.value.id) else None)
      && r.saved.name == req.submission.fields.name
      && r.saved.email == req.submission.fields.email
      && r.saved.body == req.submission.fields.body
      && (r.saved.isApproved <==> !req.props.approval)
    // the redirect target and the success message
    ensures r.Redirect? ==> (r.target.Route? <==> Filled(req.props.finish))
    ensures r.Redirect? && r.target.Route? ==>
      r.target.routeId == RouteIds.RouteId(req.node.rootNodeId, req.props.finish.value, req.locale)
    ensures r.Redirect? && r.target.RequestUrl? ==> r.target.url == req.url
    ensures r.Redirect? ==> (r.message.Some? <==> !Filled(req.props.finish))
    ensures r.Redirect? && r.message.Some? ==>
      && r.message.value.entry == SubjectOf(req.content, req.node).entryLabel
      && (r.message.value.key == PostedApprovalMessage <==> req.props.approval)
      && (r.message.value.key == PostedMessage <==> !req.props.approval)
    // the rendered page
    ensures r.Render? ==> r.title == LocalizedTitle(req.props, req.locale)
    ensures r.Render? ==> (r.comments.Some? <==> !req.props.skipComments)
    ensures r.Render? && r.comments.Some? ==>
      var s := SubjectOf(req.content, req.node);
      && r.comments.value.entryType == s.entryType
      && r.comments.value.entry == s.entry
      && r.comments.value.locale == req.locale
      && (r.comments.value.approved == Some(true) <==> req.props.approval)
      && (r.comments.value.approved.None? <==> !req.props.approval)
  {
    var needsApproval := NeedsApproval(req.props);
    var draft := Draft(req);
    var entryLabel := SubjectOf(req.content, req.node).entryLabel;
    if AllowComment(req.props, req.user) && req.submission.Submitted? then
      var saved := Approve(Bind(draft, req.submission.fields), needsApproval);
      if req.submission.verdict == Valid then
        var (target, message) := AfterSave(req, entryLabel);
        Redirect(target, message, saved)
      else
        // validate threw before getData, or save threw after it
        var current := if req.submission.verdict == SaveInvalid then saved else draft;
        Render(LocalizedTitle(req.props, req.locale), Some(FormView(draft, true)),
               if req.props.skipComments then None else Some(ListingQuery(current, needsApproval)))
    else
      var form := if AllowComment(req.props, req.user) then Some(FormView(draft, false)) else None;
      Render(LocalizedTitle(req.props, req.locale), form,
             if req.props.skipComments then None else Some(ListingQuery(draft, needsApproval)))
  }
}
