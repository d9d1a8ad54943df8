/** Worked examples of the index action on concrete requests. */
module Scenarios {
  import opened Wrappers
  import opened WidgetProperties
  import opened CommentsWidget

  function ArticleRequest(approval: bool, finish: Option<string>): Request {
    Request(
      Properties(map[], approval, false, finish, false),
      Some(User("Ann", "ann@x.com", "3")),
      Content("Article", "42", "Hello"),
      Node("12", "7", "Blog"),
      "en", "web", "/en/blog",
      Submitted(CommentFields(Some("Ann"), Some("ann@x.com"), Some("Nice!")), Valid))
  }

  /** Without moderation and finish node: approved, back to the page, "posted" message. */
  lemma PostWithoutModeration()
    ensures IndexAction(ArticleRequest(false, None))
         == Redirect(RequestUrl("/en/blog"), Some(Message(PostedMessage, "Hello")),
                     Comment("en", Some("Ann"), Some("ann@x.com"), Some("3"), "web", "Article", "42", Some("Nice!"), true))
  {
  }

  /** With moderation: left unapproved, "posted.approval" message. */
  lemma PostWithModeration()
    ensures IndexAction(ArticleRequest(true, None)).saved.isApproved == false
    ensures IndexAction(ArticleRequest(true, None)).message == Some(Message(PostedApprovalMessage, "Hello"))
  {
  }

  /** With a finish node: redirect to its route, no message. */
  lemma PostWithFinishNode()
    ensures IndexAction(ArticleRequest(false, Some("thankyou"))).target == Route("cms.front.7.thankyou.en")
    ensures IndexAction(ArticleRequest(false, Some("thankyou"))).message == None
  {
  }

  /** An anonymous visitor where anonymous posting is off sees the listing but no form. */
  lemma AnonymousVisitorWithoutForm()
    ensures
      var r := IndexAction(ArticleRequest(false, None).(user := None));
      r.Render? && r.form == None && r.comments == Some(Query("Article", "42", "en", None))
  {
  }
}
