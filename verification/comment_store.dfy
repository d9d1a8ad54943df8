/**
 * The comment store as the index action sees it: the comments a listing
 * query admits, and the comments a sequence of index requests adds.
 */
module CommentStore {
  import opened CommentsWidget

  /** Whether getComments with query q returns comment c: same (type, entry,
      locale), and approved when the query asks for approved comments only. */
  predicate Admits(q: Query, c: Comment) {
    && c.entryType == q.entryType && c.entry == q.entry && c.locale == q.locale
    && (q.approved.Some? ==> c.isApproved == q.approved.value)
  }

  /** The comments one index request writes. */
  function Written(o: Outcome): (saved: seq<Comment>)
    ensures |saved| <= 1
    ensures |saved| == 1 <==> o.Redirect?
    ensures o.Redirect? ==> saved == [o.saved]
  {
    if o.Redirect? then [o.saved] else []
  }

  /** The store after handling the requests in order. */
  function Serve(store: seq<Comment>, reqs: seq<Request>): (r: seq<Comment>)
    // comments are only ever appended, at most one per request
    ensures store <= r
    ensures |r| <= |store| + |reqs|
    // requests without a submission write nothing
    ensures (forall i | 0 <= i < |reqs| :: reqs[i].submission.NotSubmitted?) ==> r == store
    // anonymous visitors write nothing where anonymous posting is off
    ensures (forall i | 0 <= i < |reqs| :: reqs[i].user.None? && !reqs[i].props.anonymous) ==> r == store
    // with moderation on, no request stores an approved comment
    ensures (forall i | 0 <= i < |reqs| :: reqs[i].props.approval) ==>
      forall j | |store| <= j < |r| :: !r[j].isApproved
    decreases |reqs|
  {
    if |reqs| == 0 then store
    else Serve(store + Written(IndexAction(reqs[0])), reqs[1..])
  }

  /** Every request that redirects has its saved comment appended by Serve. */
  lemma {:induction false} ServeKeepsPosts(store: seq<Comment>, reqs: seq<Request>, i: nat)
    requires i < |reqs| && IndexAction(reqs[i]).Redirect?
    ensures IndexAction(reqs[i]).saved in Serve(store, reqs)[|store|..]
    decreases |reqs|, 1
  {
    if i == 0 {
      ServeKeepsFirst(store, reqs);
    } else {
      ServeKeepsLater(store, reqs, i);
    }
  }

  /** The first request's saved comment is the first one appended. */
  lemma ServeKeepsFirst(store: seq<Comment>, reqs: seq<Request>)
    requires 0 < |reqs| && IndexAction(reqs[0]).Redirect?
    ensures IndexAction(reqs[0]).saved in Serve(store, reqs)[|store|..]
  {
    var s' := store + Written(IndexAction(reqs[0]));
    var r := Serve(store, reqs);
    assert r == Serve(s', reqs[1..]);
    assert r[|store|] == s'[|store|] == IndexAction(reqs[0]).saved;
    assert r[|store|..][0] == r[|store|];
  }

  /** A later request's saved comment is appended by the rest of the sequence. */
  lemma {:induction false} ServeKeepsLater(store: seq<Comment>, reqs: seq<Request>, i: nat)
    requires 0 < i < |reqs| && IndexAction(reqs[i]).Redirect?
    ensures IndexAction(reqs[i]).saved in Serve(store, reqs)[|store|..]
    decreases |reqs|, 0
  {
    var s' := store + Written(IndexAction(reqs[0]));
    assert reqs[1..][i - 1] == reqs[i];
    ServeKeepsPosts(s', reqs[1..], i - 1);
    InLaterSuffix(Serve(s', reqs[1..]), |store|, |s'|, IndexAction(reqs[i]).saved);
  }

  /** What lies in a later suffix of a sequence lies in an earlier one. */
  lemma InLaterSuffix<T>(r: seq<T>, a: nat, b: nat, x: T)
    requires a <= b <= |r| && x in r[b..]
    ensures x in r[a..]
  {
    assert r[a..] == r[a..b] + r[b..];
  }

  /** Comment c is the one saved by some request of the sequence. */
  predicate PostedBy(reqs: seq<Request>, c: Comment) {
    exists i | 0 <= i < |reqs| :: IndexAction(reqs[i]).Redirect? && c == IndexAction(reqs[i]).saved
  }

  /** A comment posted by a later request is posted by the whole sequence. */
  lemma PostedByTail(reqs: seq<Request>, c: Comment)
    requires |reqs| > 0 && PostedBy(reqs[1..], c)
    ensures PostedBy(reqs, c)
  {
    var i :| 0 <= i < |reqs[1..]| && IndexAction(reqs[1..][i]).Redirect? && c == IndexAction(reqs[1..][i]).saved;
    assert reqs[1..][i] == reqs[i + 1];
  }

  /** Every comment Serve appends is the saved comment of a request that redirects. */
  lemma {:induction false} ServeOnlyPosts(store: seq<Comment>, reqs: seq<Request>)
    ensures forall j | |store| <= j < |Serve(store, reqs)| :: PostedBy(reqs, Serve(store, reqs)[j])
    decreases |reqs|
  {
    if |reqs| > 0 {
      var s' := store + Written(IndexAction(reqs[0]));
      var r := Serve(store, reqs);
      assert r == Serve(s', reqs[1..]);
      ServeOnlyPosts(s', reqs[1..]);
      forall j | |store| <= j < |r|
        ensures PostedBy(reqs, r[j])
      {
        if j < |s'| {
          assert r[j] == s'[j] == IndexAction(reqs[0]).saved;
        } else {
          PostedByTail(reqs, r[j]);
        }
      }
    }
  }

  /** Inserting a request that does not redirect anywhere in a sequence leaves the store as it was without it. */
  lemma {:induction false} ServeSkipsNonPosts(store: seq<Comment>, reqs: seq<Request>, k: nat, req: Request)
    requires k <= |reqs| && !IndexAction(req).Redirect?
    ensures Serve(store, reqs[..k] + [req] + reqs[k..]) == Serve(store, reqs)
    decreases k
  {
    var xs := reqs[..k] + [req] + reqs[k..];
    if k == 0 {
      assert xs == [req] + reqs;
      assert xs[1..] == reqs;
      assert store + Written(IndexAction(req)) == store;
    } else {
      var s' := store + Written(IndexAction(reqs[0]));
      assert xs[0] == reqs[0];
      assert xs[1..] == reqs[1..][..k - 1] + [req] + reqs[1..][k - 1..];
      assert reqs == [reqs[0]] + reqs[1..];
      ServeSkipsNonPosts(s', reqs[1..], k - 1, req);
    }
  }

  /** A posted comment shows in the listing of the same page at once when no
      approval is needed, and only after a moderator approves it otherwise. */
  lemma PostedCommentListed(post: Request)
    requires AllowComment(post.props, post.user)
    requires post.submission.Submitted? && post.submission.verdict == Valid
    requires !post.props.skipComments
    ensures
      var saved := IndexAction(post).saved;
      var view := IndexAction(post.(submission := NotSubmitted));
      && view.Render? && view.comments.Some?
      && (Admits(view.comments.value, saved) <==> !post.props.approval)
      && Admits(view.comments.value, saved.(isApproved := true))
  {
  }

  /** A query built with moderation on admits no unapproved comment. */
  lemma ModeratedListingHidesUnapproved(req: Request, c: Comment)
    requires req.props.approval && !req.props.skipComments
    requires IndexAction(req).Render?
    requires Admits(IndexAction(req).comments.value, c)
    ensures c.isApproved
  {
  }
}
