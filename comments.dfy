/** The comment service: comments are created on, listed for and deleted from
    an article named by its slug; only the comment's author may delete it,
    and only through the article it belongs to. */
module Comments {
  import opened Common
  import opened Store

  datatype CommentWithAuthor = CommentWithAuthor(comment: Comment, author: AuthorView)

  /** The two checks before a delete, in their order: the requester must be
      the author (Forbidden), then the comment must belong to the article
      named in the path (NotFound). */
  function ValidateCommentOwnership(comment: Comment, userId: int, articleId: int): (r: Option<Failure>)
    ensures r.None? <==> comment.authorId == userId && comment.articleId == articleId
    ensures comment.authorId != userId ==> r == Some(Http(Forbidden))
    ensures comment.authorId == userId && comment.articleId != articleId ==> r == Some(Http(NotFound))
  {
    if comment.authorId != userId then Some(Http(Forbidden))
    else if comment.articleId != articleId then Some(Http(NotFound))
    else None
  }

  /** Someone else's comment is Forbidden even when it sits under another
      article; one's own comment under another article is NotFound. */
  lemma OwnershipCheckOrder(comment: Comment, userId: int, articleId: int)
    requires comment.articleId != articleId
    ensures comment.authorId != userId ==> ValidateCommentOwnership(comment, userId, articleId) == Some(Http(Forbidden))
    ensures comment.authorId == userId ==> ValidateCommentOwnership(comment, userId, articleId) == Some(Http(NotFound))
  {
  }

  class CommentsService {
    const db: Database

    constructor (db: Database)
      ensures this.db == db
    {
      this.db := db;
    }

    function FindArticleBySlug(articleSlug: string): (r: Result<Article>)
      reads db
      requires db.Valid()
      ensures r.Err? <==> forall id :: id in db.articles ==> db.articles[id].slug != articleSlug
      ensures r.Err? ==> r.failure == Http(NotFound)
      ensures r.Ok? ==> r.value.id in db.articles && db.articles[r.value.id] == r.value && r.value.slug == articleSlug
    {
      var found := db.ArticleBySlug(articleSlug);
      if found.None? then Err(Http(NotFound)) else Ok(found.value)
    }

    function FindCommentWithAuthor(commentId: int): (r: Result<CommentWithAuthor>)
      reads db
      requires db.Valid()
      ensures r.Err? <==> commentId !in db.comments
      ensures r.Err? ==> r.failure == Http(NotFound)
      ensures r.Ok? ==> r.value.comment == db.comments[commentId] && r.value.comment.id == commentId
                        && r.value.author == AuthorViewOf(db.users[r.value.comment.authorId])
    {
      var found := db.CommentById(commentId);
      if found.None? then Err(Http(NotFound))
      else Ok(CommentWithAuthor(found.value, AuthorViewOf(db.users[found.value.authorId])))
    }

    method Create(articleSlug: string, body: string, userId: int, now: int) returns (r: Result<CommentWithAuthor>)
      requires db.Valid()
      modifies db`comments, db`nextCommentId
      ensures db.Valid()
      ensures old(FindArticleBySlug(articleSlug)).Err? ==> r == Err(Http(NotFound)) && unchanged(db)
      ensures old(FindArticleBySlug(articleSlug)).Ok? ==>
                var article := old(FindArticleBySlug(articleSlug)).value;
                if userId in db.users
                then && r.Ok?
                     && r.value.comment == Comment(old(db.nextCommentId), body, userId, article.id, now)
                     && r.value.comment.id !in old(db.comments)
                     && r.value.author == AuthorViewOf(db.users[userId])
                     && db.comments == old(db.comments)[r.value.comment.id := r.value.comment]
                else r == Err(PrismaKnown(FOREIGN_KEY_VIOLATION)) && unchanged(db)
    {
      var article := FindArticleBySlug(articleSlug);
      if article.Err? {
        return Err(article.failure);
      }
      var created := db.CreateComment(body, userId, article.value.id, now);
      if created.Err? {
        return Err(created.failure);
      }
      r := Ok(CommentWithAuthor(created.value, AuthorViewOf(db.users[userId])));
    }

    /** An article's comments in the store's newest-first order, each with its author. */
    function FindAll(articleSlug: string): (r: Result<seq<CommentWithAuthor>>)
      reads db
      requires db.Valid()
      ensures r.Err? <==> FindArticleBySlug(articleSlug).Err?
      ensures r.Err? ==> r.failure == Http(NotFound)
      ensures r.Ok? ==>
                var order := db.CommentOrder(FindArticleBySlug(articleSlug).value.id);
                && |r.value| == |order|
                && forall i :: 0 <= i < |r.value| ==>
                     && r.value[i].comment == db.comments[order[i]]
                     && r.value[i].author == AuthorViewOf(db.users[r.value[i].comment.authorId])
    {
      var article := FindArticleBySlug(articleSlug);
      if article.Err? then Err(article.failure)
      else
        var rows := db.CommentsOf(article.value.id);
        Ok(seq(|rows|, i requires 0 <= i < |rows| && rows[i].authorId in db.users reads db =>
                 CommentWithAuthor(rows[i], AuthorViewOf(db.users[rows[i].authorId]))))
    }

    /** The listing holds exactly the article's comments, each once, newest first. */
    lemma {:induction false} FindAllExactlyTheArticlesComments(articleSlug: string, rows: seq<CommentWithAuthor>)
      requires db.Valid() && FindAll(articleSlug) == Ok(rows)
      ensures var articleId := FindArticleBySlug(articleSlug).value.id;
              && (forall i :: 0 <= i < |rows| ==>
                    rows[i].comment.id in db.comments && db.comments[rows[i].comment.id] == rows[i].comment
                    && rows[i].comment.articleId == articleId)
              && (forall id :: id in db.comments && db.comments[id].articleId == articleId ==>
                    exists i :: 0 <= i < |rows| && rows[i].comment.id == id)
              && (forall i, j :: 0 <= i < j < |rows| ==> rows[i].comment.id != rows[j].comment.id)
              && (forall i, j :: 0 <= i < j < |rows| ==> rows[i].comment.createdAt >= rows[j].comment.createdAt)
    {
      var articleId := FindArticleBySlug(articleSlug).value.id;
      var order := db.CommentOrder(articleId);
      assert |rows| == |order|;
      forall i | 0 <= i < |rows|
        ensures rows[i].comment == db.comments[order[i]] && rows[i].comment.id == order[i]
        ensures rows[i].comment.articleId == articleId
      {
        assert order[i] in order;
      }
      forall id | id in db.comments && db.comments[id].articleId == articleId
        ensures exists i :: 0 <= i < |rows| && rows[i].comment.id == id
      {
        assert id in order;
        var i :| 0 <= i < |order| && order[i] == id;
        assert rows[i].comment.id == id;
      }
    }

    /** Delete a comment: the article must exist, then the comment, then the
        ownership checks must pass; only then is the one comment removed. */
    method Remove(articleSlug: string, commentId: int, userId: int) returns (r: Option<Failure>)
      requires db.Valid()
      modifies db`comments
      ensures db.Valid()
      ensures r.Some? ==> unchanged(db)
      ensures old(FindArticleBySlug(articleSlug)).Err? ==> r == Some(Http(NotFound))
      ensures old(FindArticleBySlug(articleSlug)).Ok? && commentId !in old(db.comments) ==> r == Some(Http(NotFound))
      ensures old(FindArticleBySlug(articleSlug)).Ok? && commentId in old(db.comments) ==>
                r == ValidateCommentOwnership(old(db.comments)[commentId], userId,
                                              old(FindArticleBySlug(articleSlug)).value.id)
      ensures r.None? ==> db.comments == old(db.comments) - {commentId} && commentId in old(db.comments)
    {
      var article := FindArticleBySlug(articleSlug);
      if article.Err? {
        return Some(article.failure);
      }
      var comment := FindCommentWithAuthor(commentId);
      if comment.Err? {
        return Some(comment.failure);
      }
      var denied := ValidateCommentOwnership(comment.value.comment, userId, article.value.id);
      if denied.Some? {
        return denied;
      }
      var deleted := db.DeleteComment(commentId);
      if deleted.Err? {
        assert false;  // the comment has just been found
      }
      r := None;
    }
  }
}
