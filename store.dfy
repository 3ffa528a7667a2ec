/** The database behind every service, seen through the calls the services make
    on its client: tables of users, articles and comments keyed by id, and the
    favorite `(userId, articleId)` and follow `(followerId, followingId)` edge
    tables. Reads are functions; writes are methods that enforce what the
    schema enforces: unique slug, email and username (known request error
    P2002), existing referenced rows on insert (P2003) and an existing row on
    update or delete (P2025). */
module Store {
  import opened Common
  import opened Ordering

  datatype User = User(
    id: int, email: string, username: string, password: string,
    bio: Option<string>, image: Option<string>)

  datatype Article = Article(
    id: int, slug: string, title: string, description: string, body: string,
    tagList: string, authorId: int, createdAt: int)

  datatype Comment = Comment(id: int, body: string, authorId: int, articleId: int, createdAt: int)

  /** A user as selected by `AUTHOR_SELECT_FIELDS`: every column but the password. */
  datatype AuthorView = AuthorView(
    id: int, username: string, email: string, bio: Option<string>, image: Option<string>)

  function AuthorViewOf(u: User): AuthorView {
    AuthorView(u.id, u.username, u.email, u.bio, u.image)
  }

  /** The `where` object the article listing builds: one conjunct per present field. */
  datatype ArticleWhere = ArticleWhere(
    tagContains: Option<string>, authorUsername: Option<string>, favoritedBy: Option<int>)

  /** The columns an article update writes; `None` leaves a column as it is. */
  datatype ArticlePatch = ArticlePatch(
    title: Option<string>, description: Option<string>, body: Option<string>, slug: Option<string>)

  /** The `data` object of a user update. `newPassword` is not a column: a
      `data` object that carries it is refused by the client. */
  datatype UserPatch = UserPatch(
    email: Option<string>, username: Option<string>, password: Option<string>,
    newPassword: Option<string>, bio: Option<string>, image: Option<string>)

  /** Prisma's `contains` filter: `sub` occurs in `s` as a contiguous piece. */
  predicate Contains(s: string, sub: string) {
    exists i | 0 <= i <= |s| - |sub| :: OccursAt(s, sub, i)
  }

  predicate OccursAt(s: string, sub: string, i: int) {
    0 <= i <= |s| - |sub| && s[i..i + |sub|] == sub
  }

  predicate SlugsUnique(articles: map<int, Article>) {
    forall a, b :: a in articles && b in articles && articles[a].slug == articles[b].slug ==> a == b
  }

  predicate UsernamesUnique(users: map<int, User>) {
    forall a, b :: a in users && b in users && users[a].username == users[b].username ==> a == b
  }

  predicate EmailsUnique(users: map<int, User>) {
    forall a, b :: a in users && b in users && users[a].email == users[b].email ==> a == b
  }

  function PatchedArticle(a: Article, p: ArticlePatch): Article {
    a.(title := if p.title.Some? then p.title.value else a.title,
       description := if p.description.Some? then p.description.value else a.description,
       body := if p.body.Some? then p.body.value else a.body,
       slug := if p.slug.Some? then p.slug.value else a.slug)
  }

  function PatchedUser(u: User, p: UserPatch): User {
    u.(email := if p.email.Some? then p.email.value else u.email,
       username := if p.username.Some? then p.username.value else u.username,
       password := if p.password.Some? then p.password.value else u.password,
       bio := if p.bio.Some? then p.bio else u.bio,
       image := if p.image.Some? then p.image else u.image)
  }

  class Database {
    var users: map<int, User>
    var articles: map<int, Article>
    var comments: map<int, Comment>
    var favorites: set<(int, int)>
    var follows: set<(int, int)>
    var nextArticleId: int
    var nextCommentId: int

    /** Rows are stored under their own id, fresh ids are above every id in
        use, authors exist, and the unique columns are unique. */
    ghost predicate Valid()
      reads this
    {
      && (forall id :: id in users ==> users[id].id == id)
      && (forall id :: id in articles ==>
            articles[id].id == id && id < nextArticleId && articles[id].authorId in users)
      && (forall id :: id in comments ==>
            comments[id].id == id && id < nextCommentId && comments[id].authorId in users)
      && UsernamesUnique(users) && EmailsUnique(users) && SlugsUnique(articles)
    }

    constructor ()
      ensures Valid()
      ensures users == map[] && articles == map[] && comments == map[]
      ensures favorites == {} && follows == {}
    {
      users, articles, comments := map[], map[], map[];
      favorites, follows := {}, {};
      nextArticleId, nextCommentId := 1, 1;
    }

    // ---- reads ----

    function UserById(id: int): Option<User>
      reads this
    {
      if id in users then Some(users[id]) else None
    }

    function UserByUsername(username: string): (r: Option<User>)
      reads this
      requires Valid()
      ensures r.Some? ==> r.value.id in users && users[r.value.id] == r.value && r.value.username == username
      ensures r.None? ==> forall id :: id in users ==> users[id].username != username
    {
      if exists id | id in users :: users[id].username == username then
        var id :| id in users && users[id].username == username;
        Some(users[id])
      else
        None
    }

    function ArticleBySlug(slug: string): (r: Option<Article>)
      reads this
      requires Valid()
      ensures r.Some? ==> r.value.id in articles && articles[r.value.id] == r.value && r.value.slug == slug
      ensures r.None? ==> forall id :: id in articles ==> articles[id].slug != slug
    {
      if exists id | id in articles :: articles[id].slug == slug then
        var id :| id in articles && articles[id].slug == slug;
        Some(articles[id])
      else
        None
    }

    function CommentById(id: int): Option<Comment>
      reads this
    {
      if id in comments then Some(comments[id]) else None
    }

    /** `_count: { select: { favorites: true } }`: the favorite edges that point at the article. */
    function FavoritesCount(articleId: int): nat
      reads this
    {
      |set p | p in favorites && p.1 == articleId|
    }

    /** The patch would give user `id` an email or a username that another user holds. */
    predicate UserPatchConflicts(id: int, patch: UserPatch)
      reads this
    {
      || (patch.email.Some? && exists o | o in users :: o != id && users[o].email == patch.email.value)
      || (patch.username.Some? && exists o | o in users :: o != id && users[o].username == patch.username.value)
    }

    predicate Satisfies(a: Article, w: ArticleWhere)
      reads this
    {
      && (w.tagContains.Some? ==> Contains(a.tagList, w.tagContains.value))
      && (w.authorUsername.Some? ==> a.authorId in users && users[a.authorId].username == w.authorUsername.value)
      && (w.favoritedBy.Some? ==> (w.favoritedBy.value, a.id) in favorites)
    }

    /** The ids `count({ where })` counts and `findMany({ where })` draws from. */
    function MatchingIds(w: ArticleWhere): (ids: set<int>)
      reads this
      ensures forall id :: id in ids <==> id in articles && Satisfies(articles[id], w)
    {
      set id | id in articles && Satisfies(articles[id], w)
    }

    function ArticleStamps(): (stamps: map<int, int>)
      reads this
      ensures stamps.Keys == articles.Keys
      ensures forall id :: id in articles ==> stamps[id] == articles[id].createdAt
    {
      map id | id in articles :: articles[id].createdAt
    }

    /** `findMany({ where, skip, take, orderBy: { createdAt: 'desc' } })`. */
    function FindMany(w: ArticleWhere, skip: nat, take: nat): (rows: seq<Article>)
      reads this
      requires Valid()
      ensures |rows| == |Window(NewestFirst(ArticleStamps(), MatchingIds(w)), skip, take)|
      ensures forall i :: 0 <= i < |rows| ==>
                rows[i].id == Window(NewestFirst(ArticleStamps(), MatchingIds(w)), skip, take)[i]
      ensures forall i :: 0 <= i < |rows| ==>
                rows[i].id in articles && articles[rows[i].id] == rows[i] && Satisfies(rows[i], w)
      ensures forall i, j :: 0 <= i < j < |rows| ==> rows[i].createdAt >= rows[j].createdAt
    {
      var ordered := NewestFirst(ArticleStamps(), MatchingIds(w));
      var ids := Window(ordered, skip, take);
      WindowKeepsOrder(ArticleStamps(), ordered, skip, take);
      RowsOfNewestFirst(ids);
      RowsOf(ids)
    }

    /** The stored rows named by `ids`, in that order. */
    function RowsOf(ids: seq<int>): (rows: seq<Article>)
      reads this
      requires forall i :: 0 <= i < |ids| ==> ids[i] in articles
      ensures |rows| == |ids|
      ensures forall i :: 0 <= i < |rows| ==> rows[i] == articles[ids[i]]
    {
      seq(|ids|, i requires 0 <= i < |ids| && ids[i] in articles reads this => articles[ids[i]])
    }

    /** The rows of newest-first ids have non-increasing creation times. */
    lemma RowsOfNewestFirst(ids: seq<int>)
      requires forall i :: 0 <= i < |ids| ==> ids[i] in articles
      requires NewestFirstSorted(ArticleStamps(), ids)
      ensures forall i, j :: 0 <= i < j < |ids| ==> RowsOf(ids)[i].createdAt >= RowsOf(ids)[j].createdAt
    {
      var rows := RowsOf(ids);
      forall i, j | 0 <= i < j < |ids|
        ensures rows[i].createdAt >= rows[j].createdAt
      {
        assert Precedes(ArticleStamps(), ids[i], ids[j]);
      }
    }

    /** The ids of an article's comments in `orderBy: { createdAt: 'desc' }` order. */
    function CommentOrder(articleId: int): (ids: seq<int>)
      reads this
      ensures forall id :: id in comments ==> (id in ids <==> comments[id].articleId == articleId)
      ensures forall i :: 0 <= i < |ids| ==> ids[i] in comments
      ensures forall i, j :: 0 <= i < j < |ids| ==> ids[i] != ids[j]
      ensures forall i, j :: 0 <= i < j < |ids| ==> comments[ids[i]].createdAt >= comments[ids[j]].createdAt
    {
      var stamps := map id | id in comments :: comments[id].createdAt;
      var ids := NewestFirst(stamps, set id | id in comments && comments[id].articleId == articleId);
      assert forall i, j :: 0 <= i < j < |ids| ==> Precedes(stamps, ids[i], ids[j]);
      ids
    }

    /** `comment.findMany({ where: { articleId }, orderBy: { createdAt: 'desc' } })`. */
    function CommentsOf(articleId: int): (rows: seq<Comment>)
      reads this
      requires Valid()
      ensures |rows| == |CommentOrder(articleId)|
      ensures forall i :: 0 <= i < |rows| ==>
                rows[i].id == CommentOrder(articleId)[i] && comments[rows[i].id] == rows[i]
    {
      var ids := CommentOrder(articleId);
      seq(|ids|, i requires 0 <= i < |ids| && ids[i] in comments reads this => comments[ids[i]])
    }

    // ---- writes ----

    method CreateArticle(title: string, slug: string, description: string, body: string,
                         authorId: int, now: int) returns (r: Result<Article>)
      requires Valid()
      modifies this`articles, this`nextArticleId
      ensures Valid()
      ensures old(ArticleBySlug(slug)).Some? ==>
                r == Err(PrismaKnown(UNIQUE_VIOLATION)) && unchanged(this)
      ensures old(ArticleBySlug(slug)).None? && authorId !in old(users) ==>
                r == Err(PrismaKnown(FOREIGN_KEY_VIOLATION)) && unchanged(this)
      ensures old(ArticleBySlug(slug)).None? && authorId in old(users) ==>
                && r == Ok(Article(old(nextArticleId), slug, title, description, body, "", authorId, now))
                && articles == old(articles)[r.value.id := r.value]
                && r.value.id !in old(articles)
                && nextArticleId == old(nextArticleId) + 1
    {
      if ArticleBySlug(slug).Some? {
        return Err(PrismaKnown(UNIQUE_VIOLATION));
      }
      if authorId !in users {
        return Err(PrismaKnown(FOREIGN_KEY_VIOLATION));
      }
      var a := Article(nextArticleId, slug, title, description, body, "", authorId, now);
      articles := articles[a.id := a];
      nextArticleId := nextArticleId + 1;
      r := Ok(a);
    }

    /** `article.update({ where: { slug }, data })`. */
    method UpdateArticle(slug: string, patch: ArticlePatch) returns (r: Result<Article>)
      requires Valid()
      modifies this`articles
      ensures Valid()
      ensures old(ArticleBySlug(slug)).None? ==>
                r == Err(PrismaKnown(RECORD_NOT_FOUND)) && unchanged(this)
      ensures old(ArticleBySlug(slug)).Some? ==>
                var a := old(ArticleBySlug(slug)).value;
                if patch.slug.Some? && exists id :: id in old(articles) && id != a.id && old(articles)[id].slug == patch.slug.value
                then r == Err(PrismaKnown(UNIQUE_VIOLATION)) && unchanged(this)
                else
                  && r == Ok(PatchedArticle(a, patch))
                  && articles == old(articles)[a.id := r.value]
    {
      var found := ArticleBySlug(slug);
      if found.None? {
        return Err(PrismaKnown(RECORD_NOT_FOUND));
      }
      var a := found.value;
      if patch.slug.Some? && exists id | id in articles :: id != a.id && articles[id].slug == patch.slug.value {
        return Err(PrismaKnown(UNIQUE_VIOLATION));
      }
      var updated := PatchedArticle(a, patch);
      articles := articles[a.id := updated];
      r := Ok(updated);
    }

    /** `article.delete({ where: { slug } })`. Comments and favorite edges are left alone. */
    method DeleteArticle(slug: string) returns (r: Result<Article>)
      requires Valid()
      modifies this`articles
      ensures Valid()
      ensures old(ArticleBySlug(slug)).None? ==>
                r == Err(PrismaKnown(RECORD_NOT_FOUND)) && unchanged(this)
      ensures old(ArticleBySlug(slug)).Some? ==>
                && r == Ok(old(ArticleBySlug(slug)).value)
                && articles == old(articles) - {r.value.id}
    {
      var found := ArticleBySlug(slug);
      if found.None? {
        return Err(PrismaKnown(RECORD_NOT_FOUND));
      }
      articles := articles - {found.value.id};
      r := Ok(found.value);
    }

    /** `favorite.upsert` with an empty update: insert the edge unless it is there. */
    method UpsertFavorite(userId: int, articleId: int) returns (r: Result<()>)
      requires Valid()
      modifies this`favorites
      ensures Valid()
      ensures r.Ok? <==> userId in users && articleId in articles
      ensures r.Ok? ==> favorites == old(favorites) + {(userId, articleId)}
      ensures r.Err? ==> r.failure == PrismaKnown(FOREIGN_KEY_VIOLATION) && favorites == old(favorites)
    {
      if userId !in users || articleId !in articles {
        return Err(PrismaKnown(FOREIGN_KEY_VIOLATION));
      }
      favorites := favorites + {(userId, articleId)};
      r := Ok(());
    }

    /** `favorite.deleteMany({ where: { userId, articleId } })`: never fails. */
    method DeleteFavorites(userId: int, articleId: int)
      requires Valid()
      modifies this`favorites
      ensures Valid()
      ensures favorites == old(favorites) - {(userId, articleId)}
    {
      favorites := favorites - {(userId, articleId)};
    }

    /** `follow.upsert` with an empty update. */
    method UpsertFollow(followerId: int, followingId: int) returns (r: Result<()>)
      requires Valid()
      modifies this`follows
      ensures Valid()
      ensures r.Ok? <==> followerId in users && followingId in users
      ensures r.Ok? ==> follows == old(follows) + {(followerId, followingId)}
      ensures r.Err? ==> r.failure == PrismaKnown(FOREIGN_KEY_VIOLATION) && follows == old(follows)
    {
      if followerId !in users || followingId !in users {
        return Err(PrismaKnown(FOREIGN_KEY_VIOLATION));
      }
      follows := follows + {(followerId, followingId)};
      r := Ok(());
    }

    /** `follow.deleteMany({ where: { followerId, followingId } })`: never fails. */
    method DeleteFollows(followerId: int, followingId: int)
      requires Valid()
      modifies this`follows
      ensures Valid()
      ensures follows == old(follows) - {(followerId, followingId)}
    {
      follows := follows - {(followerId, followingId)};
    }

    method CreateComment(body: string, authorId: int, articleId: int, now: int) returns (r: Result<Comment>)
      requires Valid()
      modifies this`comments, this`nextCommentId
      ensures Valid()
      ensures r.Ok? <==> authorId in users && articleId in articles
      ensures r.Err? ==> r.failure == PrismaKnown(FOREIGN_KEY_VIOLATION) && unchanged(this)
      ensures r.Ok? ==>
                && r.value == Comment(old(nextCommentId), body, authorId, articleId, now)
                && r.value.id !in old(comments)
                && comments == old(comments)[r.value.id := r.value]
                && nextCommentId == old(nextCommentId) + 1
    {
      if authorId !in users || articleId !in articles {
        return Err(PrismaKnown(FOREIGN_KEY_VIOLATION));
      }
      var c := Comment(nextCommentId, body, authorId, articleId, now);
      comments := comments[c.id := c];
      nextCommentId := nextCommentId + 1;
      r := Ok(c);
    }

    method DeleteComment(id: int) returns (r: Result<Comment>)
      requires Valid()
      modifies this`comments
      ensures Valid()
      ensures r.Ok? <==> id in old(comments)
      ensures r.Err? ==> r.failure == PrismaKnown(RECORD_NOT_FOUND) && comments == old(comments)
      ensures r.Ok? ==> r.value == old(comments)[id] && comments == old(comments) - {id}
    {
      if id !in comments {
        return Err(PrismaKnown(RECORD_NOT_FOUND));
      }
      r := Ok(comments[id]);
      comments := comments - {id};
    }

    /** `user.update({ where: { id }, data })`. */
    method UpdateUser(id: int, patch: UserPatch) returns (r: Result<User>)
      requires Valid()
      modifies this`users
      ensures Valid()
      ensures r.Err? ==> users == old(users)
      ensures patch.newPassword.Some? ==> r == Err(Unexpected)
      ensures patch.newPassword.None? && id !in old(users) ==> r == Err(PrismaKnown(RECORD_NOT_FOUND))
      ensures patch.newPassword.None? && id in old(users) ==>
                if old(UserPatchConflicts(id, patch))
                then r == Err(PrismaKnown(UNIQUE_VIOLATION))
                else r == Ok(PatchedUser(old(users)[id], patch)) && users == old(users)[id := r.value]
    {
      if patch.newPassword.Some? {
        return Err(Unexpected);
      }
      if id !in users {
        return Err(PrismaKnown(RECORD_NOT_FOUND));
      }
      if UserPatchConflicts(id, patch) {
        return Err(PrismaKnown(UNIQUE_VIOLATION));
      }
      var u := PatchedUser(users[id], patch);
      users := users[id := u];
      r := Ok(u);
    }
  }
}
