/** The article service: the listing with its filters and pagination, unique
    slugs, the ownership guard in front of update and delete, and the favorite
    toggle. `slugify` and the millisecond clock are parameters. */
module Articles {
  import opened Common
  import opened Ordering
  import opened Store
  import opened Pagination

  /** The listing's query: raw `limit`/`offset` and the optional filters. */
  datatype ListArticlesQuery = ListArticlesQuery(
    limit: NumArg, offset: NumArg, tag: Option<string>, author: Option<string>, favorited: Option<string>)

  datatype CreateArticleData = CreateArticleData(title: string, description: string, body: string)

  datatype UpdateArticleData = UpdateArticleData(
    title: Option<string>, description: Option<string>, body: Option<string>)

  datatype ArticleWithAuthor = ArticleWithAuthor(article: Article, author: AuthorView)

  /** One row of the listing: the article, its author, whether the viewer
      favorited it and how many users did. */
  datatype ListedArticle = ListedArticle(
    article: Article, author: AuthorView, favorited: bool, favoritesCount: nat)

  datatype ArticleList = ArticleList(data: seq<ListedArticle>, meta: Meta, message: ListMessage)

  datatype AuthorProfile = AuthorProfile(
    username: string, bio: Option<string>, image: Option<string>, following: bool)

  datatype ArticleResponse = ArticleResponse(
    slug: string, title: string, description: string, body: string, tagList: seq<string>,
    createdAt: int, favorited: bool, favoritesCount: nat, author: AuthorProfile)

  /** The author relation as the listing includes it (`author: true`): the
      whole user row, password hash included. */
  function ListedAuthorAsWritten(u: User): (v: User)
    ensures v.password == u.password
  {
    u
  }

  /** Two users that differ only in their password get the same listed author
      as the listing is written, but not the same row: the hash is in the response. */
  lemma ListingExposesPasswordHash(u: User, other: string)
    requires other != u.password
    ensures ListedAuthorAsWritten(u) != ListedAuthorAsWritten(u.(password := other))
  {
  }

  /** The author projection every other query of the services uses, and
      which the listing uses in this model: nothing in it depends on the password. */
  lemma AuthorViewHidesPassword(u: User, other: string)
    ensures AuthorViewOf(u) == AuthorViewOf(u.(password := other))
    ensures AuthorViewOf(u).id == u.id && AuthorViewOf(u).username == u.username
  {
  }

  class ArticlesService {
    const db: Database

    constructor (db: Database)
      ensures this.db == db
    {
      this.db := db;
    }

    // ---- ownership guard and slugs ----

    /** Look the article up by slug and require that `userId` wrote it. */
    function FindAndValidateArticleOwnership(slug: string, userId: int): (r: Result<Article>)
      reads db
      requires db.Valid()
      ensures (forall id :: id in db.articles ==> db.articles[id].slug != slug) <==> r == Err(Http(NotFound))
      ensures (exists id :: id in db.articles && db.articles[id].slug == slug && db.articles[id].authorId != userId)
                <==> r == Err(Http(Forbidden))
      ensures r.Ok? ==> r.value.id in db.articles && db.articles[r.value.id] == r.value
                        && r.value.slug == slug && r.value.authorId == userId
    {
      var found := db.ArticleBySlug(slug);
      if found.None? then Err(Http(NotFound))
      else if found.value.authorId != userId then Err(Http(Forbidden))
      else Ok(found.value)
    }

    /** The slug for `title`: `slugify(title)`, unless another article (one
        that is not `excludeId`) already holds it; then the clock's value is
        appended. An `excludeId` of 0 counts as absent. */
    function GenerateUniqueSlug(title: string, excludeId: Option<int>, slugify: string -> string, now: nat): (slug: string)
      reads db
      requires db.Valid()
      ensures var candidate := slugify(title);
              if exists id :: id in db.articles && db.articles[id].slug == candidate
                                && !(PresentId(excludeId) && id == excludeId.value)
              then slug == candidate + "-" + Decimal(now)
              else slug == candidate
    {
      var candidate := slugify(title);
      var existing := db.ArticleBySlug(candidate);
      if existing.Some? && (!PresentId(excludeId) || existing.value.id != excludeId.value)
      then candidate + "-" + Decimal(now)
      else candidate
    }

    /** A slug that had to be disambiguated never equals the slug it collided with. */
    lemma {:induction false} DisambiguatedSlugDiffers(title: string, excludeId: Option<int>, slugify: string -> string, now: nat, other: int)
      requires db.Valid()
      requires other in db.articles && db.articles[other].slug == slugify(title)
      requires !(PresentId(excludeId) && other == excludeId.value)
      ensures GenerateUniqueSlug(title, excludeId, slugify, now) != db.articles[other].slug
    {
      var slug := GenerateUniqueSlug(title, excludeId, slugify, now);
      assert |slug| > |slugify(title)|;
    }

    // ---- create ----

    method Create(data: CreateArticleData, userId: int, slugify: string -> string, now: nat)
      returns (r: Result<ArticleWithAuthor>)
      requires db.Valid()
      modifies db`articles, db`nextArticleId
      ensures db.Valid()
      ensures userId !in old(db.users) ==> r == Err(Http(BadRequest)) && unchanged(db)
      ensures userId in old(db.users) ==>
                var slug := old(GenerateUniqueSlug(data.title, None, slugify, now));
                if old(db.ArticleBySlug(slug)).Some?
                then r == Err(PrismaKnown(UNIQUE_VIOLATION)) && unchanged(db)
                else
                  && r.Ok?
                  && r.value.article == Article(old(db.nextArticleId), slug, data.title, data.description,
                                                data.body, "", userId, now)
                  && r.value.author == AuthorViewOf(db.users[userId])
                  && db.articles == old(db.articles)[r.value.article.id := r.value.article]
    {
      var user := db.UserById(userId);
      if user.None? {
        return Err(Http(BadRequest));
      }
      var slug := GenerateUniqueSlug(data.title, None, slugify, now);
      var created := db.CreateArticle(data.title, slug, data.description, data.body, userId, now);
      if created.Err? {
        return Err(created.failure);
      }
      r := Ok(ArticleWithAuthor(created.value, AuthorViewOf(db.users[userId])));
    }

    // ---- listing ----

    /** The reference meaning of the listing's filters, stated on the query
        itself: the tag occurs in the tag list, the author's username is the
        one asked for, and the named user favorited the article. */
    ghost predicate MatchesQuery(q: ListArticlesQuery, a: Article)
      reads db
      requires db.Valid() && a.id in db.articles && db.articles[a.id] == a
    {
      && (Supplied(q.tag) ==> Contains(a.tagList, q.tag.value))
      && (Supplied(q.author) ==> db.users[a.authorId].username == q.author.value)
      && (Supplied(q.favorited) ==>
            exists u :: u in db.users && db.users[u].username == q.favorited.value && (u, a.id) in db.favorites)
    }

    ghost function QueryMatches(q: ListArticlesQuery): (ids: set<int>)
      reads db
      requires db.Valid()
      ensures ids <= db.articles.Keys
    {
      set id | id in db.articles && MatchesQuery(q, db.articles[id])
    }

    /** The favorited user of the query is named but does not exist. */
    predicate UnknownFavoritedUser(q: ListArticlesQuery)
      reads db
      requires db.Valid()
    {
      Supplied(q.favorited) && db.UserByUsername(q.favorited.value).None?
    }

    /** `articles.map(...)`: each row with its author and its favorite state. */
    function Listed(rows: seq<Article>, viewer: Option<int>): (data: seq<ListedArticle>)
      reads db
      requires db.Valid()
      requires forall i :: 0 <= i < |rows| ==> rows[i].id in db.articles && db.articles[rows[i].id] == rows[i]
      ensures |data| == |rows|
      ensures forall i :: 0 <= i < |rows| ==>
                && data[i].article == rows[i]
                && data[i].author == AuthorViewOf(db.users[rows[i].authorId])
                && data[i].favorited == (PresentId(viewer) && (viewer.value, rows[i].id) in db.favorites)
                && data[i].favoritesCount == db.FavoritesCount(rows[i].id)
    {
      seq(|rows|, i requires 0 <= i < |rows| && rows[i].authorId in db.users reads db =>
        ListedArticle(rows[i], AuthorViewOf(db.users[rows[i].authorId]),
                      PresentId(viewer) && (viewer.value, rows[i].id) in db.favorites,
                      db.FavoritesCount(rows[i].id)))
    }

    /** The `where` object built field by field matches exactly the articles
        the query means. */
    lemma WhereMatchesQuery(q: ListArticlesQuery, w: ArticleWhere)
      requires db.Valid() && !UnknownFavoritedUser(q)
      requires w.tagContains == (if Supplied(q.tag) then q.tag else None)
      requires w.authorUsername == (if Supplied(q.author) then q.author else None)
      requires w.favoritedBy == (if Supplied(q.favorited) then Some(db.UserByUsername(q.favorited.value).value.id) else None)
      ensures db.MatchingIds(w) == QueryMatches(q)
    {
      forall id | id in db.articles
        ensures db.Satisfies(db.articles[id], w) <==> MatchesQuery(q, db.articles[id])
      {
        if Supplied(q.favorited) {
          var fav := db.UserByUsername(q.favorited.value).value;
          if exists u :: u in db.users && db.users[u].username == q.favorited.value && (u, id) in db.favorites {
            var u :| u in db.users && db.users[u].username == q.favorited.value && (u, id) in db.favorites;
            assert u == fav.id;
          }
        }
      }
    }

    /** One row of the listing for `q` as `viewer` sees it: a stored article
        that matches the query, with its author's public view, whether the
        viewer (a non-zero id) favorited it, and how many users did. */
    ghost predicate ListedFor(q: ListArticlesQuery, viewer: Option<int>, item: ListedArticle)
      reads db
      requires db.Valid()
    {
      && item.article.id in db.articles && db.articles[item.article.id] == item.article
      && MatchesQuery(q, item.article)
      && item.author == AuthorViewOf(db.users[item.article.authorId])
      && item.favorited == (PresentId(viewer) && (viewer.value, item.article.id) in db.favorites)
      && item.favoritesCount == db.FavoritesCount(item.article.id)
    }

    /** What `count` and `findMany` return for a `where` object built from the
        query: the number of articles the query means, and the `skip`/`take`
        window of those articles newest first, each a row of the listing. */
    lemma PageOfQuery(q: ListArticlesQuery, viewer: Option<int>, w: ArticleWhere, skip: nat, take: nat)
      requires db.Valid() && !UnknownFavoritedUser(q)
      requires w.tagContains == (if Supplied(q.tag) then q.tag else None)
      requires w.authorUsername == (if Supplied(q.author) then q.author else None)
      requires w.favoritedBy == (if Supplied(q.favorited) then Some(db.UserByUsername(q.favorited.value).value.id) else None)
      ensures |db.MatchingIds(w)| == |QueryMatches(q)|
      ensures var rows := db.FindMany(w, skip, take);
              var ids := Window(NewestFirst(db.ArticleStamps(), QueryMatches(q)), skip, take);
              && |rows| == |ids|
              && (forall i :: 0 <= i < |rows| ==> rows[i].id == ids[i])
              && (forall i :: 0 <= i < |rows| ==> ListedFor(q, viewer, Listed(rows, viewer)[i]))
              && (forall i, j :: 0 <= i < j < |rows| ==>
                    Listed(rows, viewer)[i].article.createdAt >= Listed(rows, viewer)[j].article.createdAt)
    {
      WhereMatchesQuery(q, w);
      var rows := db.FindMany(w, skip, take);
      var data := Listed(rows, viewer);
      forall i | 0 <= i < |rows|
        ensures ListedFor(q, viewer, data[i])
      {
        assert rows[i].id in db.MatchingIds(w);
      }
    }

    method FindAll(query: ListArticlesQuery, viewer: Option<int>) returns (r: ArticleList)
      requires db.Valid()
      ensures r.meta.limit == EffectiveLimit(query.limit)
      ensures UnknownFavoritedUser(query) ==>
                r == ArticleList([], NoFavoritedUserMeta(EffectiveLimit(query.limit)), NoFavoritedUser)
      ensures !UnknownFavoritedUser(query) ==>
                var total := |QueryMatches(query)|;
                var ids := Window(NewestFirst(db.ArticleStamps(), QueryMatches(query)),
                                  EffectiveOffset(query.offset), EffectiveLimit(query.limit));
                && r.meta == PageMeta(total, EffectiveOffset(query.offset), EffectiveLimit(query.limit))
                && r.message == ChooseMessage(|r.data|, total)
                && |r.data| == |ids| <= EffectiveLimit(query.limit)
                && (forall i :: 0 <= i < |r.data| ==> r.data[i].article.id == ids[i])
      ensures forall i :: 0 <= i < |r.data| ==> ListedFor(query, viewer, r.data[i])
      ensures forall i, j :: 0 <= i < j < |r.data| ==> r.data[i].article.createdAt >= r.data[j].article.createdAt
    {
      var limit := EffectiveLimit(query.limit);
      var offset := EffectiveOffset(query.offset);
      var where := ArticleWhere(None, None, None);
      if Supplied(query.tag) {
        where := where.(tagContains := query.tag);
      }
      if Supplied(query.author) {
        where := where.(authorUsername := query.author);
      }
      if Supplied(query.favorited) {
        var favoritedUser := db.UserByUsername(query.favorited.value);
        if favoritedUser.Some? {
          where := where.(favoritedBy := Some(favoritedUser.value.id));
        } else {
          return ArticleList([], NoFavoritedUserMeta(limit), NoFavoritedUser);
        }
      }
      PageOfQuery(query, viewer, where, offset, limit);
      var total := |db.MatchingIds(where)|;
      var rows := db.FindMany(where, offset, limit);
      var data := Listed(rows, viewer);
      var meta := PageMeta(total, offset, limit);
      r := ArticleList(data, meta, ChooseMessage(|rows|, total));
    }

    /** When the page is empty although rows match, the offset is past the
        last matching row and there is no next page. */
    lemma {:induction false} PastEndMeansOffsetBeyondTotal(query: ListArticlesQuery, r: ArticleList)
      requires db.Valid() && !UnknownFavoritedUser(query)
      requires r.meta == PageMeta(|QueryMatches(query)|, EffectiveOffset(query.offset), EffectiveLimit(query.limit))
      requires r.message == ChooseMessage(|r.data|, |QueryMatches(query)|)
      requires |r.data| == |Window(NewestFirst(db.ArticleStamps(), QueryMatches(query)),
                                   EffectiveOffset(query.offset), EffectiveLimit(query.limit))|
      ensures r.message == PastEnd <==> (EffectiveOffset(query.offset) >= |QueryMatches(query)| > 0)
      ensures r.message == PastEnd ==> !r.meta.hasNextPage
    {
      var ordered := NewestFirst(db.ArticleStamps(), QueryMatches(query));
      assert |ordered| == |QueryMatches(query)|;
    }

    // ---- single article ----

    function FindBySlug(slug: string, viewer: Option<int>): (r: Result<ArticleResponse>)
      reads db
      requires db.Valid()
      ensures r.Err? <==> forall id :: id in db.articles ==> db.articles[id].slug != slug
      ensures r.Err? ==> r.failure == Http(NotFound)
      ensures r.Ok? ==>
                exists id :: id in db.articles && db.articles[id].slug == slug &&
                  var a := db.articles[id];
                  && r.value.slug == a.slug && r.value.title == a.title
                  && r.value.description == a.description && r.value.body == a.body
                  && r.value.createdAt == a.createdAt && r.value.tagList == []
                  && r.value.favorited == (PresentId(viewer) && (viewer.value, id) in db.favorites)
                  && r.value.favoritesCount == db.FavoritesCount(id)
                  && r.value.author == AuthorProfile(db.users[a.authorId].username, db.users[a.authorId].bio,
                                                     db.users[a.authorId].image, false)
    {
      var found := db.ArticleBySlug(slug);
      if found.None? then Err(Http(NotFound))
      else
        var a := found.value;
        var author := db.users[a.authorId];
        var favorited := PresentId(viewer) && (viewer.value, a.id) in db.favorites;
        Ok(ArticleResponse(a.slug, a.title, a.description, a.body, [], a.createdAt, favorited,
                           db.FavoritesCount(a.id),
                           AuthorProfile(author.username, author.bio, author.image, false)))
    }

    // ---- update and delete ----

    /** The `data` of the update: the supplied fields, plus a new slug when a
        non-empty title that differs from the current one is supplied. */
    function UpdatePatch(a: Article, data: UpdateArticleData, slugify: string -> string, now: nat): (p: ArticlePatch)
      reads db
      requires db.Valid()
      ensures p.title == data.title && p.description == data.description && p.body == data.body
      ensures p.slug.Some? <==> Supplied(data.title) && data.title.value != a.title
      ensures p.slug.Some? ==> p.slug.value == GenerateUniqueSlug(data.title.value, Some(a.id), slugify, now)
    {
      var patch := ArticlePatch(data.title, data.description, data.body, None);
      if Supplied(data.title) && data.title.value != a.title then
        patch.(slug := Some(GenerateUniqueSlug(data.title.value, Some(a.id), slugify, now)))
      else
        patch
    }

    /** Renaming an article to a title whose slug it already holds keeps its slug. */
    lemma {:induction false} RetitleKeepsOwnSlug(a: Article, data: UpdateArticleData, slugify: string -> string, now: nat)
      requires db.Valid() && a.id in db.articles && db.articles[a.id] == a && a.id != 0
      requires Supplied(data.title) && data.title.value != a.title && slugify(data.title.value) == a.slug
      ensures UpdatePatch(a, data, slugify, now).slug == Some(a.slug)
    {
      var candidate := slugify(data.title.value);
      forall id | id in db.articles && db.articles[id].slug == candidate
        ensures id == a.id
      {
        assert db.articles[a.id].slug == db.articles[id].slug;
      }
    }

    method Update(slug: string, data: UpdateArticleData, userId: int, slugify: string -> string, now: nat)
      returns (r: Result<ArticleWithAuthor>)
      requires db.Valid()
      modifies db`articles
      ensures db.Valid()
      ensures old(FindAndValidateArticleOwnership(slug, userId)).Err? ==>
                r == Err(old(FindAndValidateArticleOwnership(slug, userId)).failure) && unchanged(db)
      ensures old(FindAndValidateArticleOwnership(slug, userId)).Ok? ==>
                var a := old(FindAndValidateArticleOwnership(slug, userId)).value;
                var patch := old(UpdatePatch(a, data, slugify, now));
                if patch.slug.Some? &&
                   exists id :: id in old(db.articles) && id != a.id && old(db.articles)[id].slug == patch.slug.value
                then r == Err(PrismaKnown(UNIQUE_VIOLATION)) && unchanged(db)
                else
                  && r.Ok? && r.value.article == PatchedArticle(a, patch)
                  && r.value.article.id == a.id && r.value.article.authorId == a.authorId
                  && r.value.author == AuthorViewOf(db.users[a.authorId])
                  && db.articles == old(db.articles)[a.id := r.value.article]
    {
      var owned := FindAndValidateArticleOwnership(slug, userId);
      if owned.Err? {
        return Err(owned.failure);
      }
      var a := owned.value;
      var patch := UpdatePatch(a, data, slugify, now);
      var updated := db.UpdateArticle(slug, patch);
      if updated.Err? {
        return Err(updated.failure);
      }
      r := Ok(ArticleWithAuthor(updated.value, AuthorViewOf(db.users[updated.value.authorId])));
    }

    method Remove(slug: string, userId: int) returns (r: Result<ArticleWithAuthor>)
      requires db.Valid()
      modifies db`articles
      ensures db.Valid()
      ensures old(FindAndValidateArticleOwnership(slug, userId)).Err? ==>
                r == Err(old(FindAndValidateArticleOwnership(slug, userId)).failure) && unchanged(db)
      ensures old(FindAndValidateArticleOwnership(slug, userId)).Ok? ==>
                var a := old(FindAndValidateArticleOwnership(slug, userId)).value;
                && r.Ok? && r.value.article == a
                && r.value.author == AuthorViewOf(db.users[a.authorId])
                && db.articles == old(db.articles) - {a.id}
    {
      var owned := FindAndValidateArticleOwnership(slug, userId);
      if owned.Err? {
        return Err(owned.failure);
      }
      var deleted := db.DeleteArticle(slug);
      if deleted.Err? {
        assert false;  // the guard has just found the article
      }
      r := Ok(ArticleWithAuthor(deleted.value, AuthorViewOf(db.users[deleted.value.authorId])));
    }

    // ---- favorites ----

    method FavoriteArticle(slug: string, userId: int) returns (r: Result<ArticleResponse>)
      requires db.Valid()
      modifies db`favorites
      ensures db.Valid()
      ensures old(db.ArticleBySlug(slug)).None? ==> r == Err(Http(NotFound)) && unchanged(db)
      ensures old(db.ArticleBySlug(slug)).Some? ==>
                var a := old(db.ArticleBySlug(slug)).value;
                if userId in db.users
                then && db.favorites == old(db.favorites) + {(userId, a.id)}
                     && r == FindBySlug(slug, Some(userId)) && r.Ok?
                     && r.value.favorited == (userId != 0)
                     && r.value.favoritesCount == db.FavoritesCount(a.id)
                else r == Err(PrismaKnown(FOREIGN_KEY_VIOLATION)) && unchanged(db)
    {
      var article := db.ArticleBySlug(slug);
      if article.None? {
        return Err(Http(NotFound));
      }
      var upserted := db.UpsertFavorite(userId, article.value.id);
      if upserted.Err? {
        return Err(upserted.failure);
      }
      r := FindBySlug(slug, Some(userId));
    }

    method UnfavoriteArticle(slug: string, userId: int) returns (r: Result<ArticleResponse>)
      requires db.Valid()
      modifies db`favorites
      ensures db.Valid()
      ensures old(db.ArticleBySlug(slug)).None? ==> r == Err(Http(NotFound)) && unchanged(db)
      ensures old(db.ArticleBySlug(slug)).Some? ==>
                var a := old(db.ArticleBySlug(slug)).value;
                && db.favorites == old(db.favorites) - {(userId, a.id)}
                && r == FindBySlug(slug, Some(userId)) && r.Ok?
                && !r.value.favorited
                && r.value.favoritesCount == db.FavoritesCount(a.id)
    {
      var article := db.ArticleBySlug(slug);
      if article.None? {
        return Err(Http(NotFound));
      }
      db.DeleteFavorites(userId, article.value.id);
      r := FindBySlug(slug, Some(userId));
    }
  }
}
