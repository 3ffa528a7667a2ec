# medium-clone services in Dafny

This project models the service layer of a Medium-style blogging API
(a NestJS application backed by a Prisma database):

- **Articles**: the filtered, paginated listing; unique slugs; the ownership
  guard in front of update and delete; and the favorite toggle.
- **Comments**: creating, listing and deleting comments under an article.
- **Profiles**: reading a profile and following or unfollowing a user.
- **Users**: the current user, and the profile update with its password-change branch.
- **Exception filter**: turns every thrown error into an HTTP status, a
  `message` and an `error` label.

The database is the class `Store.Database`:

- users, articles and comments are maps from id to row;
- favorites and follows are sets of `(user, target)` edges.

Its ghost invariant `Valid()` holds the following:

- rows are keyed by their own id;
- authors exist;
- usernames, emails and slugs are unique.

Each Prisma call the services make is a function (reads) or a method (writes)
on that class. A write fails the way Prisma does:

- `P2002` on a unique violation;
- `P2003` on a missing foreign-key target;
- `P2025` on a missing row to update or delete.

Every service is a class holding the database; each operation that writes is
a method whose `modifies` clause names only the tables it touches.

A thrown exception is modelled as a returned failure (`Common.Result`). A
failure leaves the database unchanged.

The following are parameters: the `slugify` function, the clock value
`Date.now()`, and bcrypt's `hash` and `compare`.

JavaScript truthiness is modelled explicitly:

- an optional string counts as supplied only when it is present and non-empty (`Common.Supplied`);
- an optional id counts as present only when it is present and non-zero (`Common.PresentId`);
- `Number(x) || d` falls back on undefined, NaN and 0 (`Pagination.NumberOr`).

## Model

| member | source | states |
|---|---|---|
| Pagination.EffectiveLimit | src/articles/articles.service.ts:113-119 | the limit is always within 1..100; a missing, non-numeric or zero limit becomes 20; a limit in range is kept; a negative one becomes 1 and one above 100 becomes 100 |
| Pagination.EffectiveOffset | src/articles/articles.service.ts:114-120 | the offset is the supplied value when it is positive, and 0 otherwise (missing, NaN, zero or negative) |
| Pagination.PageMeta | src/articles/articles.service.ts:189-192 | the page is the one containing the offset (`(page-1)*limit <= offset < page*limit`); totalPages is at least 1, is 1 for an empty result and otherwise is the least page count covering the total; there is a next page exactly when `offset + limit < total`, and a previous one exactly when the offset is positive |
| Pagination.NoFavoritedUserMeta | src/articles/articles.service.ts:146-157 | the early answer for an unknown favorited user reports total 0, page 1 and totalPages 0, with neither a next nor a previous page |
| Pagination.ChooseMessage | src/articles/articles.service.ts:206-219 | an empty page says "no matches" exactly when the total is zero, and "past the end" exactly when rows match; a non-empty page reports its own length |
| Pagination.MessageTextsDistinct | src/articles/articles.service.ts:156 | the early answer, "no matches", "past the end" and the success message are four different texts, and success messages for different page lengths differ, so the message tells every outcome apart |
| Pagination.PageWithinTotalPages | src/articles/articles.service.ts:189-190 | an offset inside the matching rows lands on a page no greater than totalPages |
| Pagination.CeilDiv | src/articles/articles.service.ts:190 | `Math.ceil(total / limit)`: the least quotient whose product with the limit covers the total |
| Common.Decimal | src/articles/articles.service.ts:79 | `${Date.now()}` is a non-empty string of decimal digits that denotes the number itself, a single digit exactly for values below 10 |
| Common.DecimalInjective | src/articles/articles.service.ts:79 | two different clock values give two different suffixes |
| Ordering.NewestFirst | src/articles/articles.service.ts:180 | `orderBy: { createdAt: 'desc' }` yields every given row exactly once, with no extra rows, newest first |
| Ordering.FirstExists | src/articles/articles.service.ts:180 | every non-empty set of rows has a row that precedes all the others in newest-first order |
| Ordering.Window | src/articles/articles.service.ts:167-168 | `skip`/`take` yields at most `take` rows, none when `skip` is past the end, exactly the rows that remain otherwise, each equal to the row `skip` positions further on |
| Ordering.WindowKeepsOrder | src/articles/articles.service.ts:167-180 | a `skip`/`take` window of a newest-first sequence is still newest first |
| Store.Database.UserByUsername | src/user/profile.service.ts:49-51 | the lookup by the unique username finds the stored user with that name, or reports that no stored user has it |
| Store.Database.ArticleBySlug | src/articles/articles.service.ts:305 | the lookup by the unique slug finds the stored article with that slug, or reports that no stored article has it |
| Store.Database.MatchingIds | src/articles/articles.service.ts:161-163 | the counted rows are exactly the stored articles satisfying every condition of the `where` object |
| Store.Database.FindMany | src/articles/articles.service.ts:165-181 | the page holds the `skip`/`take` window of the newest-first order of the matching articles: stored rows, each satisfying the filter, with `createdAt` never increasing |
| Store.Database.RowsOfNewestFirst | src/articles/articles.service.ts:180 | rows fetched in newest-first id order have non-increasing `createdAt` |
| Store.Database.CommentOrder | src/comments/comments.service.ts:75-83 | an article's comments, every one of them exactly once and no others, with `createdAt` never increasing |
| Store.Database.UpdateUser | src/user/user.service.ts:89-92 | the user update rejects an unknown field (`newPassword`) before anything else; then a missing row is `P2025` and an email or username held by another user is `P2002`; otherwise the row is patched, and the table is untouched on every failure |
| Articles.ArticlesService.FindAndValidateArticleOwnership | src/articles/articles.service.ts:44-62 | NotFound exactly when no article has the slug, Forbidden exactly when it belongs to someone else; otherwise the stored article with that slug, written by the caller |
| Articles.ArticlesService.GenerateUniqueSlug | src/articles/articles.service.ts:64-83 | the slug is `slugify(title)`, unless another article (not `excludeId`, where 0 counts as no id) holds it; then it is that text followed by `-` and the clock's digits |
| Articles.ArticlesService.DisambiguatedSlugDiffers | src/articles/articles.service.ts:78-80 | a slug that collided with another article's is changed into one that differs from it |
| Articles.ArticlesService.Create | src/articles/articles.service.ts:85-107 | an unknown author is BadRequest; otherwise the generated slug is inserted under a fresh id with the empty string as tag list, unless another article already holds it (`P2002`); the author comes back without its password |
| Articles.ArticlesService.WhereMatchesQuery | src/articles/articles.service.ts:121-145 | the `where` object built field by field matches exactly the articles the query means: the tag occurs in the tag list, the author has the given username, and the named user favorited the article |
| Articles.ArticlesService.PageOfQuery | src/articles/articles.service.ts:161-187 | for a `where` object built from the query, `count` returns the number of articles the query means, and `findMany` returns the `skip`/`take` window of those articles newest first, each of which, once listed, is a matching stored article with its author view, favorite state and count |
| Articles.ArticlesService.Listed | src/articles/articles.service.ts:183-187 | each listed row keeps its article and carries its author's public columns, whether the viewer (a non-zero id) favorited it, and its favorite count |
| Articles.ArticlesService.FindAll | src/articles/articles.service.ts:109-220 | an unknown favorited user gives the empty early answer; otherwise the meta block describes the total number of matching articles, the message fits the page, and the page is the `offset`/`limit` window of the matching articles, newest first, each carrying its author view, favorite state and count |
| Articles.ArticlesService.PastEndMeansOffsetBeyondTotal | src/articles/articles.service.ts:206-213 | the "past the end" message appears exactly when rows match and the offset is at or beyond their number, and then there is no next page |
| Articles.ArticlesService.FindBySlug | src/articles/articles.service.ts:222-266 | NotFound exactly when no article has the slug; otherwise the article's fields with an empty tag list; favorited exactly when a viewer (non-zero id) is given and has favorited it; the favorite count; and the author's public fields with `following` false |
| Articles.ArticlesService.UpdatePatch | src/articles/articles.service.ts:274-283 | the update writes the supplied fields, plus a new slug exactly when a non-empty title that differs from the current one is supplied; the slug is generated without counting the article itself as a collision |
| Articles.ArticlesService.RetitleKeepsOwnSlug | src/articles/articles.service.ts:277-281 | retitling an article to a title whose slug it already holds keeps that slug |
| Articles.ArticlesService.Update | src/articles/articles.service.ts:268-290 | the ownership guard's failure is returned with nothing written; a new slug held by another article is `P2002`; otherwise exactly that article is patched and keeps its id and author |
| Articles.ArticlesService.Remove | src/articles/articles.service.ts:292-299 | the guard's failure is returned with nothing deleted; otherwise exactly the caller's article is removed and returned |
| Articles.ArticlesService.FavoriteArticle | src/articles/articles.service.ts:301-326 | an unknown slug is NotFound; an unknown user is `P2003`; otherwise the one edge is added (idempotently), and the response is the single-article read, which shows the article as favorited whenever the id is non-zero |
| Articles.ArticlesService.UnfavoriteArticle | src/articles/articles.service.ts:328-346 | an unknown slug is NotFound; otherwise the one edge is removed, and the single-article read shows the article as not favorited |
| Articles.ListingExposesPasswordHash | src/articles/articles.service.ts:169-170 | as written, the listing's author is the whole user row: two users differing only in their password hash are listed differently |
| Articles.AuthorViewHidesPassword | src/common/constants/database-selectors.constant.ts:1-13 | the author projection depends on nothing but the public columns; the password does not reach it |
| Comments.ValidateCommentOwnership | src/comments/comments.service.ts:43-50 | the delete passes exactly when the caller wrote the comment and it belongs to the named article; someone else's comment is Forbidden; one's own comment under another article is NotFound |
| Comments.OwnershipCheckOrder | src/comments/comments.service.ts:44-49 | for a comment under another article, the author check comes first: it is Forbidden for others and NotFound for its author |
| Comments.CommentsService.FindArticleBySlug | src/comments/comments.service.ts:24-30 | NotFound exactly when no article has the slug; otherwise the stored article with that slug |
| Comments.CommentsService.FindCommentWithAuthor | src/comments/comments.service.ts:32-41 | NotFound exactly when the id is unknown; otherwise the stored comment with its author's public view |
| Comments.CommentsService.Create | src/comments/comments.service.ts:52-70 | an unknown article is NotFound and an unknown author `P2003`, with nothing written; otherwise one comment is inserted under a fresh id, on that article and by that author |
| Comments.CommentsService.FindAll | src/comments/comments.service.ts:72-87 | NotFound exactly when the article is unknown; otherwise the article's comments in the store's newest-first order, each with its author's public view |
| Comments.CommentsService.FindAllExactlyTheArticlesComments | src/comments/comments.service.ts:75-83 | the listing holds every comment of the article and only those, each once, with `createdAt` never increasing |
| Comments.CommentsService.Remove | src/comments/comments.service.ts:89-99 | checks in order: an unknown article, then an unknown comment (both NotFound), then the ownership check; only when all pass is that one comment deleted, and nothing changes otherwise |
| Profiles.ProfileService.GetProfile | src/user/profile.service.ts:10-46 | NotFound exactly when no user has the name; otherwise that user's public fields; `following` is true exactly when a viewer (non-zero id) is given and follows the user |
| Profiles.ProfileService.FollowUser | src/user/profile.service.ts:48-83 | unknown name is NotFound, following oneself is BadRequest, an unknown follower is `P2003`, with nothing written; otherwise exactly the one edge is added and the profile says `following` |
| Profiles.ProfileService.UnfollowUser | src/user/profile.service.ts:85-109 | unknown name is NotFound with nothing written; otherwise exactly the one edge is removed and the profile says not following |
| Profiles.ProfileService.FollowTwice | src/user/profile.service.ts:61-73 | following twice answers as following once, adds at most one edge, and the profile read afterwards shows the follow |
| Profiles.ProfileService.UnfollowTwice | src/user/profile.service.ts:94-99 | unfollowing twice answers as unfollowing once, and the profile read afterwards shows no follow |
| Users.UserService.GetCurrentUser | src/user/user.service.ts:18-39 | NotFound exactly when the id is unknown; otherwise the user's id, email, username, bio and image, without the password |
| Users.PrepareUpdate | src/user/user.service.ts:55-87 | a new password without the current one is BadRequest, decided before the lookup; then an unknown user is NotFound and a wrong current password Unauthorized; a successful change writes the hash of the new password and drops `newPassword`; without a new password the data is passed on unchanged |
| Users.MissingCurrentPasswordPrecedesLookup | src/user/user.service.ts:55-62 | a missing current password is refused whatever the user lookup would return |
| Users.UserService.UpdateUser | src/user/user.service.ts:41-108 | nothing is written unless every check passes; a refused change returns its failure; data that still carries `newPassword` is rejected by the store; after the checks pass, an unknown id is `P2025`, an email or username held by another user is `P2002`, and otherwise the update succeeds; on success exactly that user's row is patched and returned without its password, and its password is the hash of the new one when a change was asked for |
| Users.DataFromDtoAsWritten | src/user/user.controller.ts:19-21 | the body reaches the service with no `password` field, since the body names it `currentPassword` |
| Users.PasswordChangeThroughDtoAlwaysRefused | src/user/dto/update-user.dto.ts:20-26 | as written, every password change sent through the endpoint is refused with BadRequest |
| Users.DataFromDto | src/user/dto/update-user.dto.ts:20-26 | the body's current password reaches the service as `password`, and every other field is passed on as is |
| Users.PasswordChangeThroughDtoAccepted | src/user/user.service.ts:68-86 | when the body's current password is carried over, a change with a matching current password succeeds and writes the hash of the new password |
| ExceptionFilter.Classify | src/common/filters/global-exception.filter.ts:17-92 | malformed JSON is 400 with its fixed message and label; an HTTP exception is answered from itself and its response; a database client error from its code; anything else is 500 "Internal server error" |
| ExceptionFilter.HttpExceptionResponse | src/common/filters/global-exception.filter.ts:30-44 | an HTTP exception keeps its status; a string response becomes the message, with the exception's name as label; an object response contributes its truthy `message` and `error`, falling back on the exception's message and name; any other response gives the exception's message and name |
| ExceptionFilter.PrismaErrorResponse | src/common/filters/global-exception.filter.ts:45-62 | every database client error is labelled "Database Error"; the status is 404 exactly for `P2025` and 400 otherwise; `P2002`, `P2025` and `P2003` each have their own message, and any other code "Database operation failed" |
| ExceptionFilter.ToException | src/common/filters/global-exception.filter.ts:30-45 | a service failure is thrown as the HTTP exception of its kind (whose response has no `error` label when its message is empty or undefined), a database failure as the database client's error with the same code, anything else as an unknown error |
| ExceptionFilter.FailureStatus | src/common/filters/global-exception.filter.ts:26-77 | statuses reaching the client: NotFound 404, Forbidden 403, Unauthorized 401, BadRequest 400; `P2002` and `P2003` are 400, `P2025` is 404 and an unexpected error 500; an HTTP failure with a message keeps it and is labelled with its reason phrase; one without a message gets the reason phrase as message and the exception's name (e.g. `NotFoundException`) as label |
| ExceptionFilter.ErrorStatusesAreErrors | src/common/filters/global-exception.filter.ts:26-77 | every failure is answered with a status of 400 or more |

## Left out

- Controllers, guards, JWT authentication, the auth service and request
  validation (class-validator) are not part of this model. The one exception
  is the update-user body, which the Findings row below needs.
- Nothing here models the request timestamp, path or method in the error
  body, nor the logging.
- Messages: only the services' failure kinds are modelled, not their message
  texts. Several message constants the services use (for comments and for
  following oneself) are missing from the messages file; an undefined message
  is modelled as the empty text, which `ExceptionFilter.ToException` treats as
  the framework does.
- `slugify`, `Date.now()` and bcrypt are parameters. Salt generation is part of `hash`.
- Numbers from the query string are integers. Fractional limits and offsets are not modelled.
- `updatedAt` and the database's own `createdAt` default are not modelled. The
  caller supplies `createdAt` as `now`.
- Store.Database.FindMany: rows with equal `createdAt` are ordered by
  ascending id. The source leaves this order to the database.
- Store.Database.CommentOrder: the same ascending-id order breaks ties between
  comments with equal `createdAt` (and so in `Store.Database.CommentsOf`).
- Articles.ArticlesService.FindAll: each listed row carries the author's
  public columns (`Store.AuthorViewOf`), the corrected behaviour of the first
  Findings row. As written, `include: { author: true }` returns the whole user
  row with its password hash; `Articles.ListingExposesPasswordHash` shows that
  half.
- Articles.ArticlesService.Listed: lists the author's public columns, not
  the whole user row the source includes (see `FindAll` above); so does
  `Articles.ArticlesService.PageOfQuery`.
- Articles.ArticlesService.Create: the article's `tagList` column gets no
  value from the service, and its database default is not part of this model;
  the model stores the empty string.
- Delete cascades are not modelled: deleting an article leaves its comments
  and favorite edges in place.
- Concurrency between requests, and the race between the slug check and the
  insert, are not modelled. The insert's `P2002` covers the outcome.
- Users.UserService.UpdateUser: a `currentPassword` field that reaches the
  database in the data object (and fails there) is not modelled. Only the
  `newPassword` field is.
- ExceptionFilter.Classify: a `message` or `error` value in an HTTP
  exception's response that is neither a string nor a string list is not
  modelled.
- `typeof exceptionResponse === 'object'` is modelled as the `ObjectBody` case.

## Findings

| source | as written | input that shows it | evidently intended | confidence | as-written member | corrected member |
|---|---|---|---|---|---|---|
| src/articles/articles.service.ts:169-170 | the listing includes the whole author row (`author: true`), so each listed article carries its author's password hash | any listing that returns at least one article | include only the public author columns, as the create, update and delete queries do | high, not executed | Articles.ListingExposesPasswordHash | Articles.AuthorViewHidesPassword |
| src/user/dto/update-user.dto.ts:20-26 | the body names the current password `currentPassword`, but the service reads `data.password`, so a password change never sees the current password | `PUT /user` with `{ "currentPassword": "old", "newPassword": "new" }` is refused with 400 | the service reads the field the body defines | high, not executed | Users.PasswordChangeThroughDtoAlwaysRefused | Users.PasswordChangeThroughDtoAccepted |
