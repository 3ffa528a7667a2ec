/** The arithmetic of the article listing: how the raw `limit` and `offset`
    query values become the effective ones, the `meta` block of a page, and the
    choice of the page's message. */
module Pagination {
  import opened Common

  const DEFAULT_LIMIT: int := 20
  const DEFAULT_OFFSET: int := 0
  const MAX_LIMIT: int := 100
  const MIN_LIMIT: int := 1
  const MIN_OFFSET: int := 0
  const DEFAULT_PAGE: int := 1

  /** A query-string number after `Number(...)`: absent (undefined), not a
      number (NaN), or an integer. */
  datatype NumArg = Absent | NotANumber | Num(n: int)

  /** `Number(arg) || fallback`: undefined, NaN and 0 are all falsy. */
  function NumberOr(arg: NumArg, fallback: int): int {
    if arg.Num? && arg.n != 0 then arg.n else fallback
  }

  function Max(a: int, b: int): int { if a >= b then a else b }
  function Min(a: int, b: int): int { if a <= b then a else b }

  /** The limit the listing uses: the raw value, defaulted and clamped. */
  function EffectiveLimit(arg: NumArg): (limit: int)
    ensures MIN_LIMIT <= limit <= MAX_LIMIT
    ensures !(arg.Num? && arg.n != 0) ==> limit == DEFAULT_LIMIT
    ensures arg.Num? && MIN_LIMIT <= arg.n <= MAX_LIMIT ==> limit == arg.n
    ensures arg.Num? && arg.n < 0 ==> limit == MIN_LIMIT
    ensures arg.Num? && arg.n > MAX_LIMIT ==> limit == MAX_LIMIT
  {
    Min(Max(NumberOr(arg, DEFAULT_LIMIT), MIN_LIMIT), MAX_LIMIT)
  }

  /** The offset the listing uses: the raw value, defaulted and floored at zero. */
  function EffectiveOffset(arg: NumArg): (offset: nat)
    ensures !(arg.Num? && arg.n > 0) ==> offset == DEFAULT_OFFSET
    ensures arg.Num? && arg.n > 0 ==> offset == arg.n
  {
    Max(NumberOr(arg, DEFAULT_OFFSET), MIN_OFFSET)
  }

  datatype Meta = Meta(
    total: nat, page: int, limit: int, totalPages: int, hasNextPage: bool, hasPrevPage: bool)

  /** `Math.ceil(total / limit)` for a non-negative total and positive limit. */
  function CeilDiv(total: nat, limit: int): (q: nat)
    requires limit >= 1
    ensures q * limit >= total
    ensures total > 0 ==> (q - 1) * limit < total
    ensures total == 0 ==> q == 0
  {
    var q := (total + limit - 1) / limit;
    DivBounds(total + limit - 1, limit);
    q
  }

  lemma DivBounds(n: nat, d: int)
    requires d >= 1
    ensures (n / d) * d <= n < (n / d) * d + d
  {
    assert n == (n / d) * d + n % d;
  }

  /** The `meta` block of a page that ran the main query. */
  function PageMeta(total: nat, offset: nat, limit: int): (m: Meta)
    requires MIN_LIMIT <= limit
    ensures m.total == total && m.limit == limit
    ensures m.page >= 1 && (m.page - 1) * limit <= offset < m.page * limit
    ensures m.totalPages >= 1
    ensures total == 0 ==> m.totalPages == 1
    ensures total > 0 ==> (m.totalPages - 1) * limit < total <= m.totalPages * limit
    ensures m.hasNextPage <==> offset + limit < total
    ensures m.hasPrevPage <==> offset > 0
  {
    DivBounds(offset, limit);
    var page := offset / limit + 1;
    var ceil := CeilDiv(total, limit);
    var totalPages := if ceil == 0 then 1 else ceil;
    Meta(total, page, limit, totalPages, offset + limit < total, offset > 0)
  }

  /** The `meta` block returned when the `favorited` user does not exist. */
  function NoFavoritedUserMeta(limit: int): (m: Meta)
    ensures m.total == 0 && m.page == DEFAULT_PAGE && m.limit == limit && m.totalPages == 0
    ensures !m.hasNextPage && !m.hasPrevPage
  {
    Meta(0, DEFAULT_PAGE, limit, 0, false, false)
  }

  datatype ListMessage = NoFavoritedUser | NoMatches | PastEnd | Retrieved(count: nat)
  {
    function Text(): string {
      match this
      case NoFavoritedUser => "No articles found for the specified favorited user"
      case NoMatches => "No articles found matching the filters"
      case PastEnd => "No articles found for the current offset"
      case Retrieved(n) => "Retrieved " + Decimal(n) + " articles successfully"
    }
  }

  /** The message of a page that ran the main query. */
  function ChooseMessage(pageLength: nat, total: nat): (msg: ListMessage)
    ensures msg == NoMatches <==> pageLength == 0 && total == 0
    ensures msg == PastEnd <==> pageLength == 0 && total > 0
    ensures msg.Retrieved? <==> pageLength > 0
    ensures msg.Retrieved? ==> msg.count == pageLength
  {
    if pageLength == 0 then (if total == 0 then NoMatches else PastEnd)
    else Retrieved(pageLength)
  }

  /** A page that starts inside the matching rows is within `totalPages`. */
  lemma {:induction false} PageWithinTotalPages(total: nat, offset: nat, limit: int)
    requires MIN_LIMIT <= limit && offset < total
    ensures PageMeta(total, offset, limit).page <= PageMeta(total, offset, limit).totalPages
  {
    var m := PageMeta(total, offset, limit);
    if m.page > m.totalPages {
      assert (m.page - 1) * limit >= m.totalPages * limit by {
        MulMonotone(m.totalPages, m.page - 1, limit);
      }
    }
  }

  /** The four messages tell the four outcomes apart, and a success message
      tells page lengths apart. */
  lemma MessageTextsDistinct(a: ListMessage, b: ListMessage)
    requires a != b
    ensures a.Text() != b.Text()
  {
    FirstLetter(a);
    FirstLetter(b);
    if a.Retrieved? && b.Retrieved? {
      RetrievedCountInText(a.count);
      RetrievedCountInText(b.count);
      DecimalInjective(a.count, b.count);
    } else if !a.Retrieved? && !b.Retrieved? {
      assert a.Text()[18] != b.Text()[18] || |a.Text()| != |b.Text()|;
    }
  }

  /** The success message shows the page length in decimal after its ten-letter prefix. */
  lemma RetrievedCountInText(n: nat)
    ensures var t := Retrieved(n).Text(); |t| >= 32 && t[10..|t| - 22] == Decimal(n)
  {
    var t := Retrieved(n).Text();
    assert t == "Retrieved " + Decimal(n) + " articles successfully";
  }

  lemma FirstLetter(m: ListMessage)
    ensures |m.Text()| > 0 && m.Text()[0] == if m.Retrieved? then 'R' else 'N'
  {
    match m
    case Retrieved(n) =>
      var t := m.Text();
      assert t == "Retrieved " + Decimal(n) + " articles successfully";
      assert t[0] == ("Retrieved " + Decimal(n))[0] == 'R';
    case NoFavoritedUser =>
      assert m.Text() == "No articles found " + "for the specified favorited user";
    case NoMatches =>
      assert m.Text() == "No articles found matching the filters";
    case PastEnd =>
      assert m.Text() == "No articles found for the current offset";
  }

  lemma MulMonotone(a: int, b: int, c: int)
    requires a <= b && c >= 0
    ensures a * c <= b * c
  {
  }
}
