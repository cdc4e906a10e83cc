/**
 * Query planning of the product listing endpoint (`get_products` in
 * backend/app/api/products.py): request validation, `sort_by` parsing, the
 * filter clauses and their WHERE/AND keywords, the bind parameters and the
 * pagination block of the response. SQL text is modelled as a sequence of
 * pieces; the database is modelled by the number of rows the filters match.
 */
module ProductsApi {
  import opened Wrappers

  // ---------------------------------------------------------------------------
  // Text helpers with Python's meaning.
  // ---------------------------------------------------------------------------

  /** `s.split(sep)` with an explicit separator: empty fields are kept. */
  function Split(s: string, sep: char): (r: seq<string>)
    ensures |r| >= 1
    decreases |s|
  {
    if s == [] then [""]
    else
      var rest := Split(s[1..], sep);
      if s[0] == sep then [""] + rest else [[s[0]] + rest[0]] + rest[1..]
  }

  /** `sep.join(parts)`. */
  function Join(parts: seq<string>, sep: char): string
    requires |parts| >= 1
    decreases |parts|
  {
    if |parts| == 1 then parts[0] else parts[0] + [sep] + Join(parts[1..], sep)
  }

  /** Splitting loses nothing: joining the fields back gives the input, and no field holds the separator. */
  lemma {:induction false} SplitJoin(s: string, sep: char)
    ensures Join(Split(s, sep), sep) == s
    ensures forall i :: 0 <= i < |Split(s, sep)| ==> sep !in Split(s, sep)[i]
    decreases |s|
  {
    if s != [] {
      var rest := Split(s[1..], sep);
      SplitJoin(s[1..], sep);
      assert s == [s[0]] + s[1..];
      if s[0] == sep {
        assert ([""] + rest)[1..] == rest;
      } else {
        var r := [[s[0]] + rest[0]] + rest[1..];
        assert r[1..] == rest[1..];
        if |rest| > 1 {
          assert Join(rest, sep) == rest[0] + [sep] + Join(rest[1..], sep);
        }
      }
    }
  }

  /** A string without the separator splits into itself. */
  lemma {:induction false} SplitWithoutSep(a: string, sep: char)
    requires sep !in a
    ensures Split(a, sep) == [a]
    decreases |a|
  {
    if a != [] {
      SplitWithoutSep(a[1..], sep);
      assert a == [a[0]] + a[1..];
    }
  }

  /** The first field ends at the first separator. */
  lemma {:induction false} SplitAtSep(a: string, b: string, sep: char)
    requires sep !in a
    ensures Split(a + [sep] + b, sep) == [a] + Split(b, sep)
    decreases |a|
  {
    var s := a + [sep] + b;
    if a == [] {
      assert s[1..] == b;
    } else {
      assert s[1..] == a[1..] + [sep] + b;
      SplitAtSep(a[1..], b, sep);
      assert a == [a[0]] + a[1..];
    }
  }

  /** ASCII lower-casing of one character. */
  function LowerChar(c: char): char {
    if 'A' <= c <= 'Z' then (c as int + 32) as char else c
  }

  /** `s.lower()`, restricted to ASCII letters. */
  function Lower(s: string): (r: string)
    ensures |r| == |s|
    ensures forall i :: 0 <= i < |s| ==> r[i] == LowerChar(s[i])
  {
    seq(|s|, i requires 0 <= i < |s| => LowerChar(s[i]))
  }

  // ---------------------------------------------------------------------------
  // The request and its validation.
  // ---------------------------------------------------------------------------

  /** The query parameters of `get_products`; category ids are kept as text. */
  datatype Request = Request(
    category: seq<string>,
    page: int,
    pageSize: int,
    sortBy: string,
    price: seq<int>,
    condition: string,
    productName: string)

  /** The values a missing parameter takes. */
  function DefaultRequest(): Request {
    Request([], 1, 20, "Title a_z", [], "", "")
  }

  /** The alternatives of the `sort_by` pattern, the empty one included. */
  const SortOptions: seq<string> := ["Title a_z", "Title z_a", "Price a_z", "Price z_a", "Newest", "Oldest", ""]

  /** The alternatives of the `condition` pattern. */
  const ConditionOptions: seq<string> := ["new", "used", ""]

  /**
   * A `^(a|b|...)$` pattern tested with Python's `re.match`: `$` also matches
   * just before a final newline, so an option may carry one trailing "\n".
   */
  predicate MatchesOption(s: string, options: seq<string>) {
    || s in options
    || (|s| >= 1 && s[|s| - 1] == '\n' && s[..|s| - 1] in options)
  }

  /** What the framework checks before the handler runs; a request failing it gets a 422. */
  predicate ValidRequest(req: Request) {
    && req.page >= 1
    && req.pageSize >= 1
    && MatchesOption(req.sortBy, SortOptions)
    && (forall i :: 0 <= i < |req.price| ==> req.price[i] >= 0)
    && MatchesOption(req.condition, ConditionOptions)
  }

  // ---------------------------------------------------------------------------
  // Sort parsing.
  // ---------------------------------------------------------------------------

  datatype Direction = Asc | Desc

  /** The `ORDER BY` column and direction. */
  datatype Ordering = Ordering(column: string, direction: Direction)

  /**
   * The `sorts` branches. `None` is the case where no branch binds `order`
   * and `sort`, so building the query text raises.
   */
  function ParseSort(sortBy: string): Option<Ordering> {
    var sorts := Split(sortBy, ' ');
    if sorts[0] == "Newest" then Some(Ordering("products.created_at", Desc))
    else if sorts[0] == "Oldest" then Some(Ordering("products.created_at", Asc))
    else if |sorts| == 2 then Some(Ordering(Lower(sorts[0]), if sorts[1] == "a_z" then Asc else Desc))
    else None
  }

  /** A two-word option sorts by the lower-cased first word, ascending exactly for `a_z`. */
  lemma ParseTwoWords(field: string, suffix: string)
    requires ' ' !in field && ' ' !in suffix
    requires field != "Newest" && field != "Oldest"
    ensures ParseSort(field + " " + suffix) == Some(Ordering(Lower(field), if suffix == "a_z" then Asc else Desc))
  {
    SplitAtSep(field, suffix, ' ');
    SplitWithoutSep(suffix, ' ');
    assert field + " " + suffix == field + [' '] + suffix;
  }

  lemma ParseOneWord(word: string)
    requires ' ' !in word
    ensures word == "Newest" ==> ParseSort(word) == Some(Ordering("products.created_at", Desc))
    ensures word == "Oldest" ==> ParseSort(word) == Some(Ordering("products.created_at", Asc))
    ensures word != "Newest" && word != "Oldest" ==> ParseSort(word) == None
  {
    SplitWithoutSep(word, ' ');
  }

  /**
   * What each accepted `sort_by` value means: the two date options sort by
   * creation time, the four two-word options by the lower-cased field,
   * ascending for `a_z`; the empty value binds nothing.
   */
  lemma SortOptionsParse(s: string)
    ensures s == "Newest" ==> ParseSort(s) == Some(Ordering("products.created_at", Desc))
    ensures s == "Oldest" ==> ParseSort(s) == Some(Ordering("products.created_at", Asc))
    ensures s == "Title a_z" ==> ParseSort(s) == Some(Ordering("title", Asc))
    ensures s == "Title z_a" ==> ParseSort(s) == Some(Ordering("title", Desc))
    ensures s == "Price a_z" ==> ParseSort(s) == Some(Ordering("price", Asc))
    ensures s == "Price z_a" ==> ParseSort(s) == Some(Ordering("price", Desc))
    ensures s == "" ==> ParseSort(s) == None
  {
    var title, price, up, down := "Title", "Price", "a_z", "z_a";
    assert Lower(title) == "title";
    assert Lower(price) == "price";
    if s == "Newest" || s == "Oldest" || s == "" {
      ParseOneWord(s);
    } else if s == "Title a_z" {
      assert s == title + " " + up;
      ParseTwoWords(title, up);
    } else if s == "Title z_a" {
      assert s == title + " " + down;
      ParseTwoWords(title, down);
    } else if s == "Price a_z" {
      assert s == price + " " + up;
      ParseTwoWords(price, up);
    } else if s == "Price z_a" {
      assert s == price + " " + down;
      ParseTwoWords(price, down);
    }
  }

  /**
   * The accepted values with a trailing newline: the two-word ones compare
   * "a_z\n" with "a_z" and so always sort descending; the one-word ones,
   * like the empty value, bind no ordering.
   */
  lemma SortNewlineParse(s: string)
    ensures s == "Newest\n" || s == "Oldest\n" || s == "\n" ==> ParseSort(s) == None
    ensures s == "Title a_z\n" || s == "Title z_a\n" ==> ParseSort(s) == Some(Ordering("title", Desc))
    ensures s == "Price a_z\n" || s == "Price z_a\n" ==> ParseSort(s) == Some(Ordering("price", Desc))
  {
    var title, price, up, down := "Title", "Price", "a_z\n", "z_a\n";
    assert Lower(title) == "title";
    assert Lower(price) == "price";
    if s == "Newest\n" || s == "Oldest\n" || s == "\n" {
      ParseOneWord(s);
    } else if s == "Title a_z\n" {
      assert s == title + " " + up;
      ParseTwoWords(title, up);
    } else if s == "Title z_a\n" {
      assert s == title + " " + down;
      ParseTwoWords(title, down);
    } else if s == "Price a_z\n" {
      assert s == price + " " + up;
      ParseTwoWords(price, up);
    } else if s == "Price z_a\n" {
      assert s == price + " " + down;
      ParseTwoWords(price, down);
    }
  }

  /** The accepted `sort_by` values that bind no ordering. */
  const UnboundSorts: seq<string> := ["", "\n", "Newest\n", "Oldest\n"]

  /**
   * Among validated requests, the query can be built exactly when `sort_by`
   * is not empty and not a date option followed by a newline.
   */
  lemma ValidSortParses(req: Request)
    requires ValidRequest(req)
    ensures ParseSort(req.sortBy).Some? <==> req.sortBy !in UnboundSorts
  {
    var s := req.sortBy;
    if s in SortOptions {
      SortOptionsParse(s);
    } else {
      var b := s[..|s| - 1];
      assert s == b + "\n";
      SortNewlineParse(s);
    }
  }

  // ---------------------------------------------------------------------------
  // The query: pieces instead of SQL text.
  // ---------------------------------------------------------------------------

  /** The optional filter clauses, named by the column they test. */
  datatype Filter = CategoryIn | TitleLike | MinPrice | MaxPrice | ConditionIs

  datatype Keyword = And | Where

  /**
   * A piece of the query text: the fixed SELECT ... LEFT JOIN head (which holds
   * no `AND`), a filter clause with its leading keyword, and the
   * GROUP BY / ORDER BY / LIMIT / OFFSET tail.
   */
  datatype Piece = Select | Clause(keyword: Keyword, filter: Filter) | Tail(ordering: Ordering)

  predicate IsAnd(p: Piece) {
    p.Clause? && p.keyword == And
  }

  /** Position of a filter in the fixed clause order. */
  function Rank(f: Filter): nat {
    match f
    case CategoryIn => 0
    case TitleLike => 1
    case MinPrice => 2
    case MaxPrice => 3
    case ConditionIs => 4
  }

  /** `fs` with `f` appended when `guard` holds. */
  function AppendIf(fs: seq<Filter>, guard: bool, f: Filter): seq<Filter> {
    if guard then fs + [f] else fs
  }

  /** The filters a request switches on, in the order the handler tests their guards. */
  function ActiveFilters(req: Request): seq<Filter> {
    var fs := AppendIf([], |req.category| > 0, CategoryIn);
    var fs := AppendIf(fs, req.productName != "", TitleLike);
    var fs := AppendIf(fs, |req.price| > 0, MinPrice);
    var fs := AppendIf(fs, |req.price| > 1, MaxPrice);
    AppendIf(fs, req.condition != "", ConditionIs)
  }

  /**
   * Each clause is present exactly under its guard: the minimum price needs
   * one price value, the maximum two.
   */
  lemma FilterGuards(req: Request)
    ensures var r := ActiveFilters(req);
            && (CategoryIn in r <==> |req.category| > 0)
            && (TitleLike in r <==> req.productName != "")
            && (MinPrice in r <==> |req.price| >= 1)
            && (MaxPrice in r <==> |req.price| >= 2)
            && (ConditionIs in r <==> req.condition != "")
  {
  }

  /** What the price list turns on and binds: one value is a minimum, two are a minimum and a maximum. */
  lemma PriceClauses(req: Request)
    ensures |req.price| == 0 ==> MinPrice !in ActiveFilters(req) && MaxPrice !in ActiveFilters(req)
    ensures |req.price| == 1 ==>
      && MinPrice in ActiveFilters(req) && MaxPrice !in ActiveFilters(req)
      && Bind(req).minPrice == req.price[0] && Bind(req).maxPrice == 0
    ensures |req.price| >= 2 ==>
      && MinPrice in ActiveFilters(req) && MaxPrice in ActiveFilters(req)
      && Bind(req).minPrice == req.price[0] && Bind(req).maxPrice == req.price[1]
  {
    FilterGuards(req);
  }

  /** The clauses keep the fixed order category, product name, minimum price, maximum price, condition. */
  lemma FilterOrder(req: Request)
    ensures var r := ActiveFilters(req);
            forall i, j :: 0 <= i < j < |r| ==> Rank(r[i]) < Rank(r[j])
  {
  }

  /** The filters as appended, each led by `AND`. */
  function AndClauses(fs: seq<Filter>): (r: seq<Piece>)
    ensures |r| == |fs|
    ensures forall i :: 0 <= i < |fs| ==> r[i] == Clause(And, fs[i])
  {
    seq(|fs|, i requires 0 <= i < |fs| => Clause(And, fs[i]))
  }

  /** The filters as SQL wants them: the first led by `WHERE`, the others by `AND`. */
  function WhereClauses(fs: seq<Filter>): (r: seq<Piece>)
    ensures |r| == |fs|
    ensures forall i :: 0 <= i < |fs| ==> r[i] == Clause(if i == 0 then Where else And, fs[i])
  {
    seq(|fs|, i requires 0 <= i < |fs| => Clause(if i == 0 then Where else And, fs[i]))
  }

  /** No piece of `q` is an `AND` clause. */
  predicate NoAnd(q: seq<Piece>) {
    forall i :: 0 <= i < |q| ==> !IsAnd(q[i])
  }

  /** The first `AND` of `q` is at position `k`. */
  predicate FirstAndAt(q: seq<Piece>, k: int) {
    0 <= k < |q| && IsAnd(q[k]) && NoAnd(q[..k])
  }

  /** `query.replace("AND", "WHERE", 1)`: only the first `AND` becomes `WHERE`. */
  function ReplaceFirstAnd(q: seq<Piece>): (r: seq<Piece>)
    ensures NoAnd(q) ==> r == q
    ensures forall k :: FirstAndAt(q, k) ==> r == q[k := Clause(Where, q[k].filter)]
    decreases |q|
  {
    if q == [] then []
    else if IsAnd(q[0]) then
      [Clause(Where, q[0].filter)] + q[1..]
    else
      var rest := ReplaceFirstAnd(q[1..]);
      assert q == [q[0]] + q[1..];
      assert NoAnd(q) ==> NoAnd(q[1..]);
      forall k | FirstAndAt(q, k) ensures [q[0]] + rest == q[k := Clause(Where, q[k].filter)] {
        assert k > 0;
        assert q[1..][..k - 1] == q[..k][1..];
        assert FirstAndAt(q[1..], k - 1);
        assert q[k := Clause(Where, q[k].filter)] == [q[0]] + q[1..][k - 1 := Clause(Where, q[k].filter)];
      }
      [q[0]] + rest
  }

  /** Appending AND-led clauses and rewriting the first `AND` yields one `WHERE` first. */
  lemma ReplaceInAssembledQuery(fs: seq<Filter>, ordering: Ordering)
    ensures ReplaceFirstAnd([Select] + AndClauses(fs) + [Tail(ordering)])
         == [Select] + WhereClauses(fs) + [Tail(ordering)]
  {
    var q := [Select] + AndClauses(fs) + [Tail(ordering)];
    if fs == [] {
      assert NoAnd(q);
    } else {
      assert FirstAndAt(q, 1) by { assert q[..1] == [Select]; }
      assert q[1 := Clause(Where, q[1].filter)] == [Select] + WhereClauses(fs) + [Tail(ordering)];
    }
  }

  lemma AppendAnd(fs: seq<Filter>, f: Filter)
    ensures AndClauses(fs + [f]) == AndClauses(fs) + [Clause(And, f)]
  {
  }

  /** Failures of the endpoint: a 422 from validation, or the unbound `order` when `sort_by` matches no branch. */
  datatype ApiError = Unprocessable | OrderUnbound

  /** One `if <guard>: query += "AND <clause> "` step of the handler. */
  method AppendClause(query: seq<Piece>, guard: bool, f: Filter, ghost added: seq<Filter>) returns (r: seq<Piece>)
    requires query == [Select] + AndClauses(added)
    ensures r == [Select] + AndClauses(AppendIf(added, guard, f))
  {
    r := query;
    if guard {
      AppendAnd(added, f);
      r := r + [Clause(And, f)];
    }
  }

  /** The handler's `query +=` steps: the head, then each filter under its guard, led by `AND`. */
  method AppendFilters(req: Request) returns (query: seq<Piece>)
    ensures query == [Select] + AndClauses(ActiveFilters(req))
  {
    query := [Select];
    assert AndClauses([]) == [];
    query := AppendClause(query, |req.category| > 0, CategoryIn, []);
    ghost var fs := AppendIf([], |req.category| > 0, CategoryIn);
    query := AppendClause(query, req.productName != "", TitleLike, fs);
    fs := AppendIf(fs, req.productName != "", TitleLike);
    query := AppendClause(query, |req.price| > 0, MinPrice, fs);
    fs := AppendIf(fs, |req.price| > 0, MinPrice);
    query := AppendClause(query, |req.price| > 1, MaxPrice, fs);
    fs := AppendIf(fs, |req.price| > 1, MaxPrice);
    query := AppendClause(query, req.condition != "", ConditionIs, fs);
  }

  /**
   * The handler's query assembly: the filters, then the GROUP BY / ORDER BY
   * tail (which fails when `sort_by` bound no ordering), then one rewrite.
   */
  method BuildQuery(req: Request) returns (r: Result<seq<Piece>, ApiError>)
    ensures r.Failure? <==> ParseSort(req.sortBy).None?
    ensures r.Failure? ==> r.error == OrderUnbound
    ensures r.Success? ==> r.value == [Select] + WhereClauses(ActiveFilters(req)) + [Tail(ParseSort(req.sortBy).value)]
  {
    var ordering := ParseSort(req.sortBy);
    var query := AppendFilters(req);
    if ordering.None? {
      return Failure(OrderUnbound);
    }
    query := query + [Tail(ordering.value)];
    ReplaceInAssembledQuery(ActiveFilters(req), ordering.value);
    query := ReplaceFirstAnd(query);
    return Success(query);
  }

  function CountWhere(q: seq<Piece>): nat
    decreases |q|
  {
    if q == [] then 0 else (if q[0].Clause? && q[0].keyword == Where then 1 else 0) + CountWhere(q[1..])
  }

  /** Any filter gives exactly one `WHERE`, standing before every `AND`; no filter gives none. */
  lemma {:induction false} WhereClausesShape(fs: seq<Filter>)
    ensures CountWhere(WhereClauses(fs)) == if fs == [] then 0 else 1
    ensures fs != [] ==> WhereClauses(fs)[0].keyword == Where
  {
    if fs != [] {
      var w := WhereClauses(fs);
      assert forall i :: 1 <= i < |w| ==> w[1..][i - 1] == Clause(And, fs[i]);
      AndOnly(w[1..]);
    }
  }

  lemma {:induction false} AndOnly(q: seq<Piece>)
    requires forall i :: 0 <= i < |q| ==> IsAnd(q[i])
    ensures CountWhere(q) == 0
    decreases |q|
  {
    if q != [] {
      AndOnly(q[1..]);
    }
  }

  // ---------------------------------------------------------------------------
  // Bind parameters.
  // ---------------------------------------------------------------------------

  /** The dictionary passed with the query. */
  datatype BindParams = BindParams(
    category: seq<string>,
    productName: string,
    minPrice: int,
    maxPrice: int,
    condition: string,
    offset: int,
    limit: int)

  /** The bind parameters of a request. */
  function Bind(req: Request): (b: BindParams)
    ensures MinPrice in ActiveFilters(req) ==> b.minPrice == req.price[0]
    ensures MaxPrice in ActiveFilters(req) ==> b.maxPrice == req.price[1]
    ensures MinPrice !in ActiveFilters(req) ==> b.minPrice == 0
    ensures MaxPrice !in ActiveFilters(req) ==> b.maxPrice == 0
    ensures |b.productName| == |req.productName| + 2
    ensures b.productName[0] == '%' && b.productName[|b.productName| - 1] == '%'
    ensures b.productName[1..|b.productName| - 1] == req.productName
    ensures b.limit == req.pageSize
    ensures b.category == req.category && b.condition == req.condition
    ensures b.offset == (req.page - 1) * req.pageSize
  {
    BindParams(
      req.category,
      "%" + req.productName + "%",
      if |req.price| > 0 then req.price[0] else 0,
      if |req.price| > 1 then req.price[1] else 0,
      req.condition,
      (req.page - 1) * req.pageSize,
      req.pageSize)
  }

  /** The offset skips exactly the earlier pages: it is a non-negative multiple of the page size. */
  lemma OffsetIsPageStart(req: Request)
    requires req.page >= 1 && req.pageSize >= 1
    ensures Bind(req).offset >= 0
    ensures Bind(req).offset % req.pageSize == 0
    ensures Bind(req).offset / req.pageSize == req.page - 1
  {
    var k := req.page - 1;
    var n := req.pageSize;
    assert Bind(req).offset == k * n;
    MultipleDivMod(k, n);
  }

  lemma MultipleDivMod(k: nat, n: int)
    requires n >= 1
    ensures k * n >= 0 && (k * n) % n == 0 && (k * n) / n == k
  {
    DivModUnique(k * n, n, k, 0);
  }

  /** Quotient and remainder are determined by `a == q * n + m` with `0 <= m < n`. */
  lemma DivModUnique(a: int, n: int, q: int, m: int)
    requires n >= 1 && 0 <= m < n && a == q * n + m
    ensures a / n == q && a % n == m
  {
    var q', m' := a / n, a % n;
    assert a == q' * n + m' && 0 <= m' < n;
    assert (q - q') * n == m' - m;
    if q > q' {
      AtLeastOneMultiple(q - q', n);
    } else if q < q' {
      AtLeastOneMultiple(q' - q, n);
    }
  }

  lemma AtLeastOneMultiple(x: int, n: int)
    requires x >= 1 && n >= 1
    ensures x * n >= n
  {
    assert x * n == (x - 1) * n + n;
  }

  /** Consecutive pages follow each other with neither gap nor overlap. */
  lemma ConsecutivePagesTile(req: Request)
    ensures Bind(req.(page := req.page + 1)).offset == Bind(req).offset + Bind(req).limit
  {
  }

  // ---------------------------------------------------------------------------
  // Rows and pagination.
  // ---------------------------------------------------------------------------

  /** A result row; only its `COUNT(*) OVER()` column matters here. */
  datatype Row = Row(totalrowCount: int)

  datatype Pagination = Pagination(page: int, pageSize: int, totalItem: int, totalPage: int)

  /** The response body, the product data left abstract. */
  datatype Listing = Listing(totalRows: nat, pagination: Pagination)

  /** Exact ceiling of a / b. */
  function CeilDiv(a: int, b: int): (q: int)
    requires b >= 1
    ensures (q - 1) * b < a <= q * b
  {
    var d, m := (-a) / b, (-a) % b;
    assert -a == d * b + m && 0 <= m < b;
    assert (-d) * b == a + m;
    -d
  }

  /** The pagination block computed from the fetched rows. */
  function Paginate(page: int, pageSize: int, rows: seq<Row>): (r: Listing)
    requires pageSize >= 1
    ensures r.totalRows == |rows|
    ensures r.pagination.page == page && r.pagination.pageSize == pageSize
    ensures rows == [] ==> r.pagination.totalItem == 0 && r.pagination.totalPage == 1
    ensures rows != [] ==> r.pagination.totalItem == rows[0].totalrowCount
    ensures rows != [] ==>
      (r.pagination.totalPage - 1) * pageSize < rows[0].totalrowCount <= r.pagination.totalPage * pageSize
  {
    Listing(
      |rows|,
      Pagination(
        page,
        pageSize,
        if rows != [] then rows[0].totalrowCount else 0,
        if rows != [] then CeilDiv(rows[0].totalrowCount, pageSize) else 1))
  }

  /**
   * The database's answer, abstracted: `matching` rows pass the filters;
   * LIMIT/OFFSET keep a window of them and every returned row carries
   * `COUNT(*) OVER()`, the count before LIMIT and OFFSET.
   */
  function Fetch(matching: nat, offset: nat, limit: nat): (rows: seq<Row>)
    ensures |rows| <= limit
    ensures |rows| == if offset >= matching then 0 else if matching - offset < limit then matching - offset else limit
    ensures forall i :: 0 <= i < |rows| ==> rows[i].totalrowCount == matching
  {
    var n := if offset >= matching then 0 else if matching - offset < limit then matching - offset else limit;
    seq(n, _ => Row(matching))
  }

  /**
   * For page `page` of `matching` rows: at most a page of rows comes back;
   * a page has rows exactly when it is within `total_page`; then the block
   * reports the true total, and otherwise it reports no items and one page.
   */
  lemma ListingOfPage(page: int, pageSize: int, matching: nat)
    requires page >= 1 && pageSize >= 1
    ensures var l := Paginate(page, pageSize, Fetch(matching, (page - 1) * pageSize, pageSize));
            && l.totalRows <= pageSize
            && l.pagination.totalPage >= 1
            && (l.totalRows > 0 <==> page <= CeilDiv(matching, pageSize))
            && (l.totalRows > 0 ==> l.pagination.totalItem == matching && l.pagination.totalPage == CeilDiv(matching, pageSize))
            && (l.totalRows == 0 ==> l.pagination.totalItem == 0 && l.pagination.totalPage == 1)
            && (page < CeilDiv(matching, pageSize) ==> l.totalRows == pageSize)
            && (page == CeilDiv(matching, pageSize) ==> l.totalRows == matching - (page - 1) * pageSize)
  {
    var offset := (page - 1) * pageSize;
    var c := CeilDiv(matching, pageSize);
    MulLe(0, page - 1, pageSize);
    assert offset + pageSize == page * pageSize;
    if page <= c {
      MulLe(page - 1, c - 1, pageSize);
    } else {
      MulLe(c, page - 1, pageSize);
    }
    if page < c {
      MulLe(page, c - 1, pageSize);
    }
    if matching > 0 {
      assert c >= 1;
    }
  }

  /** The rows the query returns for page `page`: the window at the page's offset. */
  function PageRows(matching: nat, page: int, pageSize: int): (rows: seq<Row>)
    requires page >= 1 && pageSize >= 1
    ensures |rows| <= pageSize
  {
    MulLe(0, page - 1, pageSize);
    Fetch(matching, (page - 1) * pageSize, pageSize)
  }

  lemma MulLe(a: int, b: int, n: int)
    requires a <= b && n >= 0
    ensures a * n <= b * n
  {
    assert b * n - a * n == (b - a) * n;
  }

  // ---------------------------------------------------------------------------
  // The endpoint.
  // ---------------------------------------------------------------------------

  datatype Response = Response(query: seq<Piece>, binds: BindParams, listing: Listing)

  /**
   * The end of the handler: bind the parameters, run the query (given as the
   * number of rows its filters match) and build the pagination block.
   */
  method Respond(req: Request, query: seq<Piece>, matching: nat) returns (response: Response)
    requires req.page >= 1 && req.pageSize >= 1
    ensures response.query == query && response.binds == Bind(req)
    ensures response.listing.totalRows <= req.pageSize && response.listing.pagination.totalPage >= 1
    ensures response.listing.totalRows > 0 <==> req.page <= CeilDiv(matching, req.pageSize)
    ensures response.listing.totalRows > 0 ==> response.listing.pagination.totalItem == matching
    ensures response.listing == Paginate(req.page, req.pageSize, PageRows(matching, req.page, req.pageSize))
  {
    var binds := Bind(req);
    assert binds.offset >= 0 by {
      OffsetIsPageStart(req);
    }
    var rows := Fetch(matching, binds.offset, binds.limit);
    assert rows == Fetch(matching, (req.page - 1) * req.pageSize, req.pageSize);
    ListingOfPage(req.page, req.pageSize, matching);
    var listing := Paginate(req.page, req.pageSize, rows);
    return Response(query, binds, listing);
  }

  /**
   * `get_products`: validation, query assembly, binding, the database call
   * (given as the number of rows the filters match) and pagination.
   */
  method GetProducts(req: Request, matching: nat) returns (r: Result<Response, ApiError>)
    ensures !ValidRequest(req) ==> r == Failure(Unprocessable)
    ensures ValidRequest(req) && req.sortBy in UnboundSorts ==> r == Failure(OrderUnbound)
    ensures r.Success? <==> ValidRequest(req) && req.sortBy !in UnboundSorts
    ensures r.Success? ==> r.value.binds == Bind(req)
    ensures r.Success? ==>
      ParseSort(req.sortBy).Some? &&
      r.value.query == [Select] + WhereClauses(ActiveFilters(req)) + [Tail(ParseSort(req.sortBy).value)]
    ensures r.Success? ==> r.value.listing.totalRows <= req.pageSize && r.value.listing.pagination.totalPage >= 1
    ensures r.Success? ==> (r.value.listing.totalRows > 0 <==> req.page <= CeilDiv(matching, req.pageSize))
    ensures r.Success? ==>
      req.page >= 1 && req.pageSize >= 1 &&
      r.value.listing == Paginate(req.page, req.pageSize, PageRows(matching, req.page, req.pageSize))
  {
    if !ValidRequest(req) {
      return Failure(Unprocessable);
    }
    ValidSortParses(req);
    var query := BuildQuery(req);
    if query.Failure? {
      return Failure(query.error);
    }
    var response := Respond(req, query.value, matching);
    return Success(response);
  }
}
