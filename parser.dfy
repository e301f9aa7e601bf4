/**
 * The catalog reader of includes/class-parser.php.
 *
 * A catalog file is a byte string. PHP's `fgetcsv($handle, 0, ';')` is a library tokenizer,
 * so it is a parameter here: `csv` maps the bytes that remain after the byte-order-mark check
 * to the rows it would return one by one. Every scan in the plugin has the same shape:
 * open the file (a missing file gives an empty result), read three bytes and rewind unless
 * they are the UTF-8 BOM, throw away the first row as the header, then loop over the rest.
 */
module Parser {
  import opened Wrappers
  import opened PhpStrings

  type Byte = bv8

  /** One line as `fgetcsv` returns it: cell k is column k. */
  type Row = seq<string>

  /** `fgetcsv` with the `;` delimiter: the rows a byte stream splits into. */
  type Tokenizer = seq<Byte> -> seq<Row>

  /** The files that exist, by path, with their contents. */
  type FileSystem = map<string, seq<Byte>>

  /** Column numbers of the LitRes catalog. */
  const ID_COL: nat := 0
  const TITLE_COL: nat := 1
  const DESCRIPTION_COL: nat := 2
  const CATEGORY_COL: nat := 3
  const PRICE_COL: nat := 5
  const URL_COL: nat := 10
  const IMAGE_COL: nat := 11
  const AUTHOR_COL: nat := 12

  const BOM: seq<Byte> := [0xEF, 0xBB, 0xBF]

  predicate StartsWithBom(bytes: seq<Byte>) {
    |bytes| >= 3 && bytes[..3] == BOM
  }

  /** The stream after `fread($handle, 3)`: left past the BOM when it was one, rewound otherwise. */
  function AfterBom(bytes: seq<Byte>): (rest: seq<Byte>)
    ensures StartsWithBom(bytes) ==> bytes == BOM + rest
    ensures !StartsWithBom(bytes) ==> rest == bytes
  {
    if StartsWithBom(bytes) then bytes[3..] else bytes
  }

  /** The rows every scan loop visits: all rows after the BOM check except the first (the header). */
  function DataRows(csv: Tokenizer, bytes: seq<Byte>): seq<Row> {
    var rows := csv(AfterBom(bytes));
    if rows == [] then [] else rows[1..]
  }

  /** The data rows of the file at `path`; a file that cannot be opened has none. */
  function DataRowsAt(files: FileSystem, path: string, csv: Tokenizer): seq<Row> {
    if path in files then DataRows(csv, files[path]) else []
  }

  /** A leading BOM is invisible to every scan, as long as it is not followed by a second one. */
  lemma BomIsSkipped(csv: Tokenizer, body: seq<Byte>)
    requires !StartsWithBom(body)
    ensures DataRows(csv, BOM + body) == DataRows(csv, body)
  {
    assert (BOM + body)[..3] == BOM;
  }

  /** Exactly one BOM is skipped: a second BOM right after the first reaches the tokenizer. */
  lemma OnlyOneBomIsSkipped(body: seq<Byte>)
    ensures AfterBom(BOM + BOM + body) == BOM + body
  {
    assert (BOM + BOM + body)[..3] == BOM;
    assert (BOM + BOM + body)[3..] == BOM + body;
  }

  /** The first row is the header and never counts as data, whatever it holds. */
  lemma HeaderOnlyFileHasNoData(csv: Tokenizer, bytes: seq<Byte>)
    requires |csv(AfterBom(bytes))| == 1
    ensures DataRows(csv, bytes) == []
  {
  }

  // ---------------------------------------------------------------------------
  // Facets: extract_genres (column 3) and extract_authors (column 12)
  // ---------------------------------------------------------------------------

  /** What a facet loop keeps of column `col`: the trimmed value, when the cell is set, not empty, and still truthy after `trim`. */
  function ColumnValue(row: Row, col: nat): Option<string> {
    if col < |row| && Truthy(row[col]) && Truthy(Trim(row[col])) then Some(Trim(row[col])) else None
  }

  /** The values a facet loop keeps, one per contributing row, in file order. */
  function ColumnValues(rows: seq<Row>, col: nat): (vs: seq<string>)
    ensures |vs| <= |rows|
    ensures forall v :: v in vs ==> Truthy(v)
  {
    if rows == [] then []
    else
      var last := ColumnValue(rows[|rows| - 1], col);
      ColumnValues(rows[..|rows| - 1], col) + (if last.Some? then [last.value] else [])
  }

  /**
   * Insertion into a PHP array keyed by the value itself (`$a[$v] = $v`): a new key goes to the end,
   * an existing key keeps its place. Also what `array_unique` computes: the first occurrence of each value.
   */
  function Dedup<T(==)>(s: seq<T>): seq<T> {
    if s == [] then []
    else
      var prev := Dedup(s[..|s| - 1]);
      if s[|s| - 1] in prev then prev else prev + [s[|s| - 1]]
  }

  predicate Distinct<T(==)>(s: seq<T>) {
    forall i, j :: 0 <= i < j < |s| ==> s[i] != s[j]
  }

  /** The position of the first occurrence of `x` in `s`. */
  function IndexOf<T(==)>(s: seq<T>, x: T): (k: nat)
    requires x in s
    ensures k < |s| && s[k] == x && x !in s[..k]
  {
    if s[0] == x then 0 else 1 + IndexOf(s[1..], x)
  }

  /** The facet of a column: each distinct kept value once, in order of first appearance. */
  function Facet(rows: seq<Row>, col: nat): seq<string> {
    Dedup(ColumnValues(rows, col))
  }

  lemma {:induction false} DedupMembers<T>(s: seq<T>, x: T)
    ensures x in Dedup(s) <==> x in s
  {
    if s != [] {
      DedupMembers(s[..|s| - 1], x);
      assert s == s[..|s| - 1] + [s[|s| - 1]];
    }
  }

  lemma {:induction false} DedupDistinct<T>(s: seq<T>)
    ensures Distinct(Dedup(s))
  {
    if s != [] {
      DedupDistinct(s[..|s| - 1]);
    }
  }

  lemma {:induction false} IndexOfAppend<T>(s: seq<T>, x: T, y: T)
    requires y in s
    ensures y in s + [x] && IndexOf(s + [x], y) == IndexOf(s, y)
  {
    if s[0] != y {
      assert (s + [x])[1..] == s[1..] + [x];
      IndexOfAppend(s[1..], x, y);
    }
  }

  /** Dedup keeps first appearances in order: an earlier result value first occurs earlier in the input. */
  lemma {:induction false} DedupFirstAppearanceOrder<T>(s: seq<T>)
    ensures forall v :: v in Dedup(s) ==> v in s
    ensures forall i, j :: 0 <= i < j < |Dedup(s)| ==> IndexOf(s, Dedup(s)[i]) < IndexOf(s, Dedup(s)[j])
  {
    if s != [] {
      var init, x := s[..|s| - 1], s[|s| - 1];
      assert s == init + [x];
      DedupFirstAppearanceOrder(init);
      var prev := Dedup(init);
      forall v | v in prev ensures v in s && IndexOf(s, v) == IndexOf(init, v) {
        IndexOfAppend(init, x, v);
      }
      if x !in prev {
        DedupMembers(init, x);
        assert x !in init;
        assert forall k :: 0 <= k < |init| ==> s[k] == init[k] != x;
        forall i, j | 0 <= i < j < |Dedup(s)|
          ensures IndexOf(s, Dedup(s)[i]) < IndexOf(s, Dedup(s)[j])
        {
          assert Dedup(s)[i] == prev[i];
          if j < |prev| {
            assert Dedup(s)[j] == prev[j];
          }
        }
      }
    }
  }

  /** On a duplicate-free input Dedup changes nothing: the final `array_unique` of a facet is a no-op. */
  lemma {:induction false} DedupOfDistinct<T>(s: seq<T>)
    requires Distinct(s)
    ensures Dedup(s) == s
  {
    if s != [] {
      var init := s[..|s| - 1];
      assert Distinct(init);
      DedupOfDistinct(init);
      DedupMembers(init, s[|s| - 1]);
    }
  }

  lemma {:induction false} ColumnValuesAppend(a: seq<Row>, b: seq<Row>, col: nat)
    ensures ColumnValues(a + b, col) == ColumnValues(a, col) + ColumnValues(b, col)
  {
    if b != [] {
      var init := b[..|b| - 1];
      assert (a + b)[..|a + b| - 1] == a + init;
      ColumnValuesAppend(a, init, col);
    } else {
      assert a + b == a;
    }
  }

  /** The `!empty` test before `trim` is subsumed by the truthiness test after it. */
  lemma ColumnValueIsTrimmedTruthyCell(row: Row, col: nat)
    ensures ColumnValue(row, col) ==
      if col < |row| && Truthy(Trim(row[col])) then Some(Trim(row[col])) else None
  {
    if col < |row| && !Truthy(row[col]) {
      assert row[col] == "" || row[col] == "0";
      assert Trim(row[col]) == row[col];
    }
  }

  /** Facet membership: a value is listed iff some data row keeps it in that column. */
  lemma {:induction false} FacetMembers(rows: seq<Row>, col: nat, v: string)
    ensures v in Facet(rows, col) <==> exists k :: 0 <= k < |rows| && ColumnValue(rows[k], col) == Some(v)
  {
    DedupMembers(ColumnValues(rows, col), v);
    ColumnValuesMembers(rows, col, v);
  }

  lemma {:induction false} ColumnValuesMembers(rows: seq<Row>, col: nat, v: string)
    ensures v in ColumnValues(rows, col) <==> exists k :: 0 <= k < |rows| && ColumnValue(rows[k], col) == Some(v)
  {
    if rows != [] {
      var init, last := rows[..|rows| - 1], rows[|rows| - 1];
      ColumnValuesMembers(init, col, v);
      assert forall k :: 0 <= k < |init| ==> init[k] == rows[k];
      if v in ColumnValues(rows, col) && v !in ColumnValues(init, col) {
        assert ColumnValue(rows[|rows| - 1], col) == Some(v);
      }
    }
  }

  /** Rows without the column, with an empty or "0" value, or with only blanks there leave the facet unchanged. */
  lemma FacetIgnoresRow(before: seq<Row>, row: Row, after: seq<Row>, col: nat)
    requires col >= |row| || !Truthy(Trim(row[col]))
    ensures Facet(before + [row] + after, col) == Facet(before + after, col)
  {
    ColumnValueIsTrimmedTruthyCell(row, col);
    ColumnValuesAppend(before + [row], after, col);
    ColumnValuesAppend(before, [row], col);
    ColumnValuesAppend(before, after, col);
    assert ColumnValues([row], col) == [] by {
      assert [row][..0] == [];
    }
    assert before + [row] + after == (before + [row]) + after;
    assert ColumnValues(before, col) + [] == ColumnValues(before, col);
  }

  /** The facet of a file is duplicate-free and in order of first appearance. */
  lemma FacetIsOrderedAndDistinct(rows: seq<Row>, col: nat)
    ensures Distinct(Facet(rows, col))
    ensures forall v :: v in Facet(rows, col) ==> v in ColumnValues(rows, col)
    ensures forall i, j :: 0 <= i < j < |Facet(rows, col)| ==>
      IndexOf(ColumnValues(rows, col), Facet(rows, col)[i]) < IndexOf(ColumnValues(rows, col), Facet(rows, col)[j])
  {
    DedupDistinct(ColumnValues(rows, col));
    DedupFirstAppearanceOrder(ColumnValues(rows, col));
  }

  /** One more row either adds its kept value at the end of the facet or leaves the facet as it was. */
  lemma FacetSnoc(rows: seq<Row>, row: Row, col: nat)
    ensures Facet(rows + [row], col) ==
      var v := ColumnValue(row, col);
      if v.Some? && v.value !in Facet(rows, col) then Facet(rows, col) + [v.value] else Facet(rows, col)
  {
    var kept := ColumnValues(rows, col);
    assert (rows + [row])[..|rows|] == rows;
    var v := ColumnValue(row, col);
    if v.Some? {
      assert ColumnValues(rows + [row], col) == kept + [v.value];
      assert (kept + [v.value])[..|kept|] == kept;
    } else {
      assert ColumnValues(rows + [row], col) == kept;
    }
  }

  /**
   * The shared loop of extract_genres and extract_authors: every data row that keeps a value in
   * column `col` inserts it, keyed by itself; `array_unique` then runs over the result.
   */
  method ExtractColumn(files: FileSystem, path: string, csv: Tokenizer, col: nat) returns (values: seq<string>)
    ensures values == Facet(DataRowsAt(files, path, csv), col)
  {
    values := [];
    if path !in files {
      return;
    }
    var rows := csv(AfterBom(files[path]));
    if rows == [] {
      return;
    }
    var i := 1;
    while i < |rows|
      invariant 1 <= i <= |rows|
      invariant values == Facet(rows[1..i], col)
    {
      var data := rows[i];
      assert rows[1..i + 1] == rows[1..i] + [data];
      FacetSnoc(rows[1..i], data, col);
      if col < |data| && Truthy(data[col]) {
        var value := Trim(data[col]);
        if Truthy(value) {
          if value !in values {
            values := values + [value];
          }
        }
      }
      i := i + 1;
    }
    assert rows[1..i] == DataRowsAt(files, path, csv);
    DedupDistinct(ColumnValues(rows[1..], col));
    DedupOfDistinct(values);
    values := Dedup(values);
  }

  /** extract_genres: the distinct categories (column 3) of the file. */
  method ExtractGenres(files: FileSystem, path: string, csv: Tokenizer) returns (genres: seq<string>)
    ensures genres == Facet(DataRowsAt(files, path, csv), CATEGORY_COL)
  {
    genres := ExtractColumn(files, path, csv, CATEGORY_COL);
  }

  /** extract_authors: the distinct authors (column 12) of the file. */
  method ExtractAuthors(files: FileSystem, path: string, csv: Tokenizer) returns (authors: seq<string>)
    ensures authors == Facet(DataRowsAt(files, path, csv), AUTHOR_COL)
  {
    authors := ExtractColumn(files, path, csv, AUTHOR_COL);
  }

  // ---------------------------------------------------------------------------
  // parse_books: filter predicate and offset/limit paging
  // ---------------------------------------------------------------------------

  /** Column 5 as read; the `(float)` cast is not modelled, an absent column means 0.0. */
  datatype Price = NoPrice | PriceText(text: string)

  /** One record of the page returned by parse_books. */
  datatype Book = Book(
    id: string,
    title: string,
    description: string,
    category: string,
    price: Price,
    url: string,
    image: string,
    author: string)

  /** `isset($data[k]) ? trim($data[k]) : ''`. */
  function Cell(row: Row, k: nat): string {
    if k < |row| then Trim(row[k]) else ""
  }

  /** `isset($data[0], $data[1], $data[3])`: rows lacking one of these are passed over. */
  predicate HasRequiredColumns(row: Row) {
    ID_COL < |row| && TITLE_COL < |row| && CATEGORY_COL < |row|
  }

  /** One filter dimension: an empty selection lets everything through, otherwise strict membership. */
  predicate Passes(value: string, selected: seq<string>) {
    |selected| == 0 || value in selected
  }

  /** The filter of parse_books: both the trimmed category and the trimmed author pass. */
  predicate Matches(row: Row, genres: seq<string>, authors: seq<string>) {
    HasRequiredColumns(row) && Passes(Cell(row, CATEGORY_COL), genres) && Passes(Cell(row, AUTHOR_COL), authors)
  }

  function ToBook(row: Row): (b: Book)
    requires HasRequiredColumns(row)
  {
    Book(
      id := Cell(row, ID_COL),
      title := Cell(row, TITLE_COL),
      description := Cell(row, DESCRIPTION_COL),
      category := Cell(row, CATEGORY_COL),
      price := if PRICE_COL < |row| then PriceText(row[PRICE_COL]) else NoPrice,
      url := Cell(row, URL_COL),
      image := Cell(row, IMAGE_COL),
      author := Cell(row, AUTHOR_COL))
  }

  /** Every matching data row as a record, in file order. */
  function Matching(rows: seq<Row>, genres: seq<string>, authors: seq<string>): (books: seq<Book>)
    ensures |books| <= |rows|
  {
    if rows == [] then []
    else
      var last := rows[|rows| - 1];
      Matching(rows[..|rows| - 1], genres, authors) + (if Matches(last, genres, authors) then [ToBook(last)] else [])
  }

  function Max0(x: int): nat {
    if x < 0 then 0 else x
  }

  /**
   * The page parse_books returns: matches numbered offset .. offset + limit - 1 (counting from 0).
   * A negative offset skips nothing; a limit of zero or less returns nothing.
   */
  function Page<T>(all: seq<T>, offset: int, limit: int): (page: seq<T>)
    ensures |page| == Min(Max0(limit), Max0(|all| - Max0(offset)))
  {
    var from := Min(Max0(offset), |all|);
    all[from..from + Min(Max0(limit), |all| - from)]
  }

  /** The k-th book of a page is match offset + k. */
  lemma PageElements<T>(all: seq<T>, offset: int, limit: int)
    ensures forall k :: 0 <= k < |Page(all, offset, limit)| ==> Page(all, offset, limit)[k] == all[Max0(offset) + k]
  {
  }

  lemma {:induction false} MatchingAppend(a: seq<Row>, b: seq<Row>, genres: seq<string>, authors: seq<string>)
    ensures Matching(a + b, genres, authors) == Matching(a, genres, authors) + Matching(b, genres, authors)
  {
    if b == [] {
      assert a + b == a;
    } else {
      var init := b[..|b| - 1];
      assert (a + b)[..|a + b| - 1] == a + init;
      MatchingAppend(a, init, genres, authors);
    }
  }

  lemma MatchingSnoc(rows: seq<Row>, row: Row, genres: seq<string>, authors: seq<string>)
    ensures Matching(rows + [row], genres, authors) ==
      Matching(rows, genres, authors) + (if Matches(row, genres, authors) then [ToBook(row)] else [])
  {
    assert (rows + [row])[..|rows|] == rows;
  }

  /** `b` is the record made from `row`, and `row` matches. */
  predicate Yields(row: Row, genres: seq<string>, authors: seq<string>, b: Book) {
    Matches(row, genres, authors) && ToBook(row) == b
  }

  /** A record is in the match list iff it is made from some data row that matches. */
  lemma MatchingMembers(rows: seq<Row>, genres: seq<string>, authors: seq<string>, b: Book)
    ensures b in Matching(rows, genres, authors) <==> exists k :: 0 <= k < |rows| && Yields(rows[k], genres, authors, b)
  {
    if b in Matching(rows, genres, authors) {
      var k := MatchedFrom(rows, genres, authors, b);
    }
    if exists k :: 0 <= k < |rows| && Yields(rows[k], genres, authors, b) {
      var k :| 0 <= k < |rows| && Yields(rows[k], genres, authors, b);
      MatchedRow(rows, genres, authors, k);
    }
  }

  /** Every record returned comes from some data row that yields it. */
  lemma {:induction false} MatchedFrom(rows: seq<Row>, genres: seq<string>, authors: seq<string>, b: Book) returns (k: nat)
    requires b in Matching(rows, genres, authors)
    ensures k < |rows| && Yields(rows[k], genres, authors, b)
  {
    var init, last := rows[..|rows| - 1], rows[|rows| - 1];
    assert rows == init + [last];
    MatchingSnoc(init, last, genres, authors);
    if b in Matching(init, genres, authors) {
      k := MatchedFrom(init, genres, authors, b);
      assert rows[k] == init[k];
    } else {
      k := |rows| - 1;
    }
  }

  /** Every row that yields a record contributes it. */
  lemma {:induction false} MatchedRow(rows: seq<Row>, genres: seq<string>, authors: seq<string>, k: nat)
    requires k < |rows| && Matches(rows[k], genres, authors)
    ensures ToBook(rows[k]) in Matching(rows, genres, authors)
  {
    var init, last := rows[..|rows| - 1], rows[|rows| - 1];
    assert rows == init + [last];
    MatchingSnoc(init, last, genres, authors);
    if k < |init| {
      assert init[k] == rows[k];
      MatchedRow(init, genres, authors, k);
    }
  }

  /** Every record returned passes both filter dimensions. */
  lemma {:induction false} MatchingPassesFilter(rows: seq<Row>, genres: seq<string>, authors: seq<string>)
    ensures forall b :: b in Matching(rows, genres, authors) ==> Passes(b.category, genres) && Passes(b.author, authors)
  {
    if rows != [] {
      MatchingPassesFilter(rows[..|rows| - 1], genres, authors);
    }
  }

  /** With both selections empty every row that has columns 0, 1 and 3 is a match. */
  lemma {:induction false} WildcardMatchesEveryCompleteRow(rows: seq<Row>)
    ensures forall k :: 0 <= k < |rows| && HasRequiredColumns(rows[k]) ==> ToBook(rows[k]) in Matching(rows, [], [])
    ensures |Matching(rows, [], [])| == |FilterComplete(rows)|
  {
    forall k | 0 <= k < |rows| && HasRequiredColumns(rows[k])
      ensures ToBook(rows[k]) in Matching(rows, [], [])
    {
      MatchedRow(rows, [], [], k);
    }
    if rows != [] {
      WildcardMatchesEveryCompleteRow(rows[..|rows| - 1]);
    }
  }

  /** The data rows that have columns 0, 1 and 3. */
  function FilterComplete(rows: seq<Row>): (complete: seq<Row>)
    ensures forall r :: r in complete ==> HasRequiredColumns(r)
  {
    if rows == [] then []
    else
      var last := rows[|rows| - 1];
      FilterComplete(rows[..|rows| - 1]) + (if HasRequiredColumns(last) then [last] else [])
  }

  /**
   * parse_books: rescans the file from the start, skips the first `offset` matches and collects
   * up to `limit` further ones, in file order.
   */
  method ParseBooks(files: FileSystem, path: string, csv: Tokenizer, genres: seq<string>, authors: seq<string>,
                    offset: int, limit: int) returns (books: seq<Book>)
    ensures books == Page(Matching(DataRowsAt(files, path, csv), genres, authors), offset, limit)
  {
    if path !in files {
      return [];
    }
    var rows := csv(AfterBom(files[path]));
    if rows == [] {
      return [];
    }
    books := ScanPage(rows[1..], genres, authors, offset, limit);
  }

  /** The loop of parse_books over the data rows, stopping once `limit` records are collected. */
  method ScanPage(rows: seq<Row>, genres: seq<string>, authors: seq<string>, offset: int, limit: int)
    returns (books: seq<Book>)
    ensures books == Page(Matching(rows, genres, authors), offset, limit)
  {
    books := [];
    var count := 0;
    var skipped := 0;
    var i := 0;
    ghost var seen: seq<Book> := [];
    while i < |rows| && count < limit
      invariant 0 <= i <= |rows|
      invariant seen == Matching(rows[..i], genres, authors)
      invariant skipped == Min(Max0(offset), |seen|)
      invariant books == seen[skipped..]
      invariant count == |books| <= Max0(limit)
    {
      var data := rows[i];
      assert rows[..i + 1] == rows[..i] + [data];
      MatchingSnoc(rows[..i], data, genres, authors);
      i := i + 1;
      var matched := RowMatches(data, genres, authors);
      if matched {
        var book := ToBook(data);
        ghost var before := seen;
        seen := seen + [book];
        if skipped < offset {
          SkipStep(before, book, offset, skipped, books);
          skipped := skipped + 1;
        } else {
          TakeStep(before, book, offset, limit, skipped, books);
          books := books + [book];
          count := count + 1;
        }
      }
    }
    assert rows == rows[..i] + rows[i..];
    MatchingAppend(rows[..i], rows[i..], genres, authors);
    PageOfScan(seen, Matching(rows[i..], genres, authors), offset, limit, skipped, books);
  }

  /** The row test of parse_books: columns 0, 1 and 3 are set, and the trimmed category and author pass. */
  method RowMatches(data: Row, genres: seq<string>, authors: seq<string>) returns (matched: bool)
    ensures matched <==> Matches(data, genres, authors)
  {
    if !(ID_COL < |data| && TITLE_COL < |data| && CATEGORY_COL < |data|) {
      return false;
    }
    var category := Trim(data[CATEGORY_COL]);
    var author := if AUTHOR_COL < |data| then Trim(data[AUTHOR_COL]) else "";
    var matchGenre := |genres| == 0 || category in genres;
    var matchAuthor := |authors| == 0 || author in authors;
    matched := matchGenre && matchAuthor;
  }

  /** A match met while fewer than `offset` have been skipped is skipped. */
  lemma SkipStep<T>(before: seq<T>, b: T, offset: int, skipped: nat, books: seq<T>)
    requires skipped == Min(Max0(offset), |before|) && books == before[skipped..] && skipped < offset
    ensures skipped + 1 == Min(Max0(offset), |before + [b]|) && books == (before + [b])[skipped + 1..]
  {
  }

  /** A match met once `offset` matches have been skipped is collected. */
  lemma TakeStep<T>(before: seq<T>, b: T, offset: int, limit: int, skipped: nat, books: seq<T>)
    requires skipped == Min(Max0(offset), |before|) && books == before[skipped..] && skipped >= offset
    requires |books| < limit
    ensures skipped == Min(Max0(offset), |before + [b]|) && books + [b] == (before + [b])[skipped..]
    ensures |books + [b]| <= Max0(limit)
  {
  }

  /** When the scan stops (end of file, or `limit` records collected) what it collected is the page. */
  lemma PageOfScan<T>(seen: seq<T>, rest: seq<T>, offset: int, limit: int, skipped: nat, books: seq<T>)
    requires skipped == Min(Max0(offset), |seen|) && books == seen[skipped..] && |books| <= Max0(limit)
    requires rest == [] || |books| >= limit
    ensures books == Page(seen + rest, offset, limit)
  {
    var page := Page(seen + rest, offset, limit);
    PageElements(seen + rest, offset, limit);
    assert |page| == |books|;
    forall k | 0 <= k < |books| ensures page[k] == books[k] {
      assert books[k] == seen[skipped + k];
    }
  }

  /** A page size > 0 and a starting offset: the pages read until the first empty one, concatenated. */
  function PagesFrom<T>(all: seq<T>, offset: nat, size: nat): seq<T>
    requires size > 0
    decreases if offset <= |all| then |all| - offset else 0
  {
    var page := Page(all, offset, size);
    if page == [] then [] else page + PagesFrom(all, offset + size, size)
  }

  /** Reading pages at offsets 0, n, 2n, ... until an empty page yields every match once, in order. */
  lemma {:induction false} PagesReassemble<T>(all: seq<T>, offset: nat, size: nat)
    requires size > 0 && offset <= |all|
    ensures PagesFrom(all, offset, size) == all[offset..]
    decreases |all| - offset
  {
    if offset < |all| {
      PagesFromStep(all, offset, size);
      var next := offset + size;
      if next <= |all| {
        PagesReassemble(all, next, size);
        assert all[offset..] == all[offset..next] + all[next..];
      } else {
        PagesFromEnd(all, next, size);
        assert all[offset..Min(next, |all|)] == all[offset..];
      }
    } else {
      PagesFromEnd(all, offset, size);
    }
  }

  /** Past the last match every page is empty, and the paging stops. */
  lemma PagesFromEnd<T>(all: seq<T>, offset: nat, size: nat)
    requires size > 0 && offset >= |all|
    ensures PagesFrom(all, offset, size) == []
  {
    PageSlice(all, offset, size);
  }

  /** A step of the paging: a non-empty page, then the pages after it. */
  lemma PagesFromStep<T>(all: seq<T>, offset: nat, size: nat)
    requires size > 0 && offset < |all|
    ensures PagesFrom(all, offset, size) == all[offset..Min(offset + size, |all|)] + PagesFrom(all, offset + size, size)
  {
    PageSlice(all, offset, size);
  }

  /** A page from a non-negative offset is a slice of the matches. */
  lemma PageSlice<T>(all: seq<T>, offset: nat, size: nat)
    ensures offset <= |all| ==> Page(all, offset, size) == all[offset..Min(offset + size, |all|)]
    ensures offset >= |all| ==> Page(all, offset, size) == []
  {
  }

  lemma PagingCoversAllMatches<T>(all: seq<T>, size: nat)
    requires size > 0
    ensures PagesFrom(all, 0, size) == all
  {
    PagesReassemble(all, 0, size);
  }
}
