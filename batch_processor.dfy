/**
 * The import session of includes/class-batch-processor.php.
 *
 * The session lives in WordPress options (zhsh_litres_import_*), the imported books in the
 * content store (posts of type zhsh_litres_book with a zhsh_litres_book_id meta field, and two
 * taxonomies). Each operation's effect is first given as a function of the old state; the class
 * `BatchProcessor` then performs it step by step and is proved to reach exactly that state.
 * Whether a `wp_insert_post` or `wp_insert_term` call succeeds is decided by the database and is
 * an input here (`Oracle`).
 */
module BatchProcessing {
  import opened Wrappers
  import opened PhpStrings
  import opened Parser

  /** Matches consumed by one step, whatever number of them ends up imported. */
  const BATCH_SIZE: nat := 500

  /** The value stored under zhsh_litres_import_error when the file has disappeared ("file not found"). */
  const FILE_NOT_FOUND: string := "Файл не найден"

  /** The values of zhsh_litres_import_status; `Idle` is only the default of an unset option. */
  datatype Status = Idle | Running | Completed | Stopped | Error

  /** The persisted session options; `None` is an option that was never written. */
  datatype Options = Options(
    file: Option<string>,
    genres: Option<seq<string>>,
    authors: Option<seq<string>>,
    offset: Option<int>,
    processed: Option<int>,
    total: Option<int>,
    status: Option<Status>,
    error: Option<string>)

  /** A site on which no import was ever started. */
  const NO_OPTIONS: Options := Options(None, None, None, None, None, None, None, None)

  /** What get_import_status returns. */
  datatype Snapshot = Snapshot(status: Status, processed: int, total: int, error: string)

  // ---------------------------------------------------------------------------
  // The content store
  // ---------------------------------------------------------------------------

  type TermId = nat

  /** A created book post: its sanitised fields are kept unsanitised, see README. */
  datatype Post = Post(
    title: string,
    content: string,
    bookId: string,
    price: Price,
    url: string,
    image: string,
    genre: Option<TermId>,
    author: Option<TermId>)

  /** Book posts in creation order, the two taxonomies by exact term name, and the next free term id. */
  datatype Store = Store(
    posts: seq<Post>,
    genreTerms: map<string, TermId>,
    authorTerms: map<string, TermId>,
    nextTermId: TermId)

  /** How the database answers the inserts made for one book of a page. */
  datatype Outcome = Outcome(postInserted: bool, genreTermInserted: bool, authorTermInserted: bool)

  /** The database's answers, by position of the book in the page. */
  type Oracle = nat -> Outcome

  /** The `get_posts` lookup on the zhsh_litres_book_id meta field. */
  predicate HasBook(posts: seq<Post>, id: string) {
    exists k :: 0 <= k < |posts| && posts[k].bookId == id
  }

  /** No book id is recorded on two posts. */
  predicate UniqueBookIds(posts: seq<Post>) {
    forall i, j :: 0 <= i < j < |posts| ==> posts[i].bookId != posts[j].bookId
  }

  /** Every term id handed out so far is below the next free one. */
  predicate TermIdsBelow(terms: map<string, TermId>, next: TermId) {
    forall name :: name in terms ==> terms[name] < next
  }

  predicate ValidStore(db: Store) {
    UniqueBookIds(db.posts) &&
    TermIdsBelow(db.genreTerms, db.nextTermId) && TermIdsBelow(db.authorTerms, db.nextTermId)
  }

  datatype Resolved = Resolved(terms: map<string, TermId>, nextTermId: TermId, term: Option<TermId>)

  /**
   * Attaching a category or author: nothing for an empty value ("" or "0"); the existing term of
   * exactly that name; otherwise a newly inserted term, or nothing when the insert fails.
   */
  function ResolveTerm(terms: map<string, TermId>, next: TermId, name: string, inserted: bool): (r: Resolved)
    ensures r.term.Some? <==> Truthy(name) && (name in terms || inserted)
    ensures r.term.Some? ==> name in r.terms && r.terms[name] == r.term.value
    ensures name in terms ==> r.terms == terms && r.nextTermId == next
  {
    if !Truthy(name) then Resolved(terms, next, None)
    else if name in terms then Resolved(terms, next, Some(terms[name]))
    else if inserted then Resolved(terms[name := next], next + 1, Some(next))
    else Resolved(terms, next, None)
  }

  /** Resolving a term keeps every existing term, adds at most the one name, and hands out fresh ids only. */
  lemma ResolveTermGrowsTaxonomy(terms: map<string, TermId>, next: TermId, name: string, inserted: bool)
    ensures var r := ResolveTerm(terms, next, name, inserted);
      && (forall n :: n in terms ==> n in r.terms && r.terms[n] == terms[n])
      && r.terms.Keys == terms.Keys + (if r.term.Some? then {name} else {})
      && (TermIdsBelow(terms, next) ==> TermIdsBelow(r.terms, r.nextTermId) && next <= r.nextTermId)
  {
  }

  datatype BatchResult = BatchResult(db: Store, count: nat)

  /** One iteration of import_books_batch. */
  function ImportOne(db: Store, book: Book, o: Outcome): (r: BatchResult)
    ensures r.count == (if !HasBook(db.posts, book.id) && o.postInserted then 1 else 0)
    ensures r.count == 0 ==> r.db == db
    ensures r.count == 1 ==> |r.db.posts| == |db.posts| + 1 && r.db.posts[..|db.posts|] == db.posts
    ensures r.count == 1 ==> r.db.posts[|db.posts|].bookId == book.id
  {
    if HasBook(db.posts, book.id) || !o.postInserted then BatchResult(db, 0)
    else
      var g := ResolveTerm(db.genreTerms, db.nextTermId, book.category, o.genreTermInserted);
      var a := ResolveTerm(db.authorTerms, g.nextTermId, book.author, o.authorTermInserted);
      var post := Post(book.title, book.description, book.id, book.price, book.url, book.image, g.term, a.term);
      BatchResult(Store(db.posts + [post], g.terms, a.terms, a.nextTermId), 1)
  }

  /** import_books_batch over a whole page: the new store and the number of posts created. */
  function ImportAll(db: Store, books: seq<Book>, oracle: Oracle): (r: BatchResult)
    ensures r.count <= |books|
    ensures |r.db.posts| == |db.posts| + r.count && r.db.posts[..|db.posts|] == db.posts
  {
    if books == [] then BatchResult(db, 0)
    else
      var prev := ImportAll(db, books[..|books| - 1], oracle);
      var last := ImportOne(prev.db, books[|books| - 1], oracle(|books| - 1));
      BatchResult(last.db, prev.count + last.count)
  }

  lemma ImportAllSnoc(db: Store, books: seq<Book>, book: Book, oracle: Oracle)
    ensures ImportAll(db, books + [book], oracle) ==
      var prev := ImportAll(db, books, oracle);
      var last := ImportOne(prev.db, book, oracle(|books|));
      BatchResult(last.db, prev.count + last.count)
  {
    assert (books + [book])[..|books|] == books;
  }

  /** A post is only created for a book id that no post carries yet, so book ids stay unique. */
  lemma ImportOneKeepsValid(db: Store, book: Book, o: Outcome)
    requires ValidStore(db)
    ensures ValidStore(ImportOne(db, book, o).db)
  {
    var r := ImportOne(db, book, o);
    if r.count == 1 {
      var posts := r.db.posts;
      forall i, j | 0 <= i < j < |posts| ensures posts[i].bookId != posts[j].bookId {
        if j == |db.posts| {
          assert posts[i] == db.posts[i];
        } else {
          assert posts[i] == db.posts[i] && posts[j] == db.posts[j];
        }
      }
    }
  }

  /** Importing a page keeps book ids unique and term ids fresh. */
  lemma {:induction false} ImportAllKeepsValid(db: Store, books: seq<Book>, oracle: Oracle)
    requires ValidStore(db)
    ensures ValidStore(ImportAll(db, books, oracle).db)
  {
    if books != [] {
      ImportAllKeepsValid(db, books[..|books| - 1], oracle);
      ImportOneKeepsValid(ImportAll(db, books[..|books| - 1], oracle).db, books[|books| - 1], oracle(|books| - 1));
    }
  }

  /** Posts that were there stay there. */
  lemma PostsOnlyGrow(db: Store, books: seq<Book>, oracle: Oracle, id: string)
    requires HasBook(db.posts, id)
    ensures HasBook(ImportAll(db, books, oracle).db.posts, id)
  {
    var posts := ImportAll(db, books, oracle).db.posts;
    var k :| 0 <= k < |db.posts| && db.posts[k].bookId == id;
    assert posts[k] == db.posts[k];
  }

  /** After a page, every book of it has a post, except those whose insert failed. */
  lemma {:induction false} ImportAllCoversPage(db: Store, books: seq<Book>, oracle: Oracle)
    ensures forall k :: 0 <= k < |books| && oracle(k).postInserted ==> HasBook(ImportAll(db, books, oracle).db.posts, books[k].id)
  {
    if books != [] {
      var init, book := books[..|books| - 1], books[|books| - 1];
      ImportAllCoversPage(db, init, oracle);
      var prev := ImportAll(db, init, oracle);
      var r := ImportAll(db, books, oracle);
      forall k | 0 <= k < |books| && oracle(k).postInserted ensures HasBook(r.db.posts, books[k].id) {
        if k < |init| {
          assert books[k] == init[k];
          var j :| 0 <= j < |prev.db.posts| && prev.db.posts[j].bookId == books[k].id;
          assert r.db.posts[j] == prev.db.posts[j];
        } else if !HasBook(prev.db.posts, book.id) {
          assert r.db.posts[|prev.db.posts|].bookId == book.id;
        }
      }
    }
  }

  /** A page whose books all have posts already creates nothing and changes nothing. */
  lemma {:induction false} ReimportCreatesNothing(db: Store, books: seq<Book>, oracle: Oracle)
    requires forall k :: 0 <= k < |books| ==> HasBook(db.posts, books[k].id)
    ensures ImportAll(db, books, oracle) == BatchResult(db, 0)
  {
    if books != [] {
      ReimportCreatesNothing(db, books[..|books| - 1], oracle);
      assert HasBook(db.posts, books[|books| - 1].id);
    }
  }

  /** How many of the first `n` books of a page `wp_insert_post` accepts. */
  function InsertsAccepted(n: nat, oracle: Oracle): (c: nat)
    ensures c <= n
  {
    if n == 0 then 0 else InsertsAccepted(n - 1, oracle) + (if oracle(n - 1).postInserted then 1 else 0)
  }

  /** Only books whose insert succeeded are counted. */
  lemma {:induction false} CountBoundedByAcceptedInserts(db: Store, books: seq<Book>, oracle: Oracle)
    ensures ImportAll(db, books, oracle).count <= InsertsAccepted(|books|, oracle)
  {
    if books != [] {
      CountBoundedByAcceptedInserts(db, books[..|books| - 1], oracle);
    }
  }

  /**
   * The terms of a created post: a non-empty category (author) gets the existing term of exactly
   * that name, else a newly inserted term with a fresh id; nothing when the value is empty or the insert fails.
   */
  lemma ImportOneAttachesTerms(db: Store, book: Book, o: Outcome)
    requires ValidStore(db)
    requires !HasBook(db.posts, book.id) && o.postInserted
    ensures var r := ImportOne(db, book, o); var post := r.db.posts[|db.posts|];
      && (post.genre.Some? <==> Truthy(book.category) && (book.category in db.genreTerms || o.genreTermInserted))
      && (post.genre.Some? ==> book.category in r.db.genreTerms && r.db.genreTerms[book.category] == post.genre.value)
      && (Truthy(book.category) && book.category in db.genreTerms ==> post.genre == Some(db.genreTerms[book.category]))
      && (post.genre.Some? && book.category !in db.genreTerms ==> post.genre.value !in db.genreTerms.Values)
      && (post.author.Some? <==> Truthy(book.author) && (book.author in db.authorTerms || o.authorTermInserted))
      && (post.author.Some? ==> book.author in r.db.authorTerms && r.db.authorTerms[book.author] == post.author.value)
      && (Truthy(book.author) && book.author in db.authorTerms ==> post.author == Some(db.authorTerms[book.author]))
      && (post.author.Some? && book.author !in db.authorTerms ==> post.author.value !in db.authorTerms.Values)
  {
    var g := ResolveTerm(db.genreTerms, db.nextTermId, book.category, o.genreTermInserted);
    var a := ResolveTerm(db.authorTerms, g.nextTermId, book.author, o.authorTermInserted);
    if g.term.Some? && book.category !in db.genreTerms {
      assert g.term.value == db.nextTermId;
    }
    if a.term.Some? && book.author !in db.authorTerms {
      assert a.term.value == g.nextTermId >= db.nextTermId;
    }
  }

  // ---------------------------------------------------------------------------
  // The session state machine
  // ---------------------------------------------------------------------------

  /** get_import_status: the stored values, or 'idle', 0, 0 and '' for options never written. */
  function Report(o: Options): Snapshot {
    Snapshot(o.status.GetOr(Idle), o.processed.GetOr(0), o.total.GetOr(0), o.error.GetOr(""))
  }

  /** The options start_import writes; the error option is left as it was. */
  function Started(o: Options, path: string, genres: seq<string>, authors: seq<string>, total: int): Options {
    o.(file := Some(path), genres := Some(genres), authors := Some(authors),
       offset := Some(0), processed := Some(0), total := Some(total), status := Some(Running))
  }

  /** The options stop_import writes. */
  function StoppedOptions(o: Options): Options {
    o.(status := Some(Stopped))
  }

  /**
   * How a step ends: the file option was never written (`file_exists(false)` raises a TypeError
   * under strict_types and nothing is written), the file is gone, the page was empty, or a page was imported.
   */
  datatype StepOutcome = Aborted | FileMissing | Exhausted | Advanced(imported: nat)

  datatype StepResult = StepResult(opts: Options, db: Store, outcome: StepOutcome)

  /** The page process_batch reads for the stored session. */
  function SessionPage(o: Options, files: FileSystem, csv: Tokenizer): seq<Book>
    requires o.file.Some?
  {
    Page(Matching(DataRowsAt(files, o.file.value, csv), o.genres.GetOr([]), o.authors.GetOr([])),
         o.offset.GetOr(0), BATCH_SIZE)
  }

  /** process_batch as a function of the stored options and the store. The status is never read. */
  function Step(o: Options, db: Store, files: FileSystem, csv: Tokenizer, oracle: Oracle): StepResult {
    if o.file.None? then StepResult(o, db, Aborted)
    else if o.file.value !in files then
      StepResult(o.(status := Some(Error), error := Some(FILE_NOT_FOUND)), db, FileMissing)
    else Advance(o, db, SessionPage(o, files, csv), oracle)
  }

  /** The second half of process_batch, once the page has been read. */
  function Advance(o: Options, db: Store, page: seq<Book>, oracle: Oracle): StepResult {
    if page == [] then StepResult(o.(status := Some(Completed)), db, Exhausted)
    else
      var r := ImportAll(db, page, oracle);
      StepResult(o.(offset := Some(o.offset.GetOr(0) + BATCH_SIZE), processed := Some(o.processed.GetOr(0) + r.count)),
                 r.db, Advanced(r.count))
  }

  /** Once the file is found, a step is Advance on the page it reads. */
  lemma StepReadsPage(o: Options, db: Store, files: FileSystem, csv: Tokenizer, oracle: Oracle)
    requires o.file.Some? && o.file.value in files
    ensures Step(o, db, files, csv, oracle) == Advance(o, db, SessionPage(o, files, csv), oracle)
    ensures SessionPage(o, files, csv) ==
      Page(Matching(DataRowsAt(files, o.file.value, csv), o.genres.GetOr([]), o.authors.GetOr([])), o.offset.GetOr(0), BATCH_SIZE)
  {
  }

  /** The page a step reads depends on the file, the filters and the offset only. */
  lemma SessionPageReads(o: Options, o': Options, files: FileSystem, csv: Tokenizer)
    requires o.file.Some? && o.file == o'.file && o.genres == o'.genres && o.authors == o'.authors && o.offset == o'.offset
    ensures SessionPage(o, files, csv) == SessionPage(o', files, csv)
  {
  }

  /** A non-empty page moves the offset by exactly BATCH_SIZE and the processed count by what was imported. */
  lemma StepAdvances(o: Options, db: Store, files: FileSystem, csv: Tokenizer, oracle: Oracle)
    ensures var r := Step(o, db, files, csv, oracle);
      r.outcome.Advanced? ==>
        && o.file.Some? && o.file.value in files
        && r.opts.offset == Some(o.offset.GetOr(0) + BATCH_SIZE)
        && r.opts.processed == Some(o.processed.GetOr(0) + r.outcome.imported)
        && 0 <= r.outcome.imported <= |SessionPage(o, files, csv)| <= BATCH_SIZE
        && r.opts.(offset := o.offset, processed := o.processed) == o
  {
  }

  /** A missing file or an empty page changes only status (and error): offset, processed and the store stay. */
  lemma StepStopsWithoutProgress(o: Options, db: Store, files: FileSystem, csv: Tokenizer, oracle: Oracle)
    ensures var r := Step(o, db, files, csv, oracle);
      && (r.outcome == FileMissing <==> o.file.Some? && o.file.value !in files)
      && (r.outcome == FileMissing ==> r.opts == o.(status := Some(Error), error := Some(FILE_NOT_FOUND)) && r.db == db)
      && (r.outcome == Exhausted <==> o.file.Some? && o.file.value in files && SessionPage(o, files, csv) == [])
      && (r.outcome == Exhausted ==> r.opts == o.(status := Some(Completed)) && r.db == db)
      && (r.outcome == Aborted <==> o.file.None?)
      && (r.outcome == Aborted ==> r.opts == o && r.db == db)
  {
  }

  /** The status is written only as 'error' or 'completed'; a step never sets it to 'running'. */
  lemma StepStatusWrites(o: Options, db: Store, files: FileSystem, csv: Tokenizer, oracle: Oracle)
    ensures var r := Step(o, db, files, csv, oracle);
      r.opts.status == (match r.outcome
                        case FileMissing => Some(Error)
                        case Exhausted => Some(Completed)
                        case _ => o.status)
    ensures Step(o, db, files, csv, oracle).opts.status == Some(Running) ==> o.status == Some(Running)
  {
  }

  /** A step does the same whatever the stored status: stopped, completed or failed sessions still advance. */
  lemma StepIgnoresStatus(o: Options, s: Option<Status>, db: Store, files: FileSystem, csv: Tokenizer, oracle: Oracle)
    ensures var r := Step(o, db, files, csv, oracle);
            var r' := Step(o.(status := s), db, files, csv, oracle);
      && r'.db == r.db && r'.outcome == r.outcome
      && r'.opts == r.opts.(status := if r.outcome.Aborted? || r.outcome.Advanced? then s else r.opts.status)
  {
    if o.file.Some? && o.file.value in files {
      SessionPageReads(o, o.(status := s), files, csv);
      AdvanceIgnoresStatus(o, s, db, SessionPage(o, files, csv), oracle);
    }
  }

  lemma AdvanceIgnoresStatus(o: Options, s: Option<Status>, db: Store, page: seq<Book>, oracle: Oracle)
    ensures var r := Advance(o, db, page, oracle);
            var r' := Advance(o.(status := s), db, page, oracle);
      && r'.db == r.db && r'.outcome == r.outcome
      && r'.opts == r.opts.(status := if r.outcome.Advanced? then s else r.opts.status)
  {
  }

  /** Once a step found the page empty, further steps on the same file change nothing. */
  lemma CompletedStepIsIdempotent(o: Options, db: Store, files: FileSystem, csv: Tokenizer, oracle: Oracle, oracle': Oracle)
    requires Step(o, db, files, csv, oracle).outcome == Exhausted
    ensures var r := Step(o, db, files, csv, oracle); Step(r.opts, r.db, files, csv, oracle') == r
  {
    var r := Step(o, db, files, csv, oracle);
    SessionPageReads(o, r.opts, files, csv);
  }

  /** processed never overtakes offset: start sets both to 0 and a step adds at most BATCH_SIZE imports. */
  predicate ProcessedBehindOffset(o: Options) {
    o.processed.GetOr(0) <= o.offset.GetOr(0)
  }

  lemma StartEstablishesProgressBound(o: Options, path: string, genres: seq<string>, authors: seq<string>, total: int)
    ensures ProcessedBehindOffset(Started(o, path, genres, authors, total))
    ensures Report(Started(o, path, genres, authors, total)) == Snapshot(Running, 0, total, Report(o).error)
  {
  }

  lemma {:induction false} StepKeepsProgressBound(o: Options, db: Store, files: FileSystem, csv: Tokenizer, oracle: Oracle)
    requires ProcessedBehindOffset(o)
    ensures ProcessedBehindOffset(Step(o, db, files, csv, oracle).opts)
  {
    if o.file.Some? && o.file.value in files {
      var page := SessionPage(o, files, csv);
      if page != [] {
        assert ImportAll(db, page, oracle).count <= |page| <= BATCH_SIZE;
      }
    }
  }

  /** No step stores a book id on two posts, however many steps and sessions run. */
  lemma StepKeepsValid(o: Options, db: Store, files: FileSystem, csv: Tokenizer, oracle: Oracle)
    requires ValidStore(db)
    ensures ValidStore(Step(o, db, files, csv, oracle).db)
  {
    if o.file.Some? && o.file.value in files {
      var page := SessionPage(o, files, csv);
      if page != [] {
        ImportAllKeepsValid(db, page, oracle);
      }
    }
  }

  /** stop_import changes the reported status only. */
  lemma StopKeepsCounters(o: Options)
    ensures Report(StoppedOptions(o)) == Report(o).(status := Stopped)
    ensures ProcessedBehindOffset(o) ==> ProcessedBehindOffset(StoppedOptions(o))
  {
  }

  /** A site where nothing was ever imported reports 'idle', 0, 0 and ''. */
  lemma FreshSiteReportsIdle()
    ensures Report(NO_OPTIONS) == Snapshot(Idle, 0, 0, "")
  {
  }

  // ---------------------------------------------------------------------------
  // The processor
  // ---------------------------------------------------------------------------

  /** Batch_Processor: the persisted options, the content store and the pending cron event. */
  class BatchProcessor {
    var opts: Options
    var db: Store
    /** A zhsh_litres_process_batch event is scheduled. */
    var scheduled: bool

    /** Registering the cron hook; the options and the store are whatever is persisted. */
    constructor (opts: Options, db: Store, scheduled: bool)
      ensures this.opts == opts && this.db == db && this.scheduled == scheduled
    {
      this.opts := opts;
      this.db := db;
      this.scheduled := scheduled;
    }

    /**
     * start_import: counts the matches, writes the session options and makes sure a step is scheduled.
     * It checks nothing itself; a file that cannot be opened counts zero matches.
     */
    method StartImport(files: FileSystem, csv: Tokenizer, path: string, genres: seq<string>, authors: seq<string>)
      returns (total: int)
      modifies this
      ensures total == |Matching(DataRowsAt(files, path, csv), genres, authors)|
      ensures opts == Started(old(opts), path, genres, authors, total)
      ensures db == old(db) && scheduled
    {
      total := CountMatchingBooks(files, path, csv, genres, authors);
      opts := opts.(file := Some(path));
      opts := opts.(genres := Some(genres));
      opts := opts.(authors := Some(authors));
      opts := opts.(offset := Some(0));
      opts := opts.(processed := Some(0));
      opts := opts.(total := Some(total));
      opts := opts.(status := Some(Running));
      scheduled := true;
    }

    /** count_matching_books: one full scan counting the rows that have column 3 and pass the filter. */
    method CountMatchingBooks(files: FileSystem, path: string, csv: Tokenizer, genres: seq<string>, authors: seq<string>)
      returns (count: nat)
      ensures count == |Matching(DataRowsAt(files, path, csv), genres, authors)|
    {
      if path !in files {
        return 0;
      }
      var rows := csv(AfterBom(files[path]));
      count := 0;
      if rows == [] {
        return;
      }
      var i := 1;
      while i < |rows|
        invariant 1 <= i <= |rows|
        invariant count == |Matching(rows[1..i], genres, authors)|
      {
        var data := rows[i];
        assert rows[1..i + 1] == rows[1..i] + [data];
        MatchingSnoc(rows[1..i], data, genres, authors);
        i := i + 1;
        if !(CATEGORY_COL < |data|) {
          continue;
        }
        var category := Trim(data[CATEGORY_COL]);
        var author := Cell(data, AUTHOR_COL);
        var matchGenre := |genres| == 0 || category in genres;
        var matchAuthor := |authors| == 0 || author in authors;
        if matchGenre && matchAuthor {
          count := count + 1;
        }
      }
      assert rows[1..i] == DataRowsAt(files, path, csv);
    }

    /** process_batch: one page from the stored offset, imported, and the next step scheduled. */
    method ProcessBatch(files: FileSystem, csv: Tokenizer, oracle: Oracle)
      modifies this
      ensures var r := Step(old(opts), old(db), files, csv, oracle);
        opts == r.opts && db == r.db && scheduled == (old(scheduled) || r.outcome.Advanced?)
    {
      ghost var o0, db0 := opts, db;
      if opts.file.None? {
        assert Step(o0, db0, files, csv, oracle) == StepResult(o0, db0, Aborted);
        return;
      }
      var path := opts.file.value;
      var genres := opts.genres.GetOr([]);
      var authors := opts.authors.GetOr([]);
      var offset := opts.offset.GetOr(0);
      var processed := opts.processed.GetOr(0);
      if path !in files {
        opts := opts.(status := Some(Error));
        opts := opts.(error := Some(FILE_NOT_FOUND));
        assert Step(o0, db0, files, csv, oracle) == StepResult(opts, db0, FileMissing);
        return;
      }
      StepReadsPage(o0, db0, files, csv, oracle);
      var books := ParseBooks(files, path, csv, genres, authors, offset, BATCH_SIZE);
      assert books == SessionPage(o0, files, csv);
      if books == [] {
        opts := opts.(status := Some(Completed));
        assert Advance(o0, db0, books, oracle) == StepResult(opts, db0, Exhausted);
        return;
      }
      var imported := ImportBooksBatch(books, oracle);
      opts := opts.(offset := Some(offset + BATCH_SIZE));
      opts := opts.(processed := Some(processed + imported));
      scheduled := true;
      assert Advance(o0, db0, books, oracle) == StepResult(opts, db, Advanced(imported));
    }

    /** import_books_batch: per book, look the id up, insert the post, attach genre and author. */
    method ImportBooksBatch(books: seq<Book>, oracle: Oracle) returns (imported: nat)
      modifies this
      ensures var r := ImportAll(old(db), books, oracle); db == r.db && imported == r.count
      ensures opts == old(opts) && scheduled == old(scheduled)
    {
      ghost var db0 := db;
      imported := 0;
      var i := 0;
      ghost var acc := BatchResult(db, 0);
      assert books[..0] == [];
      while i < |books|
        invariant 0 <= i <= |books|
        invariant acc == ImportAll(db0, books[..i], oracle)
        invariant db == acc.db && imported == acc.count
        invariant opts == old(opts) && scheduled == old(scheduled)
      {
        var book := books[i];
        ImportAllSnoc(db0, books[..i], book, oracle);
        assert books[..i + 1] == books[..i] + [book];
        var added := ImportBook(book, oracle(i));
        acc := BatchResult(db, acc.count + added);
        imported := imported + added;
        i := i + 1;
      }
      assert books[..i] == books;
    }

    /** The loop body of import_books_batch for one book: skip a known id or a failed insert, else post and terms. */
    method ImportBook(book: Book, outcome: Outcome) returns (added: nat)
      modifies this
      ensures var r := ImportOne(old(db), book, outcome); db == r.db && added == r.count
      ensures opts == old(opts) && scheduled == old(scheduled)
    {
      if HasBook(db.posts, book.id) || !outcome.postInserted {
        return 0;
      }
      var genreTerms, next, genre := AttachTerm(db.genreTerms, db.nextTermId, book.category, outcome.genreTermInserted);
      var authorTerms, next', author := AttachTerm(db.authorTerms, next, book.author, outcome.authorTermInserted);
      var post := Post(book.title, book.description, book.id, book.price, book.url, book.image, genre, author);
      db := Store(db.posts + [post], genreTerms, authorTerms, next');
      added := 1;
    }

    /**
     * The genre (author) block of import_books_batch: for a non-empty name, `get_term_by` on the
     * exact name, else `wp_insert_term`; returns the taxonomy afterwards and the term attached.
     */
    method AttachTerm(terms: map<string, TermId>, next: TermId, name: string, inserted: bool)
      returns (terms': map<string, TermId>, next': TermId, term: Option<TermId>)
      ensures Resolved(terms', next', term) == ResolveTerm(terms, next, name, inserted)
    {
      terms', next', term := terms, next, None;
      if Truthy(name) {
        if name in terms {
          term := Some(terms[name]);
        } else if inserted {
          term := Some(next);
          terms' := terms[name := next];
          next' := next + 1;
        }
      }
    }

    /** get_import_status: a pure read of the options. */
    function GetImportStatus(): (s: Snapshot)
      reads this
      ensures s == Report(opts)
    {
      Report(opts)
    }

    /** stop_import: the pending event is cleared and the status set to 'stopped'. */
    method StopImport()
      modifies this
      ensures opts == StoppedOptions(old(opts)) && db == old(db) && !scheduled
    {
      scheduled := false;
      opts := opts.(status := Some(Stopped));
    }
  }
}
