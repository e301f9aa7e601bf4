/**
 * Runs of the import session on a catalog with three data rows: the first and third in
 * category "Fiction", the second in "Poetry" (any other columns, any header).
 */
module Scenarios {
  import opened Wrappers
  import opened PhpStrings
  import opened Parser
  import opened BatchProcessing

  /** The file at `path` splits into a header `h` and the rows `r1`, `r2`, `r3`. */
  predicate ThreeBookCatalog(files: FileSystem, path: string, csv: Tokenizer, h: Row, r1: Row, r2: Row, r3: Row) {
    && path in files && csv(AfterBom(files[path])) == [h, r1, r2, r3]
    && HasRequiredColumns(r1) && HasRequiredColumns(r2) && HasRequiredColumns(r3)
    && Cell(r1, CATEGORY_COL) == "Fiction" && Cell(r2, CATEGORY_COL) == "Poetry" && Cell(r3, CATEGORY_COL) == "Fiction"
    && Cell(r1, ID_COL) != Cell(r3, ID_COL)
  }

  function AllInsertsSucceed(k: nat): Outcome {
    Outcome(true, true, true)
  }

  const EMPTY_STORE: Store := Store([], map[], map[], 0)

  lemma FictionFilter(files: FileSystem, path: string, csv: Tokenizer, h: Row, r1: Row, r2: Row, r3: Row)
    requires ThreeBookCatalog(files, path, csv, h, r1, r2, r3)
    ensures Matches(r1, ["Fiction"], []) && !Matches(r2, ["Fiction"], []) && Matches(r3, ["Fiction"], [])
    ensures DataRowsAt(files, path, csv) == [r1, r2, r3]
  {
    assert "Poetry"[0] != "Fiction"[0];
  }

  lemma FictionMatches(files: FileSystem, path: string, csv: Tokenizer, h: Row, r1: Row, r2: Row, r3: Row)
    requires ThreeBookCatalog(files, path, csv, h, r1, r2, r3)
    ensures Matching(DataRowsAt(files, path, csv), ["Fiction"], []) == [ToBook(r1), ToBook(r3)]
  {
    FictionFilter(files, path, csv, h, r1, r2, r3);
    var g: seq<string>, none: seq<string> := ["Fiction"], [];
    var s1, s2, s3 := [r1], [r1, r2], [r1, r2, r3];
    assert s1[..0] == [] && s2[..1] == s1 && s3[..2] == s2;
    assert Matching(s1, g, none) == [ToBook(r1)];
    assert Matching(s2, g, none) == [ToBook(r1)];
    assert Matching(s3, g, none) == [ToBook(r1), ToBook(r3)];
  }

  /** Two books with different ids, all inserts accepted: both are imported into an empty store. */
  lemma TwoNewBooksImported(b1: Book, b2: Book)
    requires b1.id != b2.id
    ensures ImportAll(EMPTY_STORE, [b1, b2], AllInsertsSucceed).count == 2
  {
    var books := [b1, b2];
    assert books[..1] == [b1] && books[..1][..0] == [];
    var one := ImportAll(EMPTY_STORE, [b1], AllInsertsSucceed);
    assert one.count == 1 && |one.db.posts| == 1 && one.db.posts[0].bookId == b1.id;
    assert !HasBook(one.db.posts, b2.id);
  }

  /** The options after starting the "Fiction" import of two books. */
  function FictionSession(path: string): Options {
    Started(NO_OPTIONS, path, ["Fiction"], [], 2)
  }

  /** The first page of the "Fiction" session holds both matches. */
  lemma FirstPageHoldsBoth(files: FileSystem, path: string, csv: Tokenizer, h: Row, r1: Row, r2: Row, r3: Row)
    requires ThreeBookCatalog(files, path, csv, h, r1, r2, r3)
    ensures SessionPage(FictionSession(path), files, csv) == [ToBook(r1), ToBook(r3)]
    ensures ToBook(r1).id != ToBook(r3).id
  {
    var all := [ToBook(r1), ToBook(r3)];
    FictionMatches(files, path, csv, h, r1, r2, r3);
    StepReadsPage(FictionSession(path), EMPTY_STORE, files, csv, AllInsertsSucceed);
    PageSlice(all, 0, BATCH_SIZE);
    assert all[0..2] == all;
  }

  /** A step whose page holds two books with different ids imports both and moves the offset by a batch. */
  lemma TwoBookStep(o: Options, files: FileSystem, csv: Tokenizer, b1: Book, b2: Book)
    requires o.file.Some? && o.file.value in files && b1.id != b2.id
    requires SessionPage(o, files, csv) == [b1, b2]
    ensures var r := Step(o, EMPTY_STORE, files, csv, AllInsertsSucceed);
      && r.outcome == Advanced(2)
      && r.opts == o.(offset := Some(o.offset.GetOr(0) + BATCH_SIZE), processed := Some(o.processed.GetOr(0) + 2))
  {
    StepReadsPage(o, EMPTY_STORE, files, csv, AllInsertsSucceed);
    TwoNewBooksImported(b1, b2);
  }

  /** The first step of the "Fiction" session on a page of two books with different ids. */
  lemma FictionFirstStep(files: FileSystem, path: string, csv: Tokenizer, b1: Book, b2: Book)
    requires path in files && b1.id != b2.id
    requires SessionPage(FictionSession(path), files, csv) == [b1, b2]
    ensures var o := FictionSession(path);
            var first := Step(o, EMPTY_STORE, files, csv, AllInsertsSucceed);
      && first.outcome == Advanced(2)
      && first.opts == o.(offset := Some(BATCH_SIZE), processed := Some(2))
  {
    TwoBookStep(FictionSession(path), files, csv, b1, b2);
  }

  /** The first step reads both matches on its page, imports both and moves the offset past them. */
  lemma FirstStepImportsBoth(files: FileSystem, path: string, csv: Tokenizer, h: Row, r1: Row, r2: Row, r3: Row)
    requires ThreeBookCatalog(files, path, csv, h, r1, r2, r3)
    ensures var o := FictionSession(path);
            var first := Step(o, EMPTY_STORE, files, csv, AllInsertsSucceed);
      && first.outcome == Advanced(2)
      && first.opts == o.(offset := Some(BATCH_SIZE), processed := Some(2))
  {
    FirstPageHoldsBoth(files, path, csv, h, r1, r2, r3);
    FictionFirstStep(files, path, csv, ToBook(r1), ToBook(r3));
  }

  /** A step at an offset past both matches finds its page empty and marks the import completed. */
  lemma SecondStepCompletes(files: FileSystem, path: string, csv: Tokenizer, h: Row, r1: Row, r2: Row, r3: Row,
                            o: Options, db: Store)
    requires ThreeBookCatalog(files, path, csv, h, r1, r2, r3)
    requires o.file == Some(path) && o.genres == Some(["Fiction"]) && o.authors == Some([])
    requires o.offset == Some(BATCH_SIZE)
    ensures var second := Step(o, db, files, csv, AllInsertsSucceed);
      && second.outcome == Exhausted
      && second.opts == o.(status := Some(Completed))
      && second.db == db
  {
    FictionMatches(files, path, csv, h, r1, r2, r3);
    StepReadsPage(o, db, files, csv, AllInsertsSucceed);
    PageSlice([ToBook(r1), ToBook(r3)], BATCH_SIZE, BATCH_SIZE);
  }

  /**
   * Starting an import of "Fiction" counts 2 books. The first step imports both but leaves the
   * status 'running'; only the second step, which finds the next page empty, sets 'completed'.
   */
  lemma FictionImportNeedsTwoSteps(files: FileSystem, path: string, csv: Tokenizer, h: Row, r1: Row, r2: Row, r3: Row)
    requires ThreeBookCatalog(files, path, csv, h, r1, r2, r3)
    ensures var o := Started(NO_OPTIONS, path, ["Fiction"], [], 2);
            var first := Step(o, EMPTY_STORE, files, csv, AllInsertsSucceed);
            var second := Step(first.opts, first.db, files, csv, AllInsertsSucceed);
      && |Matching(DataRowsAt(files, path, csv), ["Fiction"], [])| == 2
      && first.outcome == Advanced(2)
      && Report(first.opts) == Snapshot(Running, 2, 2, "")
      && second.outcome == Exhausted
      && Report(second.opts) == Snapshot(Completed, 2, 2, "")
  {
    FictionMatches(files, path, csv, h, r1, r2, r3);
    FirstStepImportsBoth(files, path, csv, h, r1, r2, r3);
    var first := Step(FictionSession(path), EMPTY_STORE, files, csv, AllInsertsSucceed);
    SecondStepCompletes(files, path, csv, h, r1, r2, r3, first.opts, first.db);
  }

  /** A stopped session is still advanced by a direct process_batch call, and its status stays 'stopped'. */
  lemma StoppedSessionStillImports(files: FileSystem, path: string, csv: Tokenizer, h: Row, r1: Row, r2: Row, r3: Row)
    requires ThreeBookCatalog(files, path, csv, h, r1, r2, r3)
    ensures var o := StoppedOptions(Started(NO_OPTIONS, path, ["Fiction"], [], 2));
            var r := Step(o, EMPTY_STORE, files, csv, AllInsertsSucceed);
      && r.outcome.Advanced? && r.opts.offset == Some(BATCH_SIZE)
      && Report(r.opts).status == Stopped
  {
    FirstStepImportsBoth(files, path, csv, h, r1, r2, r3);
    StepIgnoresStatus(FictionSession(path), Some(Stopped), EMPTY_STORE, files, csv, AllInsertsSucceed);
  }
}
