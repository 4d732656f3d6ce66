/** The `quiz` handler: from four randomly fetched pieces it picks the correct
    one, draws a snippet length of 5% to 10% of its file and a start offset,
    and builds the partial-media request that plays the snippet. The catalog
    answer and the random draws are inputs. */
module Quiz {
  import opened Outcomes
  import opened Numbers
  import opened Models
  import opened Lib
  import opened Media

  const QUIZ_SIZE: nat := 4
  const WRONG_COUNT := "Invalid number of pieces fetched"

  /** The raw random values the handler draws: one to choose the correct
      piece, one for the snippet length, one for its start. */
  datatype Draws = Draws(pick: nat, chunk: nat, offset: nat)

  /** The fields of the URL `/media/partial/{title}/{start}/{end}`. */
  datatype PartialRequest = PartialRequest(title: string, start: u32, end: u32)

  /** What the quiz page is rendered from. */
  datatype Question = Question(pieces: seq<Piece>, correct: Piece, chunkSize: u32, start: u32, url: PartialRequest)

  /** Why no question is produced: an error response, or a panic of the
      random-number generator asked to sample an empty range. */
  datatype QuizFailure = Rejected(error: AppError) | Panicked

  /** A uniform draw from `[lo, hi)`, given the generator's raw value. */
  function Sample(lo: nat, hi: nat, draw: nat): (v: nat)
    requires lo < hi
    ensures lo <= v < hi
  {
    lo + draw % (hi - lo)
  }

  /** Every value of the range is drawn by some raw value, so quantifying
      over raw values covers every outcome the generator can produce. */
  lemma SampleReachesAll(lo: nat, hi: nat, v: nat)
    requires lo <= v < hi
    ensures Sample(lo, hi, v - lo) == v
  {
  }

  /** `quiz`, up to rendering. */
  function GenQuiz(fetched: Result<seq<Piece>, string>, draws: Draws): (r: Result<Question, QuizFailure>)
    ensures fetched.Err? ==> r == Err(Rejected(ServerError))
    ensures fetched.Ok? && |fetched.value| != QUIZ_SIZE ==> r == Err(Rejected(ClientError(WRONG_COUNT)))
    ensures r.Ok? ==> fetched.Ok? && ValidQuestion(r.value, fetched.value)
  {
    match fetched
    case Err(_) => Err(Rejected(ServerError))
    case Ok(pieces) =>
      if |pieces| != QUIZ_SIZE then Err(Rejected(ClientError(WRONG_COUNT)))
      else
        var correct := pieces[Sample(0, QUIZ_SIZE, draws.pick)];
        var size := correct.fileSize;
        if size / 20 >= size / 10 then Err(Panicked)
        else
          var chunk := Sample(size as nat / 20, size as nat / 10, draws.chunk) as u32;
          var start := Sample(0, (size - chunk) as nat, draws.offset) as u32;
          Ok(Question(pieces, correct, chunk, start, PartialRequest(correct.title, start, start + chunk)))
  }

  /** The questions the handler may produce from four fetched pieces: the
      candidates are the fetched pieces, the correct one is among them, the
      snippet length lies in `[F/20, F/10)` and its start in
      `[0, F - length)` for the correct piece's size `F`, and the URL names
      the correct title and the snippet's start and end. */
  ghost predicate ValidQuestion(q: Question, fetched: seq<Piece>) {
    var size := q.correct.fileSize as int;
    && |fetched| == QUIZ_SIZE
    && q.pieces == fetched
    && q.correct in fetched
    && size / 20 <= q.chunkSize as int < size / 10
    && 0 <= q.start as int < size - q.chunkSize as int
    && q.url == PartialRequest(q.correct.title, q.start, (q.start as int + q.chunkSize as int) as u32)
  }

  /** For `F < 10` the length range `[F/20, F/10)` is empty; this is the
      only way the handler panics once four pieces have been fetched. */
  lemma PanicsIffTinyFile(fetched: Result<seq<Piece>, string>, draws: Draws)
    requires fetched.Ok? && |fetched.value| == QUIZ_SIZE
    ensures GenQuiz(fetched, draws) == Err(Panicked) <==>
              fetched.value[draws.pick % QUIZ_SIZE].fileSize < 10
    ensures GenQuiz(fetched, draws).Err? ==> GenQuiz(fetched, draws) == Err(Panicked)
  {
    var size := fetched.value[draws.pick % QUIZ_SIZE].fileSize as int;
    if size >= 10 {
      assert size / 20 < size / 10 by {
        DivisionGap(size);
      }
    }
  }

  lemma DivisionGap(size: int)
    requires size >= 10
    ensures size / 20 < size / 10
  {
    var t := size / 20;
    assert size >= 20 * t;
    assert size >= 10 * (2 * t);
    assert size / 10 >= 2 * t;
    if t == 0 {
      assert size / 10 >= 1;
    }
  }

  /** Every valid question is produced by some draws: the generator's
      choices reach all of them. */
  lemma EveryValidQuestionReachable(fetched: seq<Piece>, q: Question)
    requires ValidQuestion(q, fetched)
    ensures exists draws :: GenQuiz(Ok(fetched), draws) == Ok(q)
  {
    var k :| 0 <= k < QUIZ_SIZE && fetched[k] == q.correct;
    var size := q.correct.fileSize as nat;
    var draws := Draws(k, q.chunkSize as nat - size / 20, q.start as nat);
    SampleReachesAll(0, QUIZ_SIZE, k);
    SampleReachesAll(size / 20, size / 10, q.chunkSize as nat);
    SampleReachesAll(0, size - q.chunkSize as nat, q.start as nat);
    assert GenQuiz(Ok(fetched), draws) == Ok(q);
  }

  /** The snippet lies strictly inside the file, so neither `F - length`
      nor `start + length` leaves the u32 range. */
  lemma SnippetInsideFile(fetched: Result<seq<Piece>, string>, draws: Draws)
    requires GenQuiz(fetched, draws).Ok?
    ensures var q := GenQuiz(fetched, draws).value;
            q.url.end as int == q.start as int + q.chunkSize as int < q.correct.fileSize as int
  {
  }

  /** For a correct piece of at least 20 bytes the quiz URL's range passes
      every range check of `media_partial` against the same recorded size,
      whatever the catalog and files hold when the URL is requested. */
  lemma QuizRangeAccepted(fetched: Result<seq<Piece>, string>, draws: Draws)
    requires GenQuiz(fetched, draws).Ok?
    requires GenQuiz(fetched, draws).value.correct.fileSize >= 20
    ensures var q := GenQuiz(fetched, draws).value;
            RangeAccepted(q.url.start, q.url.end, q.correct.fileSize)
  {
    assert GenQuiz(fetched, draws).value.correct.fileSize as int / 20 >= 1;
  }

  /** For a correct piece of at least 20 bytes the quiz URL passes every
      range check of `media_partial` against the same recorded size, and when
      the catalog again answers with that piece first and its file is
      readable, the snippet played is the drawn range less the zero-bump. */
  lemma QuizUrlPassesPartial(fetched: Result<seq<Piece>, string>, draws: Draws,
                             rest: seq<Piece>, files: FileSystem)
    requires GenQuiz(fetched, draws).Ok?
    requires GenQuiz(fetched, draws).value.correct.fileSize >= 20
    requires GenQuiz(fetched, draws).value.correct.filePath in files
    requires GenQuiz(fetched, draws).value.correct.fileSize as int
             <= |files[GenQuiz(fetched, draws).value.correct.filePath]|
    ensures var q := GenQuiz(fetched, draws).value;
            RangeAccepted(q.url.start, q.url.end, q.correct.fileSize)
    ensures var q := GenQuiz(fetched, draws).value;
            var body := MediaPartial(q.url.start, q.url.end, Ok([q.correct] + rest), files);
            && body.Ok?
            && |body.value| == if q.start == 0 then q.chunkSize as int - 1 else q.chunkSize as int
  {
    var q := GenQuiz(fetched, draws).value;
    QuizRangeAccepted(fetched, draws);
    MediaPartialSucceedsIff(q.url.start, q.url.end, Ok([q.correct] + rest), files);
  }

  /** For a correct piece of 10 to 19 bytes the snippet length is 0: the URL
      asks for an empty range, which `media_partial` rejects exactly when the
      start drawn is 0 (the bump moves it past the end). */
  lemma SmallFileSnippetEmpty(fetched: Result<seq<Piece>, string>, draws: Draws)
    requires GenQuiz(fetched, draws).Ok?
    requires GenQuiz(fetched, draws).value.correct.fileSize < 20
    ensures var q := GenQuiz(fetched, draws).value;
            && q.chunkSize == 0
            && q.url.start == q.url.end
            && (RangeAccepted(q.url.start, q.url.end, q.correct.fileSize) <==> q.start != 0)
  {
  }

  /** The quiz scenarios: three fetched pieces are rejected, and a correct
      piece of two million bytes gets a snippet of 100000 to 199999 bytes
      ending inside the file. */
  lemma QuizScenarios(three: seq<Piece>, four: seq<Piece>, draws: Draws)
    requires |three| == 3
    requires |four| == QUIZ_SIZE && four[draws.pick % QUIZ_SIZE].fileSize == 2_000_000
    ensures GenQuiz(Ok(three), draws) == Err(Rejected(ClientError(WRONG_COUNT)))
    ensures var r := GenQuiz(Ok(four), draws);
            && r.Ok?
            && 100_000 <= r.value.chunkSize as int < 200_000
            && r.value.url.end as int <= 2_000_000
  {
    PanicsIffTinyFile(Ok(four), draws);
  }
}
