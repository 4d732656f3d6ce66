# music_id core in Dafny

A model of the decision logic of the `music_id` service. The service is an
actix-web/diesel catalog of audio recordings ("pieces"). It streams whole
files or byte ranges of them, and it serves a listening quiz: four random
pieces, one of which is correct, plus a short random snippet of the correct
piece's audio.

The model covers:

- `Outcomes.dfy`: `Result` and `Option`. `Result` works with `:-`, which plays
  the role of Rust's `?`.
- `Numbers.dfy`: the `u32`/`u64`/`i32` widths, `as u32` truncation, and the
  decimal text `{}` prints for an integer, with a parser and a round-trip proof.
- `Models.dfy`: `Piece` and `NewPiece`, `PartialEq` by id, and `Display`.
- `Lib.dfy`: `AppErrors` (as `AppError`) with its status code and display
  text, the macros `return_string_err!`, `to_client_err!` (both forms) and
  `to_server_err!`, `create_piece` and `establish_connection`.
- `Media.dfy`: `media_full` (which piece is streamed) and `media_partial`
  (range checks and the slice of the file).
- `Quiz.dfy`: `quiz` up to rendering, plus lemmas tying the quiz's URL to
  `media_partial`.

Inputs stand in for everything outside the code:

- The database answer is a `Result<seq<Piece>, string>`.
- The files on disk are a map from path to bytes. A path that is absent cannot
  be read.
- The filesystem answers of `create_piece` (does the file exist, the metadata
  read), its insert, and the connection attempt of `establish_connection` are
  parameters.
- Each random draw is a raw `nat` that `Sample` maps into the drawn half-open
  range. `SampleReachesAll` shows that every value of the range is drawn by
  some raw value, so quantifying over raw values covers every outcome of the
  generator.

Points where the code's behaviour is easy to misread, as modelled:

- `quiz` does not run the range validator. The zero-bump only happens when the
  URL is later requested.
- `quiz` does not clamp the snippet length. A correct piece under 10 bytes
  makes `gen_range` panic (`Panicked`). For 10 to 19 bytes the snippet is
  empty.
- `media_partial` accepts `start == end` when the start is nonzero and at most
  the recorded size, and returns no bytes. `(0, 0)` is rejected by the order
  check, because the start is bumped to 1 first.
- `media_full` matches the title exactly and takes the first match.
  `media_partial` uses a substring match (`LIKE`), which is not modelled: both
  take the query's result as an input.
- `quiz` rejects any count other than 4 with the client error "Invalid number
  of pieces fetched".

## Model

| member | source | states |
|---|---|---|
| `Numbers.TruncateToU32` | src/lib.rs:125-128 | `len() as u32` keeps the remainder of the length modulo 2^32 |
| `Numbers.TruncateExactIffFits` | src/lib.rs:125-128 | the truncated size equals the length exactly when the length is below 2^32 |
| `Numbers.IntRoundTrip` | src/models.rs:18-22 | the decimal text of the id parses back to the id, negative ids included |
| `Numbers.DecimalRoundTrip` | src/models.rs:18-22 | the decimal digits of a non-negative number parse back to that number |
| `Models.Eq` | src/models.rs:27-33 | `eq` holds iff one piece is the other with only title, artist, path and size replaced, i.e. iff the ids agree |
| `Models.Ne` | src/models.rs:34-36 | `ne` holds iff the ids differ, and pieces it relates are never the same value |
| `Models.EqIsIdEquality` | src/models.rs:26-37 | `eq` holds iff the ids are equal and `ne` iff they differ, whatever the other fields hold |
| `Models.EqIsEquivalence` | src/models.rs:27-33 | `eq` is reflexive, symmetric and transitive |
| `Models.EqCoarserThanEquality` | src/models.rs:27-33 | structurally equal pieces are `eq`, and some `eq` pair differs in title, artist, path and size |
| `Models.Display` | src/models.rs:16-24 | the text before the first ':' parses back to the id, and the text ends with the file path |
| `Models.SameDisplaySameIdentity` | src/models.rs:16-33 | two pieces with the same display text are `eq` |
| `Models.DisplayIgnoresSize` | src/models.rs:16-24 | pieces that differ only in `file_size` display identically although they are distinct values |
| `Models.DisplayExample` | src/models.rs:18-22 | a piece with id 42 renders as "42: {title} by {artist} at {file_path}" for any title, artist and path |
| `Models.DisplayNegativeExample` | src/models.rs:18-22 | a piece with id -7 renders as "-7: {title} by {artist} at {file_path}" |
| `Lib.StatusCode` | src/lib.rs:90-95 | the status is 400 exactly for client errors and 500 exactly for the server error |
| `Lib.StatusMatchesText` | src/lib.rs:67-95 | the status is 400 exactly when the display text starts with "Bad Request: ", and 500 exactly when it is "Internal Server Error" |
| `Lib.DisplayError` | src/lib.rs:67-74 | the server error displays exactly "Internal Server Error"; a text starts with "Bad Request: " iff the error is a client error, and the client error's details follow that prefix verbatim |
| `Lib.DisplayErrorInjective` | src/lib.rs:67-74 | "Internal Server Error" and "Bad Request: {details}" never coincide, and the details are recoverable, so the text determines the error |
| `Lib.ReturnStringErr` | src/lib.rs:13-20 | success yields its value; a failure returns early with the failure's text |
| `Lib.ToClientErr` | src/lib.rs:33-38 | success passes through unchanged; a failure becomes a client error carrying its text, with status 400 |
| `Lib.ClientErrLiteral` | src/lib.rs:30-32 | the literal form is always a client error with that text, displayed behind "Bad Request: " |
| `Lib.ToServerErr` | src/lib.rs:42-52 | success passes through unchanged; every failure becomes the server error, with status 500 |
| `Lib.ServerErrHidesDetail` | src/lib.rs:42-52 | two different failures give the same server error, displayed as "Internal Server Error" |
| `Lib.CreatePiece` | src/lib.rs:113-141 | a missing file gives "File does not exist" with no insert; a metadata failure returns its text with no insert; otherwise exactly one record with the given fields and the truncated length is inserted, and the insert's answer is returned |
| `Lib.CreatePieceSize` | src/lib.rs:125-128 | the recorded size equals the length iff the length fits in 32 bits; a 2^32 + 5 byte file is recorded as 5 bytes |
| `Lib.EstablishConnection` | src/lib.rs:98-111 | an unset variable gives the "must be set" text; a non-unicode value gives the "Invalid value" text; a failed connect is reported behind "Error establishing database connection: " |
| `Lib.ConnectionOutcome` | src/lib.rs:101-110 | a connection is returned iff the variable is set and the connect succeeds; a failed connect's text starts with the fixed prefix |
| `Media.First` | src/main.rs:43 | `get(0)` is present iff the list is non-empty, and then it is the first element |
| `Media.OkOr` | src/main.rs:43 | `ok_or` gives the present value, or the given message when absent |
| `Media.ReadFile` | src/main.rs:51 | the read succeeds iff the path is readable (in the file map), and then yields its whole content |
| `Media.MediaFull` | src/main.rs:14-21 | a storage failure is a server error; no match is the client error "No entries found"; otherwise the first match is used |
| `Media.BumpStart` | src/main.rs:33 | a start of 0 becomes exactly 1 and a nonzero start is unchanged, so the bumped start is at least 1 |
| `Media.MediaPartial` | src/main.rs:27-55 | on success, a match exists and its file is readable; the bumped start does not exceed the end; the body has `end - start'` bytes, and byte `i` is file byte `start' + i` |
| `Media.MediaPartialSucceedsIff` | src/main.rs:33-52 | success iff the catalog answers with a first match, `start <= end`, `1 <= end <= file_size` of that match, and its file is readable |
| `Media.OrderCheckedBeforeLookup` | src/main.rs:33-43 | a bumped start beyond the end gives "Invalid byte range: end cannot be greater than start" whatever the catalog and files hold |
| `Media.MediaPartialFailures` | src/main.rs:35-51 | once the order check passes: a storage failure is a server error, no match is "Piece not found", an end beyond the size is "Invalid byte range: end too large", and an unreadable file is a server error |
| `Media.MediaPartialBoundaries` | src/main.rs:45-52 | a range ending exactly at `file_size` is accepted; `start == end` with a nonzero start at most `file_size` is accepted with an empty body; `(0, 0)` is rejected by the order check |
| `Media.MediaPartialScenarios` | src/main.rs:33-52 | (0, 500) on a 1,000,000-byte file gives bytes 1..500 (499 bytes); (600, 500) is rejected for order; (10, 2000) on a 1000-byte file is rejected as too large |
| `Media.ShortFileServedWithinLength` | src/main.rs:45-52 | a piece recorded as 10 bytes whose file holds 3 still serves the range (1, 2) as the single byte `content[1]` |
| `Quiz.Sample` | src/main.rs:110-112 | a draw from `[lo, hi)` lies in `[lo, hi)` |
| `Quiz.SampleReachesAll` | src/main.rs:110-112 | every value of `[lo, hi)` is drawn by some raw value |
| `Quiz.GenQuiz` | src/main.rs:96-118 | a storage failure is a server error; a count other than 4 is "Invalid number of pieces fetched"; a produced question has the fetched pieces as candidates, a correct piece among them, a length in `[F/20, F/10)`, a start in `[0, F - length)`, and a URL of the correct title, start and start + length |
| `Quiz.PanicsIffTinyFile` | src/main.rs:111 | with 4 pieces fetched, the handler panics iff the correct piece is under 10 bytes, and panicking is its only failure |
| `Quiz.EveryValidQuestionReachable` | src/main.rs:109-118 | every question meeting those bounds is produced by some draws |
| `Quiz.SnippetInsideFile` | src/main.rs:111-117 | `start + length` ends strictly inside the file, so no u32 arithmetic overflows |
| `Quiz.QuizRangeAccepted` | src/main.rs:111-117 | for a correct piece of at least 20 bytes, the URL's range passes the range checks of `media_partial` (src/main.rs:33-47) against the same size, whatever the catalog and files hold |
| `Quiz.QuizUrlPassesPartial` | src/main.rs:111-117 | for a correct piece of at least 20 bytes, the URL's range passes the checks of `media_partial` (src/main.rs:33-47) against the same size; the body played has the drawn length, or one byte less when the drawn start is 0 |
| `Quiz.SmallFileSnippetEmpty` | src/main.rs:111-117 | for 10 to 19 bytes the length is 0 and the URL's range is empty; `media_partial` accepts it iff the drawn start is nonzero |
| `Quiz.QuizScenarios` | src/main.rs:105-112 | 3 fetched pieces are rejected; for a 2,000,000-byte correct piece (the other three of any size) the length is in [100000, 200000) and the end is within the file |

## Left out

- actix routing, the `main` server setup, `NamedFile::open` streaming in `media_full` and how actix maps its I/O error, response building, content types, and the askama templates (`QuizTemplate`, `ErrorTemplate`, the `not_found` page and `error_response`). These are framework glue. `Media.MediaFull` stops at the piece whose file is streamed.
- `list_all`, `list_by_artist`, `list_by_title` and `list_random`. Each is `to_server_err!` around a query, and `Lib.ToServerErr` states that behaviour.
- The diesel queries (`title.eq`, `LIKE '%…%'`, `ORDER BY RAND() LIMIT n`) and the `query!` macro. The query result is an input. Collation and the distinctness of fetched rows are guaranteed by the database, not by the code, so `Quiz.GenQuiz` does not state that the four candidates are distinct.
- `thread_rng`, `choose` and `gen_range` as generators. Their draws are raw inputs (see `Quiz.Sample`).
- The decimal text of the quiz URL and actix's parsing of `/media/partial/{title}/{start}/{end}` back into fields. The URL is modelled as its three fields. Titles containing `/` would not route.
- `Media.MediaPartial`: requires that the slice `content[start'..end]` stays within the file, i.e. that whenever the range checks pass against the first match and its file is readable, `end` does not exceed the file's length. The source panics on the slice exactly when this fails (src/main.rs:52), which happens only if the recorded size exceeds the file; the model has no outcome for that panic.
- `eprintln!` logging in `to_server_err!`, `dotenv()` loading, and the network connect of `establish_connection`.
- The command-line tools under `src/bin`. They are stdin/argv/database plumbing, and their only logic (existence check, `as u32`) is the same as `create_piece`'s.
