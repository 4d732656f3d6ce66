/** The two media handlers: `media_full` picks the piece whose whole file is
    streamed, `media_partial` validates a requested byte range and returns
    that slice of the piece's file. The catalog query result and the files
    on disk are inputs. */
module Media {
  import opened Outcomes
  import opened Numbers
  import opened Models
  import opened Lib

  type Bytes = seq<bv8>

  /** The files the service can read: a path that is absent cannot be read. */
  type FileSystem = map<string, Bytes>

  const NO_ENTRIES := "No entries found"
  const PIECE_NOT_FOUND := "Piece not found"
  const START_AFTER_END := "Invalid byte range: end cannot be greater than start"
  const END_TOO_LARGE := "Invalid byte range: end too large"
  /** The text of a failed read. Any text would do: `to_server_err!`
      discards it before it reaches a caller. */
  const UNREADABLE := "file cannot be read"

  /** `pieces.get(0)`. */
  function First(pieces: seq<Piece>): (r: Option<Piece>)
    ensures r.Some? <==> |pieces| > 0
    ensures r.Some? ==> r.value == pieces[0]
  {
    if |pieces| == 0 then None else Some(pieces[0])
  }

  /** `Option::ok_or`. */
  function OkOr<T>(o: Option<T>, error: string): (r: Result<T, string>)
    ensures r.Ok? <==> o.Some?
    ensures r.Ok? ==> r.value == o.value
    ensures r.Err? ==> r.error == error
  {
    match o
    case Some(v) => Ok(v)
    case None => Err(error)
  }

  /** `fs::read`: the whole content of the file, or an I/O failure. */
  function ReadFile(files: FileSystem, path: string): (r: Result<Bytes, string>)
    ensures r.Ok? <==> path in files
    ensures r.Ok? ==> r.value == files[path]
  {
    if path in files then Ok(files[path]) else Err(UNREADABLE)
  }

  /** `media_full`: the piece whose file is streamed. A storage failure is a
      server error; no match is the client error "No entries found";
      otherwise the first match is used. */
  function MediaFull(lookup: Result<seq<Piece>, string>): (r: Result<Piece, AppError>)
    ensures lookup.Err? ==> r == Err(ServerError)
    ensures lookup.Ok? && |lookup.value| == 0 ==> r == Err(ClientError(NO_ENTRIES))
    ensures lookup.Ok? && |lookup.value| > 0 ==> r == Ok(lookup.value[0])
  {
    var pieces :- ToServerErr(lookup);
    var piece :- ToClientErr(OkOr(First(pieces), NO_ENTRIES), s => s);
    Ok(piece)
  }

  /** The zero-bump: a start of 0 is read as 1, because a player shown the
      first byte of the audio reports the whole file's duration. */
  function BumpStart(start: u32): (s: u32)
    ensures start == 0 ==> s == 1
    ensures start != 0 ==> s == start
    ensures 1 <= s
  {
    if start == 0 then 1 else start
  }

  /** The ranges `media_partial` accepts for a file of `fileSize` bytes,
      stated on the request as sent: the end lies in the file and is at least
      1, and the start does not exceed it. */
  predicate RangeAccepted(start: u32, end: u32, fileSize: u32) {
    start <= end && 1 <= end && end <= fileSize
  }

  /** The handler's slice `content[start'..end]` stays within the file: it
      would panic only when the range checks pass against the first match,
      its file is readable, and the end lies beyond the file's length. */
  predicate SliceInBounds(start: u32, end: u32, lookup: Result<seq<Piece>, string>, files: FileSystem) {
    (&& lookup.Ok? && |lookup.value| > 0
     && BumpStart(start) <= end <= lookup.value[0].fileSize
     && lookup.value[0].filePath in files)
    ==> end as int <= |files[lookup.value[0].filePath]|
  }

  /** `media_partial`: the bytes `[start', end)` of the first matching
      piece's file, where `start'` is the bumped start. */
  function MediaPartial(start: u32, end: u32, lookup: Result<seq<Piece>, string>, files: FileSystem)
    : (r: Result<Bytes, AppError>)
    requires SliceInBounds(start, end, lookup, files)
    ensures r.Ok? ==> lookup.Ok? && |lookup.value| > 0 && lookup.value[0].filePath in files
    ensures r.Ok? ==>
              var content := files[lookup.value[0].filePath];
              && BumpStart(start) <= end
              && |r.value| == end as int - BumpStart(start) as int <= |content| - BumpStart(start) as int
              && forall i :: 0 <= i < |r.value| ==> r.value[i] == content[BumpStart(start) as int + i]
  {
    var start := BumpStart(start);
    if start > end then ClientErrLiteral(START_AFTER_END)
    else
      var pieces :- ToServerErr(lookup);
      var piece :- ToClientErr(OkOr(First(pieces), PIECE_NOT_FOUND), s => s);
      if end > piece.fileSize then ClientErrLiteral(END_TOO_LARGE)
      else
        var content :- ToServerErr(ReadFile(files, piece.filePath));
        Ok(content[start..end])
  }

  /** `media_partial` succeeds exactly when the catalog answers with at least
      one match, the range is accepted for the first match's recorded size,
      and that match's file can be read. */
  lemma MediaPartialSucceedsIff(start: u32, end: u32, lookup: Result<seq<Piece>, string>, files: FileSystem)
    requires SliceInBounds(start, end, lookup, files)
    ensures MediaPartial(start, end, lookup, files).Ok? <==>
              && lookup.Ok? && |lookup.value| > 0
              && RangeAccepted(start, end, lookup.value[0].fileSize)
              && lookup.value[0].filePath in files
  {
  }

  /** The order check comes before the catalog is consulted: a range whose
      bumped start exceeds its end is the same client error whatever the
      catalog and the files hold. */
  lemma OrderCheckedBeforeLookup(start: u32, end: u32,
                                 lookup1: Result<seq<Piece>, string>, files1: FileSystem,
                                 lookup2: Result<seq<Piece>, string>, files2: FileSystem)
    requires BumpStart(start) > end
    ensures MediaPartial(start, end, lookup1, files1) == Err(ClientError(START_AFTER_END))
    ensures MediaPartial(start, end, lookup1, files1) == MediaPartial(start, end, lookup2, files2)
  {
  }

  /** The failures of `media_partial`, in the order the handler meets them,
      with their tiers: a storage failure or an unreadable file is a server
      error, a missing match or a bad range a client error. */
  lemma MediaPartialFailures(start: u32, end: u32, lookup: Result<seq<Piece>, string>, files: FileSystem)
    requires SliceInBounds(start, end, lookup, files)
    requires BumpStart(start) <= end
    ensures lookup.Err? ==> MediaPartial(start, end, lookup, files) == Err(ServerError)
    ensures lookup.Ok? && |lookup.value| == 0 ==>
              MediaPartial(start, end, lookup, files) == Err(ClientError(PIECE_NOT_FOUND))
    ensures lookup.Ok? && |lookup.value| > 0 && end > lookup.value[0].fileSize ==>
              MediaPartial(start, end, lookup, files) == Err(ClientError(END_TOO_LARGE))
    ensures lookup.Ok? && |lookup.value| > 0 && end <= lookup.value[0].fileSize
            && lookup.value[0].filePath !in files ==>
              MediaPartial(start, end, lookup, files) == Err(ServerError)
  {
  }

  /** Boundary cases: a range ending at the recorded size is accepted; a
      range with equal nonzero start and end yields no bytes; `(0, 0)` is
      rejected by the order check, because the start is bumped to 1. */
  lemma MediaPartialBoundaries(p: Piece, rest: seq<Piece>, files: FileSystem, at: u32)
    requires p.filePath in files
    requires p.fileSize as int <= |files[p.filePath]|
    requires 1 <= at <= p.fileSize
    ensures MediaPartial(at, p.fileSize, Ok([p] + rest), files).Ok?
    ensures MediaPartial(at, at, Ok([p] + rest), files) == Ok([])
    ensures MediaPartial(0, 0, Ok([p] + rest), files) == Err(ClientError(START_AFTER_END))
  {
  }

  /** Worked cases for a file of one million bytes and one of a thousand. */
  lemma MediaPartialScenarios(content: Bytes)
    requires |content| == 1_000_000
    ensures var p := Piece(1, "Prelude", "Bach", "/music/prelude.mp3", 1_000_000);
            var files := map["/music/prelude.mp3" := content];
            && MediaPartial(0, 500, Ok([p]), files) == Ok(content[1..500])
            && |MediaPartial(0, 500, Ok([p]), files).value| == 499
            && MediaPartial(600, 500, Ok([p]), files) == Err(ClientError(START_AFTER_END))
    ensures var q := Piece(2, "Etude", "Chopin", "/music/etude.mp3", 1000);
            var files := map["/music/etude.mp3" := content];
            MediaPartial(10, 2000, Ok([q]), files) == Err(ClientError(END_TOO_LARGE))
  {
  }

  /** A recorded size larger than the file does not by itself stop the
      handler: a range that ends inside the shorter file is still served. */
  lemma ShortFileServedWithinLength()
    ensures var p := Piece(3, "Air", "Bach", "/music/air.mp3", 10);
            var files: FileSystem := map["/music/air.mp3" := [1, 2, 3]];
            && SliceInBounds(1, 2, Ok([p]), files)
            && MediaPartial(1, 2, Ok([p]), files) == Ok([2])
  {
    var content: Bytes := [1, 2, 3];
    assert content[1..2] == [2];
  }
}
