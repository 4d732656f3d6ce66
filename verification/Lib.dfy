/** The shared library of the service: the two-tier error type, the macros
    that convert fallible results into it, the record-creation routine and
    the database-URL lookup. */
module Lib {
  import opened Outcomes
  import opened Numbers
  import opened Models

  /** `AppErrors`: an operational failure whose detail is withheld, or a
      user-correctable failure carrying its message. */
  datatype AppError = ServerError | ClientError(details: string)

  const BAD_REQUEST: nat := 400
  const INTERNAL_SERVER_ERROR: nat := 500

  const SERVER_ERROR_TEXT := "Internal Server Error"
  const CLIENT_ERROR_PREFIX := "Bad Request: "

  /** `ResponseError::status_code`. */
  function StatusCode(e: AppError): (code: nat)
    ensures code == BAD_REQUEST <==> e.ClientError?
    ensures code == INTERNAL_SERVER_ERROR <==> e.ServerError?
  {
    match e
    case ServerError => INTERNAL_SERVER_ERROR
    case ClientError(_) => BAD_REQUEST
  }

  /** `Display for AppErrors`: the server error shows only the fixed
      "Internal Server Error"; a client error is recognisable by the
      "Bad Request: " prefix, after which its details follow verbatim. */
  function DisplayError(e: AppError): (s: string)
    ensures |s| >= |CLIENT_ERROR_PREFIX|
    ensures e.ServerError? ==> s == SERVER_ERROR_TEXT
    ensures e.ClientError? <==> s[..|CLIENT_ERROR_PREFIX|] == CLIENT_ERROR_PREFIX
    ensures e.ClientError? ==> s[|CLIENT_ERROR_PREFIX|..] == e.details
  {
    assert SERVER_ERROR_TEXT[0] != CLIENT_ERROR_PREFIX[0];
    match e
    case ServerError => SERVER_ERROR_TEXT
    case ClientError(details) => CLIENT_ERROR_PREFIX + details
  }

  /** The status and the display text agree: 400 exactly when the text
      carries the "Bad Request: " prefix, 500 exactly when it is the fixed
      server text. */
  lemma StatusMatchesText(e: AppError)
    ensures StatusCode(e) == BAD_REQUEST <==>
              DisplayError(e)[..|CLIENT_ERROR_PREFIX|] == CLIENT_ERROR_PREFIX
    ensures StatusCode(e) == INTERNAL_SERVER_ERROR <==> DisplayError(e) == SERVER_ERROR_TEXT
  {
    if e.ClientError? {
      assert DisplayError(e)[0] == CLIENT_ERROR_PREFIX[0] != SERVER_ERROR_TEXT[0];
    }
  }

  /** The display text determines the error: the server text never starts
      like a client text, and the client details follow the fixed prefix. */
  lemma DisplayErrorInjective(a: AppError, b: AppError)
    requires DisplayError(a) == DisplayError(b)
    ensures a == b
  {
  }

  /** `return_string_err!`: yields the success value, or makes the enclosing
      function return the failure's text. */
  function ReturnStringErr<T, E>(r: Result<T, E>, show: E -> string): (o: Result<T, string>)
    ensures o.Ok? <==> r.Ok?
    ensures o.Ok? ==> o.value == r.value
    ensures o.Err? ==> o.error == show(r.error)
  {
    match r
    case Ok(success) => Ok(success)
    case Err(failure) => Err(show(failure))
  }

  /** `to_client_err!` on an expression: success passes through, a failure
      becomes a client error carrying its text. */
  function ToClientErr<T, E>(r: Result<T, E>, show: E -> string): (o: Result<T, AppError>)
    ensures o.Ok? <==> r.Ok?
    ensures o.Ok? ==> o.value == r.value
    ensures o.Err? ==> o.error == ClientError(show(r.error)) && StatusCode(o.error) == BAD_REQUEST
  {
    match r
    case Ok(success) => Ok(success)
    case Err(err) => Err(ClientError(show(err)))
  }

  /** `to_client_err!` on a string literal: always a client error. */
  function ClientErrLiteral<T>(text: string): (o: Result<T, AppError>)
    ensures o.Err? && o.error.ClientError? && o.error.details == text
    ensures DisplayError(o.error) == CLIENT_ERROR_PREFIX + text
  {
    Err(ClientError(text))
  }

  /** `to_server_err!`: success passes through, every failure becomes the
      detail-free server error (the detail only goes to the log). */
  function ToServerErr<T, E>(r: Result<T, E>): (o: Result<T, AppError>)
    ensures o.Ok? <==> r.Ok?
    ensures o.Ok? ==> o.value == r.value
    ensures o.Err? ==> o.error == ServerError && StatusCode(o.error) == INTERNAL_SERVER_ERROR
  {
    match r
    case Ok(success) => Ok(success)
    case Err(err) => Err(ServerError)
  }

  /** No detail of a failure survives `to_server_err!`. */
  lemma ServerErrHidesDetail<T, E>(e1: E, e2: E)
    ensures ToServerErr<T, E>(Err(e1)) == ToServerErr<T, E>(Err(e2))
    ensures DisplayError(ToServerErr<T, E>(Err(e1)).error) == SERVER_ERROR_TEXT
  {
  }

  const FILE_MISSING := "File does not exist"

  /** What `create_piece` did: the record it handed to the insert, if any,
      and the value it returned. */
  datatype CreateOutcome = CreateOutcome(inserted: Option<NewPiece>, result: Result<nat, string>)

  /** `create_piece`. The filesystem answers (`fileExists`, the metadata read)
      and the insert are inputs; the insert maps a record to the row count or
      the database error text. */
  function CreatePiece(title: string, artist: string, filePath: string,
                       fileExists: bool, metadata: Result<u64, string>,
                       insert: NewPiece -> Result<nat, string>): (o: CreateOutcome)
    ensures !fileExists ==> o == CreateOutcome(None, Err(FILE_MISSING))
    ensures fileExists && metadata.Err? ==> o == CreateOutcome(None, Err(metadata.error))
    ensures o.inserted.Some? <==> fileExists && metadata.Ok?
    ensures o.inserted.Some? ==>
              && o.inserted.value.title == title
              && o.inserted.value.artist == artist
              && o.inserted.value.filePath == filePath
              && o.inserted.value.fileSize as int == metadata.value as int % U32_LIMIT
              && o.result == insert(o.inserted.value)
  {
    if !fileExists then CreateOutcome(None, Err(FILE_MISSING))
    else
      match metadata
      case Err(err) => CreateOutcome(None, Err(err))
      case Ok(len) =>
        var piece := NewPiece(title, artist, filePath, TruncateToU32(len));
        CreateOutcome(Some(piece), insert(piece))
  }

  /** The stored size equals the file length exactly when the length fits
      in 32 bits; a file of 2^32 + 5 bytes is recorded as 5 bytes long. */
  lemma CreatePieceSize(title: string, artist: string, filePath: string,
                        len: u64, insert: NewPiece -> Result<nat, string>)
    ensures var o := CreatePiece(title, artist, filePath, true, Ok(len), insert);
            o.inserted.Some? && (o.inserted.value.fileSize as int == len as int <==> len as int < U32_LIMIT)
    ensures CreatePiece(title, artist, filePath, true, Ok(0x1_0000_0005), insert).inserted.value.fileSize == 5
  {
    TruncateExactIffFits(len);
  }

  /** The three outcomes of reading `DATABASE_URL`. */
  datatype EnvVar = Present(value: string) | NotPresent | NotUnicode

  const URL_MISSING := "DATABASE_URL environment variable must be set"
  const URL_INVALID := "Invalid value for DATABASE_URL environment variable"
  const CONNECT_FAILED_PREFIX := "Error establishing database connection: "

  /** `establish_connection`: the variable lookup and the connection attempt
      (an input mapping the URL to a connection or the error's text). */
  function EstablishConnection<C>(databaseUrl: EnvVar, connect: string -> Result<C, string>): (r: Result<C, string>)
    ensures databaseUrl.NotPresent? ==> r == Err(URL_MISSING)
    ensures databaseUrl.NotUnicode? ==> r == Err(URL_INVALID)
    ensures databaseUrl.Present? && connect(databaseUrl.value).Ok? ==> r == connect(databaseUrl.value)
    ensures databaseUrl.Present? && connect(databaseUrl.value).Err? ==>
              r == Err(CONNECT_FAILED_PREFIX + connect(databaseUrl.value).error)
  {
    match databaseUrl
    case NotPresent => Err(URL_MISSING)
    case NotUnicode => Err(URL_INVALID)
    case Present(url) =>
      match connect(url)
      case Ok(conn) => Ok(conn)
      case Err(err) => Err(CONNECT_FAILED_PREFIX + err)
  }

  /** A connection is returned only when the variable is set and the attempt
      succeeds; a failed attempt is reported behind its fixed prefix. */
  lemma ConnectionOutcome<C>(databaseUrl: EnvVar, connect: string -> Result<C, string>)
    ensures EstablishConnection(databaseUrl, connect).Ok? <==>
              databaseUrl.Present? && connect(databaseUrl.value).Ok?
    ensures EstablishConnection(databaseUrl, connect).Err? && databaseUrl.Present? ==>
              EstablishConnection(databaseUrl, connect).error[..|CONNECT_FAILED_PREFIX|] == CONNECT_FAILED_PREFIX
  {
  }
}
