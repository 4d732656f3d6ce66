/** The catalog record (`Piece`), the record handed to an insert
    (`NewPiece`), their identity and their display text. */
module Models {
  import opened Outcomes
  import opened Numbers

  /** One catalog row. `fileSize` is an unsigned 32-bit column, so it is
      always below 2^32 by its type. */
  datatype Piece = Piece(id: i32, title: string, artist: string, filePath: string, fileSize: u32)

  /** The columns of a row about to be inserted (the database assigns `id`). */
  datatype NewPiece = NewPiece(title: string, artist: string, filePath: string, fileSize: u32)

  /** `PartialEq::eq`: two pieces are equal when their ids are, whatever
      their other fields hold. Put differently, `b` is `a` with only its
      title, artist, path and size replaced. */
  function Eq(a: Piece, b: Piece): (r: bool)
    ensures r <==> a.(title := b.title, artist := b.artist, filePath := b.filePath, fileSize := b.fileSize) == b
  {
    a.id == b.id
  }

  /** `PartialEq::ne`, defined as the negation of `eq`: it holds exactly for
      pieces with different ids, and such pieces are never the same value. */
  function Ne(a: Piece, b: Piece): (r: bool)
    ensures r <==> a.id != b.id
    ensures r ==> a != b
  {
    !Eq(a, b)
  }

  lemma EqIsIdEquality(a: Piece, b: Piece)
    ensures Eq(a, b) <==> a.id == b.id
    ensures Ne(a, b) <==> a.id != b.id
  {
  }

  /** `eq` is an equivalence relation on pieces. */
  lemma EqIsEquivalence()
    ensures forall a: Piece :: Eq(a, a)
    ensures forall a: Piece, b: Piece :: Eq(a, b) <==> Eq(b, a)
    ensures forall a: Piece, b: Piece, c: Piece :: Eq(a, b) && Eq(b, c) ==> Eq(a, c)
  {
  }

  /** `eq` is strictly coarser than structural equality: every structurally
      equal pair is `eq`, and some `eq` pair differs in every other field. */
  lemma EqCoarserThanEquality()
    ensures forall a: Piece, b: Piece :: a == b ==> Eq(a, b)
    ensures exists a: Piece, b: Piece :: Eq(a, b) && a.title != b.title && a.artist != b.artist
                                          && a.filePath != b.filePath && a.fileSize != b.fileSize
  {
    var a := Piece(1, "Gymnopedie", "Satie", "/music/a.mp3", 10);
    var b := Piece(1, "Nocturne", "Chopin", "/music/b.mp3", 20);
    assert Eq(a, b) && a.title != b.title && a.artist != b.artist
           && a.filePath != b.filePath && a.fileSize != b.fileSize;
  }

  /** The text before the first occurrence of `c` (all of `s` when `c` does
      not occur). */
  function TakeUntil(s: string, c: char): (r: string)
    ensures r <= s
    ensures c !in r
    ensures |r| < |s| ==> s[|r|] == c
    decreases |s|
  {
    if s == [] || s[0] == c then [] else [s[0]] + TakeUntil(s[1..], c)
  }

  lemma {:induction false} TakeUntilPrefix(a: string, c: char, b: string)
    requires c !in a
    ensures TakeUntil(a + [c] + b, c) == a
    decreases |a|
  {
    if a != [] {
      assert (a + [c] + b)[1..] == a[1..] + [c] + b;
      TakeUntilPrefix(a[1..], c, b);
    }
  }

  /** The decimal text of an id, followed by ':' and anything, gives the id
      back when read up to the first ':'. */
  lemma IdReadBack(id: int, rest: string)
    ensures ParseInt(TakeUntil(IntToDecimal(id) + [':'] + rest, ':')) == Some(id)
  {
    var d := IntToDecimal(id);
    assert ':' !in d by {
      forall k | 0 <= k < |d| ensures d[k] != ':' {
      }
    }
    TakeUntilPrefix(d, ':', rest);
    IntRoundTrip(id);
  }

  /** `Display for Piece`: "{id}: {title} by {artist} at {file_path}". The id
      can be read back from the text (the decimal number in front of the
      first ':'), and the text ends with the path. */
  function Display(p: Piece): (s: string)
    ensures ParseInt(TakeUntil(s, ':')) == Some(p.id as int)
    ensures |s| >= |p.filePath| && s[|s| - |p.filePath|..] == p.filePath
  {
    var tail := " " + p.title + " by " + p.artist + " at " + p.filePath;
    IdReadBack(p.id as int, tail);
    assert tail[|tail| - |p.filePath|..] == p.filePath;
    IntToDecimal(p.id as int) + [':'] + tail
  }

  /** Pieces that display alike are `eq`. */
  lemma SameDisplaySameIdentity(a: Piece, b: Piece)
    requires Display(a) == Display(b)
    ensures Eq(a, b)
  {
  }

  /** The size is not part of the display text: pieces differing only in
      `fileSize` display identically, yet are distinct values. */
  lemma DisplayIgnoresSize(p: Piece, size: u32)
    ensures Display(p.(fileSize := size)) == Display(p)
    ensures size != p.fileSize ==> p.(fileSize := size) != p
  {
  }

  /** Concrete renderings of a positive and a negative id. */
  lemma DisplayExample(title: string, artist: string, path: string, size: u32)
    ensures Display(Piece(42, title, artist, path, size)) == "42: " + title + " by " + artist + " at " + path
  {
    SmallDecimals();
  }

  lemma DisplayNegativeExample(title: string, artist: string, path: string, size: u32)
    ensures Display(Piece(-7, title, artist, path, size)) == "-7: " + title + " by " + artist + " at " + path
  {
    SmallDecimals();
  }

  lemma SmallDecimals()
    ensures IntToDecimal(42) == "42"
    ensures IntToDecimal(-7) == "-7"
  {
    assert NatToDecimal(4) == "4";
    assert NatToDecimal(42) == NatToDecimal(4) + [DigitChar(2)];
    assert NatToDecimal(7) == "7";
  }
}
