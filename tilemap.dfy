/** The tile grid of include/Tilemap.h: a tile size plus a flat sequence of
    tile values, its text dump and the rectangles it asks raylib to draw. */
module Tilemap {
  import opened Common
  import opened Components

  /** `Tilemap`: pixels per tile side and the tile values in index order
      (each `ecs::Tile` holds one `int`, 0 by default). */
  datatype Tilemap = Tilemap(tileSize: int, tiles: seq<int>)

  /** A default-constructed tilemap: 32-pixel tiles and no tiles. */
  const EMPTY_TILEMAP: Tilemap := Tilemap(32, [])

  /** The palette index by tile value; index 0 is the empty tile. */
  const TILE_COLORS: seq<Color> := [WHITE, BLACK, RED, GREEN, BLUE]

  // ---------------------------------------------------------------------
  // Decimal text, as std::to_string / std::format write an int.

  predicate IsDigit(c: char)
  {
    '0' <= c <= '9'
  }

  function DigitChar(d: nat): (c: char)
    requires d < 10
    ensures IsDigit(c) && c as int - '0' as int == d
  {
    ('0' as int + d) as char
  }

  predicate AllDigits(s: string)
  {
    forall i :: 0 <= i < |s| ==> IsDigit(s[i])
  }

  /** Decimal digits of `n`, most significant first, no leading zeros. */
  function NatToString(n: nat): string
  {
    if n < 10 then [DigitChar(n)] else NatToString(n / 10) + [DigitChar(n % 10)]
  }

  /** `std::to_string(int)`: a minus sign for negative values. */
  function IntToString(n: int): string
  {
    if n < 0 then "-" + NatToString(-n) else NatToString(n)
  }

  lemma {:induction false} NatToStringDigits(n: nat)
    ensures |NatToString(n)| >= 1 && AllDigits(NatToString(n))
  {
    if n >= 10 {
      NatToStringDigits(n / 10);
    }
  }

  /** The text of a number is never empty and never starts with a blank. */
  lemma IntToStringStart(n: int)
    ensures |IntToString(n)| >= 1 && IntToString(n)[0] != '\n' && IntToString(n)[0] != ' '
  {
    NatToStringDigits(if n < 0 then -n else n);
  }

  // ---------------------------------------------------------------------
  // Serialize (include/Tilemap.h:23-37)

  const HEADER_PREFIX: string := "tilemap\n tileSize "

  /** The first line and the tile-size line. */
  function Header(tileSize: int): string
  {
    HEADER_PREFIX + IntToString(tileSize) + "\n"
  }

  /** Tile `i` starts a new line when it is a non-zero multiple of the TILE
      SIZE (not of the row length). */
  predicate RowBreak(tileSize: int, i: nat)
    requires tileSize > 0
  {
    i % tileSize == 0 && i != 0
  }

  /** The decimal value of a tile and the space after it. */
  function Num(v: int): string
  {
    IntToString(v) + " "
  }

  /** The text for tile `i` of value `v`: its line break, if any, then its
      number. */
  function Chunk(tileSize: int, i: nat, v: int): string
    requires tileSize > 0
  {
    (if RowBreak(tileSize, i) then "\n" else "") + Num(v)
  }

  /** What the loop of `Serialize` has appended to `acc` after `n` tiles. */
  function Appended(acc: string, tileSize: int, tiles: seq<int>, n: nat): string
    requires tileSize > 0 && n <= |tiles|
  {
    if n == 0 then acc
    else
      var prev := Appended(acc, tileSize, tiles, n - 1);
      (if RowBreak(tileSize, n - 1) then prev + "\n" else prev) + Num(tiles[n - 1])
  }

  /** The whole dump of a tilemap. */
  function Serialized(tm: Tilemap): string
    requires tm.tileSize > 0
  {
    Appended(Header(tm.tileSize), tm.tileSize, tm.tiles, |tm.tiles|)
  }

  /** `Tilemap::Serialize`. The tilemap is a value and is left as it was. */
  method Serialize(tm: Tilemap) returns (result: string)
    requires tm.tileSize > 0
    ensures result == Serialized(tm)
  {
    result := Header(tm.tileSize);
    ghost var header := result;
    var i := 0;
    while i < |tm.tiles|
      invariant 0 <= i <= |tm.tiles|
      invariant result == Appended(header, tm.tileSize, tm.tiles, i)
    {
      ghost var prev := result;
      if i % tm.tileSize == 0 && i != 0 {
        result := result + "\n";
      }
      assert result == if RowBreak(tm.tileSize, i) then prev + "\n" else prev;
      result := result + (IntToString(tm.tiles[i]) + " ");
      assert result == Appended(header, tm.tileSize, tm.tiles, i + 1);
      i := i + 1;
    }
  }

  /** The same dump read from the front: the text of the tiles from tile
      number `start` on, each preceded by its line break if it has one. */
  function Chunks(tileSize: int, tiles: seq<int>, start: nat): string
    requires tileSize > 0
    decreases |tiles|
  {
    if tiles == [] then ""
    else if RowBreak(tileSize, start) then "\n" + (Num(tiles[0]) + Chunks(tileSize, tiles[1..], start + 1))
    else Num(tiles[0]) + Chunks(tileSize, tiles[1..], start + 1)
  }

  lemma Assoc(a: string, b: string, c: string)
    ensures a + (b + c) == (a + b) + c
  {
  }

  /** Appending a tile appends its text. */
  lemma {:induction false} ChunksSnoc(tileSize: int, s: seq<int>, v: int, start: nat)
    requires tileSize > 0
    ensures Chunks(tileSize, s + [v], start) == Chunks(tileSize, s, start) + Chunk(tileSize, start + |s|, v)
    decreases |s|
  {
    var tail := Chunk(tileSize, start + |s|, v);
    if s == [] {
      assert [v][1..] == [];
      if !RowBreak(tileSize, start) {
        assert "" + Num(v) == Num(v);
      }
      assert "" + tail == tail;
    } else {
      assert (s + [v])[1..] == s[1..] + [v];
      ChunksSnoc(tileSize, s[1..], v, start + 1);
      var rest := Chunks(tileSize, s[1..], start + 1);
      Assoc(Num(s[0]), rest, tail);
      if RowBreak(tileSize, start) {
        Assoc("\n", Num(s[0]) + rest, tail);
      }
    }
  }

  /** One more step of the loop appends the tile's chunk. */
  lemma AppendedStep(acc: string, tileSize: int, tiles: seq<int>, n: nat)
    requires tileSize > 0 && 0 < n <= |tiles|
    ensures Appended(acc, tileSize, tiles, n) ==
      Appended(acc, tileSize, tiles, n - 1) + Chunk(tileSize, n - 1, tiles[n - 1])
  {
    var prev := Appended(acc, tileSize, tiles, n - 1);
    var v := Num(tiles[n - 1]);
    if RowBreak(tileSize, n - 1) {
      Assoc(prev, "\n", v);
    } else {
      assert "" + v == v;
    }
  }

  /** The loop's text is the starting text followed by the front-to-back
      reading. */
  lemma {:induction false} AppendedChunks(acc: string, tileSize: int, tiles: seq<int>, n: nat)
    requires tileSize > 0 && n <= |tiles|
    ensures Appended(acc, tileSize, tiles, n) == acc + Chunks(tileSize, tiles[..n], 0)
  {
    if n == 0 {
      assert acc + "" == acc;
    } else {
      var c := Chunks(tileSize, tiles[..n - 1], 0);
      var k := Chunk(tileSize, n - 1, tiles[n - 1]);
      calc {
        Appended(acc, tileSize, tiles, n);
        == { AppendedStep(acc, tileSize, tiles, n); }
        Appended(acc, tileSize, tiles, n - 1) + k;
        == { AppendedChunks(acc, tileSize, tiles, n - 1); }
        (acc + c) + k;
        == { Assoc(acc, c, k); }
        acc + (c + k);
        == { TakeSnoc(tiles, n - 1); ChunksSnoc(tileSize, tiles[..n - 1], tiles[n - 1], 0); }
        acc + Chunks(tileSize, tiles[..n], 0);
      }
    }
  }

  lemma SerializedChunks(tm: Tilemap)
    requires tm.tileSize > 0
    ensures Serialized(tm) == Header(tm.tileSize) + Chunks(tm.tileSize, tm.tiles, 0)
  {
    AppendedChunks(Header(tm.tileSize), tm.tileSize, tm.tiles, |tm.tiles|);
    assert tm.tiles[..|tm.tiles|] == tm.tiles;
  }

  /** With no tiles, the dump is the header alone. */
  lemma SerializedEmpty(tileSize: int)
    requires tileSize > 0
    ensures Serialized(Tilemap(tileSize, [])) == "tilemap\n tileSize " + IntToString(tileSize) + "\n"
  {
  }

  /** Every dump with at least one tile ends in a space: there is no
      trailing line break. */
  lemma SerializedEndsWithSpace(tm: Tilemap)
    requires tm.tileSize > 0 && tm.tiles != []
    ensures var s := Serialized(tm); |s| > 0 && s[|s| - 1] == ' '
  {
    var n := |tm.tiles|;
    var prev := Appended(Header(tm.tileSize), tm.tileSize, tm.tiles, n - 1);
    var br := if RowBreak(tm.tileSize, n - 1) then prev + "\n" else prev;
    assert Serialized(tm) == br + (IntToString(tm.tiles[n - 1]) + " ");
  }

  lemma SmallNumbers()
    ensures IntToString(20) == "20" && IntToString(2) == "2"
    ensures Num(1) == "1 " && Num(0) == "0 "
  {
    assert NatToString(20) == NatToString(2) + [DigitChar(0)];
  }

  /** The row break follows the tile size, so a 2 x 2 grid of 20-pixel
      tiles is dumped on one line... */
  lemma SerializedTwoByTwo()
    ensures Serialized(Tilemap(20, [1, 0, 0, 1])) == "tilemap\n tileSize 20\n1 0 0 1 "
  {
    var t, h := [1, 0, 0, 1], Header(20);
    SmallNumbers();
    assert h == "tilemap\n tileSize 20\n";
    assert !RowBreak(20, 0) && !RowBreak(20, 1) && !RowBreak(20, 2) && !RowBreak(20, 3);
    assert Appended(h, 20, t, 1) == h + "1 ";
    assert Appended(h, 20, t, 2) == h + "1 " + "0 ";
    assert Appended(h, 20, t, 3) == h + "1 " + "0 " + "0 ";
    assert Appended(h, 20, t, 4) == h + "1 " + "0 " + "0 " + "1 ";
  }

  /** ...and only a tile size equal to the row length breaks after the row. */
  lemma SerializedBreaksEveryTileSize()
    ensures Serialized(Tilemap(2, [1, 0, 0, 1])) == "tilemap\n tileSize 2\n1 0 \n0 1 "
  {
    var t, h := [1, 0, 0, 1], Header(2);
    SmallNumbers();
    assert h == "tilemap\n tileSize 2\n";
    assert !RowBreak(2, 0) && !RowBreak(2, 1) && RowBreak(2, 2) && !RowBreak(2, 3);
    assert Appended(h, 2, t, 1) == h + "1 ";
    assert Appended(h, 2, t, 2) == h + "1 " + "0 ";
    assert Appended(h, 2, t, 3) == h + "1 " + "0 " + "\n" + "0 ";
    assert Appended(h, 2, t, 4) == h + "1 " + "0 " + "\n" + "0 " + "1 ";
  }

  // ---------------------------------------------------------------------
  // A reader for the dump. The repository has none; it is defined here to
  // state that the dump loses no information.

  /** Length of the run of digits at the front of `s`. */
  function DigitRun(s: string): (k: nat)
    ensures k <= |s|
  {
    if s == [] || !IsDigit(s[0]) then 0 else 1 + DigitRun(s[1..])
  }

  lemma {:induction false} DigitRunDigits(s: string)
    ensures AllDigits(s[..DigitRun(s)])
  {
    if s != [] && IsDigit(s[0]) {
      DigitRunDigits(s[1..]);
      assert s[..DigitRun(s)] == [s[0]] + s[1..][..DigitRun(s[1..])];
    }
  }

  function DigitsValue(s: string): nat
    requires AllDigits(s)
  {
    if s == [] then 0
    else
      var last := s[|s| - 1];
      assert IsDigit(last);
      10 * DigitsValue(s[..|s| - 1]) + (last as int - '0' as int)
  }

  /** Reads an optionally negative decimal number; gives its value and the
      number of characters read. */
  function ParseInt(s: string): (r: Option<(int, nat)>)
    ensures r.Some? ==> 1 <= r.value.1 <= |s|
  {
    if |s| > 0 && s[0] == '-' then
      var k := DigitRun(s[1..]);
      DigitRunDigits(s[1..]);
      var v: int := -(DigitsValue(s[1..][..k]) as int);
      if k == 0 then None else Some((v, k + 1))
    else
      var k := DigitRun(s);
      DigitRunDigits(s);
      if k == 0 then None else Some((DigitsValue(s[..k]), k))
  }

  /** Reads tile values, each followed by one space, skipping line breaks. */
  function ParseBody(s: string): Option<seq<int>>
    decreases |s|
  {
    if s == [] then Some([])
    else if s[0] == '\n' then ParseBody(s[1..])
    else match ParseInt(s)
      case None => None
      case Some((v, k)) =>
        if k < |s| && s[k] == ' ' then
          match ParseBody(s[k + 1..])
          case None => None
          case Some(rest) => Some([v] + rest)
        else None
  }

  /** Reads a whole dump. */
  function Parse(s: string): Option<Tilemap>
  {
    if |s| < |HEADER_PREFIX| || s[..|HEADER_PREFIX|] != HEADER_PREFIX then None
    else
      var t := s[|HEADER_PREFIX|..];
      match ParseInt(t)
      case None => None
      case Some((ts, k)) =>
        if k < |t| && t[k] == '\n' then
          match ParseBody(t[k + 1..])
          case None => None
          case Some(tiles) => Some(Tilemap(ts, tiles))
        else None
  }

  lemma {:induction false} DigitsValueOfNat(n: nat)
    ensures AllDigits(NatToString(n)) && DigitsValue(NatToString(n)) == n
  {
    NatToStringDigits(n);
    if n >= 10 {
      var s := NatToString(n);
      assert s[..|s| - 1] == NatToString(n / 10);
      DigitsValueOfNat(n / 10);
    }
  }

  lemma {:induction false} DigitRunPrefix(p: string, rest: string)
    requires AllDigits(p)
    requires rest == [] || !IsDigit(rest[0])
    ensures DigitRun(p + rest) == |p|
    decreases |p|
  {
    if p == [] {
      assert p + rest == rest;
    } else {
      assert (p + rest)[1..] == p[1..] + rest;
      DigitRunPrefix(p[1..], rest);
    }
  }

  /** The digits of `n` followed by a non-digit: the run of digits is
      exactly them and reads back as `n`. */
  lemma NatTextRead(n: nat, rest: string)
    requires rest == [] || !IsDigit(rest[0])
    ensures var d := NatToString(n); var s := d + rest;
      1 <= |d| && IsDigit(s[0]) && DigitRun(s) == |d| && s[..|d|] == d &&
      AllDigits(d) && DigitsValue(d) == n
  {
    var d := NatToString(n);
    NatToStringDigits(n);
    DigitRunPrefix(d, rest);
    assert (d + rest)[..|d|] == d;
    DigitsValueOfNat(n);
  }

  /** The number reader inverts `std::to_string` when a non-digit follows. */
  lemma ParseIntRoundTrip(n: int, rest: string)
    requires rest == [] || !IsDigit(rest[0])
    ensures ParseInt(IntToString(n) + rest) == Some((n, |IntToString(n)|))
  {
    if n < 0 {
      var d := NatToString(-n);
      NatTextRead(-n, rest);
      Assoc("-", d, rest);
      assert ("-" + (d + rest))[1..] == d + rest;
    } else {
      NatTextRead(n, rest);
    }
  }

  /** A number, a space and more text read as that number first. */
  lemma ParseBodyNumber(v: int, rest: string)
    ensures ParseBody(Num(v) + rest) ==
      match ParseBody(rest)
      case None => None
      case Some(vs) => Some([v] + vs)
  {
    var num := Num(v) + rest;
    IntToStringStart(v);
    ParseIntRoundTrip(v, " " + rest);
    Assoc(IntToString(v), " ", rest);
    var k := |IntToString(v)|;
    assert num[k] == ' ';
    assert num[k + 1..] == rest;
  }

  /** A line break in front of the body is skipped. */
  lemma ParseBodyBreak(s: string)
    ensures ParseBody("\n" + s) == ParseBody(s)
  {
    assert ("\n" + s)[0] == '\n' && ("\n" + s)[1..] == s;
  }

  lemma {:induction false} ParseBodyChunks(tileSize: int, tiles: seq<int>, start: nat)
    requires tileSize > 0
    ensures ParseBody(Chunks(tileSize, tiles, start)) == Some(tiles)
    decreases |tiles|
  {
    if tiles != [] {
      var v, rest := tiles[0], Chunks(tileSize, tiles[1..], start + 1);
      ParseBodyChunks(tileSize, tiles[1..], start + 1);
      ParseBodyNumber(v, rest);
      assert [v] + tiles[1..] == tiles;
      if RowBreak(tileSize, start) {
        ParseBodyBreak(Num(v) + rest);
      }
    }
  }

  /** The dump of any tilemap reads back as that tilemap. */
  lemma SerializeRoundTrip(tm: Tilemap)
    requires tm.tileSize > 0
    ensures Parse(Serialized(tm)) == Some(tm)
  {
    SerializedChunks(tm);
    var s := Serialized(tm);
    var body := Chunks(tm.tileSize, tm.tiles, 0);
    var n := IntToString(tm.tileSize);
    var t := n + ("\n" + body);
    Assoc(HEADER_PREFIX, n, "\n");
    Assoc(HEADER_PREFIX + n, "\n", body);
    Assoc(HEADER_PREFIX, n, "\n" + body);
    assert s == HEADER_PREFIX + t;
    assert s[..|HEADER_PREFIX|] == HEADER_PREFIX;
    assert s[|HEADER_PREFIX|..] == t;
    ParseIntRoundTrip(tm.tileSize, "\n" + body);
    var k := |n|;
    assert t[k] == '\n';
    assert t[k + 1..] == body;
    ParseBodyChunks(tm.tileSize, tm.tiles, 0);
  }

  // ---------------------------------------------------------------------
  // Draw (include/Tilemap.h:39-67), as the list of DrawRectangle calls.

  /** One `DrawRectangle(x, y, w, h, colour)` call. */
  datatype DrawRequest = DrawRequest(x: int, y: int, w: int, h: int, color: Color)

  /** The colour of a non-empty tile: its palette entry, or black when the
      value is past the end of the palette. */
  function TileColor(v: int): (c: Color)
    requires v > 0
    ensures v < |TILE_COLORS| ==> c == TILE_COLORS[v]
    ensures v >= |TILE_COLORS| ==> c == BLACK
  {
    if v < |TILE_COLORS| then TILE_COLORS[v] else BLACK
  }

  /** The number of values of `size_t`, a 64-bit unsigned type. */
  const SIZE_T_RANGE: int := 0x1_0000_0000_0000_0000

  /** `static_cast<size_t>(tilesPerRow)` with `tilesPerRow` the truncated
      quotient `screenWidth / tileSize`: the row length itself for a
      non-negative width, and a row length past any realistic tile index for
      a negative width, since the cast wraps. */
  function RowLength(tm: Tilemap, screenWidth: int): (m: nat)
    requires tm.tileSize > 0
    ensures 0 <= screenWidth < SIZE_T_RANGE ==> m == screenWidth / tm.tileSize
    ensures -SIZE_T_RANGE < screenWidth <= -tm.tileSize ==>
      m == SIZE_T_RANGE + CDiv(screenWidth, tm.tileSize) && m >= SIZE_T_RANGE + screenWidth
  {
    var q := CDiv(screenWidth, tm.tileSize);
    if 0 <= screenWidth < SIZE_T_RANGE then
      QuotientAtMost(screenWidth, tm.tileSize);
      DivModUnique(q, SIZE_T_RANGE, 0, q);
      q % SIZE_T_RANGE
    else if -SIZE_T_RANGE < screenWidth <= -tm.tileSize then
      QuotientAtMost(-screenWidth, tm.tileSize);
      DivBounds(-screenWidth, tm.tileSize);
      DivModUnique(q, SIZE_T_RANGE, -1, SIZE_T_RANGE + q);
      q % SIZE_T_RANGE
    else
      q % SIZE_T_RANGE
  }

  lemma QuotientAtMost(a: int, b: int)
    requires a >= 0 && b > 0
    ensures 0 <= a / b <= a
  {
    DivBounds(a, b);
    if a / b > 0 {
      MulAtLeast(b, a / b);
    }
  }

  /** `Draw` divides by the tile size, and, as soon as one tile is
      non-empty, by the row length cast to `size_t`. */
  predicate DrawDefined(tm: Tilemap, screenWidth: int)
  {
    tm.tileSize > 0 &&
    (RowLength(tm, screenWidth) > 0 || forall i :: 0 <= i < |tm.tiles| ==> tm.tiles[i] <= 0)
  }

  /** Indices of the tiles with a positive value, in increasing order. */
  function FilledIndices(tiles: seq<int>): (r: seq<nat>)
    ensures forall k :: 0 <= k < |r| ==> r[k] < |tiles| && tiles[r[k]] > 0
    ensures forall k, l :: 0 <= k < l < |r| ==> r[k] < r[l]
    ensures forall i :: 0 <= i < |tiles| && tiles[i] > 0 ==> i in r
  {
    if tiles == [] then []
    else
      var n := |tiles| - 1;
      FilledIndices(tiles[..n]) + (if tiles[n] > 0 then [n] else [])
  }

  /** The rectangle and colour for tile `i`. */
  function TileRequest(tm: Tilemap, tilesPerRow: nat, i: nat): DrawRequest
    requires tilesPerRow > 0 && i < |tm.tiles| && tm.tiles[i] > 0
  {
    var ts := tm.tileSize;
    DrawRequest((i % tilesPerRow) * ts, (i / tilesPerRow) * ts, ts, ts, TileColor(tm.tiles[i]))
  }

  /** The calls `Draw` makes for the first `n` tiles: one per tile with a
      positive value, appended in index order. */
  function RequestsUpTo(tm: Tilemap, screenWidth: int, n: nat): (r: seq<DrawRequest>)
    requires DrawDefined(tm, screenWidth) && n <= |tm.tiles|
  {
    if n == 0 then []
    else
      RequestsUpTo(tm, screenWidth, n - 1) +
      (if tm.tiles[n - 1] > 0 then [TileRequest(tm, RowLength(tm, screenWidth), n - 1)] else [])
  }

  /** Request `k` of `reqs` is the rectangle of tile `idx[k]`, a positive
      tile. */
  predicate Matches(tm: Tilemap, screenWidth: int, idx: seq<nat>, reqs: seq<DrawRequest>)
    requires tm.tileSize > 0
  {
    |reqs| == |idx| &&
    (|idx| > 0 ==> RowLength(tm, screenWidth) > 0) &&
    forall k :: 0 <= k < |idx| ==>
      idx[k] < |tm.tiles| && tm.tiles[idx[k]] > 0 &&
      reqs[k] == TileRequest(tm, RowLength(tm, screenWidth), idx[k])
  }

  lemma MatchesSnoc(tm: Tilemap, screenWidth: int, idx: seq<nat>, reqs: seq<DrawRequest>, i: nat)
    requires tm.tileSize > 0 && RowLength(tm, screenWidth) > 0
    requires i < |tm.tiles| && tm.tiles[i] > 0
    requires Matches(tm, screenWidth, idx, reqs)
    ensures Matches(tm, screenWidth, idx + [i], reqs + [TileRequest(tm, RowLength(tm, screenWidth), i)])
  {
    var idx', reqs' := idx + [i], reqs + [TileRequest(tm, RowLength(tm, screenWidth), i)];
    forall k | 0 <= k < |idx'|
      ensures idx'[k] < |tm.tiles| && tm.tiles[idx'[k]] > 0 &&
        reqs'[k] == TileRequest(tm, RowLength(tm, screenWidth), idx'[k])
    {
      if k < |idx| {
        assert idx'[k] == idx[k] && reqs'[k] == reqs[k];
      }
    }
  }

  /** Request `k` is the rectangle of the `k`-th positive tile. */
  lemma {:induction false} RequestsFollowFilledIndices(tm: Tilemap, screenWidth: int, n: nat)
    requires DrawDefined(tm, screenWidth) && n <= |tm.tiles|
    ensures Matches(tm, screenWidth, FilledIndices(tm.tiles[..n]), RequestsUpTo(tm, screenWidth, n))
  {
    if n > 0 {
      RequestsFollowFilledIndices(tm, screenWidth, n - 1);
      var t := tm.tiles[..n];
      assert t[..n - 1] == tm.tiles[..n - 1];
      var prev := FilledIndices(tm.tiles[..n - 1]);
      var rp := RequestsUpTo(tm, screenWidth, n - 1);
      if tm.tiles[n - 1] > 0 {
        assert FilledIndices(t) == prev + [n - 1];
        MatchesSnoc(tm, screenWidth, prev, rp, n - 1);
      } else {
        assert FilledIndices(t) == prev;
      }
    }
  }

  function DrawRequests(tm: Tilemap, screenWidth: int): seq<DrawRequest>
    requires DrawDefined(tm, screenWidth)
  {
    RequestsUpTo(tm, screenWidth, |tm.tiles|)
  }

  /** `Tilemap::Draw`: walks the tiles in index order and emits a rectangle
      for each positive one; an empty tilemap emits nothing. The height
      argument is not used. */
  method Draw(tm: Tilemap, screenWidth: int, screenHeight: int) returns (reqs: seq<DrawRequest>)
    requires DrawDefined(tm, screenWidth)
    ensures reqs == DrawRequests(tm, screenWidth)
  {
    var tilesPerRow := CDiv(screenWidth, tm.tileSize);
    reqs := [];
    if |tm.tiles| == 0 {
      return;
    }
    var i := 0;
    while i < |tm.tiles|
      invariant 0 <= i <= |tm.tiles|
      invariant reqs == RequestsUpTo(tm, screenWidth, i)
    {
      if tm.tiles[i] > 0 {
        var rowLength := tilesPerRow % SIZE_T_RANGE;
        var x := i % rowLength;
        var y := i / rowLength;
        var wh := tm.tileSize;
        var request;
        if tm.tiles[i] < |TILE_COLORS| {
          request := DrawRequest(x * wh, y * wh, wh, wh, TILE_COLORS[tm.tiles[i]]);
        } else {
          request := DrawRequest(x * wh, y * wh, wh, wh, BLACK);
        }
        assert request == TileRequest(tm, rowLength, i);
        reqs := reqs + [request];
      }
      i := i + 1;
    }
    assert tm.tiles[..i] == tm.tiles;
  }

  /** Exactly the positive tiles are drawn, each once and in index order:
      request `k` is the rectangle of the `k`-th positive tile, and every
      positive tile is among them. */
  lemma DrawRequestsExact(tm: Tilemap, screenWidth: int, i: nat)
    requires DrawDefined(tm, screenWidth) && i < |tm.tiles|
    ensures tm.tiles[i] > 0 <==> i in FilledIndices(tm.tiles)
    ensures tm.tiles[i] > 0 ==>
      RowLength(tm, screenWidth) > 0 &&
      TileRequest(tm, RowLength(tm, screenWidth), i) in DrawRequests(tm, screenWidth)
  {
    assert tm.tiles[..|tm.tiles|] == tm.tiles;
    RequestsFollowFilledIndices(tm, screenWidth, |tm.tiles|);
    var idx := FilledIndices(tm.tiles);
    if tm.tiles[i] > 0 {
      var k :| 0 <= k < |idx| && idx[k] == i;
      assert DrawRequests(tm, screenWidth)[k] == TileRequest(tm, RowLength(tm, screenWidth), i);
    }
  }

  /** The rectangle of tile `i` lies inside its row, in column `i % row`
      and row `i / row`, so the index can be read back from it: the drawing
      never wraps a tile into a neighbouring row. */
  lemma TileRequestPlacement(tm: Tilemap, tilesPerRow: nat, i: nat)
    requires tm.tileSize > 0 && tilesPerRow > 0 && i < |tm.tiles| && tm.tiles[i] > 0
    ensures var r := TileRequest(tm, tilesPerRow, i);
      && r.w == tm.tileSize && r.h == tm.tileSize
      && 0 <= r.x && r.x + r.w <= tilesPerRow * tm.tileSize
      && (r.y / tm.tileSize) * tilesPerRow + r.x / tm.tileSize == i
  {
    var ts := tm.tileSize;
    var r := TileRequest(tm, tilesPerRow, i);
    var col, row := i % tilesPerRow, i / tilesPerRow;
    DivModUnique(r.x, ts, col, 0);
    DivModUnique(r.y, ts, row, 0);
    assert col + 1 <= tilesPerRow;
    assert (col + 1) * ts <= tilesPerRow * ts;
    assert r.x + r.w == (col + 1) * ts;
  }

  /** A drawing area narrower than zero: the truncated row length is
      negative, its `size_t` cast is larger than every tile index, and every
      tile is drawn in row 0 at column `i`. */
  lemma NegativeWidthOneRow(tm: Tilemap, screenWidth: int, i: nat)
    requires tm.tileSize > 0 && -SIZE_T_RANGE / 2 < screenWidth <= -tm.tileSize
    requires i < |tm.tiles| < SIZE_T_RANGE / 2 && tm.tiles[i] > 0
    ensures DrawDefined(tm, screenWidth)
    ensures TileRequest(tm, RowLength(tm, screenWidth), i)
         == DrawRequest(i * tm.tileSize, 0, tm.tileSize, tm.tileSize, TileColor(tm.tiles[i]))
  {
    var m := RowLength(tm, screenWidth);
    assert i < m;
    DivModUnique(i, m, 0, i);
  }
}
