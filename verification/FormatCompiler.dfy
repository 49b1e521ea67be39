/** `getOneSpec`: the literal text in front of the num-th specifier and the specifier's fields, in
    the coordinates of the squeezed format.  The pieces tile that format. */
module FormatCompiler {
  import opened FormatScan
  import opened SpecFields
  import opened SpecInfos

  // ---------------------------------------------------------------- reference

  /** Literal text, squeezed coordinates, and the valid specifier behind it if there is one. */
  datatype Tile = Piece(begin: nat, end: nat, spec: Token) | Tail(begin: nat, end: nat)

  /** `at` squeezed characters have gone by, the current literal text began at `begin`. */
  function Tiles(ts: seq<Token>, at: nat, begin: nat): (tiles: seq<Tile>)
    ensures |tiles| == CountValid(ts) + 1
  {
    if ts == [] then [Tail(begin, at)]
    else
      var next := at + |Kept(ts[0])|;
      if ts[0].Valid? then [Piece(begin, at, ts[0])] + Tiles(ts[1..], next, next) else Tiles(ts[1..], next, begin)
  }

  function AllTiles(fmt: seq<char>): (tiles: seq<Tile>)
    requires CStr(fmt)
    ensures |tiles| == CountValid(Tokens(fmt)) + 1
  {
    Tiles(Tokens(fmt), 0, 0)
  }

  function SpecOf(tile: Tile): SpecInfo {
    if tile.Piece? && tile.spec.Valid? then
      Meaning(Items(tile.spec.mods), tile.spec.t).(begin := tile.begin, end := tile.end)
    else Meaning([], NUL).(begin := tile.begin, end := tile.end)
  }

  // ---------------------------------------------------------------- tiling

  function ValidOnes(ts: seq<Token>): (valid: seq<Token>)
    ensures |valid| == CountValid(ts)
  {
    if ts == [] then [] else (if ts[0].Valid? then [ts[0]] else []) + ValidOnes(ts[1..])
  }

  /** A specifier's text fills what lies between its piece and the next. */
  predicate Fits(tile: Tile, next: Tile, text: seq<char>, spec: Token) {
    && tile.Piece? && tile.spec == spec
    && tile.begin <= tile.end <= next.begin <= |text| && text[tile.end..next.begin] == Source(spec)
  }

  /** The pieces follow one another without gap or overlap: each literal text ends where its
      specifier's text begins, that one where the next literal text begins, and the last ends
      where the text does. */
  predicate Tiling(tiles: seq<Tile>, text: seq<char>, valid: seq<Token>, begin: nat) {
    && |tiles| == |valid| + 1 && tiles[0].begin == begin
    && (forall k | 0 <= k < |valid| :: Fits(tiles[k], tiles[k + 1], text, valid[k]))
    && tiles[|valid|].Tail? && tiles[|valid|].begin <= tiles[|valid|].end == |text|
  }

  lemma TilingCons(tile: Tile, tiles: seq<Tile>, text: seq<char>, spec: Token, valid: seq<Token>, begin: nat)
    requires Tiling(tiles, text, valid, begin) && Fits(tile, tiles[0], text, spec)
    ensures Tiling([tile] + tiles, text, [spec] + valid, tile.begin)
  {
    hide Fits;
    var more := [tile] + tiles;
    forall k | 0 <= k < |valid| + 1 ensures Fits(more[k], more[k + 1], text, ([spec] + valid)[k]) {
      if k > 0 { assert more[k] == tiles[k - 1] && more[k + 1] == tiles[k] && ([spec] + valid)[k] == valid[k - 1]; }
    }
  }

  lemma {:induction false} TilesTile(ts: seq<Token>, done: seq<char>, begin: nat)
    requires begin <= |done|
    ensures Tiling(Tiles(ts, |done|, begin), done + Squeezed(ts), ValidOnes(ts), begin)
    decreases |ts|
  {
    hide Source, Kept, Tiling, Tiles, Squeezed, ValidOnes, Fits;
    if ts == [] {
      TailTiles(done, begin);
    } else {
      var next := done + Kept(ts[0]);
      TilesCons(ts, |done|, begin);
      TextCons(ts);
      assert done + (Kept(ts[0]) + Squeezed(ts[1..])) == next + Squeezed(ts[1..]);
      if ts[0].Valid? {
        TilesTile(ts[1..], next, |next|);
        OneTileMore(Piece(begin, |done|, ts[0]), Tiles(ts[1..], |next|, |next|), done, Squeezed(ts[1..]),
                    ValidOnes(ts[1..]));
      } else {
        TilesTile(ts[1..], next, begin);
      }
    }
  }

  /** A valid specifier, with the text before it, in front of a tiling. */
  lemma OneTileMore(tile: Tile, tiles: seq<Tile>, done: seq<char>, rest: seq<char>, valid: seq<Token>)
    requires tile.Piece? && tile.begin <= tile.end == |done| && tile.spec.Valid?
    requires var next := done + Kept(tile.spec); Tiling(tiles, next + rest, valid, |next|)
    ensures Tiling([tile] + tiles, done + Kept(tile.spec) + rest, [tile.spec] + valid, tile.begin)
  {
    hide Source, Kept, Tiling, Fits;
    var kept := Kept(tile.spec);
    KeptValid(tile.spec);
    TilingBegins(tiles, done + kept + rest, valid, |done + kept|);
    FitsThere(tile, tiles[0], done, kept, rest);
    TilingCons(tile, tiles, done + kept + rest, tile.spec, valid, |done + kept|);
  }

  lemma TailTiles(done: seq<char>, begin: nat)
    requires begin <= |done|
    ensures Tiling(Tiles([], |done|, begin), done + Squeezed([]), ValidOnes([]), begin)
  {
    assert done + Squeezed([]) == done;
  }

  lemma TilesCons(ts: seq<Token>, at: nat, begin: nat)
    requires ts != []
    ensures var next := at + |Kept(ts[0])|;
      Tiles(ts, at, begin) == if ts[0].Valid? then [Piece(begin, at, ts[0])] + Tiles(ts[1..], next, next)
          else Tiles(ts[1..], next, begin)
  {
  }

  lemma TextCons(ts: seq<Token>)
    requires ts != []
    ensures Squeezed(ts) == Kept(ts[0]) + Squeezed(ts[1..])
    ensures ValidOnes(ts) == if ts[0].Valid? then [ts[0]] + ValidOnes(ts[1..]) else ValidOnes(ts[1..])
  {
    hide Source, Kept;
    assert [] + ValidOnes(ts[1..]) == ValidOnes(ts[1..]);
  }

  lemma KeptValid(t: Token)
    ensures t.Valid? ==> Kept(t) == Source(t)
  {
    hide Source;
  }

  lemma FitsThere(tile: Tile, next: Tile, done: seq<char>, kept: seq<char>, rest: seq<char>)
    requires tile.Piece? && tile.begin <= tile.end == |done| && next.begin == |done + kept| && kept == Source(tile.spec)
    ensures Fits(tile, next, done + kept + rest, tile.spec)
  {
    hide Source;
    assert (done + kept + rest)[|done|..|done + kept|] == kept;
  }

  lemma TilingBegins(tiles: seq<Tile>, text: seq<char>, valid: seq<Token>, begin: nat)
    requires Tiling(tiles, text, valid, begin)
    ensures |tiles| > 0 && tiles[0].begin == begin <= |text|
  {
    if |valid| > 0 { assert Fits(tiles[0], tiles[1], text, valid[0]); }
  }

  /** The literal texts and the valid specifiers tile the squeezed format. */
  lemma PiecesTile(fmt: seq<char>)
    requires CStr(fmt)
    ensures Tiling(AllTiles(fmt), Squeezed(Tokens(fmt)), ValidOnes(Tokens(fmt)), 0)
  {
    TilesTile(Tokens(fmt), [], 0);
    assert [] + Squeezed(Tokens(fmt)) == Squeezed(Tokens(fmt));
  }

  // ---------------------------------------------------------------- the scanner

  /** `pos` is at a token, `sizeOfInvalidSpecs` characters have been dropped, and from here the
      piece that was asked for is number `num`. */
  ghost predicate Scanning(fmt: seq<char>, pos: nat, dropped: nat, rest: seq<Token>, begin: nat, num: nat, tile: Tile) {
    && At(fmt, pos, rest) && dropped <= pos && num <= CountValid(rest)
    && Tiles(rest, pos - dropped, begin)[num] == tile
  }

  lemma ScanLiteral(fmt: seq<char>, pos: nat, dropped: nat, rest: seq<Token>, begin: nat, num: nat, tile: Tile)
    requires Scanning(fmt, pos, dropped, rest, begin, num, tile) && fmt[pos] != '%' && fmt[pos] != NUL
    ensures rest != [] && Scanning(fmt, pos + 1, dropped, rest[1..], begin, num, tile)
  {
    AtLiteral(fmt, pos, rest);
    hide At;
  }

  /** Behind a specifier: a valid one closes a piece, an invalid one is dropped up to its last character. */
  lemma ScanSpec(fmt: seq<char>, pos: nat, dropped: nat, rest: seq<Token>, begin: nat, num: nat, tile: Tile, p: nat)
    requires Scanning(fmt, pos, dropped, rest, begin, num, tile) && fmt[pos] == '%'
    requires pos < p < |fmt| && !IsModifier(fmt[p]) && (forall i | pos < i < p :: IsModifier(fmt[i]))
    ensures rest != []
    ensures IsTerminal(fmt[p]) && num > 0 ==> Scanning(fmt, p + 1, dropped, rest[1..], p + 1 - dropped, num - 1, tile)
    ensures IsTerminal(fmt[p]) && num == 0 ==>
      tile == Piece(begin, pos - dropped, Valid(fmt[pos + 1..p], fmt[p])) && AllModifiers(fmt[pos + 1..p])
    ensures !IsTerminal(fmt[p]) && fmt[p] != NUL
        ==> Scanning(fmt, p + 1, dropped + (p - pos), rest[1..], begin, num, tile)
    ensures fmt[p] == NUL ==> num == 0 && tile == Tail(begin, p - (dropped + (p - pos)))
  {
    hide At, IsModifier, IsTerminal, Kept, Tiles;
    AtSpec(fmt, pos, rest, p);
    NoPart();
    TilesCons(rest, pos - dropped, begin);
    if fmt[p] == NUL {
      AtEnd(fmt, p, rest[1..]);
      TilesNone(pos - dropped, begin);
    }
  }

  lemma TilesNone(at: nat, begin: nat)
    ensures Tiles([], at, begin) == [Tail(begin, at)]
  {
  }

  lemma ScanStart(fmt: seq<char>, num: nat)
    requires CStr(fmt) && num <= CountValid(Tokens(fmt))
    ensures Scanning(fmt, 0, 0, Tokens(fmt), 0, num, AllTiles(fmt)[num])
  {
    Beginning(fmt);
  }

  /** Before the num-th specifier the scan cannot have reached the end. */
  lemma NotAtEnd(fmt: seq<char>, pos: nat, dropped: nat, rest: seq<Token>, begin: nat, num: nat, tile: Tile)
    requires Scanning(fmt, pos, dropped, rest, begin, num, tile)
    ensures pos < |fmt| && CStr(fmt) && dropped <= pos
    ensures num > 0 ==> fmt[pos] != NUL
    ensures fmt[pos] == NUL ==> tile == Tail(begin, pos - dropped)
  {
    AtEnd(fmt, pos, rest);
  }

  /** The two scanning loops: where the num-th literal text lies in the squeezed format and where
      its specifier begins.  The first loop has no test for the end of the format and needs none. */
  method Locate(fmt: seq<char>, number: nat) returns (begin: nat, end: nat, specStartPos: nat, exit: bool)
    requires CStr(fmt) && number <= CountValid(Tokens(fmt))
    ensures var tile := AllTiles(fmt)[number];
      && begin == tile.begin && end == tile.end && (exit <==> tile.Tail?)
      && (tile.Piece? ==> tile.spec.Valid? && SpecAt(fmt, specStartPos + 1, tile.spec.mods, tile.spec.t))
  {
    hide Scanning, IsModifier, IsTerminal, Tokens, CountValid, AllTiles, SpecAt;
    var num: nat, pos: nat, sizeOfInvalidSpecs: nat := number, 0, 0;
    begin, specStartPos := 0, 0;
    ghost var tile, rest, b: nat := AllTiles(fmt)[number], Tokens(fmt), 0;
    ScanStart(fmt, number);
    while num > 0
      invariant Scanning(fmt, pos, sizeOfInvalidSpecs, rest, b, num, tile) && (num == 0 ==> begin == b)
      decreases |fmt| - pos
    {
      NotAtEnd(fmt, pos, sizeOfInvalidSpecs, rest, b, num, tile);
      while fmt[pos] != '%'
        invariant pos < |fmt| && fmt[pos] != NUL && Scanning(fmt, pos, sizeOfInvalidSpecs, rest, b, num, tile)
        decreases |fmt| - pos
      {
        ScanLiteral(fmt, pos, sizeOfInvalidSpecs, rest, b, num, tile);
        pos, rest := pos + 1, rest[1..];
        NotAtEnd(fmt, pos, sizeOfInvalidSpecs, rest, b, num, tile);
      }
      specStartPos := pos;
      NotAtEnd(fmt, pos, sizeOfInvalidSpecs, rest, b, num, tile);
      pos := Skip(fmt, pos);
      ScanSpec(fmt, specStartPos, sizeOfInvalidSpecs, rest, b, num, tile, pos);
      rest := rest[1..];
      if IsTerminal(fmt[pos]) {
        b := pos + 1 - sizeOfInvalidSpecs;
        num := num - 1;
        if num <= 0 {
          begin := pos + 1 - sizeOfInvalidSpecs;
        }
      } else {
        sizeOfInvalidSpecs := sizeOfInvalidSpecs + (pos - specStartPos);
      }
      pos := pos + 1;
    }
    end, specStartPos, exit := LocateEnd(fmt, pos, sizeOfInvalidSpecs, begin, rest, tile);
  }

  method Skip(fmt: seq<char>, pos: nat) returns (p: nat)
    requires CStr(fmt) && pos < |fmt| && fmt[pos] != NUL
    ensures pos < p < |fmt| && !IsModifier(fmt[p]) && (forall i | pos < i < p :: IsModifier(fmt[i]))
  {
    p := SkipModifiers(fmt, pos + 1);
  }

  /** The second of them: on to the next valid specifier, or to the end. */
  method LocateEnd(fmt: seq<char>, start: nat, dropped: nat, begin: nat, ghost tokens: seq<Token>, ghost tile: Tile)
    returns (end: nat, specStartPos: nat, exit: bool)
    requires Scanning(fmt, start, dropped, tokens, begin, 0, tile)
    ensures begin == tile.begin && end == tile.end && (exit <==> tile.Tail?)
    ensures tile.Piece? ==> tile.spec.Valid? && SpecAt(fmt, specStartPos + 1, tile.spec.mods, tile.spec.t)
  {
    hide Scanning, IsModifier, IsTerminal;
    var pos: nat, sizeOfInvalidSpecs: nat := start, dropped;
    ghost var rest := tokens;
    end, specStartPos, exit := 0, 0, false;
    while true
      invariant Scanning(fmt, pos, sizeOfInvalidSpecs, rest, begin, 0, tile)
      decreases |fmt| - pos
    {
      NotAtEnd(fmt, pos, sizeOfInvalidSpecs, rest, begin, 0, tile);
      while fmt[pos] != NUL && fmt[pos] != '%'
        invariant pos < |fmt| && Scanning(fmt, pos, sizeOfInvalidSpecs, rest, begin, 0, tile)
        decreases |fmt| - pos
      {
        ScanLiteral(fmt, pos, sizeOfInvalidSpecs, rest, begin, 0, tile);
        pos, rest := pos + 1, rest[1..];
        NotAtEnd(fmt, pos, sizeOfInvalidSpecs, rest, begin, 0, tile);
      }
      NotAtEnd(fmt, pos, sizeOfInvalidSpecs, rest, begin, 0, tile);
      if fmt[pos] == NUL {
        end, exit := pos - sizeOfInvalidSpecs, true;
        return;
      }
      specStartPos := pos;
      pos := Skip(fmt, pos);
      ScanSpec(fmt, specStartPos, sizeOfInvalidSpecs, rest, begin, 0, tile, pos);
      rest := rest[1..];
      if IsTerminal(fmt[pos]) {
        end := specStartPos - sizeOfInvalidSpecs;
        return;
      }
      sizeOfInvalidSpecs := sizeOfInvalidSpecs + (pos - specStartPos);
      if fmt[pos] == NUL {
        end, exit := pos - sizeOfInvalidSpecs, true;
        return;
      }
      pos := pos + 1;
    }
  }

  /** `getOneSpec`, in bounds and ending for every number up to the count of valid specifiers. */
  method GetOneSpec(fmt: seq<char>, num: nat) returns (si: SpecInfo)
    requires CStr(fmt) && num <= CountValid(Tokens(fmt))
    ensures si == SpecOf(AllTiles(fmt)[num])
  {
    hide Tokens, CountValid, AllTiles, SpecAt, Items;
    var begin, end, specStartPos, exit := Locate(fmt, num);
    ghost var tile := AllTiles(fmt)[num];
    si := SpecInfo(0, 0, Flags(false, false, false, false, Plain), Fixed(0), Fixed(-1), NUL, NUL, true);
    if !exit {
      var pos;
      si, pos := ParseFields(fmt, specStartPos + 1, tile.spec.mods, tile.spec.t);
    }
    si := si.(begin := begin, end := end);
  }

  /** `unpack`: the specifiers of a format, and one for the text behind the last. */
  method Compile(fmt: seq<char>) returns (specs: seq<SpecInfo>)
    requires CStr(fmt)
    ensures specs == Specs(fmt)
  {
    hide Tokens, AllTiles;
    var n := CountValidSpecInfos(fmt);
    specs := [];
    while |specs| < n + 1
      invariant |specs| <= n + 1 && specs == Specs(fmt)[..|specs|]
      decreases n + 1 - |specs|
    {
      var si := GetOneSpec(fmt, |specs|);
      specs := specs + [si];
    }
  }

  function SpecsOf(tiles: seq<Tile>): (specs: seq<SpecInfo>)
    ensures |specs| == |tiles|
  {
    seq(|tiles|, i requires 0 <= i < |tiles| => SpecOf(tiles[i]))
  }

  function Specs(fmt: seq<char>): (specs: seq<SpecInfo>)
    requires CStr(fmt)
    ensures |specs| == CountValid(Tokens(fmt)) + 1
  {
    SpecsOf(AllTiles(fmt))
  }
}
