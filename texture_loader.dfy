// The older sprite-file reader that builds one texture straight from a `.sprite` file: it reads
// SPRITE_SIZE and an optional palette block, then the pixel rows of the first STATE block, and
// stops there. Its palette and pixel loops are inline copies of the shared parsers; since they
// behave exactly like them, the model calls those.

module TextureLoader {
  import opened Wrappers
  import opened Streams
  import opened TextAssets

  /** The texture's size and the RGBA8888 pixels handed to `SDL_UpdateTexture`. */
  datatype Image = Image(width: int, height: int, pixels: seq<Color>)

  const OFF_WHITE: Color := 0xFFE0_E0E0

  /** The palette a file without a palette block uses: '0' transparent, '1' opaque off-white. */
  const DEFAULT_PALETTE: Palette := map['0' := 0, '1' := OFF_WHITE]

  /** What the line loop has gathered before the pixel rows: the size and the palette. */
  datatype Header = Header(width: int, height: int, palette: Palette)

  const START: Header := Header(0, 0, DEFAULT_PALETTE)

  /** `ss >> width >> height`: each extraction that fails at once leaves its field as it was. */
  function ReadSize(s: Stream, h: Header): (r: Header)
    requires s.Valid()
    ensures r.palette == h.palette
    ensures s.fail ==> r == h
  {
    var (s2, w) := ReadInt(s, h.width);
    var (_, ht) := ReadInt(s2, h.height);
    h.(width := w, height := ht)
  }

  /** What one line of the loop does: go on at line `pos` with header `h`, or stop at a STATE line. */
  datatype Step = Next(pos: nat, h: Header) | Stop

  /**
   * One line: blank and '#' lines are skipped, SPRITE_SIZE sets the size, PALETTE_BEGIN
   * replaces the palette by the block that follows, STATE ends the loop; any other key is
   * ignored.
   */
  function LineStep(lines: seq<string>, pos: nat, h: Header): (r: Step)
    requires pos < |lines|
    ensures r.Next? ==> pos < r.pos <= |lines|
    ensures r.Next? && (IsComment(lines[pos]) || KeyOf(lines[pos]).1 != "PALETTE_BEGIN") ==> r.h.palette == h.palette
  {
    if IsComment(lines[pos]) then Next(pos + 1, h)
    else
      var (s, key) := KeyOf(lines[pos]);
      if key == "SPRITE_SIZE" then Next(pos + 1, ReadSize(s, h))
      else if key == "PALETTE_BEGIN" then
        var (palette, next) := PaletteFrom(lines, pos + 1, map[]);
        Next(next, h.(palette := palette))
      else if key == "STATE" then Stop
      else Next(pos + 1, h)
  }

  /** A line the loop stops at: not blank or '#', with key STATE. */
  predicate IsStateLine(line: string)
  {
    !IsComment(line) && KeyOf(line).1 == "STATE"
  }

  /**
   * The line loop from line `pos` on with header `h`: the header when the loop ends and the
   * STATE line it stopped at, or None when it ran to the end of the file.
   */
  function Scan(lines: seq<string>, pos: nat, h: Header): (r: (Header, Option<nat>))
    requires pos <= |lines|
    ensures r.1.Some? ==> pos <= r.1.value < |lines| && IsStateLine(lines[r.1.value])
    decreases |lines| - pos
  {
    if pos == |lines| then (h, None)
    else match LineStep(lines, pos, h)
      case Next(next, h') => Scan(lines, next, h')
      case Stop => (h, Some(pos))
  }

  /** The loop stops at a STATE line whose reservation throws `std::length_error`. */
  predicate SpriteThrows(lines: seq<string>)
  {
    var (h, stop) := Scan(lines, 0, START);
    stop.Some? && ReserveThrows(h.width, h.height)
  }

  /**
   * What the loop leaves behind: the header, and the pixel block after the STATE line, if any
   * was reached and its reservation did not throw.
   */
  function SpriteRead(lines: seq<string>): (Header, seq<Color>)
  {
    var (h, stop) := Scan(lines, 0, START);
    (h, if stop.None? || ReserveThrows(h.width, h.height) then [] else PixelBlock(lines, stop.value + 1, h.width, h.height, h.palette))
  }

  /**
   * `TextureLoader::loadFromSpriteFile` up to the upload: `contents` is the file's lines, or
   * None when it cannot be opened, and `created` says whether `SDL_CreateTexture` succeeds.
   * A load that throws, a zero width or height, or no pixels, gives no texture.
   */
  function SpriteTexture(contents: Option<seq<string>>, created: bool): Option<Image>
  {
    if contents.None? || SpriteThrows(contents.value) then None
    else
      var (h, pixels) := SpriteRead(contents.value);
      if h.width == 0 || h.height == 0 || pixels == [] || !created then None
      else Some(Image(h.width, h.height, pixels))
  }

  /** `loadFromSpriteFile` throws: the file opens and its first STATE block throws. */
  predicate LoadThrows(contents: Option<seq<string>>)
  {
    contents.Some? && SpriteThrows(contents.value)
  }

  /**
   * The loader itself: one pass over the lines, stopping after the first STATE block; `threw`
   * says that `std::length_error` leaves the loader, and no texture is returned then.
   */
  method LoadFromSpriteFile(contents: Option<seq<string>>, created: bool) returns (texture: Option<Image>, threw: bool)
    ensures threw <==> LoadThrows(contents)
    ensures texture == SpriteTexture(contents, created)
  {
    if contents.None? {
      return None, false;
    }
    var file := new TextFile(contents.value);
    var header, pixels;
    header, pixels, threw := ReadSprite(file);
    if threw {
      return None, true;
    }
    if header.width == 0 || header.height == 0 || pixels == [] {
      return None, false;
    }
    if !created {
      return None, false;
    }
    texture := Some(Image(header.width, header.height, pixels));
  }

  /** The line loop of the loader; `header` gathers its `width`, `height` and `palette`. */
  method ReadSprite(file: TextFile) returns (header: Header, pixels: seq<Color>, threw: bool)
    requires file.Valid() && file.pos == 0
    modifies file
    ensures (header, pixels) == SpriteRead(file.lines)
    ensures threw <==> SpriteThrows(file.lines)
  {
    var width, height := 0, 0;
    var palette := DEFAULT_PALETTE;
    while true
      invariant file.Valid()
      invariant Scan(file.lines, file.pos, Header(width, height, palette)) == Scan(file.lines, 0, START)
      decreases |file.lines| - file.pos
    {
      ghost var at, before := file.pos, Header(width, height, palette);
      var ok, line := file.GetLine();
      if !ok {
        return Header(width, height, palette), [], false;
      }
      if line == [] || line[0] == '#' {
        continue;
      }
      var (ss, key) := KeyOf(line);
      if key == "SPRITE_SIZE" {
        var (ss2, w) := ReadInt(ss, width);
        var (_, h) := ReadInt(ss2, height);
        width, height := w, h;
      } else if key == "PALETTE_BEGIN" {
        palette := ParsePalette(file);
      } else if key == "STATE" {
        assert LineStep(file.lines, at, before) == Stop;
        pixels, threw := ParsePixelBlock(file, width, height, palette);
        return Header(width, height, palette), pixels, threw;
      }
    }
  }

  // ---------------------------------------------------------------------------------------
  // What the loader reads
  // ---------------------------------------------------------------------------------------

  lemma MulMod(m: nat, w: nat)
    requires w > 0
    ensures (m * w) % w == 0
  {
    var i := m * w;
    var y := RowOf(i, w);
    if y < m {
      MulStep(y, m, w);
    } else if y > m {
      MulStep(m, y, w);
    }
    var x := ColumnOf(i, w);
    assert i == m * w + x;
  }

  /**
   * A texture has a positive size and holds whole rows: a non-zero multiple of `width` pixels,
   * never more than `width * height` of them.
   */
  lemma TextureShape(contents: Option<seq<string>>, created: bool)
    ensures var t := SpriteTexture(contents, created);
      t.Some? ==> (t.value.width > 0 && t.value.height > 0 && |t.value.pixels| > 0 &&
        |t.value.pixels| % t.value.width == 0 && |t.value.pixels| <= t.value.width * t.value.height)
  {
    if contents.Some? {
      PixelRows(contents.value);
    }
  }

  /** The pixels the loop reads are whole rows, and no more rows than the height. */
  lemma PixelRows(lines: seq<string>)
    ensures var r := SpriteRead(lines); var w, h := Width(r.0.width), Width(r.0.height);
      (w > 0 ==> |r.1| % w == 0) && |r.1| <= w * h
  {
    var (hd, stop) := Scan(lines, 0, START);
    var r := SpriteRead(lines);
    var w, h := Width(hd.width), Width(hd.height);
    if stop.Some? && !ReserveThrows(hd.width, hd.height) {
      assert r == (hd, PixelBlock(lines, stop.value + 1, hd.width, hd.height, hd.palette));
      BlockLength(lines, stop.value + 1, hd.width, hd.height, hd.palette);
      RowsFit(|r.1|, Min(h, |DataLines(lines[stop.value + 1..])|), w, h);
    } else {
      assert r == (hd, []);
      RowsFit(0, 0, w, h);
    }
  }

  /** `m` rows of `w` pixels, at most `h` of them, are a multiple of `w` and at most `w * h`. */
  lemma RowsFit(n: nat, m: nat, w: nat, h: nat)
    requires n == m * w && m <= h
    ensures (w > 0 ==> n % w == 0) && n <= w * h
  {
    if w > 0 {
      MulMod(m, w);
    }
    MulLe(m, h, w);
    assert h * w == w * h;
  }

  /** The first STATE line from `pos` on, or the end. */
  function StateIndex(lines: seq<string>, pos: nat): (k: nat)
    requires pos <= |lines|
    ensures pos <= k <= |lines|
    decreases |lines| - pos
  {
    if pos == |lines| || IsStateLine(lines[pos]) then pos else StateIndex(lines, pos + 1)
  }

  /**
   * Without a PALETTE_BEGIN line before the first STATE line the palette is never replaced, so
   * the default palette of a fresh load is the one the pixels are looked up in.
   */
  lemma {:induction false} DefaultPaletteKept(lines: seq<string>, pos: nat, h: Header)
    requires pos <= |lines|
    requires forall j :: pos <= j < StateIndex(lines, pos) ==>
      IsComment(lines[j]) || KeyOf(lines[j]).1 != "PALETTE_BEGIN"
    ensures Scan(lines, pos, h).0.palette == h.palette
    decreases |lines| - pos
  {
    if pos < |lines| && StateIndex(lines, pos) > pos {
      var step := LineStep(lines, pos, h);
      assert step.Next? && step.pos == pos + 1;
      DefaultPaletteKept(lines, pos + 1, step.h);
    }
  }

  /** A PALETTE_BEGIN line discards the palette that was in force before it, defaults included. */
  lemma PaletteBeginDiscards(lines: seq<string>, pos: nat, h1: Header, h2: Header)
    requires pos < |lines| && !IsComment(lines[pos]) && KeyOf(lines[pos]).1 == "PALETTE_BEGIN"
    requires h1.width == h2.width && h1.height == h2.height
    ensures Scan(lines, pos, h1) == Scan(lines, pos, h2)
  {
  }

  // ---------------------------------------------------------------------------------------
  // A STATE block that ends early
  // ---------------------------------------------------------------------------------------

  /** The text of a line `KEY w h`. */
  function SizeLine(w: int, h: int): string
  {
    "SPRITE_SIZE" + Field(w) + Field(h)
  }

  lemma KeyOfSizeLine(w: int, h: int)
    requires INT_MIN <= w <= INT_MAX && INT_MIN <= h <= INT_MAX
    ensures !IsComment(SizeLine(w, h)) && KeyOf(SizeLine(w, h)).1 == "SPRITE_SIZE"
    ensures ReadSize(KeyOf(SizeLine(w, h)).0, START) == Header(w, h, DEFAULT_PALETTE)
  {
    SizeLineKey(w, h);
    ReadSizeOf(KeyOf(SizeLine(w, h)).0, w, h);
  }

  lemma SizeLineKey(w: int, h: int)
    ensures var s := KeyOf(SizeLine(w, h)).0;
      KeyOf(SizeLine(w, h)).1 == "SPRITE_SIZE" && s.Good() && s.text[s.pos..] == Field(w) + Field(h)
  {
    var key, rest := "SPRITE_SIZE", Field(w) + Field(h);
    assert forall k :: 0 <= k < |key| ==> !IsSpace(key[k]);
    AppendAssoc(key, Field(w), Field(h));
    KeyOfLine(key, rest);
  }

  lemma ReadSizeOf(s: Stream, w: int, h: int)
    requires s.Valid() && s.Good() && INT_MIN <= w <= INT_MAX && INT_MIN <= h <= INT_MAX
    requires s.text[s.pos..] == Field(w) + Field(h)
    ensures ReadSize(s, START) == Header(w, h, DEFAULT_PALETTE)
  {
    assert s.text[s.pos..] == Field(w) + Field(h) + [];
    ReadTwo(s, w, h, []);
    assert START.width == 0 && START.height == 0;
  }

  lemma KeyOfState()
    ensures !IsComment("STATE") && KeyOf("STATE").1 == "STATE"
  {
    var key := "STATE";
    assert forall k :: 0 <= k < |key| ==> !IsSpace(key[k]);
    assert key + "" == key;
    KeyOfLine(key, "");
  }

  /**
   * The file `SPRITE_SIZE 2 2`, `STATE`, `1` declares two rows but holds one: the loader still
   * returns a 2x2 texture whose pixel buffer holds only the 2 pixels of that row, and
   * `SDL_UpdateTexture` then reads 4 pixels from it.
   */
  lemma ShortStateUploaded()
    ensures var t := SpriteTexture(Some([SizeLine(2, 2), "STATE", "1"]), true);
      t.Some? && t.value.width == 2 && t.value.height == 2 && |t.value.pixels| == 2 < t.value.width * t.value.height
  {
    var lines := [SizeLine(2, 2), "STATE", "1"];
    var h := Header(2, 2, DEFAULT_PALETTE);
    ScanSizeState(lines, 2, 2);
    assert !ReserveThrows(2, 2) && !SpriteThrows(lines);
    assert SpriteRead(lines) == (h, PixelBlock(lines, 2, 2, 2, DEFAULT_PALETTE));
    assert NextData(lines, 2) == 2 && NextData(lines, 3) == 3;
    assert PixelBlock(lines, 2, 2, 2, DEFAULT_PALETTE) == [] + Row(DEFAULT_PALETTE, "1", 2);
  }

  /** A size line followed by a STATE line: the loop stops at the STATE line with that size. */
  lemma ScanSizeState(lines: seq<string>, w: int, h: int)
    requires INT_MIN <= w <= INT_MAX && INT_MIN <= h <= INT_MAX
    requires |lines| > 2 && lines[0] == SizeLine(w, h) && lines[1] == "STATE"
    ensures Scan(lines, 0, START) == (Header(w, h, DEFAULT_PALETTE), Some(1))
  {
    KeyOfSizeLine(w, h);
    KeyOfState();
    var hd := Header(w, h, DEFAULT_PALETTE);
    assert Scan(lines, 0, START) == Scan(lines, 1, hd);
  }

  /**
   * The file `SPRITE_SIZE -1 2`, `STATE`, `1`: the reservation at the STATE line is for a
   * negative number of pixels, so the loader throws and yields no texture.
   */
  lemma MixedSignStateThrows()
    ensures var contents := Some([SizeLine(-1, 2), "STATE", "1"]);
      LoadThrows(contents) && SpriteTexture(contents, true).None?
  {
    var lines := [SizeLine(-1, 2), "STATE", "1"];
    ScanSizeState(lines, -1, 2);
  }

  /**
   * The loader as evidently intended: a texture is made only when the STATE block supplied
   * all `width * height` pixels the upload reads; otherwise it agrees with the loader.
   */
  function CheckedTexture(contents: Option<seq<string>>, created: bool): (t: Option<Image>)
    ensures t.Some? ==> t.value.width > 0 && t.value.height > 0
    ensures t.Some? ==> |t.value.pixels| == t.value.width * t.value.height
    ensures t.Some? ==> t == SpriteTexture(contents, created)
    ensures SpriteTexture(contents, created).Some? && t.None? ==>
      |SpriteTexture(contents, created).value.pixels| < SpriteTexture(contents, created).value.width * SpriteTexture(contents, created).value.height
  {
    TextureShape(contents, created);
    var t := SpriteTexture(contents, created);
    if t.Some? && |t.value.pixels| == t.value.width * t.value.height then t else None
  }
}
