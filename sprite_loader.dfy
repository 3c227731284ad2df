// The `.sprite` asset loader: a line loop that reads the asset's name and frame size, an
// optional palette, the pixel frames of the TEXTURE_ATLAS section, each introduced by a
// `# FRAME_` comment, and named ANIMATION blocks of FRAME and DURATION lines. The frames are
// then laid out left to right in one atlas texture.

module SpriteLoader {
  import opened Wrappers
  import opened Streams
  import opened Geometry
  import opened TextAssets
  import opened TextureAtlas

  /** One step of an animation: the atlas cell to show and for how long, in milliseconds. */
  datatype Frame = Frame(frameIndexInAtlas: int, durationMs: int)

  /** The duration a FRAME line gets when no DURATION line precedes it in its block. */
  const DEFAULT_DURATION: int := 100

  const FRAME_MARK: string := "# FRAME_"
  const ANIMATION_END: string := "ANIMATION_END"

  /** The asset fields the line loop fills in. */
  datatype Fields = Fields(assetId: string, width: int, height: int, animations: map<string, seq<Frame>>)

  /**
   * The state of the line loop: the fields, the palette in force, whether the loop is inside
   * TEXTURE_ATLAS_BEGIN/END, the pixel frames collected so far, and whether a frame's
   * reservation threw `std::length_error`, which ends the loop.
   */
  datatype Parse = Parse(fields: Fields, palette: Palette, inAtlas: bool, frames: seq<seq<Color>>, threw: bool)

  const START: Parse := Parse(Fields("", 0, 0, map[]), map[], false, [], false)

  datatype SpriteAsset = SpriteAsset(assetId: string, width: int, height: int,
    animations: map<string, seq<Frame>>, atlas: Atlas)

  // ---------------------------------------------------------------------------------------
  // Animation blocks
  // ---------------------------------------------------------------------------------------

  /**
   * The inner loop of an ANIMATION block from line `pos` on, with the duration in force and the
   * frames so far: it stops after the first line holding ANIMATION_END, or at the end of the
   * file. DURATION sets the duration for the FRAME lines after it; FRAME appends a frame.
   */
  function AnimationFrom(lines: seq<string>, pos: nat, duration: int, acc: seq<Frame>): (r: (seq<Frame>, nat))
    requires pos <= |lines|
    ensures pos <= r.1 <= |lines|
    decreases |lines| - pos
  {
    if pos == |lines| then (acc, pos)
    else if Contains(lines[pos], ANIMATION_END) then (acc, pos + 1)
    else if IsComment(lines[pos]) then AnimationFrom(lines, pos + 1, duration, acc)
    else
      var (s, key) := KeyOf(lines[pos]);
      if key == "DURATION" then AnimationFrom(lines, pos + 1, ReadInt(s, duration).1, acc)
      else if key == "FRAME" then AnimationFrom(lines, pos + 1, duration, acc + [Frame(ReadInt(s, 0).1, duration)])
      else AnimationFrom(lines, pos + 1, duration, acc)
  }

  /** `line` is a FRAME line of an animation block (and does not end the block). */
  predicate IsFrameLine(line: string)
  {
    !Contains(line, ANIMATION_END) && !IsComment(line) && KeyOf(line).1 == "FRAME"
  }

  /** `line` is a DURATION line of an animation block. */
  predicate IsDurationLine(line: string)
  {
    !Contains(line, ANIMATION_END) && !IsComment(line) && KeyOf(line).1 == "DURATION"
  }

  /**
   * The duration in force at line `j` of a block whose lines from `pos` on are read with
   * initial duration `d`: that of the nearest DURATION line before `j`, or `d` if there is none.
   */
  function DurationAt(lines: seq<string>, pos: nat, d: int, j: nat): int
    requires pos <= j <= |lines|
    decreases j - pos
  {
    if j == pos then d
    else if IsDurationLine(lines[j - 1]) then ReadInt(KeyOf(lines[j - 1]).0, DurationAt(lines, pos, d, j - 1)).1
    else DurationAt(lines, pos, d, j - 1)
  }

  /** The block's end: the first line from `pos` on holding ANIMATION_END, or the end of the file. */
  function AnimationStop(lines: seq<string>, pos: nat): (k: nat)
    requires pos <= |lines|
    ensures pos <= k <= |lines| && (k < |lines| ==> Contains(lines[k], ANIMATION_END))
    ensures forall j :: pos <= j < k ==> !Contains(lines[j], ANIMATION_END)
    decreases |lines| - pos
  {
    if pos == |lines| || Contains(lines[pos], ANIMATION_END) then pos else AnimationStop(lines, pos + 1)
  }

  /** The frame a FRAME line `j` contributes: its index and the duration in force there. */
  function FrameAt(lines: seq<string>, start: nat, d: int, j: nat): Frame
    requires start <= j < |lines|
  {
    Frame(ReadInt(KeyOf(lines[j]).0, 0).1, DurationAt(lines, start, d, j))
  }

  /** Where reading a block from `pos` leaves the file: after its ANIMATION_END line, or at the end. */
  function AfterBlock(lines: seq<string>, pos: nat): nat
    requires pos <= |lines|
  {
    var k := AnimationStop(lines, pos);
    if k < |lines| then k + 1 else |lines|
  }

  /** The frames of the FRAME lines among lines `pos` to `stop - 1`, in order. */
  function FramesIn(lines: seq<string>, start: nat, d: int, pos: nat, stop: nat): seq<Frame>
    requires start <= pos <= stop <= |lines|
    decreases stop - pos
  {
    if pos == stop then []
    else (if IsFrameLine(lines[pos]) then [FrameAt(lines, start, d, pos)] else []) + FramesIn(lines, start, d, pos + 1, stop)
  }

  /** With no DURATION line before `j` in the block its frames last the default 100 milliseconds. */
  lemma {:induction false} DefaultDuration(lines: seq<string>, pos: nat, j: nat)
    requires pos <= j <= |lines|
    requires forall i :: pos <= i < j ==> !IsDurationLine(lines[i])
    ensures DurationAt(lines, pos, DEFAULT_DURATION, j) == DEFAULT_DURATION
    decreases j - pos
  {
    if j > pos {
      DefaultDuration(lines, pos, j - 1);
    }
  }

  /**
   * Reading a block from `pos`, with the frames `acc` already collected from line `start` on:
   * the frames appended are those of the block's FRAME lines, in order.
   */
  lemma {:induction false} FramesOfBlock(lines: seq<string>, start: nat, pos: nat, d: int, acc: seq<Frame>)
    requires start <= pos <= |lines|
    ensures AnimationFrom(lines, pos, DurationAt(lines, start, d, pos), acc) ==
      (acc + FramesIn(lines, start, d, pos, AnimationStop(lines, pos)), AfterBlock(lines, pos))
    decreases |lines| - pos
  {
    var stop := AnimationStop(lines, pos);
    if pos == |lines| || Contains(lines[pos], ANIMATION_END) {
      assert acc + [] == acc;
    } else {
      var head := if IsFrameLine(lines[pos]) then [FrameAt(lines, start, d, pos)] else [];
      FramesOfBlock(lines, start, pos + 1, d, acc + head);
      AnimationStep(lines, start, pos, d, acc);
      FramesInStep(lines, start, d, pos, stop, acc);
    }
  }

  /** One line of a block that does not end it: the duration in force moves on with it. */
  lemma AnimationStep(lines: seq<string>, start: nat, pos: nat, d: int, acc: seq<Frame>)
    requires start <= pos < |lines| && !Contains(lines[pos], ANIMATION_END)
    ensures AnimationFrom(lines, pos, DurationAt(lines, start, d, pos), acc) ==
      AnimationFrom(lines, pos + 1, DurationAt(lines, start, d, pos + 1),
        acc + if IsFrameLine(lines[pos]) then [FrameAt(lines, start, d, pos)] else [])
    ensures AnimationStop(lines, pos) == AnimationStop(lines, pos + 1)
    ensures AfterBlock(lines, pos) == AfterBlock(lines, pos + 1)
  {
    var dur := DurationAt(lines, start, d, pos);
    if !IsComment(lines[pos]) {
      var (s, key) := KeyOf(lines[pos]);
      if key == "FRAME" {
        assert IsFrameLine(lines[pos]);
        assert AnimationFrom(lines, pos, dur, acc) == AnimationFrom(lines, pos + 1, dur, acc + [Frame(ReadInt(s, 0).1, dur)]);
      } else if key == "DURATION" {
        assert AnimationFrom(lines, pos, dur, acc) == AnimationFrom(lines, pos + 1, ReadInt(s, dur).1, acc);
        assert acc + [] == acc;
      } else {
        assert acc + [] == acc;
      }
    } else {
      assert acc + [] == acc;
    }
  }

  lemma FramesInStep(lines: seq<string>, start: nat, d: int, pos: nat, stop: nat, acc: seq<Frame>)
    requires start <= pos < stop <= |lines|
    ensures (acc + if IsFrameLine(lines[pos]) then [FrameAt(lines, start, d, pos)] else []) +
      FramesIn(lines, start, d, pos + 1, stop) == acc + FramesIn(lines, start, d, pos, stop)
  {
    var head := if IsFrameLine(lines[pos]) then [FrameAt(lines, start, d, pos)] else [];
    assert FramesIn(lines, start, d, pos, stop) == head + FramesIn(lines, start, d, pos + 1, stop);
    AppendAssoc(acc, head, FramesIn(lines, start, d, pos + 1, stop));
  }

  /**
   * An ANIMATION block read from line `pos`: its frames are one per FRAME line of the block, in
   * order, each with the index on its line and the duration of the nearest DURATION line before
   * it in the block, or 100 when there is none; reading ends after the ANIMATION_END line.
   */
  lemma AnimationFrames(lines: seq<string>, pos: nat)
    requires pos <= |lines|
    ensures AnimationFrom(lines, pos, DEFAULT_DURATION, []) ==
      (FramesIn(lines, pos, DEFAULT_DURATION, pos, AnimationStop(lines, pos)), AfterBlock(lines, pos))
  {
    var stop := AnimationStop(lines, pos);
    FramesOfBlock(lines, pos, pos, DEFAULT_DURATION, []);
    assert [] + FramesIn(lines, pos, DEFAULT_DURATION, pos, stop) == FramesIn(lines, pos, DEFAULT_DURATION, pos, stop);
  }

  /** The inner loop of `loadFromFile` that reads one ANIMATION block. */
  method ParseAnimation(file: TextFile) returns (sequence: seq<Frame>)
    requires file.Valid()
    modifies file
    ensures file.Valid()
    ensures (sequence, file.pos) == AnimationFrom(file.lines, old(file.pos), DEFAULT_DURATION, [])
  {
    sequence := [];
    var currentDuration := DEFAULT_DURATION;
    while true
      invariant file.Valid()
      invariant AnimationFrom(file.lines, file.pos, currentDuration, sequence) ==
        AnimationFrom(file.lines, old(file.pos), DEFAULT_DURATION, [])
      decreases |file.lines| - file.pos
    {
      var ok, line := file.GetLine();
      if !ok || Contains(line, ANIMATION_END) {
        break;
      }
      if line == [] || line[0] == '#' {
        continue;
      }
      var (animSs, animKey) := KeyOf(line);
      if animKey == "DURATION" {
        currentDuration := ReadInt(animSs, currentDuration).1;
      } else if animKey == "FRAME" {
        var frameIndex := ReadInt(animSs, 0).1;
        sequence := sequence + [Frame(frameIndex, currentDuration)];
      }
    }
  }

  // ---------------------------------------------------------------------------------------
  // The line loop
  // ---------------------------------------------------------------------------------------

  /**
   * The line loop from line `pos` on. Blank lines are skipped; a '#' line starts a pixel frame
   * when it holds "# FRAME_" inside the atlas section and is skipped otherwise; the keys
   * SPRITE_NAME, SPRITE_SIZE, PALETTE_BEGIN, TEXTURE_ATLAS_BEGIN/END and ANIMATION_BEGIN each
   * update their part of the state, and any other key is ignored. A frame whose reservation
   * throws stops the loop with `threw` set.
   */
  function Scan(lines: seq<string>, pos: nat, p: Parse): (r: Parse)
    requires pos <= |lines|
    ensures r.threw ==> p.threw || (r.inAtlas && ReserveThrows(r.fields.width, r.fields.height))
    decreases |lines| - pos
  {
    if pos == |lines| then p
    else
      var line := lines[pos];
      if line == [] then Scan(lines, pos + 1, p)
      else if line[0] == '#' then
        if p.inAtlas && Contains(line, FRAME_MARK) then
          if ReserveThrows(p.fields.width, p.fields.height) then p.(threw := true)
          else
            var (pixels, next) := BlockRows(lines, pos + 1, p.fields.width, p.fields.height, p.palette, []);
            Scan(lines, next, p.(frames := p.frames + [pixels]))
        else Scan(lines, pos + 1, p)
      else
        var (s, key) := KeyOf(line);
        if key == "SPRITE_NAME" then
          Scan(lines, pos + 1, p.(fields := p.fields.(assetId := ReadWord(s, p.fields.assetId).1)))
        else if key == "SPRITE_SIZE" then
          var (s2, w) := ReadInt(s, p.fields.width);
          var h := ReadInt(s2, p.fields.height).1;
          Scan(lines, pos + 1, p.(fields := p.fields.(width := w, height := h)))
        else if key == "PALETTE_BEGIN" then
          var (palette, next) := PaletteFrom(lines, pos + 1, map[]);
          Scan(lines, next, p.(palette := palette))
        else if key == "TEXTURE_ATLAS_BEGIN" then Scan(lines, pos + 1, p.(inAtlas := true))
        else if key == "TEXTURE_ATLAS_END" then Scan(lines, pos + 1, p.(inAtlas := false))
        else if key == "ANIMATION_BEGIN" then
          var name := ReadWord(s, "").1;
          var (sequence, next) := AnimationFrom(lines, pos + 1, DEFAULT_DURATION, []);
          Scan(lines, next, p.(fields := p.fields.(animations := p.fields.animations[name := sequence])))
        else Scan(lines, pos + 1, p)
  }

  /** A key line: not blank, not '#', with key `key`. */
  predicate IsKeyLine(line: string, key: string)
  {
    line != [] && line[0] != '#' && KeyOf(line).1 == key
  }

  /**
   * Outside the atlas section, and with no TEXTURE_ATLAS_BEGIN line to enter it, no pixel frame
   * is collected: '#' lines, FRAME_ markers included, are skipped.
   */
  lemma {:induction false} NoFramesOutsideAtlas(lines: seq<string>, pos: nat, p: Parse)
    requires pos <= |lines| && !p.inAtlas
    requires forall j :: pos <= j < |lines| ==> !IsKeyLine(lines[j], "TEXTURE_ATLAS_BEGIN")
    ensures Scan(lines, pos, p).frames == p.frames && !Scan(lines, pos, p).inAtlas
    decreases |lines| - pos
  {
    if pos < |lines| {
      var line := lines[pos];
      if line == [] || line[0] == '#' {
        NoFramesOutsideAtlas(lines, pos + 1, p);
      } else {
        var (s, key) := KeyOf(line);
        if key == "SPRITE_NAME" {
          NoFramesOutsideAtlas(lines, pos + 1, p.(fields := p.fields.(assetId := ReadWord(s, p.fields.assetId).1)));
        } else if key == "SPRITE_SIZE" {
          var (s2, w) := ReadInt(s, p.fields.width);
          var h := ReadInt(s2, p.fields.height).1;
          NoFramesOutsideAtlas(lines, pos + 1, p.(fields := p.fields.(width := w, height := h)));
        } else if key == "PALETTE_BEGIN" {
          var (palette, next) := PaletteFrom(lines, pos + 1, map[]);
          NoFramesOutsideAtlas(lines, next, p.(palette := palette));
        } else if key == "ANIMATION_BEGIN" {
          var name := ReadWord(s, "").1;
          var (sequence, next) := AnimationFrom(lines, pos + 1, DEFAULT_DURATION, []);
          NoFramesOutsideAtlas(lines, next, p.(fields := p.fields.(animations := p.fields.animations[name := sequence])));
        } else {
          assert key != "TEXTURE_ATLAS_BEGIN";
          NoFramesOutsideAtlas(lines, pos + 1, p.(inAtlas := false));
        }
      }
    }
  }

  /**
   * Inside the atlas section a "# FRAME_" line starts a frame: the pixel block right after it,
   * unless the frame size makes the reservation throw, which ends the loop there.
   */
  lemma FrameMarkReadsBlock(lines: seq<string>, pos: nat, p: Parse)
    requires pos < |lines| && p.inAtlas && lines[pos] != [] && lines[pos][0] == '#' && Contains(lines[pos], FRAME_MARK)
    ensures ReserveThrows(p.fields.width, p.fields.height) ==> Scan(lines, pos, p) == p.(threw := true)
    ensures !ReserveThrows(p.fields.width, p.fields.height) ==> (Scan(lines, pos, p) ==
      Scan(lines, BlockRows(lines, pos + 1, p.fields.width, p.fields.height, p.palette, []).1,
        p.(frames := p.frames + [PixelBlock(lines, pos + 1, p.fields.width, p.fields.height, p.palette)])))
  {
  }

  lemma KeyOfSpriteSize(w: int, h: int)
    requires INT_MIN <= w <= INT_MAX && INT_MIN <= h <= INT_MAX
    ensures var line := "SPRITE_SIZE" + Field(w) + Field(h); var (s, key) := KeyOf(line);
      line != [] && line[0] != '#' && key == "SPRITE_SIZE" && ReadInt(s, 0).1 == w && ReadInt(ReadInt(s, 0).0, 0).1 == h
  {
    var key, rest := "SPRITE_SIZE", Field(w) + Field(h);
    assert forall k :: 0 <= k < |key| ==> !IsSpace(key[k]);
    AppendAssoc(key, Field(w), Field(h));
    KeyOfLine(key, rest);
    var s := KeyOf(key + rest).0;
    assert s.text[s.pos..] == Field(w) + Field(h) + [];
    ReadTwo(s, w, h, []);
  }

  lemma KeyOfAtlasBegin()
    ensures KeyOf("TEXTURE_ATLAS_BEGIN").1 == "TEXTURE_ATLAS_BEGIN"
  {
    var key := "TEXTURE_ATLAS_BEGIN";
    assert forall k :: 0 <= k < |key| ==> !IsSpace(key[k]);
    assert key + "" == key;
    KeyOfLine(key, "");
  }

  /**
   * The file `SPRITE_SIZE 2 -1`, `TEXTURE_ATLAS_BEGIN`, `# FRAME_`, `11`: the reservation for
   * its frame is for a negative number of pixels, so the loader throws and yields no asset.
   */
  lemma MixedSignFrameThrows()
    ensures var contents := Some(["SPRITE_SIZE" + Field(2) + Field(-1), "TEXTURE_ATLAS_BEGIN", FRAME_MARK, "11"]);
      LoadThrows(contents, true) && SpriteAssetOf(contents, true, true).None?
  {
    var lines := ["SPRITE_SIZE" + Field(2) + Field(-1), "TEXTURE_ATLAS_BEGIN", FRAME_MARK, "11"];
    var p1 := START.(fields := START.fields.(width := 2, height := -1));
    SizeStep(lines, 2, -1);
    AtlasBeginStep(lines, p1);
    assert Contains(lines[2], FRAME_MARK);
    assert Scan(lines, 2, p1.(inAtlas := true)) == p1.(inAtlas := true, threw := true);
  }

  lemma SizeStep(lines: seq<string>, w: int, h: int)
    requires INT_MIN <= w <= INT_MAX && INT_MIN <= h <= INT_MAX
    requires |lines| > 1 && lines[0] == "SPRITE_SIZE" + Field(w) + Field(h)
    ensures Scan(lines, 0, START) == Scan(lines, 1, START.(fields := START.fields.(width := w, height := h)))
  {
    KeyOfSpriteSize(w, h);
  }

  lemma AtlasBeginStep(lines: seq<string>, p: Parse)
    requires |lines| > 2 && lines[1] == "TEXTURE_ATLAS_BEGIN"
    ensures Scan(lines, 1, p) == Scan(lines, 2, p.(inAtlas := true))
  {
    KeyOfAtlasBegin();
  }

  // ---------------------------------------------------------------------------------------
  // The loader
  // ---------------------------------------------------------------------------------------

  /**
   * `SpriteAssetLoader::loadFromFile`: `contents` is the file's lines (None when it cannot be
   * opened), `formatOk` whether `SDL_AllocFormat` succeeds and `created` whether
   * `SDL_CreateTexture` does. A load that throws, an empty name, a zero width or height or no
   * frames give no asset.
   */
  function SpriteAssetOf(contents: Option<seq<string>>, formatOk: bool, created: bool): Option<SpriteAsset>
  {
    if contents.None? || !formatOk then None
    else
      var p := Scan(contents.value, 0, START);
      var f := p.fields;
      if p.threw || f.assetId == [] || f.width == 0 || f.height == 0 || p.frames == [] || !created then None
      else Some(SpriteAsset(f.assetId, f.width, f.height, f.animations,
        Atlas(f.width * |p.frames|, f.height, Uploads(p.frames, f.width, f.height, Strip))))
  }

  /** The pixel frames the line loop collects from a file. */
  function FramesOf(lines: seq<string>): seq<seq<Color>>
  {
    Scan(lines, 0, START).frames
  }

  /**
   * An asset has a name and a non-zero size; its atlas is one frame high and one frame wide per
   * frame read, and it holds each frame of `width * height` pixels in the frame's own slot.
   * With a positive size each slot lies inside the atlas and no two slots overlap.
   */
  lemma AssetShape(contents: Option<seq<string>>, formatOk: bool, created: bool)
    ensures var a := SpriteAssetOf(contents, formatOk, created);
      a.Some? ==> (a.value.assetId != [] && a.value.width != 0 && a.value.height != 0 &&
        var frames := FramesOf(contents.value);
        |frames| > 0 && a.value.atlas.width == a.value.width * |frames| && a.value.atlas.height == a.value.height &&
        (forall u :: u in a.value.atlas.uploads <==>
          (u.index < |frames| && |frames[u.index]| == CellSize(a.value.width, a.value.height) &&
           u == Upload(u.index, Place(Strip, u.index, a.value.width, a.value.height), frames[u.index]))))
    ensures var a := SpriteAssetOf(contents, formatOk, created);
      a.Some? && a.value.width > 0 && a.value.height > 0 ==>
        forall u, u' :: u in a.value.atlas.uploads && u' in a.value.atlas.uploads ==>
          Inside(u.dest, a.value.atlas.width, a.value.atlas.height) &&
          (u.index != u'.index ==> !HasIntersection(u.dest, u'.dest))
  {
    var a := SpriteAssetOf(contents, formatOk, created);
    if a.Some? {
      var p := Scan(contents.value, 0, START);
      var w, h := p.fields.width, p.fields.height;
      UploadsAre(p.frames, w, h, Strip);
      if w > 0 && h > 0 {
        forall u, u' | u in a.value.atlas.uploads && u' in a.value.atlas.uploads
          ensures Inside(u.dest, a.value.atlas.width, a.value.atlas.height) &&
            (u.index != u'.index ==> !HasIntersection(u.dest, u'.dest))
        {
          StripCells(|p.frames|, w, h, u.index, u'.index);
        }
      }
    }
  }

  /** `loadFromFile` throws: the file opens, the format is allocated and the line loop throws. */
  predicate LoadThrows(contents: Option<seq<string>>, formatOk: bool)
  {
    contents.Some? && formatOk && Scan(contents.value, 0, START).threw
  }

  /** `threw` says that `std::length_error` leaves the loader; no asset is returned then. */
  method LoadFromFile(contents: Option<seq<string>>, formatOk: bool, created: bool) returns (asset: Option<SpriteAsset>, threw: bool)
    ensures threw <==> LoadThrows(contents, formatOk)
    ensures asset == SpriteAssetOf(contents, formatOk, created)
  {
    if contents.None? || !formatOk {
      return None, false;
    }
    var file := new TextFile(contents.value);
    var p := ReadLines(file);
    if p.threw {
      return None, true;
    }
    threw := false;
    var f := p.fields;
    if f.assetId == [] || f.width == 0 || f.height == 0 || p.frames == [] {
      return None, false;
    }
    if !created {
      return None, false;
    }
    var uploads := UploadBlocks(p.frames, f.width, f.height, Strip);
    asset := Some(SpriteAsset(f.assetId, f.width, f.height, f.animations, Atlas(f.width * |p.frames|, f.height, uploads)));
  }

  /** The line loop of `loadFromFile`, over the whole file; `p` gathers its local variables. */
  method ReadLines(file: TextFile) returns (p: Parse)
    requires file.Valid() && file.pos == 0
    modifies file
    ensures p == Scan(file.lines, 0, START)
  {
    var assetId, width, height, animations := "", 0, 0, map[];
    var palette: Palette := map[];
    var inAtlas := false;
    var atlasFrames: seq<seq<Color>> := [];
    while true
      invariant file.Valid()
      invariant Scan(file.lines, file.pos, Parse(Fields(assetId, width, height, animations), palette, inAtlas, atlasFrames, false)) ==
        Scan(file.lines, 0, START)
      decreases |file.lines| - file.pos
    {
      var ok, line := file.GetLine();
      if !ok {
        break;
      }
      if line == [] {
        continue;
      }
      if line[0] == '#' {
        if inAtlas && Contains(line, FRAME_MARK) {
          var pixels, threw := ParsePixelBlock(file, width, height, palette);
          if threw {
            return Parse(Fields(assetId, width, height, animations), palette, inAtlas, atlasFrames, true);
          }
          atlasFrames := atlasFrames + [pixels];
        }
        continue;
      }
      var (ss, key) := KeyOf(line);
      if key == "SPRITE_NAME" {
        assetId := ReadWord(ss, assetId).1;
      } else if key == "SPRITE_SIZE" {
        var (ss2, w) := ReadInt(ss, width);
        width, height := w, ReadInt(ss2, height).1;
      } else if key == "PALETTE_BEGIN" {
        palette := ParsePalette(file);
      } else if key == "TEXTURE_ATLAS_BEGIN" {
        inAtlas := true;
      } else if key == "TEXTURE_ATLAS_END" {
        inAtlas := false;
      } else if key == "ANIMATION_BEGIN" {
        var animName := ReadWord(ss, "").1;
        var sequence := ParseAnimation(file);
        animations := animations[animName := sequence];
      }
    }
    p := Parse(Fields(assetId, width, height, animations), palette, inAtlas, atlasFrames, false);
  }
}
