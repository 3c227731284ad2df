// The two blocks every text asset format shares: a palette, one `c r g b a` entry per line up
// to the line holding PALETTE_END, and a block of pixel rows in which each character is looked
// up in the palette.

module TextAssets {
  import opened Wrappers
  import opened Streams

  type Color = bv32
  type Palette = map<char, Color>

  /** The colour drawn for a character the palette does not define. */
  const MAGENTA: Color := 0xFFFF_00FF

  /** `static_cast<uint32_t>` of an `int`: the value modulo 2^32. */
  function U32(x: int): (u: Color)
    ensures 0 <= x < 256 ==> u < 256
  {
    if 0 <= x < 0x1_0000_0000 then x as bv32 else (x % 0x1_0000_0000) as bv32
  }

  /** A colour as RGBA8888 stores it: alpha in the top byte, then blue, green and red. */
  function Pack(r: int, g: int, b: int, a: int): Color
  {
    (U32(a) << 24) | (U32(b) << 16) | (U32(g) << 8) | U32(r)
  }

  /** The byte of `c` that starts at bit `shift`. */
  function Channel(c: Color, shift: bv32): Color
    requires shift < 32
  {
    (c >> shift) & 0xFF
  }

  lemma PackBits(r: bv32, g: bv32, b: bv32, a: bv32)
    requires r < 256 && g < 256 && b < 256 && a < 256
    ensures Channel((a << 24) | (b << 16) | (g << 8) | r, 0) == r
    ensures Channel((a << 24) | (b << 16) | (g << 8) | r, 8) == g
    ensures Channel((a << 24) | (b << 16) | (g << 8) | r, 16) == b
    ensures Channel((a << 24) | (b << 16) | (g << 8) | r, 24) == a
  {
  }

  /** For components in 0..255 each one is recovered from the packed colour by shift and mask. */
  lemma UnpackPack(r: int, g: int, b: int, a: int)
    requires 0 <= r < 256 && 0 <= g < 256 && 0 <= b < 256 && 0 <= a < 256
    ensures Channel(Pack(r, g, b, a), 0) == U32(r) && Channel(Pack(r, g, b, a), 8) == U32(g)
    ensures Channel(Pack(r, g, b, a), 16) == U32(b) && Channel(Pack(r, g, b, a), 24) == U32(a)
  {
    PackBits(U32(r), U32(g), U32(b), U32(a));
  }

  // ---------------------------------------------------------------------------------------
  // Palettes
  // ---------------------------------------------------------------------------------------

  /** Blank lines and lines starting with '#' carry no data. */
  predicate IsComment(line: string) { line == [] || line[0] == '#' }

  const PALETTE_END: string := "PALETTE_END"

  /** `ss >> key` on a stream over the line: the stream after it and the key (empty if none). */
  function KeyOf(line: string): (r: (Stream, string))
    ensures r.0.Valid() && r.0.text == line
  {
    ReadWord(OfLine(line), "")
  }

  /** A line that is a key, optionally followed by whitespace and more text, reads back that key. */
  lemma KeyOfLine(key: string, rest: string)
    requires key != [] && (forall k :: 0 <= k < |key| ==> !IsSpace(key[k])) && EndsToken(rest)
    ensures var r := KeyOf(key + rest);
      r.1 == key && !r.0.fail && r.0.pos == |key| && r.0.text[r.0.pos..] == rest && (r.0.eof <==> rest == [])
  {
    var line := key + rest;
    assert OfLine(line).text[0..] == "" + key + rest;
    ReadWordOf(OfLine(line), "", key, rest, "");
    assert line[|key|..] == rest;
  }

  /**
   * One palette line: `pss >> index_char >> r >> g >> b >> a` on the line; the entry exists only
   * when all five extractions succeed.
   */
  function PaletteEntry(line: string): (e: Option<(char, Color)>)
    ensures IsComment(line) ==> e.None?
  {
    if IsComment(line) then None
    else
      var (s1, c) := ReadChar(OfLine(line), ' ');
      var (s5, color) := ReadColor(s1);
      if s5.fail then None else Some((c, color))
  }

  /** `>> r >> g >> b >> a` and the packed colour of the four `int`s read. */
  function ReadColor(s: Stream): (r: (Stream, Color))
    requires s.Valid()
    ensures r.0.Valid() && r.0.text == s.text
  {
    var (s2, r) := ReadInt(s, 0);
    var (s3, g) := ReadInt(s2, 0);
    var (s4, b) := ReadInt(s3, 0);
    var (s5, a) := ReadInt(s4, 0);
    (s5, Pack(r, g, b, a))
  }

  /** The palette after one parsed line: an entry sets (or replaces) its character's colour. */
  function Apply(palette: Palette, e: Option<(char, Color)>): (r: Palette)
    ensures r.Keys >= palette.Keys
    ensures forall c :: c in palette && !Defines(e, c) ==> r[c] == palette[c]
    ensures forall c :: Defines(e, c) ==> c in r && r[c] == e.value.1
    ensures forall c :: c in r && c !in palette ==> Defines(e, c)
  {
    match e
    case Some((c, color)) => palette[c := color]
    case None => palette
  }

  /** Entry `e` gives character `c` a colour. */
  predicate Defines(e: Option<(char, Color)>, c: char)
  {
    e.Some? && e.value.0 == c
  }

  /** The palette entry of every line of the file. */
  function EntriesOf(lines: seq<string>): (es: seq<Option<(char, Color)>>)
    ensures |es| == |lines|
  {
    if lines == [] then [] else [PaletteEntry(lines[0])] + EntriesOf(lines[1..])
  }

  lemma {:induction false} EntryOfLine(lines: seq<string>, k: nat)
    requires k < |lines|
    ensures EntriesOf(lines)[k] == PaletteEntry(lines[k])
  {
    if k > 0 {
      EntryOfLine(lines[1..], k - 1);
    }
  }

  /**
   * `parsePalette` from line `pos` on, where `es[i]` is the entry line `i` gives: the palette and
   * the position after the last line read. Lines are read until one contains PALETTE_END (which
   * is consumed) or the file ends.
   */
  function ScanPalette(lines: seq<string>, es: seq<Option<(char, Color)>>, pos: nat, palette: Palette): (r: (Palette, nat))
    requires pos <= |lines| == |es|
    ensures pos <= r.1 <= |lines|
    decreases |lines| - pos
  {
    if pos == |lines| then (palette, pos)
    else if Contains(lines[pos], PALETTE_END) then (palette, pos + 1)
    else ScanPalette(lines, es, pos + 1, Apply(palette, es[pos]))
  }

  /** One line of the scan that is not the end marker applies that line's entry. */
  lemma ScanStep(lines: seq<string>, es: seq<Option<(char, Color)>>, pos: nat, palette: Palette, e: Option<(char, Color)>)
    requires pos < |lines| == |es| && es[pos] == e && !Contains(lines[pos], PALETTE_END)
    ensures ScanPalette(lines, es, pos, palette) == ScanPalette(lines, es, pos + 1, Apply(palette, e))
  {
  }

  /** At the end of the file the scan stops where it is. */
  lemma ScanAtEnd(lines: seq<string>, es: seq<Option<(char, Color)>>, pos: nat, palette: Palette)
    requires pos == |lines| == |es|
    ensures ScanPalette(lines, es, pos, palette) == (palette, pos)
  {
  }

  /** The end-marker line stops the scan; it is consumed but applies no entry. */
  lemma ScanAtMarker(lines: seq<string>, es: seq<Option<(char, Color)>>, pos: nat, palette: Palette)
    requires pos < |lines| == |es| && Contains(lines[pos], PALETTE_END)
    ensures ScanPalette(lines, es, pos, palette) == (palette, pos + 1)
  {
  }

  /**
   * `es` holds the entry of every line of `lines`. The quantifier is only instantiated where a
   * line is actually parsed, which keeps the parser's definition out of the scan's proofs.
   */
  predicate EntriesMatch(lines: seq<string>, es: seq<Option<(char, Color)>>)
  {
    |es| == |lines| && forall k {:trigger PaletteEntry(lines[k])} :: 0 <= k < |lines| ==> es[k] == PaletteEntry(lines[k])
  }

  lemma MatchingEntries(lines: seq<string>) returns (es: seq<Option<(char, Color)>>)
    ensures EntriesMatch(lines, es)
  {
    es := EntriesOf(lines);
    forall k | 0 <= k < |lines|
      ensures es[k] == PaletteEntry(lines[k])
    {
      EntryOfLine(lines, k);
    }
  }

  lemma {:induction false} ScanMatches(lines: seq<string>, es: seq<Option<(char, Color)>>, pos: nat, palette: Palette)
    requires pos <= |lines| && EntriesMatch(lines, es)
    ensures ScanPalette(lines, es, pos, palette) == PaletteFrom(lines, pos, palette)
  {
    forall k | 0 <= k < |lines|
      ensures es[k] == EntriesOf(lines)[k]
    {
      EntryOfLine(lines, k);
      assert es[k] == PaletteEntry(lines[k]);
    }
    assert es == EntriesOf(lines);
  }

  /** `parsePalette` started at line `pos` of the file. */
  function PaletteFrom(lines: seq<string>, pos: nat, palette: Palette): (r: (Palette, nat))
    requires pos <= |lines|
    ensures pos <= r.1 <= |lines|
  {
    ScanPalette(lines, EntriesOf(lines), pos, palette)
  }

  /** `TextAssetParser::parsePalette`: reads the palette block that follows the current line. */
  method ParsePalette(file: TextFile) returns (palette: Palette)
    requires file.Valid()
    modifies file
    ensures file.Valid()
    ensures (palette, file.pos) == PaletteFrom(file.lines, old(file.pos), map[])
  {
    ghost var es := MatchingEntries(file.lines);
    palette := ScanLines(file, es);
    ScanMatches(file.lines, es, old(file.pos), map[]);
  }

  /** The loop of `parsePalette`, read against the entries `es` of the file's lines. */
  method ScanLines(file: TextFile, ghost es: seq<Option<(char, Color)>>) returns (palette: Palette)
    requires file.Valid() && EntriesMatch(file.lines, es)
    modifies file
    ensures file.Valid()
    ensures (palette, file.pos) == ScanPalette(file.lines, es, old(file.pos), map[])
  {
    palette := map[];
    while true
      invariant file.Valid()
      invariant ScanPalette(file.lines, es, file.pos, palette) == ScanPalette(file.lines, es, old(file.pos), map[])
      decreases |file.lines| - file.pos
    {
      ghost var k := file.pos;
      var ok, line := file.GetLine();
      if !ok {
        ScanAtEnd(file.lines, es, k, palette);
        break;
      }
      if Contains(line, PALETTE_END) {
        ScanAtMarker(file.lines, es, k, palette);
        break;
      }
      ScanStep(file.lines, es, k, palette, es[k]);
      palette := ApplyLine(palette, line, file.lines, es, k);
    }
  }

  /**
   * The body of `parsePalette`'s loop for a line that does not end the block: comment lines
   * are skipped, and a line whose five extractions succeed sets its character's colour.
   * `line` is line `k` of the file.
   */
  method ApplyLine(palette: Palette, line: string, ghost lines: seq<string>, ghost es: seq<Option<(char, Color)>>, ghost k: nat)
      returns (r: Palette)
    requires k < |lines| && lines[k] == line && EntriesMatch(lines, es)
    ensures r == Apply(palette, es[k])
  {
    assert es[k] == PaletteEntry(line);
    r := palette;
    if line == [] || line[0] == '#' {
      return;
    }
    var entry := PaletteEntry(line);
    if entry.Some? {
      r := r[entry.value.0 := entry.value.1];
    }
  }

  /** The end of the palette block starting at `pos`: the first line containing PALETTE_END, or the end. */
  function PaletteStop(lines: seq<string>, pos: nat): (k: nat)
    requires pos <= |lines|
    ensures pos <= k <= |lines| && (k < |lines| ==> Contains(lines[k], PALETTE_END))
    ensures forall j :: pos <= j < k ==> !Contains(lines[j], PALETTE_END)
    decreases |lines| - pos
  {
    if pos == |lines| || Contains(lines[pos], PALETTE_END) then pos else PaletteStop(lines, pos + 1)
  }

  /** The palette the entries `es` give, applied in order from the first. */
  function Entries(palette: Palette, es: seq<Option<(char, Color)>>): Palette
    decreases |es|
  {
    if es == [] then palette else Apply(Entries(palette, es[..|es| - 1]), es[|es| - 1])
  }

  lemma {:induction false} EntriesAppend(palette: Palette, es: seq<Option<(char, Color)>>, e: Option<(char, Color)>)
    ensures Entries(palette, [e] + es) == Entries(Apply(palette, e), es)
    decreases |es|
  {
    if es != [] {
      assert ([e] + es)[..|es|] == [e] + es[..|es| - 1];
      EntriesAppend(palette, es[..|es| - 1], e);
    }
  }

  /** The palette of the entries before the first PALETTE_END line, and the line after it. */
  function PaletteSpec(lines: seq<string>, es: seq<Option<(char, Color)>>, pos: nat, palette: Palette): (Palette, nat)
    requires pos <= |lines| == |es|
  {
    var k := PaletteStop(lines, pos);
    (Entries(palette, es[pos..k]), if k < |lines| then k + 1 else k)
  }

  lemma {:induction false} ScanStops(lines: seq<string>, es: seq<Option<(char, Color)>>, pos: nat, palette: Palette)
    requires pos <= |lines| == |es|
    ensures ScanPalette(lines, es, pos, palette) == PaletteSpec(lines, es, pos, palette)
    decreases |lines| - pos
  {
    var k := PaletteStop(lines, pos);
    if k == pos {
      assert es[pos..pos] == [];
    } else {
      var next := Apply(palette, es[pos]);
      ScanStops(lines, es, pos + 1, next);
      assert PaletteStop(lines, pos + 1) == k;
      assert es[pos..k] == [es[pos]] + es[pos + 1..k];
      EntriesAppend(palette, es[pos + 1..k], es[pos]);
    }
  }

  /**
   * `parsePalette` stops right after the first line holding PALETTE_END (or at the end of the
   * file), and its palette is that of the entries of every line before the stop, in order.
   */
  lemma PaletteFromStops(lines: seq<string>, pos: nat)
    requires pos <= |lines|
    ensures PaletteFrom(lines, pos, map[]) == PaletteSpec(lines, EntriesOf(lines), pos, map[])
  {
    ScanStops(lines, EntriesOf(lines), pos, map[]);
  }

  /** Starting from an empty palette, a character is defined exactly when some entry defines it. */
  lemma {:induction false} EntriesDefined(es: seq<Option<(char, Color)>>, c: char)
    ensures c in Entries(map[], es) <==> exists k :: 0 <= k < |es| && Defines(es[k], c)
    decreases |es|
  {
    if es != [] {
      var n := |es| - 1;
      var front := es[..n];
      EntriesDefined(front, c);
      if exists k :: 0 <= k < n && Defines(front[k], c) {
        var k :| 0 <= k < n && Defines(front[k], c);
        assert es[k] == front[k];
      }
      if exists k :: 0 <= k < |es| && Defines(es[k], c) {
        var k :| 0 <= k < |es| && Defines(es[k], c);
        if k < n {
          assert Defines(front[k], c);
        }
      }
    }
  }

  /** The colour a character gets is the one of the last entry that defines it. */
  lemma {:induction false} LastEntryWins(es: seq<Option<(char, Color)>>, c: char)
    requires c in Entries(map[], es)
    ensures exists k ::
      0 <= k < |es| && es[k] == Some((c, Entries(map[], es)[c])) &&
      (forall j :: k < j < |es| ==> !Defines(es[j], c))
    decreases |es|
  {
    var n := |es| - 1;
    var front := es[..n];
    if Defines(es[n], c) {
      assert es[n] == Some((c, Entries(map[], es)[c]));
    } else {
      assert Entries(map[], es) == Apply(Entries(map[], front), es[n]);
      LastEntryWins(front, c);
      var k :| 0 <= k < |front| && front[k] == Some((c, Entries(map[], front)[c])) &&
        (forall j :: k < j < |front| ==> !Defines(front[j], c));
      assert es[k] == front[k];
      assert forall j :: k < j < n ==> es[j] == front[j];
    }
  }

  /**
   * A palette line written as `c r g b a`, with single spaces and each component an `int`, reads
   * back as the entry for `c` with the packed colour.
   */
  lemma PaletteLineRoundTrip(c: char, r: int, g: int, b: int, a: int)
    requires !IsSpace(c) && c != '#'
    requires INT_MIN <= r <= INT_MAX && INT_MIN <= g <= INT_MAX && INT_MIN <= b <= INT_MAX && INT_MIN <= a <= INT_MAX
    ensures PaletteEntry(PaletteLine(c, r, g, b, a)) == Some((c, Pack(r, g, b, a)))
  {
    var line := PaletteLine(c, r, g, b, a);
    var s1 := IndexRead(c, Fields(r, g, b, a));
    ReadColorOf(s1, r, g, b, a);
    EntryOfReads(line, s1, c);
  }

  /** The index character at the start of a line is read, and reading goes on right after it. */
  lemma IndexRead(c: char, fields: string) returns (s1: Stream)
    requires !IsSpace(c) && c != '#'
    ensures !IsComment([c] + fields) && ReadChar(OfLine([c] + fields), ' ') == (s1, c)
    ensures s1.Valid() && s1.Good() && s1.text[s1.pos..] == fields
  {
    var line := [c] + fields;
    var s0 := OfLine(line);
    assert s0.text[s0.pos..] == [] + [c] + fields;
    ReadCharOf(s0, [], c, fields, ' ');
    s1 := ReadChar(s0, ' ').0;
    assert line[1..] == fields;
  }

  /** A line that is not a comment, whose index character and colour are read, is their entry. */
  lemma EntryOfReads(line: string, s1: Stream, c: char)
    requires !IsComment(line) && ReadChar(OfLine(line), ' ') == (s1, c) && !ReadColor(s1).0.fail
    ensures PaletteEntry(line) == Some((c, ReadColor(s1).1))
  {
  }

  /** A palette line as `c r g b a`, single-spaced. */
  function PaletteLine(c: char, r: int, g: int, b: int, a: int): string
  {
    [c] + Fields(r, g, b, a)
  }

  function Fields(r: int, g: int, b: int, a: int): string
  {
    Field(r) + Field(g) + (Field(b) + Field(a))
  }

  /** Four `int`s written as fields, up to the end of the text, read back as their packed colour. */
  lemma ReadColorOf(s: Stream, r: int, g: int, b: int, a: int)
    requires s.Valid() && s.Good()
    requires INT_MIN <= r <= INT_MAX && INT_MIN <= g <= INT_MAX && INT_MIN <= b <= INT_MAX && INT_MIN <= a <= INT_MAX
    requires s.text[s.pos..] == Fields(r, g, b, a)
    ensures !ReadColor(s).0.fail && ReadColor(s).1 == Pack(r, g, b, a)
  {
    var rest := Field(b) + Field(a);
    assert rest[0] == ' ';
    ReadTwo(s, r, g, rest);
    var s3 := ReadInt(ReadInt(s, 0).0, 0).0;
    assert Field(b) + Field(a) + [] == rest;
    ReadTwo(s3, b, a, []);
  }

  lemma ReadTwo(s: Stream, x: int, y: int, rest: string)
    requires s.Valid() && s.Good() && INT_MIN <= x <= INT_MAX && INT_MIN <= y <= INT_MAX
    requires rest == [] || rest[0] == ' '
    requires s.text[s.pos..] == Field(x) + Field(y) + rest
    ensures var r1 := ReadInt(s, 0); var r2 := ReadInt(r1.0, 0);
      r1.1 == x && r2.1 == y && !r2.0.fail && (r2.0.Good() <==> rest != []) && r2.0.text[r2.0.pos..] == rest
  {
    var more := Field(y) + rest;
    assert s.text[s.pos..] == Field(x) + more;
    assert more[0] == ' ';
    ReadField(s, x, more);
    ReadField(ReadInt(s, 0).0, y, rest);
  }

  /** One number of a palette line as written with a single space before it. */
  function Field(n: int): string { " " + Decimal(n) }

  lemma ReadField(s: Stream, n: int, rest: string)
    requires s.Valid() && s.Good() && INT_MIN <= n <= INT_MAX
    requires rest == [] || rest[0] == ' '
    requires s.text[s.pos..] == Field(n) + rest
    ensures var r := ReadInt(s, 0);
      r.1 == n && !r.0.fail && (r.0.Good() <==> rest != []) && r.0.text[r.0.pos..] == rest
  {
    var r := ReadInt(s, 0);
    assert AllSpace(" ");
    ReadIntOfDecimal(s, " ", n, rest, 0);
    assert r.0.pos == s.pos + |Field(n)|;
    DropPrefix(s.text, s.pos, Field(n), rest);
    assert r.0.Good() <==> rest != [];
  }

  lemma DropPrefix(t: string, p: nat, a: string, rest: string)
    requires p <= |t| && t[p..] == a + rest
    ensures p + |a| <= |t| && t[p + |a|..] == rest
  {
    assert t[p + |a|..] == t[p..][|a|..];
  }

  // ---------------------------------------------------------------------------------------
  // Pixel blocks
  // ---------------------------------------------------------------------------------------

  /** Pixel `x` of a row: a character past the end of the line counts as '0'. */
  function PixelOf(palette: Palette, line: string, x: nat): (p: Color)
    ensures x < |line| && line[x] in palette ==> p == palette[line[x]]
    ensures x < |line| && line[x] !in palette ==> p == MAGENTA
    ensures x >= |line| ==> p == if '0' in palette then palette['0'] else MAGENTA
  {
    var ch := if x < |line| then line[x] else '0';
    if ch in palette then palette[ch] else MAGENTA
  }

  function Width(width: int): nat { if width < 0 then 0 else width }

  /** The `width` pixels one data line yields. */
  function Row(palette: Palette, line: string, width: int): (row: seq<Color>)
    ensures |row| == Width(width)
  {
    RowPrefix(palette, line, Width(width))
  }

  /** The first `n` pixels of a row. */
  function RowPrefix(palette: Palette, line: string, n: nat): (row: seq<Color>)
    ensures |row| == n
  {
    if n == 0 then [] else RowPrefix(palette, line, n - 1) + [PixelOf(palette, line, n - 1)]
  }

  lemma {:induction false} RowPrefixAt(palette: Palette, line: string, n: nat, x: nat)
    requires x < n
    ensures RowPrefix(palette, line, n)[x] == PixelOf(palette, line, x)
  {
    if x < n - 1 {
      RowPrefixAt(palette, line, n - 1, x);
    }
  }

  /** Pixel `x` of a row is pixel `x` of its line. */
  lemma RowAt(palette: Palette, line: string, width: int, x: nat)
    requires x < Width(width)
    ensures Row(palette, line, width)[x] == PixelOf(palette, line, x)
  {
    RowPrefixAt(palette, line, Width(width), x);
  }

  /** The first data line at or after `pos`, or the end of the file. */
  function NextData(lines: seq<string>, pos: nat): (k: nat)
    requires pos <= |lines|
    ensures pos <= k <= |lines| && (k < |lines| ==> !IsComment(lines[k]))
    ensures forall j :: pos <= j < k ==> IsComment(lines[j])
    decreases |lines| - pos
  {
    if pos == |lines| || !IsComment(lines[pos]) then pos else NextData(lines, pos + 1)
  }

  /**
   * `parsePixelBlock` with `rows` rows still to read and `acc` read so far: the pixels and the
   * position after the last line read. Running out of lines ends the block early.
   */
  function BlockRows(lines: seq<string>, pos: nat, width: int, rows: int, palette: Palette, acc: seq<Color>): (r: (seq<Color>, nat))
    requires pos <= |lines|
    ensures pos <= r.1 <= |lines|
    decreases |lines| - pos
  {
    if rows <= 0 then (acc, pos)
    else
      var k := NextData(lines, pos);
      if k == |lines| then (acc, k)
      else BlockRows(lines, k + 1, width, rows - 1, palette, acc + Row(palette, lines[k], width))
  }

  /** The pixels `parsePixelBlock` returns when it starts reading at line `pos`. */
  function PixelBlock(lines: seq<string>, pos: nat, width: int, height: int, palette: Palette): seq<Color>
    requires pos <= |lines|
  {
    BlockRows(lines, pos, width, height, palette, []).0
  }

  /**
   * `pixels.reserve(width * height)`, done before a pixel block is read: the `int` product,
   * converted to `size_t`, exceeds the vector's maximum size exactly when it is negative, and
   * `std::length_error` is thrown.
   */
  predicate ReserveThrows(width: int, height: int)
  {
    width * height < 0
  }

  /** The reservation throws exactly when one size is negative and the other positive. */
  lemma ReserveThrowsOneNegative(width: int, height: int)
    ensures ReserveThrows(width, height) <==> (width < 0 < height || height < 0 < width)
  {
    if width < 0 < height {
      assert width * height == -((-width) * height);
    } else if height < 0 < width {
      assert width * height == -(width * (-height));
    } else if width < 0 && height < 0 {
      assert width * height == (-width) * (-height);
    }
  }

  /**
   * `TextAssetParser::parsePixelBlock`: `height` rows of `width` pixels each, row-major; when
   * the reservation throws, nothing is read and `threw` is set.
   */
  method ParsePixelBlock(file: TextFile, width: int, height: int, palette: Palette) returns (pixels: seq<Color>, threw: bool)
    requires file.Valid()
    modifies file
    ensures file.Valid()
    ensures threw <==> ReserveThrows(width, height)
    ensures threw ==> pixels == [] && file.pos == old(file.pos)
    ensures !threw ==> pixels == PixelBlock(file.lines, old(file.pos), width, height, palette)
    ensures !threw ==> file.pos == BlockRows(file.lines, old(file.pos), width, height, palette, []).1
  {
    if ReserveThrows(width, height) {
      return [], true;
    }
    threw := false;
    pixels := [];
    var y := 0;
    while y < height
      invariant file.Valid()
      invariant BlockRows(file.lines, file.pos, width, height - y, palette, pixels) ==
        BlockRows(file.lines, old(file.pos), width, height, palette, [])
      decreases height - y
    {
      ghost var start := file.pos;
      var ok, line := NextDataLine(file);
      if !ok {
        BlockRowsAtEnd(file.lines, start, width, height - y, palette, pixels);
        return pixels, false;
      }
      ghost var k := file.pos - 1;
      ghost var before := pixels;
      pixels := PushRow(pixels, palette, line, width);
      BlockRowsStep(file.lines, start, k, width, height - y, palette, before);
      y := y + 1;
    }
  }

  /** The comment-skipping loop of `parsePixelBlock`: reads up to and including the next data line. */
  method NextDataLine(file: TextFile) returns (ok: bool, line: string)
    requires file.Valid()
    modifies file
    ensures file.Valid()
    ensures ok <==> NextData(file.lines, old(file.pos)) < |file.lines|
    ensures ok ==> file.pos == NextData(file.lines, old(file.pos)) + 1 && line == file.lines[file.pos - 1]
    ensures !ok ==> file.pos == |file.lines|
  {
    ghost var start := file.pos;
    while true
      invariant file.Valid() && start <= file.pos
      invariant NextData(file.lines, file.pos) == NextData(file.lines, start)
      decreases |file.lines| - file.pos
    {
      ok, line := file.GetLine();
      if !ok || !(line == [] || line[0] == '#') {
        return;
      }
    }
  }

  /** With no data line left, the block ends where the file does. */
  lemma BlockRowsAtEnd(lines: seq<string>, pos: nat, width: int, rows: int, palette: Palette, acc: seq<Color>)
    requires pos <= |lines| && rows > 0 && NextData(lines, pos) == |lines|
    ensures BlockRows(lines, pos, width, rows, palette, acc) == (acc, |lines|)
  {
  }

  /** The inner loop of `parsePixelBlock`: appends the `width` pixels of one data line. */
  method PushRow(pixels: seq<Color>, palette: Palette, line: string, width: int) returns (r: seq<Color>)
    ensures r == pixels + Row(palette, line, width)
  {
    r := pixels;
    var x := 0;
    while x < width
      invariant 0 <= x <= Width(width)
      invariant r == pixels + RowPrefix(palette, line, x)
    {
      r := r + [PixelOf(palette, line, x)];
      x := x + 1;
    }
  }

  /** The data lines of `ls`, in order: what remains after dropping blank and '#' lines. */
  function DataLines(ls: seq<string>): (d: seq<string>)
    ensures |d| <= |ls| && forall k :: 0 <= k < |d| ==> !IsComment(d[k])
    decreases |ls|
  {
    if ls == [] then []
    else DataLines(ls[..|ls| - 1]) + (if IsComment(ls[|ls| - 1]) then [] else [ls[|ls| - 1]])
  }

  /** The rows of the data lines `d`, one after the other. */
  function Rows(palette: Palette, d: seq<string>, width: int): seq<Color>
    decreases |d|
  {
    if d == [] then [] else Rows(palette, d[..|d| - 1], width) + Row(palette, d[|d| - 1], width)
  }

  lemma {:induction false} DataLinesPrepend(line: string, ls: seq<string>)
    ensures DataLines([line] + ls) == (if IsComment(line) then [] else [line]) + DataLines(ls)
    decreases |ls|
  {
    if ls != [] {
      assert ([line] + ls)[..|ls|] == [line] + ls[..|ls| - 1];
      DataLinesPrepend(line, ls[..|ls| - 1]);
    } else {
      assert DataLines([line]) == DataLines([]) + (if IsComment(line) then [] else [line]);
    }
  }

  lemma {:induction false} RowsPrepend(palette: Palette, line: string, d: seq<string>, width: int)
    ensures Rows(palette, [line] + d, width) == Row(palette, line, width) + Rows(palette, d, width)
    decreases |d|
  {
    if d != [] {
      var init := d[..|d| - 1];
      assert ([line] + d)[..|d|] == [line] + init;
      assert ([line] + d)[|d|] == d[|d| - 1];
      RowsPrepend(palette, line, init, width);
      AppendAssoc(Row(palette, line, width), Rows(palette, init, width), Row(palette, d[|d| - 1], width));
    } else {
      assert Rows(palette, [line], width) == Rows(palette, [], width) + Row(palette, line, width);
    }
  }

  lemma AppendAssoc<T>(a: seq<T>, b: seq<T>, c: seq<T>)
    ensures (a + b) + c == a + (b + c)
  {
  }

  lemma {:induction false} DataLinesSkip(lines: seq<string>, pos: nat, k: nat)
    requires pos <= k <= |lines| && forall j :: pos <= j < k ==> IsComment(lines[j])
    ensures DataLines(lines[pos..]) == DataLines(lines[k..])
    decreases k - pos
  {
    if pos < k {
      assert lines[pos..] == [lines[pos]] + lines[pos + 1..];
      DataLinesPrepend(lines[pos], lines[pos + 1..]);
      DataLinesSkip(lines, pos + 1, k);
    }
  }

  function Min(a: int, b: int): int { if a < b then a else b }

  /** Where the data lines from `pos` on start. */
  lemma DataFrom(lines: seq<string>, pos: nat, k: nat)
    requires pos <= |lines| && k == NextData(lines, pos)
    ensures k == |lines| ==> DataLines(lines[pos..]) == []
    ensures k < |lines| ==> DataLines(lines[pos..]) == [lines[k]] + DataLines(lines[k + 1..])
  {
    DataLinesSkip(lines, pos, k);
    if k == |lines| {
      assert lines[k..] == [];
    } else {
      assert lines[k..] == [lines[k]] + lines[k + 1..];
      DataLinesPrepend(lines[k], lines[k + 1..]);
    }
  }

  lemma TakeCons(x: string, d: seq<string>, m: nat)
    requires m > 0
    ensures ([x] + d)[..Min(m, |d| + 1)] == [x] + d[..Min(m - 1, |d|)]
  {
  }

  /** The rows of the first `rows` data lines from `pos` on, after the pixels `acc`. */
  function BlockSpec(lines: seq<string>, pos: nat, width: int, rows: int, palette: Palette, acc: seq<Color>): seq<Color>
    requires pos <= |lines|
  {
    var d := DataLines(lines[pos..]);
    acc + Rows(palette, d[..Min(Width(rows), |d|)], width)
  }

  /**
   * `parsePixelBlock` gives the rows of the first `height` data lines from the reading
   * position, or of all of them when fewer remain: blank and '#' lines between rows are skipped.
   */
  lemma {:induction false} BlockIsRows(lines: seq<string>, pos: nat, width: int, rows: int, palette: Palette, acc: seq<Color>)
    requires pos <= |lines|
    ensures BlockRows(lines, pos, width, rows, palette, acc).0 == BlockSpec(lines, pos, width, rows, palette, acc)
    decreases |lines| - pos
  {
    if rows <= 0 || NextData(lines, pos) == |lines| {
      BlockEnds(lines, pos, width, rows, palette, acc);
    } else {
      var k := NextData(lines, pos);
      var row := Row(palette, lines[k], width);
      BlockIsRows(lines, k + 1, width, rows - 1, palette, acc + row);
      BlockGoesOn(lines, pos, k, width, rows, palette, acc);
    }
  }

  lemma BlockEnds(lines: seq<string>, pos: nat, width: int, rows: int, palette: Palette, acc: seq<Color>)
    requires pos <= |lines| && (rows <= 0 || NextData(lines, pos) == |lines|)
    ensures BlockRows(lines, pos, width, rows, palette, acc).0 == BlockSpec(lines, pos, width, rows, palette, acc)
  {
    var d := DataLines(lines[pos..]);
    DataFrom(lines, pos, NextData(lines, pos));
    assert d[..Min(Width(rows), |d|)] == [] && Rows(palette, [], width) == [];
    assert acc + [] == acc;
  }

  lemma BlockGoesOn(lines: seq<string>, pos: nat, k: nat, width: int, rows: int, palette: Palette, acc: seq<Color>)
    requires pos <= |lines| && rows > 0 && k == NextData(lines, pos) && k < |lines|
    requires BlockRows(lines, k + 1, width, rows - 1, palette, acc + Row(palette, lines[k], width)).0 ==
      BlockSpec(lines, k + 1, width, rows - 1, palette, acc + Row(palette, lines[k], width))
    ensures BlockRows(lines, pos, width, rows, palette, acc).0 == BlockSpec(lines, pos, width, rows, palette, acc)
  {
    var row := Row(palette, lines[k], width);
    BlockRowsStep(lines, pos, k, width, rows, palette, acc);
    DataFrom(lines, pos, k);
    var d' := DataLines(lines[k + 1..]);
    RowsTake(palette, lines[k], d', width, rows);
    var more := Rows(palette, d'[..Min(Width(rows - 1), |d'|)], width);
    assert (acc + row) + more == acc + (row + more);
  }

  lemma BlockRowsStep(lines: seq<string>, pos: nat, k: nat, width: int, rows: int, palette: Palette, acc: seq<Color>)
    requires pos <= |lines| && rows > 0 && k == NextData(lines, pos) && k < |lines|
    ensures BlockRows(lines, pos, width, rows, palette, acc) ==
      BlockRows(lines, k + 1, width, rows - 1, palette, acc + Row(palette, lines[k], width))
  {
  }

  lemma RowsTake(palette: Palette, line: string, d: seq<string>, width: int, rows: int)
    requires rows > 0
    ensures var e := [line] + d;
      Rows(palette, e[..Min(Width(rows), |e|)], width) ==
      Row(palette, line, width) + Rows(palette, d[..Min(Width(rows - 1), |d|)], width)
  {
    var n := Min(Width(rows - 1), |d|);
    TakeCons(line, d, Width(rows));
    assert Width(rows) - 1 == Width(rows - 1);
    RowsPrepend(palette, line, d[..n], width);
  }

  lemma MulLe(m: nat, n: nat, w: nat)
    requires m <= n
    ensures m * w <= n * w
  {
    assert n * w == m * w + (n - m) * w;
  }

  lemma MulStep(y: nat, n: nat, w: nat)
    requires y < n
    ensures y * w + w <= n * w
  {
    var m := n - y - 1;
    assert n * w == (y + 1 + m) * w == y * w + w + m * w;
  }

  lemma {:induction false} RowsLength(palette: Palette, d: seq<string>, width: int)
    ensures |Rows(palette, d, width)| == |d| * Width(width)
    decreases |d|
  {
    if d != [] {
      RowsLength(palette, d[..|d| - 1], width);
      assert |d| * Width(width) == (|d| - 1) * Width(width) + Width(width);
    }
  }

  /**
   * However many data lines remain, the block holds whole rows of `width` pixels: one per data
   * line read, and at most `height` of them.
   */
  lemma BlockLength(lines: seq<string>, pos: nat, width: int, height: int, palette: Palette)
    requires pos <= |lines|
    ensures |PixelBlock(lines, pos, width, height, palette)| ==
      Min(Width(height), |DataLines(lines[pos..])|) * Width(width)
  {
    var d := DataLines(lines[pos..]);
    BlockIsRows(lines, pos, width, height, palette, []);
    RowsLength(palette, d[..Min(Width(height), |d|)], width);
    assert [] + Rows(palette, d[..Min(Width(height), |d|)], width) == Rows(palette, d[..Min(Width(height), |d|)], width);
  }

  lemma {:induction false} RowsAt(palette: Palette, d: seq<string>, width: nat, y: nat, x: nat)
    requires y < |d| && x < width
    ensures y * width + x < |Rows(palette, d, width)|
    ensures Rows(palette, d, width)[y * width + x] == PixelOf(palette, d[y], x)
    decreases |d|
  {
    var n := |d| - 1;
    var front := d[..n];
    RowsLength(palette, d, width);
    RowsLength(palette, front, width);
    var rows := Rows(palette, d, width);
    assert rows == Rows(palette, front, width) + Row(palette, d[n], width);
    if y < n {
      MulStep(y, n, width);
      RowsAt(palette, front, width, y, x);
      assert d[y] == front[y];
    } else {
      MulStep(y, |d|, width);
      assert y * width == |Rows(palette, front, width)|;
      RowAt(palette, d[n], width, x);
    }
  }

  /**
   * Given at least `height` data lines, the block is exactly `width * height` pixels, row-major:
   * pixel `i` comes from column `i % width` of data line `i / width`.
   */
  lemma FullBlock(lines: seq<string>, pos: nat, width: nat, height: nat, palette: Palette)
    requires pos <= |lines| && height <= |DataLines(lines[pos..])| && width > 0
    ensures |PixelBlock(lines, pos, width, height, palette)| == height * width
    ensures forall i :: 0 <= i < |PixelBlock(lines, pos, width, height, palette)| ==>
      RowOf(i, width) < height &&
      PixelBlock(lines, pos, width, height, palette)[i] ==
        PixelOf(palette, DataLines(lines[pos..])[RowOf(i, width)], ColumnOf(i, width))
  {
    FullBlockLength(lines, pos, width, height, palette);
    forall i | 0 <= i < |PixelBlock(lines, pos, width, height, palette)|
      ensures RowOf(i, width) < height &&
        PixelBlock(lines, pos, width, height, palette)[i] ==
          PixelOf(palette, DataLines(lines[pos..])[RowOf(i, width)], ColumnOf(i, width))
    {
      RowInBlock(i, width, height);
      BlockAt(lines, pos, width, height, palette, RowOf(i, width), ColumnOf(i, width));
    }
  }

  /** The row of pixel `i` when rows are `width` pixels long: `i / width`. */
  function RowOf(i: nat, width: nat): (y: nat)
    requires width > 0
    ensures y * width <= i < y * width + width
  {
    i / width
  }

  /** The column of pixel `i` when rows are `width` pixels long: `i % width`. */
  function ColumnOf(i: nat, width: nat): (x: nat)
    requires width > 0
    ensures x < width && i == RowOf(i, width) * width + x
  {
    i % width
  }

  /** A pixel index of a `height`-row block lies in one of its rows. */
  lemma RowInBlock(i: nat, width: nat, height: nat)
    requires width > 0 && i < height * width
    ensures RowOf(i, width) < height
  {
    var y := RowOf(i, width);
    if y >= height {
      MulStep(height - 1, y, width);
      assert false;
    }
  }

  lemma FullBlockLength(lines: seq<string>, pos: nat, width: nat, height: nat, palette: Palette)
    requires pos <= |lines| && height <= |DataLines(lines[pos..])|
    ensures |PixelBlock(lines, pos, width, height, palette)| == height * width
  {
    FullBlockRows(lines, pos, width, height, palette);
    RowsLength(palette, DataLines(lines[pos..])[..height], width);
  }

  lemma BlockAt(lines: seq<string>, pos: nat, width: nat, height: nat, palette: Palette, y: nat, x: nat)
    requires pos <= |lines| && height <= |DataLines(lines[pos..])| && y < height && x < width
    ensures y * width + x < |PixelBlock(lines, pos, width, height, palette)|
    ensures PixelBlock(lines, pos, width, height, palette)[y * width + x] == PixelOf(palette, DataLines(lines[pos..])[y], x)
  {
    var d := DataLines(lines[pos..]);
    FullBlockRows(lines, pos, width, height, palette);
    RowsAt(palette, d[..height], width, y, x);
    assert d[..height][y] == d[y];
  }

  lemma FullBlockRows(lines: seq<string>, pos: nat, width: nat, height: nat, palette: Palette)
    requires pos <= |lines| && height <= |DataLines(lines[pos..])|
    ensures PixelBlock(lines, pos, width, height, palette) == Rows(palette, DataLines(lines[pos..])[..height], width)
  {
    var d := DataLines(lines[pos..]);
    BlockIsRows(lines, pos, width, height, palette, []);
    var rows := Rows(palette, d[..height], width);
    assert Min(Width(height), |d|) == height;
    assert [] + rows == rows;
  }

  /**
   * With fewer than `height` data lines left, only the complete rows are returned: a multiple
   * of `width` pixels, fewer than `width * height`.
   */
  lemma ShortBlock(lines: seq<string>, pos: nat, width: nat, height: nat, palette: Palette)
    requires pos <= |lines| && height > |DataLines(lines[pos..])| && width > 0
    ensures |PixelBlock(lines, pos, width, height, palette)| == |DataLines(lines[pos..])| * width
    ensures |PixelBlock(lines, pos, width, height, palette)| < height * width
  {
    var d := DataLines(lines[pos..]);
    BlockIsRows(lines, pos, width, height, palette, []);
    assert d[..|d|] == d;
    RowsLength(palette, d, width);
    assert [] + Rows(palette, d, width) == Rows(palette, d, width);
    MulStep(|d|, height, width);
  }
}
