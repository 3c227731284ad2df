# 1bit-sdl2-playground core, modelled in Dafny

This project models the engine core of the 1bit-sdl2-playground game: a small C++ engine built
on SDL2 and an entity-component registry. The model covers:

- the broad-phase quadtree and the collision system that reads it (bounds from transform and
  collider, AABB test, depenetration along the smaller overlap, events for every contact);
- the input manager (action states by frame, axis normalisation, key, button and axis
  bindings) and the input configuration file (parsing, trimming, saving and loading bindings);
- the text asset formats: palettes, pixel blocks, sprite files, tile sets and their textures,
  and the texture atlas they are uploaded into;
- the resource manager's asset cache;
- the tile map loaders: TMX maps and hard-coded maps, with physics layer bitmasks and static
  collision bodies from object layers;
- the per-frame systems: tile map rendering with camera culling, sprite rendering in sort-key
  order, animation, animation state selection and the state machine update.

SDL, the registry, tmxlite and the file system are outside the model. Each of them comes in as
a value: files are sequences of lines, the registry is a set of maps from entity to component,
and textures are atlas descriptions. Calls into SDL become returned sequences of draw calls.

Code that changes state step by step is imperative Dafny:

- the input manager, the resource manager, the collision system and the render system are
  classes;
- the loaders and per-frame systems are methods with loops.

Each method is proved equal to a specification function. The properties proved about those
functions include:

- the quadtree keeps exactly what was inserted and a query reports only intersecting objects;
- saving the bindings and loading them again restores them;
- the pixel-block and palette parsers read what a well-formed file holds;
- the render queue is a sorted permutation of the viewed sprite entities;
- an update never moves a trigger.

Modules follow the source files: `Geometry` and `Quadtree` (src/util/quadtree.hpp),
`Collision`, `Input`, `InputConfig`, `Streams` (the standard stream extraction rules every text
parser relies on), `TextAssets`, `TextureLoader`, `TextureAtlas`, `SpriteLoader`,
`TilesetLoader`, `Resources`, `TilemapComponent`, `TilemapRender`, `TmxLoader`, `HardcodedMapLoader`,
`Components`, `Renderer`, `Animation`, `AnimationState` and `StateMachineSystem`.

## Model

| member | source | states |
|---|---|---|
| Geometry.IntersectionSymmetric | src/util/quadtree.hpp:70-73 | The strict-overlap test does not depend on the order of the two rectangles. |
| Geometry.TouchingIsNotIntersecting | src/util/quadtree.hpp:70-73 | Rectangles that only share an edge do not intersect, because the comparisons are strict. |
| Quadtree.GetIndex | src/util/quadtree.hpp:100-118 | The quadrant is -1..3. Quadrants 1 and 2 lie wholly left of the vertical midline and 0 and 3 start right of it; 0 and 1 lie wholly above the horizontal midline and 2 and 3 start below it. The result is -1 exactly when the rectangle fits on neither side of one of the midlines. |
| Quadtree.ChildBoundsHalve | src/util/quadtree.hpp:87-98 | Each child has half the width and height, truncated toward zero as C++ `int` division does, so for an odd size twice the half misses it by one toward zero, for negative sizes too. Children 0 and 3 start one half-width right of the node, and children 2 and 3 one half-height below it. |
| Quadtree.Empty | src/util/quadtree.hpp:24-25 | A new node is a valid empty leaf at the given level and bounds. |
| Quadtree.Clear | src/util/quadtree.hpp:76-85 | Clearing leaves a valid empty leaf with the same level and bounds. |
| Quadtree.ClearIdempotent | src/util/quadtree.hpp:76-85 | Clearing twice is the same as clearing once. |
| Quadtree.Split | src/util/quadtree.hpp:87-98 | Splitting adds four empty children one level deeper, child i with the bounds ChildBounds gives it, and keeps the bucket. |
| Quadtree.SplitKeepsContents | src/util/quadtree.hpp:87-98 | Splitting a leaf below the level limit keeps the multiset of stored pairs, and every child is well formed. |
| Quadtree.MoveDown | src/util/quadtree.hpp:137-146 | Moving the i-th bucket entry into the child its quadrant names keeps the stored multiset and the tree's shape. |
| Quadtree.SkipStraddling | src/util/quadtree.hpp:137-146 | An entry that straddles a midline stays in the parent's bucket. |
| Quadtree.Insert | src/util/quadtree.hpp:120-148 | The tree stays valid and holds what it held plus the inserted pair. Level and bounds are unchanged and a split node stays split. A leaf splits only when its bucket would exceed MAX_OBJECTS (10) below MAX_LEVELS (5). |
| Quadtree.BucketMatches | src/util/quadtree.hpp:157-162 | The objects of a bucket whose rectangles meet the area, no more of them than the bucket holds. |
| Quadtree.BucketMatchesSound | src/util/quadtree.hpp:157-162 | Every object the bucket scan reports is stored with a rectangle that meets the area. |
| Quadtree.BucketMatchesComplete | src/util/quadtree.hpp:157-162 | Every stored pair whose rectangle meets the area is reported. |
| Quadtree.Query | src/util/quadtree.hpp:150-171 | The result is the found list followed by the tree's matches, parent bucket before the children in order. An area outside the node's bounds adds nothing. |
| Quadtree.QuerySound | src/util/quadtree.hpp:150-171 | Every object a query reports is stored somewhere in the tree with a rectangle that meets the area. |
| Quadtree.LeafQueryComplete | src/util/quadtree.hpp:150-171 | In a leaf whose bounds meet the area, every stored pair whose rectangle meets the area is reported. |
| Quadtree.OddSplitRoutesOutside | src/util/quadtree.hpp:87-118 | With an odd width, GetIndex can send a rectangle to a child whose truncated bounds it does not meet. |
| Quadtree.OddSplitQueryMisses | src/util/quadtree.hpp:87-171 | A valid split 5 by 5 tree stores a pair in the child GetIndex sends it to, and a query over that pair's own rectangle, which meets the root, reports nothing. |
| Quadtree.FullQueryComplete | src/util/quadtree.hpp:150-171 | The corrected query, which tests every node's bucket, reports the object of every stored pair whose rectangle meets the area. |
| Quadtree.FullQuerySound | src/util/quadtree.hpp:150-171 | Every object the corrected query reports is stored with a rectangle that meets the area. |
| Quadtree.FullQueryCovers | src/util/quadtree.hpp:150-171 | The corrected query reports every object the query as written reports. |
| Quadtree.HeightBounded | src/util/quadtree.hpp:132-135 | No node of a valid tree lies deeper than MAX_LEVELS. |
| Input.NormalizeAxis | src/core/input_manager.cpp:63-71 | A reading whose magnitude is inside the dead zone is 0. Outside it the value times 32767 is the raw reading, so a signed 16-bit reading lands in [-32768/32767, 1]. |
| Input.WithPressed | src/core/input_manager.cpp:41 | Setting an action's pressed flag adds the action if it was missing, with its previous flag false, and keeps every other action. |
| Input.InputManager.constructor | src/core/input_manager.cpp:5-9 | A new manager has no bindings and no action states, and it keeps the given dead zone. |
| Input.InputManager.PrepareForUpdate | src/core/input_manager.cpp:21-27 | Each action's previous flag becomes its current flag, so afterwards no action is just pressed or just released. Nothing else changes. |
| Input.InputManager.HandleEvent | src/core/input_manager.cpp:29-84 | A bound key that is not a repeat, or a bound button, sets its action's pressed flag to whether it went down. A bound axis stores its normalised reading. Unbound inputs, key repeats and device events change no action state, and the bindings never change. |
| Input.InputManager.IsActionPressed | src/core/input_manager.cpp:86-89 | An unknown action is not pressed. |
| Input.InputManager.IsActionJustPressed | src/core/input_manager.cpp:91-95 | Just pressed means pressed now and not just released. An unknown action is never just pressed. |
| Input.InputManager.IsActionJustReleased | src/core/input_manager.cpp:97-101 | Just released means not pressed now. An unknown action is never just released. |
| Input.InputManager.MapKeyToAction | src/core/input_manager.cpp:104-107 | The key is bound to the action and the action's state is reset to released, so it is neither pressed nor just pressed or released. The other bindings stay as they were. |
| Input.InputManager.MapButtonToAction | src/core/input_manager.cpp:109-112 | The button is bound to the action and the action's state is reset to released. The other bindings stay as they were. |
| Input.InputManager.GetAxisValue | src/core/input_manager.cpp:115-121 | The stored value of a known axis action, and 0 for an unknown one. |
| Input.InputManager.MapAxisToAction | src/core/input_manager.cpp:123-126 | The axis is bound to the action and the action's value is reset to 0. Nothing else changes. |
| InputConfig.LeadingBlanks | src/util/input_config_loader.cpp:13-14 | The position of the first character that is not a space or tab; everything before it is blank. |
| InputConfig.TrailingBlanks | src/util/input_config_loader.cpp:15 | The number of spaces and tabs at the end; the character before them is not blank. |
| InputConfig.Trim | src/util/input_config_loader.cpp:12-18 | Trimming never lengthens a string. |
| InputConfig.TrimEmpty | src/util/input_config_loader.cpp:13-14 | The trimmed string is empty exactly when every character is a space or tab. |
| InputConfig.TrimEnds | src/util/input_config_loader.cpp:12-18 | A non-empty trimmed string starts and ends with a non-blank character. |
| InputConfig.TrimSlice | src/util/input_config_loader.cpp:12-18 | The trimmed string is a contiguous slice of the input with only blanks before and after it. |
| InputConfig.TrimPadded | src/util/input_config_loader.cpp:12-18 | Trimming blanks added around an unpadded string gives that string back. |
| InputConfig.TrimIdempotent | src/util/input_config_loader.cpp:12-18 | Trimming twice is the same as trimming once. |
| InputConfig.UpperChar | src/util/input_config_loader.cpp:24 | A lower-case ASCII letter maps to its upper-case letter and every other character is left alone. |
| InputConfig.ToUpper | src/util/input_config_loader.cpp:21-26 | Upper-casing keeps the length and maps each character on its own position. |
| InputConfig.UpperUnchanged | src/util/input_config_loader.cpp:21-26 | A string without lower-case letters is unchanged. |
| InputConfig.Find | src/util/input_config_loader.cpp:118 | None exactly when the character does not occur; otherwise the index of its first occurrence. |
| InputConfig.Reverse | src/util/input_config_loader.cpp:58-61 | The reverse map sends each code back to a name that maps to it, and has no other entries. |
| InputConfig.ReversesInjective | src/util/input_config_loader.cpp:58-61 | For a table with distinct codes, the reverse map sends every code back to its own name. |
| InputConfig.KeyNamesPlain | src/util/input_config_loader.cpp:42-56 | Every key name in the table is an upper-case word with no blank, dot or equals sign, so it parses back unchanged. |
| InputConfig.ButtonNamesPlain | src/util/input_config_loader.cpp:64-78 | Every button name is such a word. |
| InputConfig.AxisNamesPlain | src/util/input_config_loader.cpp:86-91 | Every axis name is such a word. |
| InputConfig.KindOf | src/util/input_config_loader.cpp:136-156 | The input kind whose name is the type word, or None exactly when no kind has that name. |
| InputConfig.Bind | src/util/input_config_loader.cpp:136-150 | Binding a code sets it in the bindings of its own kind and leaves the other kinds alone. |
| InputConfig.NameTables.constructor | src/util/input_config_loader.cpp:29-36 | The name tables start out empty. |
| InputConfig.NameTables.InitializeMaps | src/util/input_config_loader.cpp:38-97 | Afterwards the tables and their reverse maps are filled. When they were already filled, nothing changes. |
| InputConfig.NameTables.FillKeys | src/util/input_config_loader.cpp:42-61 | The key table is the fixed table of letters, space, arrows and F1 to F12, and its reverse map reverses it. The other tables are untouched. |
| InputConfig.NameTables.FillButtons | src/util/input_config_loader.cpp:64-83 | The button table is the fifteen controller buttons, and its reverse map reverses it. The other tables are untouched. |
| InputConfig.NameTables.FillAxes | src/util/input_config_loader.cpp:86-96 | The axis table is the six controller axes, and its reverse map reverses it. The other tables are untouched. |
| InputConfig.ParseLineCases | src/util/input_config_loader.cpp:113-134 | A trimmed line that is empty or starts with '#' or '[' is skipped. A line without '=' is a syntax error, and a key part without '.' is an invalid key. An entry has a trimmed action. |
| InputConfig.LoadLinesAppend | src/util/input_config_loader.cpp:111-157 | Loading two blocks of lines is loading the first and then the second. |
| InputConfig.LastLineWins | src/util/input_config_loader.cpp:136-156 | A line that binds a known name leaves that name bound to its action. A line that is not an entry changes nothing. |
| InputConfig.LoadLine | src/util/input_config_loader.cpp:112-156 | Processing one line leaves the manager's bindings as the line specification gives them. |
| InputConfig.BindEntry | src/util/input_config_loader.cpp:136-156 | An entry with a known type and name calls the matching bind with the name's code. An unknown type or name changes nothing. |
| InputConfig.LoadFromFile | src/util/input_config_loader.cpp:100-160 | The tables are initialised. The result is false exactly when the file could not be opened, and then nothing changes. Otherwise the bindings are those of loading every line in order. |
| InputConfig.LoadAllLines | src/util/input_config_loader.cpp:111-157 | The read loop applies the lines in file order. |
| InputConfig.SectionLines | src/util/input_config_loader.cpp:178-182 | A section holds at most one line per binding. Each line is "TYPE.NAME = action" for a bound code that has a name. |
| InputConfig.WriteSection | src/util/input_config_loader.cpp:178-196 | The writing loop produces exactly the section lines. |
| InputConfig.SaveToFile | src/util/input_config_loader.cpp:162-205 | The tables are initialised. An unopened file gives false and writes nothing. Otherwise the header's comment lines and section line come first, then the key, button and axis sections in the registry's iteration order. |
| InputConfig.ParseBindingLine | src/util/input_config_loader.cpp:113-134 | A written binding line parses back to its upper-cased type and name and its action. |
| InputConfig.HeaderSkipped | src/util/input_config_loader.cpp:171-175 | Loading the saved header changes no binding. |
| InputConfig.CommentSkipped | src/util/input_config_loader.cpp:116 | A line that starts with '#' or '[' is skipped. |
| InputConfig.SkippedLinesIgnored | src/util/input_config_loader.cpp:116 | Lines that are all skipped change nothing. |
| InputConfig.BindingLineParses | src/util/input_config_loader.cpp:180 | The line written for a binding parses to its kind's name, the binding's name and its action. |
| InputConfig.ApplyBindingLine | src/util/input_config_loader.cpp:136-156 | Loading a written binding line binds the name's code to the action. |
| InputConfig.EntryApplied | src/util/input_config_loader.cpp:133-156 | A line that parses to an entry is applied as that entry. |
| InputConfig.Restrict | src/util/input_config_loader.cpp:179 | The bindings whose codes have a name, with their actions. |
| InputConfig.SectionRoundTrip | src/util/input_config_loader.cpp:178-196 | Loading a saved section adds exactly the written bindings to its kind and leaves the other kinds alone. |
| InputConfig.SectionRestored | src/util/input_config_loader.cpp:178-196 | Loading a section that lists every binding restores every binding whose code has a name. |
| InputConfig.SaveLoadRoundTrip | src/util/input_config_loader.cpp:162-196 | Loading a saved file over any bindings adds back every saved binding whose code has a name, for keys, buttons and axes. |
| InputConfig.SaveThenLoadFresh | src/util/input_config_loader.cpp:100-196 | Saving with the engine's tables and loading into a fresh manager restores exactly the bindings of named keys, buttons and axes. |
| Streams.TextFile.constructor | src/util/text_asset_parser.cpp:5-8 | An opened file holds its lines and reads from the first. |
| Streams.TextFile.GetLine | src/util/text_asset_parser.cpp:8 | Reading a line succeeds exactly when lines are left. It then returns the next line and moves one line on; otherwise the position is unchanged. |
| Streams.ContainsOccurs | src/util/text_asset_parser.cpp:8 | The substring search finds the marker exactly when it occurs at some position of the line. |
| Streams.OfLine | src/util/text_asset_parser.cpp:11 | A string stream over a line starts good, at the line's first character. |
| Streams.SkipSpaces | src/util/text_asset_parser.cpp:14 | Skipping whitespace stops at the first character that is not whitespace, or at the end. |
| Streams.Sentry | src/util/text_asset_parser.cpp:14 | The extraction sentry fails a stream that is not good. Otherwise it skips whitespace and fails it at the end of the text; when it does not fail, a non-space character is next. |
| Streams.ReadChar | src/util/text_asset_parser.cpp:14 | Extracting a character leaves the target unchanged when the stream fails. |
| Streams.ReadWord | src/util/texture_loader.cpp:30-32 | Extracting a word leaves the target unchanged on failure and otherwise gives a non-empty word. |
| Streams.ReadInt | src/util/text_asset_parser.cpp:13-14 | Extracting an int gives a value within the 32-bit range whenever it succeeds. An overflow clamps to the range and fails. |
| Streams.ReadIntOfDecimal | src/util/text_asset_parser.cpp:14 | A decimal number in the 32-bit range, after any whitespace and before a token end, reads as itself. It does not fail, and end of file is set exactly when nothing follows. |
| Streams.ReadIntOfText | src/util/text_asset_parser.cpp:14 | An optionally negative digit string in range reads as its value and leaves the stream just after it. |
| Streams.ReadWordOf | src/util/texture_loader.cpp:30-32 | A word after whitespace reads as that word and leaves the stream just after it. |
| Streams.ReadCharOf | src/util/text_asset_parser.cpp:14 | A non-space character after whitespace reads as that character and does not set end of file. |
| Streams.FailureSticks | src/util/text_asset_parser.cpp:14 | Once a stream has failed, every further extraction leaves the stream and the target unchanged. |
| Streams.ReadAtEnd | src/util/text_asset_parser.cpp:14 | With only whitespace left, every extraction fails and leaves its target unchanged. |
| Streams.ReadIntNoDigits | src/util/text_asset_parser.cpp:14 | A token that starts with neither a sign nor a digit fails the int extraction and stores 0. |
| Streams.DigitsValueOfDigits | src/util/text_asset_parser.cpp:14 | The decimal digits of a natural number read back as that number. |
| TextAssets.U32 | src/util/text_asset_parser.cpp:15-18 | The conversion to a 32-bit unsigned value keeps a channel value in 0..255 below 256. |
| TextAssets.PackBits | src/util/text_asset_parser.cpp:15-18 | Packing four 8-bit channels puts red in bits 0-7, green in 8-15, blue in 16-23 and alpha in 24-31, each readable back. |
| TextAssets.UnpackPack | src/util/text_asset_parser.cpp:15-18 | Each channel of a colour packed from values in 0..255 reads back as that value. |
| TextAssets.KeyOfLine | src/util/texture_loader.cpp:30-32 | The first word of a line is read as the key, and the stream stops just after it. |
| TextAssets.PaletteEntry | src/util/text_asset_parser.cpp:9-20 | An empty line or a comment yields no palette entry. |
| TextAssets.Apply | src/util/text_asset_parser.cpp:19 | An entry sets its own character to its colour. No other character changes, and nothing else is added. |
| TextAssets.ScanStep | src/util/text_asset_parser.cpp:8-21 | A line without the end marker applies its entry and the scan goes on with the next line. |
| TextAssets.ScanAtEnd | src/util/text_asset_parser.cpp:8 | At the end of the file the scan stops with the palette it has. |
| TextAssets.ScanAtMarker | src/util/text_asset_parser.cpp:8 | A line containing PALETTE_END is consumed and ends the scan. |
| TextAssets.PaletteFrom | src/util/text_asset_parser.cpp:5-23 | The palette a file yields from a line on, and the line after the scan, which is never before it. |
| TextAssets.ParsePalette | src/util/text_asset_parser.cpp:5-23 | The parser returns the palette of the lines up to the end marker and leaves the file just after the marker, or at its end. |
| TextAssets.PaletteStop | src/util/text_asset_parser.cpp:8 | The first line from a position on that holds the end marker, or the end of the file. |
| TextAssets.PaletteFromStops | src/util/text_asset_parser.cpp:5-23 | The parsed palette is the palette of the entries before the first end marker. |
| TextAssets.EntriesDefined | src/util/text_asset_parser.cpp:19 | A character is in the palette exactly when some entry defines it. |
| TextAssets.LastEntryWins | src/util/text_asset_parser.cpp:19 | A character's colour is the one its last defining entry gives. |
| TextAssets.PaletteLineRoundTrip | src/util/text_asset_parser.cpp:11-19 | A line "c r g b a" with in-range numbers yields the entry for c with the colour packed from r, g, b and a. |
| TextAssets.PixelOf | src/util/text_asset_parser.cpp:41-47 | A character in the palette gives its colour and an unknown one gives magenta (0xFFFF00FF). Beyond the line's end the character '0' is used. |
| TextAssets.Row | src/util/text_asset_parser.cpp:40-48 | A data line yields exactly width pixels. |
| TextAssets.RowAt | src/util/text_asset_parser.cpp:40-48 | The x-th pixel of a row is the pixel of the line's x-th position. |
| TextAssets.NextData | src/util/text_asset_parser.cpp:32-38 | The next line that is neither empty nor a comment, with every line skipped before it a comment. |
| TextAssets.ReserveThrowsOneNegative | src/util/text_asset_parser.cpp:27 | Reserving width times height pixels throws exactly when one size is negative and the other positive. |
| TextAssets.ParsePixelBlock | src/util/text_asset_parser.cpp:25-51 | The parser throws, reading nothing, exactly when the reservation throws. Otherwise it returns the block that the specification function gives for the lines from the file position, and leaves the file where the row scan stops. |
| TextAssets.NextDataLine | src/util/text_asset_parser.cpp:32-38 | The skipping loop finds the next data line and stands just after it, or reaches the end of the file and reports failure. |
| TextAssets.PushRow | src/util/text_asset_parser.cpp:40-48 | The inner loop appends exactly one row's pixels. |
| TextAssets.DataLines | src/util/text_asset_parser.cpp:32-38 | The data lines of a file are what remains after dropping empty and comment lines. |
| TextAssets.BlockIsRows | src/util/text_asset_parser.cpp:30-49 | The row scan yields the rows of the first height data lines. |
| TextAssets.BlockLength | src/util/text_asset_parser.cpp:30-49 | A block has width pixels for each data line read, up to height lines. |
| TextAssets.FullBlock | src/util/text_asset_parser.cpp:25-51 | With enough data lines the block has height times width pixels. Pixel i is the pixel of data line i / width at column i mod width. |
| TextAssets.BlockAt | src/util/text_asset_parser.cpp:40-48 | Pixel (x, y) of a full block is the pixel of data line y at column x. |
| TextAssets.FullBlockRows | src/util/text_asset_parser.cpp:30-49 | A full block is the rows of its first height data lines. |
| TextAssets.ShortBlock | src/util/text_asset_parser.cpp:33-36 | When the file ends early, the block is shorter than height times width, with one row per data line found. |
| TextureLoader.ReadSize | src/util/texture_loader.cpp:34-35 | Reading the size never touches the palette, and a failed stream leaves the header unchanged. |
| TextureLoader.LineStep | src/util/texture_loader.cpp:27-53 | Each header line moves the scan forward. Only a PALETTE_BEGIN line can change the palette. |
| TextureLoader.Scan | src/util/texture_loader.cpp:27-79 | The scan stops at a STATE line, which lies at or after where it started, or runs to the end of the file. |
| TextureLoader.LoadFromSpriteFile | src/util/texture_loader.cpp:8-104 | The loader throws exactly when the reservation at the first STATE line throws. It returns the texture the specification function gives for the file's contents and whether texture creation succeeded. A throw, an unopened file, a zero size or no pixels gives none. |
| TextureLoader.ReadSprite | src/util/texture_loader.cpp:15-80 | Reading the file yields the header and pixels the specification function gives, and throws exactly when the STATE line is reached with a size whose reservation throws. |
| TextureLoader.MixedSignStateThrows | src/util/texture_loader.cpp:34-56 | The file `SPRITE_SIZE -1 2`, `STATE`, `1` makes the loader throw, with no texture. |
| TextureLoader.TextureShape | src/util/texture_loader.cpp:56-101 | A loaded texture has a positive size and some pixels, made of whole rows and never more than width times height. |
| TextureLoader.PixelRows | src/util/texture_loader.cpp:56-79 | The STATE block yields whole rows, at most height of them. |
| TextureLoader.StateIndex | src/util/texture_loader.cpp:53 | The first STATE line from a position on, or the end of the file. |
| TextureLoader.DefaultPaletteKept | src/util/texture_loader.cpp:23-24 | Without a PALETTE_BEGIN before the STATE line, the default palette of '0' transparent and '1' off-white is used. |
| TextureLoader.PaletteBeginDiscards | src/util/texture_loader.cpp:36-37 | A PALETTE_BEGIN line discards any palette defined before it. |
| TextureLoader.KeyOfSizeLine | src/util/texture_loader.cpp:34-35 | A "SPRITE_SIZE w h" line sets the width to w and the height to h. |
| TextureLoader.KeyOfState | src/util/texture_loader.cpp:53 | The line "STATE" has the key STATE. |
| TextureLoader.ShortStateUploaded | src/util/texture_loader.cpp:56-101 | A 2x2 sprite whose STATE block has only one row is still uploaded, with 2 of its 4 pixels. |
| TextureLoader.CheckedTexture | src/util/texture_loader.cpp:82-101 | The corrected loader returns only textures whose pixel count is width times height; these are the textures the loader as written returns. It rejects exactly the short blocks. |
| TextureAtlas.SizeT | src/util/sprite_asset_loader.cpp:91 | The conversion to size_t wraps modulo 2^64 and keeps values already in range. |
| TextureAtlas.Place | src/util/tileset_asset_loader.cpp:66-70 | A block's destination has the block's width and height. |
| TextureAtlas.UploadsAre | src/util/sprite_asset_loader.cpp:90-94 | An upload happens exactly for each block with width times height pixels (as size_t), at its own cell, in block order. |
| TextureAtlas.UploadBlocks | src/util/tileset_asset_loader.cpp:66-72 | The upload loop performs exactly the uploads the specification function lists. |
| TextureAtlas.StripCells | src/util/sprite_asset_loader.cpp:81-94 | With a positive frame size, each frame cell lies inside the width*n by height atlas, and distinct frames do not overlap. |
| TextureAtlas.GridCells | src/util/tileset_asset_loader.cpp:54-72 | Each tile cell lies inside the columns*width by rows*height atlas, and distinct tiles do not overlap. |
| TextureAtlas.RowInGrid | src/util/tileset_asset_loader.cpp:55 | Every tile's row is below ceil(tileCount / columns). |
| SpriteLoader.AnimationFrom | src/util/sprite_asset_loader.cpp:57-68 | The animation read from a line on, and the line after it, which is never before the start. |
| SpriteLoader.AnimationStop | src/util/sprite_asset_loader.cpp:57 | The first line from a position on that contains ANIMATION_END, or the end of the file. |
| SpriteLoader.DefaultDuration | src/util/sprite_asset_loader.cpp:55 | Before the first DURATION line, frames last 100 ms. |
| SpriteLoader.AnimationFrames | src/util/sprite_asset_loader.cpp:54-68 | An animation is the frames of the FRAME lines up to ANIMATION_END, each with the duration of the last DURATION line before it. |
| SpriteLoader.ParseAnimation | src/util/sprite_asset_loader.cpp:54-68 | The loop returns the animation the specification gives and leaves the file after ANIMATION_END, or at the end. |
| SpriteLoader.NoFramesOutsideAtlas | src/util/sprite_asset_loader.cpp:33-38 | Without a TEXTURE_ATLAS_BEGIN, "# FRAME_" comments read no frames. |
| SpriteLoader.Scan | src/util/sprite_asset_loader.cpp:29-71 | The scan throws only at a frame inside the atlas section whose size makes the reservation throw. |
| SpriteLoader.FrameMarkReadsBlock | src/util/sprite_asset_loader.cpp:34-35 | Inside the atlas section a "# FRAME_" comment reads one pixel block of the sprite's size and carries on after it. When the size makes the reservation throw, the loop ends there with the throw. |
| SpriteLoader.MixedSignFrameThrows | src/util/sprite_asset_loader.cpp:34-46 | A sprite of size 2 by -1 with one "# FRAME_" in its atlas section makes the loader throw, with no asset. |
| SpriteLoader.AssetShape | src/util/sprite_asset_loader.cpp:75-97 | A loaded asset has an id, a non-zero size and frames. Its atlas is width*frames by height and holds exactly the uploads of the right-sized frames, each at its strip cell; the cells lie inside the atlas and do not overlap. |
| SpriteLoader.LoadFromFile | src/util/sprite_asset_loader.cpp:8-98 | The loader throws exactly when the file opens, the format is allocated and the scan throws. It returns the asset the specification function gives for the file, the pixel format and the texture creation, and none after a throw. |
| SpriteLoader.ReadLines | src/util/sprite_asset_loader.cpp:29-71 | The read loop yields the parse state of the specification's scan, including whether and where it threw. |
| TilesetLoader.Scan | src/util/tileset_asset_loader.cpp:23-46 | The column count stays an int. The scan throws only at a tile inside the TILES section whose size makes the reservation throw. |
| TilesetLoader.MixedSignTileThrows | src/util/tileset_asset_loader.cpp:27-44 | The file `TILE_SIZE -1 2`, `TILES_BEGIN`, `# t`, `1` makes the loader throw, with no asset. |
| TilesetLoader.NonZeroSizeT | src/util/tileset_asset_loader.cpp:48 | A non-zero int column count is non-zero as a size_t. |
| TilesetLoader.AssetShape | src/util/tileset_asset_loader.cpp:48-75 | A loaded tileset has a non-zero tile size and column count, and its tile count is the number of blocks read. Its atlas is columns*tileWidth by rows*tileHeight and holds exactly the uploads of the right-sized tiles, each at its grid cell. |
| TilesetLoader.TilesInAtlas | src/util/tileset_asset_loader.cpp:54-72 | With positive sizes every tile cell lies inside the atlas, and distinct tiles do not overlap. |
| TilesetLoader.LoadFromFile | src/util/tileset_asset_loader.cpp:9-76 | The loader throws exactly when the file opens and the scan throws. It returns the tileset the specification function gives. A throw, an unopened file, a zero size or column count, or no tiles gives none. |
| TilesetLoader.ReadLines | src/util/tileset_asset_loader.cpp:23-46 | The read loop yields the parse state of the specification's scan, including whether and where it threw. |
| Resources.PathsAreDistinct | src/util/resource_manager.cpp:40-62 | Distinct sprite ids have distinct file paths, distinct tileset ids have distinct paths, and a sprite path is never a tileset path. |
| Resources.SpriteLoadCaches | src/util/resource_manager.cpp:33-53 | Loading a sprite keeps every cached asset. It adds the id exactly when it returns an asset, and then caches that asset under it. A cache whose assets carry their own ids keeps that property, and the returned asset has the requested id. |
| Resources.SpriteLoadIdempotent | src/util/resource_manager.cpp:35-37 | Loading a sprite again after a successful load returns the cached asset and changes nothing. |
| Resources.SpriteIdMismatch | src/util/resource_manager.cpp:44-48 | A file whose sprite id differs from the requested one gives no asset and is not cached. |
| Resources.TilesetLoadCaches | src/util/resource_manager.cpp:55-71 | Loading a tileset keeps the cache and adds the id exactly on success. A missing id gets what the file loader returns, and loading it again returns the cached asset. |
| Resources.ResourceManager.constructor | src/util/resource_manager.cpp:9-20 | The base path is the executable's directory, or "./" when it is unknown, and both caches start empty. |
| Resources.ResourceManager.GetSpriteAsset | src/util/resource_manager.cpp:24-31 | The cached asset exactly when the id is cached, and none otherwise. |
| Resources.ResourceManager.GetTilesetAsset | src/util/resource_manager.cpp:73-79 | The cached tileset exactly when the id is cached, and none otherwise. |
| Resources.ResourceManager.LoadSpriteAsset | src/util/resource_manager.cpp:33-53 | The returned asset and the new sprite cache are those the load specification gives. The tileset cache and base path do not change. |
| Resources.ResourceManager.LoadTilesetAsset | src/util/resource_manager.cpp:55-71 | The returned tileset and the new tileset cache are those the load specification gives, whatever the source hint. The sprite cache and base path do not change. |
| Collision.TruncToInt | src/systems/collision_system.cpp:22-25 | The cast to int truncates toward zero: down for non-negative values and up for negative ones, by less than 1. |
| Collision.TruncTowardZero | src/systems/collision_system.cpp:22-25 | Truncation is odd-symmetric and exact on whole numbers. |
| Collision.EntityBounds | src/systems/collision_system.cpp:11-27 | The box has the truncated scaled size. Its corner is the truncated centre minus half the scaled size plus the scaled offset. |
| Collision.EntityBoundsCentred | src/systems/collision_system.cpp:11-27 | An unscaled, unoffset collider of size 2w by 2h centred at whole (cx, cy) has the box (cx-w, cy-h, 2w, 2h). |
| Collision.CheckAABBCollisionAgrees | src/systems/collision_system.cpp:30-33 | The narrow-phase test is the quadtree's intersection test. It is symmetric, and touching edges do not collide. |
| Collision.Push | src/systems/collision_system.cpp:36-59 | The push is along the axis of the smaller overlap, by that overlap, in one direction, and leaves the other axis alone. |
| Collision.PushSeparates | src/systems/collision_system.cpp:35-60 | After the push the two boxes touch along an edge and no longer intersect. |
| Collision.DePenetrate | src/systems/collision_system.cpp:35-60 | The position moves by exactly the push. |
| Collision.Hits | src/systems/collision_system.cpp:90-111 | Every contact reported for an entity is a candidate that passes the self, layer-mask and box tests. |
| Collision.EventsOf | src/systems/collision_system.cpp:111 | One collision event per contact, from the moving entity to the other, in order. |
| Collision.CandidateEvents | src/systems/collision_system.cpp:90-121 | The events of one entity's candidate loop are the events of its contacts, in candidate order. |
| Collision.EventsIgnorePosition | src/systems/collision_system.cpp:85-111 | The events depend on the bounds taken before the loop, not on the position the depenetration updates. |
| Collision.TriggerStaysPut | src/systems/collision_system.cpp:116-119 | A trigger never moves, whatever it touches. |
| Collision.TriggerPairDoesNotMove | src/systems/collision_system.cpp:108-119 | A contact that involves a trigger sends its event and moves nothing. |
| Collision.QueryInWorld | src/systems/collision_system.cpp:88-96 | Every candidate the quadtree returns has a transform and a collider. |
| Collision.Resolve | src/systems/collision_system.cpp:81-121 | Resolving one moving entity changes only that entity's position. |
| Collision.ResolveEvents | src/systems/collision_system.cpp:90-111 | Every event of one entity is from it to another entity whose layers and masks allow the collision. |
| Collision.NarrowPhase | src/systems/collision_system.cpp:79-122 | The narrow phase keeps the colliders and the set of transforms. |
| Collision.NarrowPhaseFrame | src/systems/collision_system.cpp:79-122 | Only moving entities move, and no entity's scale or rotation changes. |
| Collision.NarrowPhaseEvents | src/systems/collision_system.cpp:79-122 | Every event is from a moving entity to a different entity, and their layers and masks allow it. |
| Collision.Pairs | src/systems/collision_system.cpp:72-75 | The broad phase inserts each collider's entity with its bounds, in view order. |
| Collision.InsertAll | src/systems/collision_system.cpp:72-75 | The insert loop leaves a valid tree holding what it held plus every collider's pair. |
| Collision.CollisionSystem.constructor | src/systems/collision_system.cpp:6-8 | The system starts with an empty valid quadtree at level 0 over the world bounds. |
| Collision.CollisionSystem.Rebuild | src/systems/collision_system.cpp:70-75 | After clearing and refilling, the tree holds exactly the current colliders' pairs. |
| Collision.CollisionSystem.Update | src/systems/collision_system.cpp:64-123 | The tree holds exactly this frame's colliders, and the new transforms and event queue are the narrow phase over it. |
| Collision.NarrowPhaseAll | src/systems/collision_system.cpp:81-122 | The loop over moving entities computes the narrow phase. |
| Collision.ResolveEntity | src/systems/collision_system.cpp:82-121 | The loop over one entity's candidates computes its resolution. |
| TilemapRender.StartIndex | src/systems/tilemap_render_system.cpp:37-38 | The first visible column or row is never negative. |
| TilemapRender.EndIndex | src/systems/tilemap_render_system.cpp:39-40 | The end of the visible columns or rows never passes the first layer's size. |
| TilemapRender.VisibleRange | src/systems/tilemap_render_system.cpp:33-40 | The visible rows and columns lie inside the first layer. |
| TilemapRender.InRange | src/systems/tilemap_render_system.cpp:37-40 | An index is in the visible range exactly when it lies in the layer and its tile overlaps the screen span in pixels. |
| TilemapRender.RowVisitsAre | src/systems/tilemap_render_system.cpp:47-49 | One row's loop visits exactly the non-empty tiles of that layer row in the column range. |
| TilemapRender.LayerVisitsAre | src/systems/tilemap_render_system.cpp:46-49 | One layer's loops visit exactly its non-empty tiles in the visible rectangle. |
| TilemapRender.VisitsAre | src/systems/tilemap_render_system.cpp:45-49 | The three loops visit exactly the non-empty tiles of every layer in the visible rectangle. |
| TilemapRender.VisitsOrdered | src/systems/tilemap_render_system.cpp:45-47 | Tiles are drawn layer by layer, bottom layer first, then by row and then by column. |
| Geometry.TruncDivMod | src/systems/tilemap_render_system.cpp:54-55 | C++ division and remainder truncate toward zero: the quotient times the divisor plus the remainder is the dividend, the remainder takes the dividend's sign, and for non-negative operands both agree with Dafny's. |
| TilemapRender.Round | src/systems/tilemap_render_system.cpp:60-61 | Rounding lands within 0.5, and halves round away from zero. |
| TilemapRender.CallsAre | src/systems/tilemap_render_system.cpp:51-65 | One draw call per visited tile, in order, each the call computed for that tile. |
| TilemapRender.RenderCalls | src/systems/tilemap_render_system.cpp:44-68 | Each draw call copies the atlas cell of tile id - 1 to a tile-sized rectangle. The rectangle's corner, rounded, is the tile's pixel position minus the camera's top-left corner. |
| TilemapRender.VisibleCells | src/systems/tilemap_render_system.cpp:33-49 | A tile is drawn exactly when it is non-empty, inside the first layer's size and overlapping the screen around the camera. |
| TilemapRender.NothingToDraw | src/systems/tilemap_render_system.cpp:13-29 | No tilemap, no loaded tileset or no active camera draws nothing. |
| TilemapRender.SourceIsUpload | src/systems/tilemap_render_system.cpp:51-56 | The source rectangle of tile id t is the atlas cell the tileset loader uploaded tile t - 1 to. |
| TilemapRender.Draw | src/systems/tilemap_render_system.cpp:10-69 | The draw calls are those the render specification gives. |
| TilemapRender.DrawLayer | src/systems/tilemap_render_system.cpp:46-67 | The row loop adds the calls of one layer's visible tiles. |
| TilemapRender.DrawRow | src/systems/tilemap_render_system.cpp:47-66 | The column loop adds the calls of one row's visible tiles. |
| TilemapRender.DrawCell | src/systems/tilemap_render_system.cpp:48-65 | One cell adds its call when its tile is non-empty, and nothing otherwise. |
| TmxLoader.LayerBitmask | src/util/tmx_loader.cpp:15-20 | A layer name maps to a single bit among the two lowest, or to 0. It is 0 exactly for names other than WORLD and PLAYER. |
| TmxLoader.KnownLayers | src/util/tmx_loader.cpp:16-17 | WORLD has the value 1 (bit 0) and PLAYER the value 2 (bit 1). |
| TmxLoader.CommaFrom | src/util/tmx_loader.cpp:105 | The next comma from a position on, or the end of the text. |
| TmxLoader.TokensHaveNoComma | src/util/tmx_loader.cpp:103-107 | The comma-separated tokens contain no comma. |
| TmxLoader.TokensJoin | src/util/tmx_loader.cpp:103-107 | Joining the tokens with commas gives back the text, less at most one trailing comma. |
| TmxLoader.OrMasksPresence | src/util/tmx_loader.cpp:97-107 | The OR of the tokens' bits has the value 1 (bit 0) exactly when WORLD is a token and the value 2 (bit 1) exactly when PLAYER is. |
| TmxLoader.MaskIgnoresOrder | src/util/tmx_loader.cpp:105-107 | The mask depends only on which names occur, not on their order or repetition. |
| TmxLoader.WorldAndPlayer | src/util/tmx_loader.cpp:101-107 | "WORLD,PLAYER" gives mask 3. |
| TmxLoader.BlankAfterComma | src/util/tmx_loader.cpp:101-107 | "WORLD, PLAYER" gives mask 1: the token " PLAYER" is not trimmed and names no layer. |
| TmxLoader.MaskNames | src/util/tmx_loader.cpp:102-107 | The token loop ORs the mask of a property value into the mask so far. |
| TmxLoader.LastLayerWins | src/util/tmx_loader.cpp:98-100 | The collider's layer is the bit of the last collisionLayerName property. |
| TmxLoader.NoLayerName | src/util/tmx_loader.cpp:93-100 | Without a collisionLayerName property the layer stays 0. |
| TmxLoader.MaskIsPresence | src/util/tmx_loader.cpp:97-110 | The mask has the value 1 (bit 0) exactly when some collisionMaskNames property names WORLD, and the value 2 (bit 1) exactly when one names PLAYER. |
| TmxLoader.Body | src/util/tmx_loader.cpp:83-110 | A collision object's body is centred on its box, with the box's size, unit scale and no offset. It is static and not a trigger, and carries the properties' layer and mask. |
| TmxLoader.Bodies | src/util/tmx_loader.cpp:81-111 | One body per object. |
| TmxLoader.BodiesAre | src/util/tmx_loader.cpp:81-111 | The i-th body is the body of the i-th object. |
| TmxLoader.ObjectBody | src/util/tmx_loader.cpp:83-110 | The per-object code builds that object's body. |
| TmxLoader.AsInt | src/util/tmx_loader.cpp:72 | A 32-bit tile id stored into an int keeps its value below 2^31 and wraps to a negative value otherwise. |
| TmxLoader.IntIds | src/util/tmx_loader.cpp:68-73 | One stored id per tile, in order, each converted as above. |
| TmxLoader.CopyIds | src/util/tmx_loader.cpp:68-73 | The copy loop stores exactly those ids. |
| TmxLoader.ThrowsOnMismatch | src/util/tmx_loader.cpp:54-65 | Loading throws exactly when some tile layer's tile count differs from width times height as a size_t. |
| TmxLoader.LayersWellSized | src/util/tmx_loader.cpp:54-74 | Every stored layer holds exactly width times height tile ids. |
| TmxLoader.ThrowKeepsPrefix | src/util/tmx_loader.cpp:58-65 | A throw at the first bad layer keeps the layers and bodies added before it. |
| TmxLoader.LoadsEveryLayer | src/util/tmx_loader.cpp:46-114 | Without a bad layer, every tile layer is stored in order and every Collisions object becomes a body. |
| TmxLoader.Names | src/util/tmx_loader.cpp:31-34 | The tileset load requests are the map's tileset names, in order. |
| TmxLoader.LoadOutcome | src/util/tmx_loader.cpp:22-117 | A map that fails to load gives false and nothing else. Otherwise every tileset is requested, and the tilemap takes its tile size and tileset from the first tileset. Loading throws exactly on a bad layer, and otherwise succeeds with every tile layer and collision body. |
| TmxLoader.Load | src/util/tmx_loader.cpp:22-117 | The loader produces the outcome the specification function gives. |
| TmxLoader.CollisionBodies | src/util/tmx_loader.cpp:79-112 | The object loop produces exactly the bodies of the objects. |
| HardcodedMapLoader.PropsThrow | src/util/hardcoded_map_loader.cpp:92-100 | The property loop throws exactly when a layer or mask property holds a value that is not a string. |
| HardcodedMapLoader.SingleNameMask | src/util/hardcoded_map_loader.cpp:91-101 | The mask has the value 1 (bit 0) exactly when some mask property is exactly WORLD, and the value 2 (bit 1) exactly when one is exactly PLAYER. |
| HardcodedMapLoader.BitmaskIsPresence | src/util/hardcoded_map_loader.cpp:10-14 | This loader's layer table gives the value 1 (bit 0) for WORLD, the value 2 (bit 1) for PLAYER and 0 for every other name. |
| HardcodedMapLoader.CommaListIsNoName | src/util/hardcoded_map_loader.cpp:95-98 | A mask value "WORLD,PLAYER" is taken as one name and gives mask 0, where the TMX loader gives 3. |
| HardcodedMapLoader.LastLayerWins | src/util/hardcoded_map_loader.cpp:93-94 | The layer is the bit of the last collisionLayerName property. |
| HardcodedMapLoader.ObjectOf | src/util/hardcoded_map_loader.cpp:78-106 | An object becomes a static, non-trigger collider of its size, centred on its box, with unit scale. Without properties its layer and mask are 0. It throws exactly when a property throws, and then has no rigid body and mask 0; otherwise it gets a static rigid body of mass 0. |
| HardcodedMapLoader.ObjectsOf | src/util/hardcoded_map_loader.cpp:77-107 | At most one entity per object. |
| HardcodedMapLoader.ObjectsThrow | src/util/hardcoded_map_loader.cpp:77-107 | The object loop throws exactly when some object's properties throw. Otherwise every object becomes its entity, in order, with a static rigid body. |
| HardcodedMapLoader.ObjectsStatic | src/util/hardcoded_map_loader.cpp:86-105 | Every created collider is static, and any rigid body is the static body. |
| HardcodedMapLoader.LayersThrow | src/util/hardcoded_map_loader.cpp:41-71 | The layer loop throws exactly when a Collisions group holds a bad object. Otherwise the tile layers are stored in order, with no tile count check. |
| HardcodedMapLoader.StaticBodies | src/util/hardcoded_map_loader.cpp:58-63 | Every entity the layers create is a static collider. |
| HardcodedMapLoader.RequestsAre | src/util/hardcoded_map_loader.cpp:24-29 | Exactly the tilesets with an image are requested, each with its image source as the hint. |
| HardcodedMapLoader.LoadOutcome | src/util/hardcoded_map_loader.cpp:19-75 | The tilemap takes its tile size and tileset from the first tileset, and the tilesets with images are requested. Loading throws exactly on a bad Collisions object, and otherwise stores every tile layer. |
| HardcodedMapLoader.Load | src/util/hardcoded_map_loader.cpp:19-75 | The loader produces the outcome the specification function gives. |
| HardcodedMapLoader.CreateCollisionObjects | src/util/hardcoded_map_loader.cpp:77-107 | The object loop produces the entities and the throw flag the specification gives. |
| HardcodedMapLoader.CreateObject | src/util/hardcoded_map_loader.cpp:79-105 | The per-object code creates the entity the specification gives. |
| HardcodedMapLoader.ReadProperties | src/util/hardcoded_map_loader.cpp:90-101 | The property loop computes the layer, the mask and the throw flag the specification gives. |
| Renderer.Entities | src/systems/renderer.cpp:64-66 | The entities of a queue of renderables, one for each renderable. |
| Renderer.InsertKeeps | src/systems/renderer.cpp:58-59 | Inserting a renderable into a queue adds exactly that renderable. |
| Renderer.InsertSorted | src/systems/renderer.cpp:18-20 | Inserting into a queue sorted by key keeps it sorted by key. |
| Renderer.SortByKeySorted | src/systems/renderer.cpp:58-59 | The sorted queue's keys never decrease, under the order the renderable's less-than gives. |
| Renderer.SortByKeyPermutes | src/systems/renderer.cpp:58-59 | Sorting rearranges the renderables and neither adds nor drops any. |
| Renderer.SortByKeyPermutesEntities | src/systems/renderer.cpp:58-66 | The sorted queue names the same entities, each as often as before. |
| Renderer.CollectRenderables | src/systems/renderer.cpp:49-56 | The first loop holds one renderable per viewed entity, in view order, with its sprite's sort key. |
| Renderer.QueueOf | src/systems/renderer.cpp:61-66 | The persistent queue is the entities of the sorted renderables, in order. |
| Renderer.CollectedEntities | src/systems/renderer.cpp:53-56 | The collected renderables name exactly the viewed entities, in view order. |
| Renderer.SortedKeys | src/systems/renderer.cpp:55-66 | Every queued entity has a sprite, and the key beside it is its sprite's sort key. |
| Renderer.RebuildOrders | src/systems/renderer.cpp:48-70 | The rebuilt queue holds every sprite entity of the view as often as the view does, and their sort keys never decrease along it. |
| Renderer.SourceRect | src/systems/renderer.cpp:117-122 | The source rectangle is one frame of the sprite's size in the atlas's top row. |
| Renderer.FrameSelection | src/systems/renderer.cpp:103-113 | The atlas frame is the current animation frame's cell when the state has an animation and the frame number indexes it. Otherwise it is 0, including for negative frame numbers, which the unsigned comparison makes huge. |
| Renderer.SourceIsAtlasCell | src/systems/renderer.cpp:115-122 | The source rectangle is the strip cell where the sprite loader uploaded that frame, and it lies inside the atlas. |
| Renderer.DrawsAre | src/systems/renderer.cpp:85-101 | Every draw call is for a queued entity whose asset is cached and uses its source rectangle. Every queued entity with a cached asset is drawn, and the others are skipped. |
| Renderer.DrawQueue | src/systems/renderer.cpp:85-140 | The draw loop issues exactly the draw calls the specification lists, in queue order. |
| Renderer.RenderSystem.constructor | src/systems/renderer.cpp:28-38 | The system starts with the given dirty flag and an empty queue. |
| Renderer.RenderSystem.OnSpriteUpdate | src/systems/renderer.cpp:24-26 | A sprite change marks the queue dirty and leaves it as it is. |
| Renderer.RenderSystem.Draw | src/systems/renderer.cpp:40-141 | Without an active, valid camera nothing changes and nothing is drawn. Otherwise a dirty queue is rebuilt in render order, a clean one is kept, the queue is clean afterwards, and the draw calls are those of the queue. |
| Animation.SequenceOf | src/systems/animation.cpp:13-27 | A sprite that plays has a non-empty animation. |
| Animation.Advance | src/systems/animation.cpp:29-42 | Only the frame and timer change, and the frame stays inside the animation. Once the timer in milliseconds reaches the frame's duration, the timer restarts at 0 and the next frame shows, wrapping after the last. Otherwise the timer grows by dt. |
| Animation.AnimateKeepsRange | src/systems/animation.cpp:13-42 | An update keeps the frame number inside the animation and keeps whether the sprite plays. A sprite that does not play is unchanged. |
| Animation.FramesCycle | src/systems/animation.cpp:29-42 | With a frame time at least as long as every frame, k updates move the frame on by k round the animation, so after as many updates as it has frames the sprite is back where it started. |
| Animation.Steps | src/systems/animation.cpp:29-42 | k updates with the same frame time keep the frame inside the animation. |
| Animation.Update | src/systems/animation.cpp:7-44 | Every viewed sprite becomes its one-step update, and every other sprite is unchanged. |
| Animation.AnimateChecked | src/systems/animation.cpp:29-42 | The corrected update restarts a frame number outside the animation at 0. The frame is always in range afterwards, and whether the sprite plays is kept. |
| Animation.CheckedAgrees | src/systems/animation.cpp:29-42 | Wherever the update as written is defined, the corrected one gives the same result. |
| AnimationState.SelectState | src/systems/animation_state_system.cpp:18-32 | The state is "walk" exactly when the blackboard holds true under isMoving, and "idle" otherwise. |
| AnimationState.IdleUnlessMoving | src/systems/animation_state_system.cpp:18-25 | A missing flag, false, and a value of another type, which is reported and caught, all select "idle". |
| AnimationState.Update | src/systems/animation_state_system.cpp:10-34 | Every viewed sprite gets the selected state and keeps everything else, including its frame number. Unviewed sprites are unchanged. |
| AnimationState.ShorterAnimationOverruns | src/systems/animation_state_system.cpp:28-31 | A sprite on frame 3 of a four-frame walk that stops moving is out of range for the two-frame idle. The renderer shows cell 0, and the corrected update restarts it. |
| StateMachineSystem.Target | src/systems/statemachine_system.cpp:16-22 | The target is "walk" exactly when isMoving is true, and "idle" when it is false or missing. It is none exactly when it holds another type, where the cast throws. |
| StateMachineSystem.Touch | src/systems/statemachine_system.cpp:26-35 | Looking a name up adds a null entry when it is missing and never changes an existing entry. |
| StateMachineSystem.StepEffects | src/systems/statemachine_system.cpp:24-45 | On a change the old state's exit, the new state's enter and its update run, in that order, each only for a state object; the previous state is the old one and the clock restarts. Without a change only the update runs and the clock carries on. |
| StateMachineSystem.Run | src/systems/statemachine_system.cpp:6-47 | The update keeps the set of machines. |
| StateMachineSystem.RunOutcome | src/systems/statemachine_system.cpp:6-47 | The update throws exactly when some viewed blackboard holds a wrongly typed flag. Otherwise every viewed machine ends in the state its blackboard asks for, and unviewed machines are unchanged. |
| StateMachineSystem.StepEntity | src/systems/statemachine_system.cpp:16-45 | The per-entity code throws exactly when the step specification does, and otherwise gives its machine and calls. |
| StateMachineSystem.Update | src/systems/statemachine_system.cpp:6-47 | The loop computes the update specification, stopping at the first throw. |
| StateMachineSystem.RunStops | src/systems/statemachine_system.cpp:6-47 | Once the update has thrown, the rest of the view changes nothing. |

## Findings

| source | as written | input that shows it | evidently intended | confidence | as-written member | corrected member |
|---|---|---|---|---|---|---|
| src/util/texture_loader.cpp:56-101 | The STATE loop stops at the end of the file. The guard then rejects only an empty pixel buffer, and the upload reads `width * height` pixels from the buffer. | A sprite file with `SPRITE_SIZE 2 2`, then `STATE`, then the single row `1`. It yields a 2x2 texture from a buffer of 2 pixels. | A texture is created only when the block supplied all `width * height` pixels. | not executed | TextureLoader.ShortStateUploaded | TextureLoader.CheckedTexture |
| src/systems/animation_state_system.cpp:28-31, src/systems/animation.cpp:35 | Changing the state keeps the frame number. The animation update then indexes the new animation with it, without a check. | A four-frame "walk" and a two-frame "idle": a sprite on walk frame 3 stops moving and is on frame 3 of "idle". | The frame restarts when it is outside the new state's animation, as the renderer's check at src/systems/renderer.cpp:109 already assumes. | not executed | Animation.Animate, AnimationState.ShorterAnimationOverruns | Animation.AnimateChecked |
| src/util/quadtree.hpp:87-118, src/util/quadtree.hpp:150-171 | `split` halves an odd width with truncating `/ 2`, so the children's bounds leave out the last column. `getIndex` compares against the exact midpoint `w / 2.0`. `query` skips every node whose bounds miss the area. | A 5 by 5 root split once, with the pair (7, Rect(4, 0, 1, 1)) stored in child 0, whose bounds are Rect(2, 0, 2, 2). A query for Rect(4, 0, 1, 1) reports nothing. | A query reports every stored object whose rectangle meets the area, as the comment at src/util/quadtree.hpp:165-166 intends. | not executed | Quadtree.OddSplitQueryMisses | Quadtree.FullQueryComplete |

## Left out

- Floating point: `float` positions, sizes, timers and camera values are reals, so rounding is not modelled. `static_cast<int>` is modelled as truncation toward zero.
- Integer widths: only the wraps the source relies on are modelled (`size_t` arithmetic modulo 2^64 and the packed 32-bit colours). Other `int` values are unbounded.
- SDL, the entity registry, tmxlite and the file system are outside the model. Their results come in as parameters: files as sequences of lines, a texture creation that may fail as a flag, and registry views as sequences of entities with maps of components.
- Console messages on `std::cerr`/`std::cout` are not modelled.
- InputConfig.SaveToFile: takes the stream's `good()` check as true, because the file system is not modelled.
- InputConfig.LoadFromFile: an input line is one list element, so a line holding `\n` cannot occur.
- InputConfig.SaveThenLoadFresh: the round trip is stated only for actions without a leading or trailing space or tab, because loading trims the action. Only bindings whose code has a name round-trip, so the result is the bindings restricted to named codes.
- Undefined behaviour in the source is a precondition of the model: reading `tilesets[0]` of a map without tile sets, a zero tile size, `layers[0]` of a tile map without layers, and a tile read outside its layer.
- SpriteLoader.AnimationFrom: a FRAME line with nothing after the key (`FRAME` or `FRAME   `) makes the source push its uninitialised `int frameIndex`, because the stream's sentry fails before it writes. The model stores frame 0 for it instead. A FRAME line with a non-numeric token stores 0 in both, as C++11 extraction writes 0 on a failed conversion.
- SpriteLoader.ParseAnimation: the loop seeds that read with 0 in the same way, so it stores frame 0 where the source's value is indeterminate.
- Animation.Update: requires every viewed sprite's frame to index its animation, because the source reads `sequence[currentFrame]` without a check. The case where it does not is the second finding.
- HardcodedMapLoader.Load: a tile layer without a gid payload gets an empty tile list.
- TmxLoader.Load: image and group layers are skipped, as the source skips them.
- Renderer: `SpriteComponent::getSortKey` is a parameter of the sprite model, and its `int32_t` truncation is not modelled.
- Renderer.RebuildOrders: states only the order `std::sort` guarantees. The order among equal keys is unspecified in the source; the model sorts by insertion, which the contract does not reveal.
- Renderer.DrawsAre: does not model the texture-null check, which cannot fail for a cached atlas asset. Destination rectangles, the camera offset and colour modulation are outside the draw-call model.
- TilemapRender.CallsAre: the destination rectangle's rounding is stated only through its bounds.
- RenderSystem::init's signal wiring is not modelled: callers invoke Renderer.RenderSystem.OnSpriteUpdate for every sprite construction, update and destruction.
- StateMachineSystem: the state objects' onEnter, onExit and onUpdate are foreign code. They are recorded as calls, and their effects on the registry are not modelled.
- Hashed strings are modelled as the strings they hash, so entt hash collisions are not modelled.
- Quadtree: a value model. The in-place update of child nodes, and the `unique_ptr` ownership, are not modelled.
- Quadtree.LeafQueryComplete: query completeness is proved only for a leaf. For a split node it fails when a child's halved bounds drop a column: Quadtree.OddSplitQueryMisses gives a valid tree whose query misses a stored object. Completeness for every tree is proved for the corrected Quadtree.FullQuery (the third finding). The collision model keeps the query as written.
- The input manager's controller open and close, and SDL subsystem initialisation, are not modelled.
- Resources.ResourceManager.LoadSpriteAsset: the SDL renderer parameter and the source hint are ignored, because SDL is outside the model.
- Resources.ResourceManager.LoadSpriteAsset: the file loader parameter yields an asset or None. A loader that throws `std::length_error` is not modelled here. In the source that exception leaves the method with the cache unchanged. The loader's own throw is modelled in SpriteLoader.LoadFromFile.
- Resources.ResourceManager.LoadTilesetAsset: likewise, a throwing tileset loader is not modelled here. Its throw is modelled in TilesetLoader.LoadFromFile.
- TextAssets.ReserveThrows: the reservation throws for a negative `int` product. An `int` overflow of `width * height` is undefined behaviour and is not modelled, and neither is `std::bad_alloc` for a very large positive product.
- The headers src/core/input_manager.hpp and src/systems/renderer.hpp declare members the source files do not define. The model follows the .cpp files.
