# CyberDeck: font codec, banded renderer and shell state machines

A Dafny model of the parts of the CyberDeck firmware whose correctness is hardest to see
by reading one function, with proofs that hold for every font, every screen content and
every run. `dafny verify dfyconfig.toml` checks all of it.

**Font codec** (`PackBits`, `GlyphRecord`, `Smear`, `FontRanges`, `FontTables`,
`GlyphDecode`). The generator crops glyphs, encodes their rows with an optimal run-length
dynamic program, shares records, merges codepoint ranges and replaces most bold glyphs by
a sentinel; the renderer undoes it by binary search, a variable-length decoder and a
word-parallel smear. `FontTables.BuildFontData` and `GlyphDecode.EndToEnd` together say
that whatever font goes in comes out, bold and `?` fallback included, or the build is
refused for a stated reason. `PackBits.Encode` proves the encoding minimal against every
byte stream the decoder accepts.

**Glyph cache and sprites** (`GlyphCache`, `SpriteProtocol`, `SpriteRace`, `SpriteStale`). A 2-way
set-associative cache that must be invisible, while sprite bitmaps change under it. The
update is split into micro-steps; the interrupt runs to completion between any two, which
is the deployment discipline (shell task and display interrupt share a core). `SpriteRace`
drops that discipline, and `SpriteStale` says exactly which cached lines are then stale.

**Banded renderer** (`Picture`, `Geometry`, `Pixels`, `Wobble`, `LineScan`, `Transitions`,
`RowCache`, `Passes`, `Renderer`, `Runs`, `PictureLaws`). `Picture.PanelPixel` defines the panel pixel by pixel,
without bands, caches, tables or words. `Renderer.Panel` is the imperative pipeline:
row cache with its 8-bit frame tag, pixel-pair tables, displaced scan, underline and cursor
passes, hidden-band shortcut and transition clip. Every band it draws shows the reference
picture. `Runs` follows any sequence of frames, or of bands, arming stores, cursor moves and
scene changes, and says which scene, effects, window and cursor phase each band shows.
`PictureLaws` says what that reference is in terms of the scene's own fields: which of a
cell's two colours each pixel has, what every effect does to its channels, and which lines a
wipe or collapse of f frames shows after n. `FontOnPanel` joins this to the codec: the frame
rendered from compressed tables is a frame of the font, and `FontOnPanel.FontPixel` reads its
pixels off the font's bitmaps.

**Effect state** (`Seqlock`, `Transitions`). A generation-counted configuration copied by
an interrupt byte by byte under any interleaving, and the wipe/collapse countdowns armed
store by store while the interrupt ticks them.

**Shell state machines** (`Konami`, `Reorder`, `HostKey`, `SetCode`). Each is a class whose
invariant is about the whole history of inputs.

Objects the firmware updates in place are classes or arrays here; the generator's lists
are sequences; protocols whose point is interleaving are step functions over a state value.
`Arith`, `Tiles` and `FontTypes` hold shared vocabulary.

Two places where the code and its comments disagree, and a guard that admits more than its
buffers hold; the model follows the code:

- `components/display/render_scan.inc:81-82` says a displacement never exceeds one cell.
  `Wobble.FiveWordsHappen` gives a frame and a scanline that move five words, one more than a
  cell of the 8-pixel font; `Wobble.WithinOneCell` shows the comment true exactly from ten
  pixels up. The scan is right anyway (`LineScan.ScanDisplaced` allows any
  displacement up to the text's width).
- `components/font/font_renderer.c:673-676` says a cache fill overlapping any part of a sprite
  update declines to publish. `SpriteRace.StaleAcrossCores` is a fill that starts after the
  generation bump, copies before the flip, and publishes the old bitmap after the call has
  returned. It needs two cores; `SpriteProtocol` proves the one-core discipline sound, and
  `SpriteStale.ExactlyStale` gives the exact condition without it.
- `components/display/display_render.c:28-40` admits geometries whose band is larger than the
  statically sized band buffers. `Geometry.BandFitsBuffers` gives the exact condition (cells
  of at most 32 lines) and `Geometry.FortyIsAdmitted` an admitted size that misses it. All
  shipped sizes meet it.

## Model

| member | source | states |
|---|---|---|
| `PackBits.JoinSplit` | tools/gen_terminus.py:236-287 | a two-byte row written low byte first is joined back to the same row |
| `PackBits.EmitThenRead` | components/font/font_renderer.c:321-335 | a symbol emitted in either width, palette index or 0xFF escape included, reads back as itself and consumes exactly its bytes |
| `PackBits.RunAdvances` | tools/gen_terminus.py:430-466 | a run that decodes to the remaining rows splits into one segment holding the next of them and a run decoding to the others |
| `PackBits.LiteralsCostAtLeast` | tools/gen_terminus.py:236-287 | no stream of literal symbols is shorter than the symbols' costs |
| `PackBits.SegmentReadIsLegal` | components/font/font_renderer.c:341-395 | every control byte the decoder accepts is a legal segment of the rows, at no less than its cost |
| `PackBits.RunIsATiling` | tools/gen_terminus.py:430-466 | any byte stream that decodes to the rows corresponds to a tiling of them by segments costing no more than the stream |
| `PackBits.RelaxedBoundsTilings` | tools/gen_terminus.py:236-287 | the finished table bounds the cost of every tiling from below |
| `PackBits.EmitAllLength` | tools/gen_terminus.py:236-287 | the emitted body is as long as the tiling's cost |
| `PackBits.RunEmitted` | tools/gen_terminus.py:236-287 | the bytes of any legal tiling decode to the rows wherever they stand in a pool |
| `PackBits.FillTable` | tools/gen_terminus.py:236-287 | the dynamic program leaves a table that is backed by real segments and cannot be relaxed further |
| `PackBits.Reconstruct` | tools/gen_terminus.py:236-287 | walking the choices back gives a tiling of exactly the table's cost |
| `PackBits.Encode` | tools/gen_terminus.py:236-287 | the body decodes to the rows at every pool position, and no byte stream the decoder maps to the same rows is shorter |
| `GlyphRecord.Crop` | tools/gen_terminus.py:225-233 | the crop is tight and paints back to the whole cell; a blank cell keeps one zero row at height 16 and none at any other |
| `GlyphRecord.CropInjective` | tools/gen_terminus.py:225-233 | different cells never share a record |
| `GlyphRecord.EncodeRecord` | tools/gen_terminus.py:343-351 | for both header layouts and both symbol widths the record reads back at any offset, consuming exactly its bytes, with a body of minimal length |
| `GlyphRecord.EncodeCell` | tools/gen_terminus.py:343-351 | any cell, cropped and encoded, is restored whole by the decoder wherever it lands |
| `GlyphRecord.DecodeInto` | components/font/font_renderer.c:341-395 | the in-place decoder writes exactly rows [start, start+len) of the glyph buffer |
| `Smear.GeneratorAgrees` | tools/gen_terminus.py:303-304 | the generator's row smear is the renderer's |
| `Smear.ByteLanesApart` | components/font/font_renderer.c:429-467 | smearing four byte rows in one word lets no bit cross a lane, in either direction |
| `Smear.HalfwordLanesApart` | components/font/font_renderer.c:429-467 | the same for two halfword rows |
| `Smear.SmearGlyph` | components/font/font_renderer.c:429-467 | the word-parallel smear of a whole glyph equals the row-by-row one |
| `Smear.SmearFour` | tools/smearcheck.py:11-29 | packing, masked shift-or and unpacking agree with the per-row reference |
| `FontRanges.Sorted` | tools/gen_terminus.py:185-196 | the codepoints of a set, each once, ascending |
| `FontRanges.ContiguousRanges` | tools/gen_terminus.py:185-196 | maximal runs: they cover exactly the codepoints and no two touch |
| `FontRanges.MergeRanges` | tools/gen_terminus.py:199-208 | merging adds only codepoints in gaps of at most three and leaves larger gaps between ranges |
| `FontRanges.LookupOffset` | components/font/font_renderer.c:283-297 | the binary search finds the one range holding the codepoint and its offset, or misses exactly when none does |
| `FontRanges.LookupCovered` | components/font/font_renderer.c:283-297 | a lookup succeeds exactly for covered codepoints |
| `FontTables.BoldRangesFor` | tools/gen_terminus.py:211-218 | the bold ranges are the maximal runs of covered codepoints inside the bold subset |
| `FontTables.BuildPool` | tools/gen_terminus.py:353-364 | the pool holds each distinct record once, packed end to end and minimal, and every record reads back at its offset |
| `FontTables.LayOut` | tools/gen_terminus.py:365-407 | each range's index gives its codepoints' offsets |
| `FontTables.BuildFontData` | tools/gen_terminus.py:290-407 | the tables hold the font faithfully, coded in the width and palette of its size, over pools of exactly the regular cells and the bold exceptions, each at most 65534 bytes; or the refusal is justified by the font itself |
| `FontTables.OnlyExceptions` | tools/gen_terminus.py:303-311 | the bold pool stores the bold forms that smearing would get wrong and no others |
| `GlyphDecode.FaithfulIsDecodable` | tools/gen_terminus.py:474-509 | every offset of faithful tables decodes inside the cell |
| `GlyphDecode.EndToEnd` | tools/gen_terminus.py:474-509 | for every codepoint and either face: its true bold cell where bold is asked, the codepoint is in the bold subset and the font has one; its normal cell otherwise; the normal cell of the question mark for a codepoint the font lacks |
| `GlyphDecode.SmearedExactly` | tools/gen_terminus.py:303-311 | a covered codepoint carries the smear sentinel exactly when smearing its normal cell gives its bold form |
| `GlyphDecode.DecodeRegular` | components/font/font_renderer.c:401-416 | the in-place regular decode with its fallbacks draws exactly the regular cell |
| `GlyphDecode.DecodeGlyph` | components/font/font_renderer.c:474-519 | the in-place decode, smear sentinel included, draws exactly the cell the tables define |
| `GlyphCache.KeysInNumbers` | components/font/font_renderer.c:579-592 | the set is the top seven bits of the key's 32-bit product; the slots are the eight codepoints from U+E000 in either face |
| `GlyphCache.AccessHolds` | components/font/font_renderer.c:552-600 | an access leaves the key resident in one way only, and a hit changes nothing |
| `GlyphCache.MissBound` | components/font/font_renderer.c:544-600 | from any state two keys of one set miss at most three more times in any sequence |
| `GlyphCache.MissBoundAttained` | components/font/font_renderer.c:544-600 | and some sequence misses exactly as often as the bound says |
| `GlyphCache.ResidentIsReadOnly` | components/font/font_renderer.c:544-600 | once both keys are resident the set never changes again |
| `GlyphCache.GrownMissBound` | components/font/font_renderer.c:544-600 | a set never invalidated misses at most twice more, whatever was asked before |
| `GlyphCache.Serve` | components/font/font_renderer.c:579-600 | over any run of requests to the whole cache each returns its uncached decode, and a set asked for only two keys misses at most three times |
| `GlyphCache.FlipBit` | components/font/font_renderer.c:544-550 | flipping one victim bit of a byte leaves the other seven alone |
| `GlyphCache.Cache.GcVictim` | components/font/font_renderer.c:544-550 | returns the set's victim bit and flips it, no other set's |
| `GlyphCache.Cache.DecodeUncached` | components/font/font_renderer.c:474-519 | a sprite slot's active buffer, else the font's glyph |
| `GlyphCache.Cache.GcFill` | components/font/font_renderer.c:552-577 | fills the way the policy names and keeps every line equal to its uncached decode |
| `GlyphCache.Cache.FontDecodeGlyph` | components/font/font_renderer.c:579-600 | returns the uncached decode on hit and miss, touching only the key's set |
| `GlyphCache.Cache.GcInvalidate` | components/font/font_renderer.c:645-656 | drops exactly the codepoint's two keys |
| `GlyphCache.Cache.SpriteSet` | components/font/font_renderer.c:666-687 | both variants of the slot show the new bitmap from then on and every other key what it showed |
| `GlyphCache.Cache.constructor` | components/font/font_renderer.c:602-638 | starts empty, with blank sprites |
| `SpriteProtocol.NextKeepsInv` | components/font/font_renderer.c:645-687 | every writer micro-step and every interrupt keeps each tagged line equal to one complete bitmap |
| `SpriteProtocol.LookupsAreWhole` | components/font/font_renderer.c:579-600 | in every reachable state a lookup gives a complete bitmap, old only between flip and cleaning |
| `SpriteProtocol.LookupFills` | components/font/font_renderer.c:552-600 | a lookup leaves its key resident where the policy says, with the bitmap it returned, and no other set or line changed |
| `SpriteProtocol.SetTakesEffect` | components/font/font_renderer.c:666-687 | after the call no line or lookup gives the old bitmap; the generation has moved by one, and the call takes its bytes and between 10 and 18 more micro-steps |
| `SpriteProtocol.NoFlicker` | components/font/font_renderer.c:666-687 | once a key has shown the new bitmap it never shows the old one again |
| `SpriteProtocol.ColdStart` | components/font/font_renderer.c:602-638 | an empty cache over any sprite table satisfies the invariant |
| `SpriteRace.DeclinesWhenOvertaken` | components/font/font_renderer.c:552-577 | under any interleaving a fill publishes exactly when a multiple of 256 bumps fell between its generation read and check; with none it publishes one whole bitmap |
| `SpriteRace.StaleAcrossCores` | components/font/font_renderer.c:666-687 | a run on two cores that leaves the old bitmap cached after the call returned |
| `SpriteStale.ExactlyStale` | components/font/font_renderer.c:552-577 | over any interleaving of calls and fills a cached line is stale exactly when its fill chose its buffer before the latest flip, stored after that flip's cleaning test of its way, and chose another bitmap |
| `SpriteStale.RunKeeps` | components/font/font_renderer.c:666-687 | the history that says so only watches the race |
| `Pixels.BitIsDigit` | components/display/render_scan.c:19-27 | a glyph bit is that binary digit of its row |
| `Pixels.LutIndexBits` | components/display/render_cache.c:110-119 | the two-bit index is the two pixels' glyph bits |
| `Pixels.LutIsGPair` | components/display/render_scan.c:19-27 | the pair table at the index is the reference pixel pair for every row, width, position and colours |
| `Pixels.MaskedPicks` | tools/lutcheck.py:6-13 | masking the colour difference picks foreground or background by the bit |
| `Pixels.ChannelsDetermine` | components/display/render_cache.c:129-148 | a colour is its three channels |
| `Pixels.TintByChannel` | components/display/render_cache.c:165-170 | text on a tinted bar is a quarter of the bar over three quarters brightness |
| `Pixels.WashByChannel` | components/display/render_cache.c:175-177 | the focus wash is half of each channel over half brightness |
| `Pixels.ScrimByChannel` | components/display/render_cache.c:207-214 | the scrim halves each channel |
| `Pixels.BoldPopByChannel` | components/display/render_cache.c:280-281 | bold pop sets in each channel the bits of its half |
| `Pixels.LumaFits` | components/display/render_cache.c:140-143 | the luma is the weighed sum of the channels and stays within 0..62 |
| `Pixels.MonoByChannel` | components/display/render_cache.c:135-148 | green shows the luma, amber half of it in red and eleven sixteenths in green |
| `Pixels.DimByChannel` | components/display/render_cache.c:129-133 | a dimmed scanline loses a sixteenth of each channel, without borrow between them |
| `Geometry.AcceptsExactly` | components/display/display_render.c:26-40 | the guard admits exactly even widths from eight and heights that divide the panel, even up to 16 lines and multiples of four above; the band is the row or half of it |
| `Geometry.ShippedSizes` | components/font/include/font.h:64-69 | 8x16, 10x20 and 12x24 are admitted, with bands of 16, 10 and 12 lines |
| `Geometry.BandDividesRow` | components/display/display_render.c:26-48 | an admitted band is even and a whole row or half of one |
| `Geometry.BandInRow` | components/display/display_render.c:96-122 | a band never straddles a character row and keeps scanline parity |
| `Geometry.BandsTilePanel` | components/display/display_sdl.c:66-88 | the bands of a frame cover each scanline exactly once |
| `Geometry.BandFitsBuffers` | components/font/include/font.h:64-69 | an admitted band fits the static buffers exactly for cells of at most 32 lines |
| `Geometry.FortyIsAdmitted` | components/display/display_render.c:26-40 | an admitted size whose band does not fit them |
| `Wobble.EnvelopeIsOdd` | components/display/render_fx_pass.c:150-156 | the envelope is one period of a sine, its second half the mirror of the first |
| `Wobble.TopWalks` | components/display/render_fx_pass.c:160-165 | the wiggle walks down five lines every two frames and no line outside its sixteen moves |
| `Wobble.AmplitudeDrifts` | components/display/render_fx_pass.c:157-159 | the amplitude is the sine's times 12 to 19 sixteenths, rounded down |
| `Wobble.PixelsBound` | components/display/render_fx_pass.c:142-178 | every displacement is an even number of pixels, at most ten |
| `Wobble.Words` | components/display/render_fx_pass.c:172-175 | a scanline's displacement is an exact half of that, at most five words |
| `Wobble.FiveWordsHappen` | components/display/render_scan.inc:80-93 | five words are reached, more than one cell of the 8-pixel font |
| `Wobble.WithinOneCell` | components/display/render_scan.inc:80-93 | a displacement stays within one cell for every setting, frame and line exactly when cells are at least ten pixels wide |
| `Wobble.Offsets` | components/display/render_fx_pass.c:142-178 | any band gets the displacement of each absolute scanline, zero outside the wiggle, and the flag says whether any line moves |
| `LineScan.StraightAt` | tools/scancheck.py:15-29 | a cell's words stand side by side on the straight line |
| `LineScan.PutWords` | components/display/render_scan.inc:44-56 | a cell's words stand where asked, each stored exactly once |
| `LineScan.WholeCells` | components/display/render_scan.inc:80-93 | the fully visible range of cells, with at most one clipped cell at an edge |
| `LineScan.PutClipped` | components/display/render_scan.inc:124-146 | the cell hanging over an edge shows its words that remain on the line |
| `LineScan.ScanPlain` | components/display/render_scan.inc:29-71 | an undisplaced line shows the text and a black margin, each of its words stored exactly once, counted store by store |
| `LineScan.ScanDisplaced` | tools/scancheck.py:30-65 | for every displacement up to the text's width the clipped scan equals rendering straight and shifting with black fill, each word of the line stored exactly once, counted store by store, and no other |
| `Transitions.RunKeepsInv` | components/display/display_fx.c:112-130 | over any interleaving of arming stores and ticks, wipe and collapse are never both running and no counter exceeds its total |
| `Transitions.WindowIsSound` | components/display/render_fx_pass.c:55-88 | in every reachable state the clip window is a range of panel lines, active exactly while a counter runs (its lines: WipeLaw, CollapseLaw) |
| `Transitions.WindowMovesOneWay` | components/display/render_fx_pass.c:55-88 | from frame to frame a collapse only hides lines and a wipe only reveals them |
| `Transitions.TickDown` | components/display/render_fx_pass.c:37-43 | n ticks take n off a running counter and stop at zero |
| `Transitions.RunsItsFrames` | components/display/display_fx.c:112-130 | a completed arming call is the only transition and lasts exactly its frames |
| `PictureLaws.CollapseLaw` | components/display/render_fx_pass.c:63-78 | n frames into a collapse of f: a line at distance d from the middle is shown exactly when d(f-2) <= 240(f-2-n), the outer two of either half white; in the last two frames only the two middle lines are lit |
| `PictureLaws.WipeLaw` | components/display/render_fx_pass.c:79-87 | n frames into a wipe of f, whatever ran before: line y is shown exactly when (y+1)f <= 480n, the next two lines are cyan, the rest black; all is shown from frame f on |
| `Transitions.ShortcutIsExact` | components/display/render_fx_pass.c:90-94 | on every admitted geometry and in every reachable state the shortcut takes exactly the bands with no visible line |
| `Transitions.HiddenOrVisible` | components/display/render_fx_pass.c:90-94 | for any window, a band has a visible line exactly when the test fails and the window is not empty |
| `Transitions.MiddleIsABandEdge` | components/display/display_render.c:26-40 | no admitted band straddles the middle of the panel, where a collapse closes |
| `Transitions.HiddenIsClipped` | components/display/render_fx_pass.c:97-112 | a hidden line as the shortcut draws it is what clipping leaves of any rendering |
| `Picture.ClippedParts` | components/display/render_fx_pass.c:116-129 | clipping a word is clipping its two pixels |
| `Picture.OverlayHides` | components/display/render_cache.c:248-260 | where the overlay has a glyph neither the terminal cell nor bold pop matters |
| `Picture.OverlayShowsThrough` | components/display/render_cache.c:186-218 | where it has none the terminal shows as without an overlay, at half brightness under a scrim |
| `PictureLaws.Blinks` | components/display/render_scan.c:155-161 | the cursor stays put and turns over every fifteen frames |
| `PictureLaws.AccentsByChannel` | components/display/render_cache.c:28-47 | the overlay palettes, channel by channel |
| `PictureLaws.OverlayPixel` | components/display/render_cache.c:159-184 | where it has one: accent or own text colour on the background; a bar under the background colour, or under its tint for the six hues unless bright; a washed ground when bright |
| `PictureLaws.TerminalPixel` | components/display/render_cache.c:186-217 | where the overlay has no glyph: foreground where glyph or underline has ink, else background, exchanged under reverse, halved under a scrim; codes 0 and 0x20 have no ink; then phosphor, bold pop, dimmed odd lines, cursor complement |
| `RowCache.RebuiltColumnDraws` | components/display/render_cache.c:285-298 | whatever an earlier build left in a column, every word drawn from it after a rebuild is the two reference pixels of its new cell |
| `RowCache.ResolveCell` | components/display/render_cache.c:248-281 | overlay cell, terminal cell, blank, phosphor and bold pop, resolved step by step, give the reference look of the cell |
| `RowCache.BuildRow` | components/display/render_cache.c:220-305 | the row's columns show the scene, other columns stay, and the summary flag says whether any is underlined |
| `RowCache.Cache.Resolve` | components/display/render_cache.c:307-329 | afterwards the columns show this row, built in this very frame although the tag is a byte; they are rebuilt exactly when a tag differs |
| `RowCache.Cache.Invalidate` | components/display/render_cache.c:105-108 | empties the cache |
| `RowCache.TagsApart` | components/display/render_cache.c:307-314 | consecutive frames never share a tag |
| `RowCache.TagWraps` | components/display/render_cache.c:307-314 | a row left for 256 frames would: why hidden bands must invalidate |
| `RowCache.DrawnWordIsCell` | components/display/render_scan.c:86-111 | pair table, underline and cursor inversion draw exactly the reference's two pixels of a cell |
| `Passes.ScanBand` | components/display/render_scan.inc:22-156 | every line of the band is its displaced cells |
| `Passes.SpanIsCell` | components/display/render_scan.c:98-107 | an underline or cursor span is exactly the words the scan drew from that cell, and stays on the line |
| `Passes.UnderlinePass` | components/display/render_scan.c:86-111 | underlines flagged columns on the last two lines of the cell and changes nothing else, the skipped cases included |
| `Passes.NoUnderlines` | components/display/render_scan.c:88-94 | the pass-skip tests lose no underline |
| `Passes.CursorPass` | components/display/render_scan.c:165-187 | inverts exactly the cursor's cell, or its last two lines |
| `Passes.ClipApply` | components/display/render_fx_pass.c:116-129 | every word is edge colour, black or kept as the window says |
| `Passes.FillHidden` | components/display/render_fx_pass.c:97-112 | black with the edge lines that fall inside the band |
| `Renderer.CellWord` | components/display/render_scan.inc:29-71 | a drawn word of a cell is the reference's two pixels there |
| `Renderer.LineWordShows` | components/display/render_scan.inc:73-155 | a word of a displaced line is the reference text, or black beyond it |
| `Renderer.DrawnShows` | components/display/display_render.c:158-165 | a drawn and clipped line shows its scanline of the reference picture |
| `Renderer.DrawRow` | components/display/display_render.c:143-165 | a visible band drawn from columns that hold its row shows the reference picture |
| `Renderer.HiddenShows` | components/display/display_render.c:130-139 | the hidden-band shortcut draws what rendering and clipping would |
| `Renderer.BlackShows` | components/display/display_render.c:124-128 | below the text the picture is black |
| `Renderer.FullGridFits` | components/display/display_render.c:21-24 | the full grid of any admitted size fits the cache and the line and is wider than any wobble |
| `Renderer.Panel.SetFont` | components/display/display_render.c:26-48 | an admitted size takes effect with an empty cache, any other changes nothing |
| `Renderer.Panel.SetCursor` | components/display/render_scan.c:144-153 | a cursor that moves is shown at once with a fresh blink, one that does not keeps its phase |
| `Renderer.Panel.FrameTick` | components/display/render_fx_pass.c:37-52 | takes the snapshot unless a setter is at work and advances every counter once |
| `Renderer.Panel.RenderChunk` | components/display/display_render.c:103-166 | every band shows the reference picture of the scene as it is, or as this row's first band found it in this frame; which of the two, and the state left behind, are determined |
| `Renderer.Panel.RenderFrame` | components/display/display_sdl.c:66-88 | the bands of a frame are together the whole reference picture, every scanline once |
| `PictureLaws.PlainFrame` | components/display/render_cache.c:255-272 | without effects a frame is the terminal's text: the cell's foreground where its glyph or underline has ink, else its background, exchanged under reverse |
| `PictureLaws.FramePixel` | components/display/display_render.c:96-122 | a drawn frame, pixel by pixel: the text moved by its line's wobble, black beside and below it, and what a transition leaves of it |
| `Runs.Frames` | components/display/display_sdl.c:66-88 | over any number of frames each shows its own scene under exactly the effects, window and cursor phase its ticks lead to |
| `Runs.Perform` | components/display/display_render.c:103-166 | over any run of bands in any order, arming stores, cursor moves and scene changes, each band shows exactly what its history says |
| `Seqlock.ClampIsNearest` | components/display/display_fx.c:81-100 | the setter's clamping leaves a field in range alone and moves any other to the end it overshot |
| `Seqlock.NextKeepsInv` | components/display/display_fx.c:107-109 | every store, bump, copy and test keeps the published version tied to the counter |
| `Seqlock.AcceptsExactly` | components/display/render_fx_pass.c:14-23 | the test lets a copy through exactly when it began with no setter at work and the counter has moved by nothing or by a multiple of 256 |
| `Seqlock.PromptIsTimely` | components/display/render_fx_pass.c:14-23 | with fewer than 128 whole writes a read no test runs on a counter come round |
| `Seqlock.SnapshotIsWhole` | components/display/render_fx_pass.c:14-23 | under any interleaving in which no test runs on a counter come round, the snapshot is its initial value or one whole published configuration |
| `Seqlock.WholeRead` | components/display/render_fx_pass.c:14-23 | an undisturbed read takes the last published configuration, one in the middle of a write keeps the previous snapshot |
| `Seqlock.WrapTears` | components/display/render_fx_pass.c:14-23 | for every multiple of 128 writes during one read some run comes round and mixes two configurations |
| `Seqlock.OtherwiseCaught` | components/display/render_fx_pass.c:14-23 | any other number of bumps, however many, leaves the snapshot as it was |
| `Konami.SelfOverlap` | components/cyberdeck_app/app_home.c:367-376 | the code overlaps itself only in its leading two UPs |
| `Konami.StepFollows` | components/cyberdeck_app/app_home.c:374-381 | one arrow takes the longest match of the stream to the longest match of the longer stream, firing exactly when it ends in the code |
| `Konami.Home.Press` | components/cyberdeck_app/app_home.c:367-381 | over every stream of arrows the index is the longest suffix that is a proper prefix of the code, and the cheat fires exactly when the last eight arrows are up up down down left right left right |
| `Tiles.MovesByRowAndColumn` | components/cyberdeck_app/app_widgets.c:48-62 | Down goes to the same column of the next row exactly when that tile exists, Up to the previous row exactly when there is one, Left and Right by one column within the row, Right exactly when that tile exists; otherwise the selection stays |
| `Tiles.OppositeUndoes` | components/cyberdeck_app/app_widgets.c:48-62 | a move is undone by the opposite arrow |
| `Reorder.Menu.Load` | components/cyberdeck_app/cyberdeck_app.c:72-95 | the RAM list is the stored one, up to eight |
| `Reorder.Menu.Abort` | components/cyberdeck_app/app_menu.c:558-564 | lets go and restores the stored order |
| `Reorder.Menu.Back` | components/cyberdeck_app/app_menu.c:568-594 | with a tile grabbed restores the order and stays, else leaves |
| `Reorder.Menu.SessionDropped` | components/cyberdeck_app/app_connect.c:207-211 | a dropped session restores the stored order |
| `Reorder.Menu.Arrow` | components/cyberdeck_app/app_menu.c:950-976 | a grabbed tile swaps with the tile it moves onto, never with Back, and stays the selected one |
| `Reorder.Menu.Activate` | components/cyberdeck_app/app_menu.c:863-877 | first grabs, then drops: the dragged profile lands on the selected tile and the list as shown is saved; Back backs out |
| `Reorder.Menu.Enter` | components/cyberdeck_app/app_menu.c:976-978 | Enter grabs the selected tile, or drops the grabbed one and saves the list as shown, or backs out |
| `Reorder.Menu.Commit` | components/cyberdeck_app/app_menu.c:631-639 | the RAM list is what storage holds afterwards, saved or not |
| `Reorder.Menu.Tap` | components/cyberdeck_app/app_menu.c:936-948 | a tap outside the tiles backs out; one on a tile grabs it, or drops the dragged profile there and saves the list |
| `Reorder.Session` | components/cyberdeck_app/app_menu.c:928-982 | over any session without a drop the stored list is untouched, and the RAM list too once nothing is grabbed |
| `HostKey.Prompt.constructor` | components/cyberdeck_app/app_hostkey.c:113-123 | a changed key starts on Cancel, unarmed |
| `HostKey.Prompt.Handle` | components/cyberdeck_app/app_hostkey.c:134-208 | over every input trace a changed key is replaced exactly on Y, on two taps in a row, or on two Enters in a row of which the first did not answer a tap; home exactly on a decline; a tap on the tile and the arrows move the selection, nothing else does |
| `HostKey.Answer` | components/cyberdeck_app/app_hostkey.c:134-208 | in front of any inputs a changed key is replaced only at a Y or at the second of two equal confirmations in a row; one confirmation, or a tap and an Enter, never do it |
| `SetCode.CStrOfPadded` | components/cyberdeck_app/app_unlock.c:312-353 | a zero-padded entry's C string is its characters |
| `SetCode.PaddedUnique` | components/cyberdeck_app/app_unlock.c:335-345 | equal strings mean equal zero-padded buffers, so confirming compares all that was typed |
| `SetCode.Pad.Cancel` | components/cyberdeck_app/app_unlock.c:261-270 | leaves with every buffer wiped; the device gate stays as it is, entry and stashes included |
| `SetCode.Pad.OpenRemove` | components/cyberdeck_app/app_unlock.c:414-424 | opens in the remove phase at the stored length and returns to the menu |
| `SetCode.Pad.OpenSetPin` | components/cyberdeck_app/app_unlock.c:401-412 | without a keystore it asks for a new code, with one for the current code first |
| `SetCode.Pad.OpenUnlock` | components/cyberdeck_app/app_unlock.c:383-399 | opens in the unlock phase at the stored length, to resume the connect or go home; the gate goes home |
| `SetCode.Pad.IdleCancel` | components/cyberdeck_app/app_unlock.c:502-506 | an unattended pad ends on HOME, wiped |
| `SetCode.Pad.StartWorker` | components/cyberdeck_app/app_unlock.c:272-290 | the worker gets the entry, which is wiped; a failed spawn leaves nothing behind; every start on record is for what the pad was opened for: unlock, remove, create or change |
| `SetCode.Pad.Submit` | components/cyberdeck_app/app_unlock.c:312-353 | what a submit does in each of the five phases, expected length included, and that it does nothing on an empty entry or during a derivation |
| `SetCode.Pad.SubmitNew` | components/cyberdeck_app/app_unlock.c:327-334 | a new code of at least four characters is staged, and its confirmation submits itself exactly when it is at most 24 digits; a shorter one is kept to be extended |
| `SetCode.Pad.SubmitConfirm` | components/cyberdeck_app/app_unlock.c:335-345 | the worker starts exactly when the confirmation repeats the staged code; else back to NEW |
| `SetCode.StagedExpected` | components/cyberdeck_app/app_unlock.c:294-300 | an all-digit code of at most 24 characters confirms at its own length, any other on Enter |
| `SetCode.Pad.Append` | components/cyberdeck_app/app_unlock.c:355-371 | appends one character, ignores a full entry, and at the expected length does exactly what submitting the longer entry does |
| `SetCode.Pad.Erase` | components/cyberdeck_app/app_unlock.c:373-381 | removes the last character and keeps the rest zero |
| `SetCode.Pad.WorkerRuns` | components/cyberdeck_app/app_unlock.c:59-74 | the worker wipes both codes it was given |
| `SetCode.Pad.Collect` | components/cyberdeck_app/app_unlock.c:427-474 | a wrong code or a wait stays on the pad with an empty entry, in the phase of its operation and with the expected length of that answer; every other answer leaves; every way out leaves the buffers zero |
| `FontOnPanel.DecodedIsTheFont` | components/display/render_cache.c:248-269 | the glyphs decoded from tables that hold a font are the font's own |
| `FontOnPanel.AlikeFrame` | components/display/display_render.c:103-166 | a rendered buffer that shows a scene shows any scene with the same glyphs |
| `FontOnPanel.DrawServed` | components/display/render_cache.c:248-269 | a frame rendered from glyphs the cache serves is a frame of the font |
| `FontOnPanel.BuildAndDraw` | tools/gen_terminus.py:290-407 | from a font to the panel: unless the build is refused every pixel of the rendered frame is the font's |
| `FontOnPanel.FontPixel` | components/font/font_renderer.c:474-519 | on such a frame a cell without effects shows the font's own bits for its codepoint, in bold its true bold bits, and the question mark's for a codepoint the font lacks |

## Left out

- BDF download and parsing, C emission, size statistics and the concrete glyph tables: the theorems quantify over any font.
- The palette's frequency order: any duplicate-free palette of at most 255 rows is a parameter, and each theorem holds for all of them.
- `load_face` and `load_palette` copies, allocation failure, alignment fallbacks and memory placement.
- Weak memory and compiler reordering: every interleaving result assumes sequential consistency.
- `sinf`/`lrintf` in the wobble table: any table of values from -6 to 6.
- Row glow, static burst, bell tag and the dithered scrim variant (`OVERLAY_DIM_DITHER` 0, glow off): local overwrites next to the passes proved here.
- The scan functions instantiated only for cell widths 8, 10 and 12, and the byte stride of decoded rows: columns hold rows as values, and any admitted even width is drawn.
- SDL, LCD, touch, BLE, WiFi, SSH, storage and keystore back ends: storage is a saved list with saves that may fail, the keystore an arbitrary answer.
- Screen drawing, toasts, screensaver rendering, benchmarks and command-line tools.
- GlyphCache.Cache.FontDecodeGlyph: a line's rows are one value and the generation check is not in this sequential class; SpriteProtocol and SpriteRace model the concurrent fill.
- GlyphCache.Cache.GcFill: sequentially nothing can move the generation during a fill, so its read, its check and the declined publish are in SpriteRace.
- GlyphDecode.DecodeGlyph: the sprite-slot branch is in GlyphCache.Cache.DecodeUncached, and pools are sequences, so reading past a pool's end is not modelled for tables the generator did not build.
- Renderer.Panel.RenderChunk: the static burst (under the clip) and the bell tag (over it) are taken to be off; a band of more than 16 lines, which overruns the source's offset buffer, is drawn like any other (Geometry.BandFitsBuffers says when it cannot occur); the text grid is registered once and is at least five words wide, as the full grid of every size is (FullGridFits); the effect snapshot arrives whole or not at all, which is what Seqlock proves.
- Transitions.RunsItsFrames: an arming call reads its duration from the configuration once; setter and arming calls run on the same shell task.
- Renderer.Panel.SetFont: once a grid is registered the new cells must still fit it; the source does not check and would draw past the line.
- Reorder.Menu.Load: loading does not fail, as an absent file is an empty list; the synthesised default profile is not part of the stored list and is not modelled.
- SetCode.Pad.Open: the pad is never opened while a derivation runs, because input is swallowed and the screensaver does not cover it then.
- SetCode.Pad.Collect: closing the pad is one outcome; which of HOME, the connect or the menu comes next, notes and toasts are not modelled.
- Konami.Home.Press: only the arrow keys of HOME; the toast and bell are its result.
