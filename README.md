# Fly-in: map-file reader and renderer logic, modelled in Dafny

Fly-in reads a text map of hubs for a drone simulation and draws it with
pygame. This project models the two deterministic parts of it and proves
what they do.

- **The map-file reader, `FileReader.parseinput`** (parser.py). It reads the
  file line by line:
  - comment lines (`#`) are skipped;
  - `nb_drones:` lines set the drone count through Python's `int()`;
  - `start_hub:`, `end_hub:` and `hub: ` lines are searched with the pattern
    `(\w+)\s+(\d+)\s+(\d+)\s+\[(\w+)=(\w+)\]`.

  A matched metadata key must name a field of the `Metadata` record
  (`zone_type`, `color`, `max_drones`), or the read aborts. Later lines
  overwrite earlier ones. The `Input` record is built after the loop. A
  value never read is a missing key, and an unreadable integer is
  "Invalid input".
  - `MapParser.ParseInput` is that loop, written imperatively over the
    lines already read.
  - It is proved equal to `MapParser.Parse`, a left fold of the effect of
    each line (`Interpret`).
  - `Parse` is in turn proved equal to `MapParserProperties.Reference`, a
    closed form: the first error wins, otherwise the last value read for
    each key.
  - The pattern has a matcher of its own (`HubPattern`), proved sound and
    complete for `re.search`'s leftmost-match semantics.
  - `int()` is modelled in `PyInt`.
- **The integer and set logic of the renderer** (render.py):
  - the offset that centres the tiles' top-left corners on the 1920×1080
    window (the island tiles then sit half a tile right of and below the centre);
  - the frames a sprite sheet is cut into, and the frame shown at a given
    time, in Python's floor division and modulo (`PyArith`);
  - the bridges drawn between neighbouring zones: which unordered pairs,
    which are skipped, which inputs raise, and the end points in pixels;
  - the singleton metaclass `MegaSuperUltraSingleton`;
  - the rejection of an empty map by `InformationManager.parse_input`.

Modules: `Wrappers` (Option, Result), `Chars` (character classes), `PyInt`,
`HubPattern`, `MapParser`, `MapParserProperties`, `PyArith`, `Sprites`,
`Bridges`, `Rendering` (the `Renderer` class) and `Singleton` (the metaclass
and `InformationManager`).

### Behaviour of the code that the map format's documentation does not lead one to expect

The model follows the code throughout. These points are proved as lemmas:

- The metadata key must be a field name of `Metadata`. A block such as
  `[zone=blocked]`, which is how the documented format writes a zone type,
  aborts the whole read with "No type_of_metadata found" (`ZoneKeyRejected`).
  For the start and end hubs the key is stored as `zone_type` and the value
  as `color`, and `max_drones` is never set (`TerminalValid`); a `hub: `
  entry keeps them as its `type` and `metadata` (`HubLine`).
- The bracketed block is required by the pattern. A declaration line with no
  `[` (`DeclarationWithoutBracketIgnored`), or on which no `[word=word]` block
  occurs anywhere (`DeclarationWithoutBlockIgnored`), is silently ignored. So
  is a declaration line on which the whole layout of the pattern occurs
  nowhere, such as one with a negative coordinate
  (`DeclarationWithoutLayoutIgnored`).
- Coordinates are `\d+`, so no captured coordinate is negative (`ParseValid`).
- `nb_drones` is read from the twelfth character on, whether or not a space
  follows the colon. `nb_drones:12` therefore reads 2 (`DronesFirstDigitLost`).
  A negative count is accepted (`DronesLine`).
- `connection:` lines are not read by this parser at all (`ConnectionIrrelevant`).
- `hub:` must be followed by a space. `hub:x 1 2 [color=red]` declares nothing
  and changes nothing (`HubWithoutSpaceIrrelevant`).
- The renderer centres the top-left corners of the tiles, not the tiles. Each
  island tile is drawn from its corner, so on the window the left (top) margin
  of the island tiles' extent exceeds the right (bottom) one by a tile's size,
  plus one pixel when the extent's ends have an odd sum (`DrawnMapOffCentre`).

## Model

| member | source | states |
|---|---|---|
| PyInt.Strip | parser.py:59 | `str.strip()`, as `int()` applies it: the result neither starts nor ends with whitespace; `StripPadded` states that exactly the padding is removed |
| PyInt.TrimLeft | parser.py:59 | `str.strip()`'s left half: the result is a suffix of the text, everything cut is whitespace, and the result does not start with whitespace |
| PyInt.TrimRight | parser.py:59 | the right half: a prefix of the text, everything cut is whitespace, and the result does not end with whitespace |
| PyInt.StripPadded | parser.py:59 | stripping `w1 + t + w2`, with `w1` and `w2` whitespace and `t` neither starting nor ending with whitespace, gives back exactly `t` |
| PyInt.ShowNat | parser.py:59 | the decimal rendering that `int()` inverts in `ParseShowInt` (the source calls no `str()`): a non-empty run of digits with no leading zero |
| PyInt.ShowNatValue | parser.py:59 | half of the `int()` round trip: the digits of the rendering of `n` denote `n` |
| PyInt.ParseInt | parser.py:59 | `int(text)` succeeds exactly when the stripped text is an optional sign followed by digit groups joined by single underscores |
| PyInt.ParseShowInt | parser.py:59 | round trip: `int()` of `str(n)`, with any whitespace around it (the line break kept by `readlines` included), is `n`, negative `n` included |
| PyInt.ParseDigits | parser.py:74 | `int()` of a digit run such as a `\d+` group is the number the digits denote |
| HubPattern.RunEndIsLongest | parser.py:53 | `\w+`, `\d+` and `\s+` stop only where the next character is outside their class |
| HubPattern.RunEndExact | parser.py:53 | a run of a class that ends before a character outside it is exactly what the run consumes |
| HubPattern.MatchParts | parser.py:53 | every piece the matcher returns fits its part of the pattern, and the pieces occur one after another at the start position |
| HubPattern.HubRegexSeparated | parser.py:53 | `HubRegex` is the pattern part by part; each repetition in the hub pattern is followed by a character it cannot consume, and the pattern ends with `]` |
| HubPattern.MatchPartsComplete | parser.py:53 | for such a pattern, any split of the text into fitting pieces that occurs at the start position is the one the matcher returns: backtracking could not produce another match |
| HubPattern.MatchAt | parser.py:53 | a match's groups are a word run, two digit runs, and two word runs |
| HubPattern.MatchAtComplete | parser.py:53 | wherever `name ws x ws y ws [key=value]` occurs, the pattern matches there with exactly those five groups |
| HubPattern.MatchAtSound | parser.py:53 | wherever the pattern matches, a declaration with the captured groups and whitespace gaps occurs |
| HubPattern.MatchNeedsBlock | parser.py:53 | wherever the pattern matches, a `[key=value]` block of two word runs occurs at or after the match |
| HubPattern.SearchFrom | parser.py:69 | the leftmost match at or after a position, and no match between that position and it |
| HubPattern.Search | parser.py:69 | `re.search`: the leftmost match of the line, with well-formed groups, and no match at any earlier position (none at all when it finds nothing) |
| HubPattern.NoMatchAt | parser.py:53 | the pattern cannot match where no word character starts, nor where the word run is followed by anything but whitespace, the end of the line included |
| HubPattern.NoMatchInKeyword | parser.py:60-69 | inside a keyword, its colon and the whitespace after it, the pattern matches nowhere |
| HubPattern.SearchDeclaration | parser.py:60-83 | on `kw:` followed by whitespace and a hub declaration, the search finds the declaration just after the whitespace, with its own groups |
| HubPattern.NoBracketNoMatch | parser.py:53 | a line without `[` has no match |
| MapParser.StartsWith | parser.py:56-82 | `str.startswith`: the line's first characters are the prefix; `PrefixesExclusive`, `UnknownLineIgnored` and the line lemmas state what the branches it guards do |
| MapParser.DronesText | parser.py:59 | `line[len("nb_drones: "):]`: the text after the first 11 characters, empty for a shorter line |
| MapParser.HubOf | parser.py:74-99 | the hub a declaration records: coordinates that `int()` reads from the two digit groups, and the key and value as captured |
| MapParser.Declared | parser.py:74-99 | a matched declaration is accepted exactly when its key is a field of `Metadata`; it then records non-negative coordinates, the key and the value; otherwise it raises "No type_of_metadata found" |
| MapParser.Interpret | parser.py:55-99 | the only errors a line raises are "Invalid input" and "No type_of_metadata found", and every hub a line records is valid |
| MapParser.PrefixesExclusive | parser.py:58-82 | at most one of the `nb_drones:`, `start_hub:`/`end_hub:` and `hub: ` branches applies to a line |
| MapParser.Apply | parser.py:58-99 | one line's effect sets only the value it names (drone count, start hub or end hub), and a hub declaration overwrites that hub's entry, leaving every other hub untouched |
| MapParser.ScanLines | parser.py:55-99 | reading the lines in order fails only with "Invalid input" or "No type_of_metadata found" |
| MapParser.TerminalOf | parser.py:102-115 | the start or end hub as the record holds it: the key in `zone_type`, the value in `color`; `ParseValid` states this of every record |
| MapParser.Assemble | parser.py:100-117 | the record is built exactly when a drone count, a start hub and an end hub were read, and holds the last of each with the start and end hubs in `Metadata` form; otherwise the first missing key, in the order `nb_drones`, `start_hub_coordinates`, `end_hub_coordinates`, is the error |
| MapParser.Parse | parser.py:42-120 | a read fails only with "Invalid input", "No type_of_metadata found" or one of the three missing keys; `ParseIsReference` gives its outcome in closed form |
| MapParser.ParseInput | parser.py:42-117 | the loop that updates the values read so far and then builds the record returns exactly `Parse` of the lines |
| MapParserProperties.Outcomes | parser.py:55 | the effect of each line, in order |
| MapParserProperties.Declarations | parser.py:85-99 | a hub name is in the table exactly when a line declares it, and it maps to its last declaration |
| MapParserProperties.ScanLinesIsFold | parser.py:55-99 | reading the lines is folding their effects in order |
| MapParserProperties.AfterStep | parser.py:55-99 | reading one line and then the rest leaves the values that reading them all at once leaves: the last value read for each key |
| MapParserProperties.FoldClosedForm | parser.py:55-99 | the fold fails with the first error when a line raises one, and otherwise ends with the last value read for each key |
| MapParserProperties.ParseIsReference | parser.py:42-120 | `Parse` equals the closed form: the first error; otherwise a missing key, checked in the order `nb_drones`, start hub, end hub; otherwise the last drone count, start hub and end hub read, and every hub name with its last declaration |
| MapParserProperties.IgnoredLineIrrelevant | parser.py:55-99 | removing a line that has no effect does not change the outcome |
| MapParserProperties.CommentIrrelevant | parser.py:56-57 | comment lines do not change the outcome |
| MapParserProperties.UnknownLineIgnored | parser.py:56-99 | a line that starts with none of `nb_drones:`, `start_hub:`, `end_hub:` and `hub: ` has no effect; comments are among them |
| MapParserProperties.UnknownLineIrrelevant | parser.py:55-99 | removing such a line anywhere in the file does not change the outcome |
| MapParserProperties.HubWithoutSpaceIrrelevant | parser.py:82 | a line starting `hub:` without the space, such as `hub:x 1 2 [color=red]`, does not change the outcome |
| MapParserProperties.ConnectionIrrelevant | parser.py:56-99 | `connection:` lines do not change the outcome |
| MapParserProperties.FirstErrorWins | parser.py:54-120 | the first line that raises decides the outcome, whatever follows it |
| MapParserProperties.LastDeclarationWins | parser.py:93-99 | a hub keeps the coordinates, type and metadata of the last line that declares its name |
| MapParserProperties.ScanLinesKeepsValid | parser.py:55-99 | reading lines keeps every recorded hub valid: non-negative coordinates and a key that names a field of `Metadata` |
| MapParserProperties.ParseValid | parser.py:100-117 | every record a read returns has non-negative coordinates; its start and end hubs have the key in `zone_type`, the value in `color` and no `max_drones` |
| MapParserProperties.DronesLine | parser.py:58-59 | `nb_drones: ` followed by an integer, whitespace around it, sets the drone count to that integer, negative integers included |
| MapParserProperties.DronesWithoutSpace | parser.py:58-120 | without a space after the colon, the character after it is dropped; the rest is read with `int()`, and "Invalid input" is raised when that fails |
| MapParserProperties.DronesFirstDigitLost | parser.py:58-59 | `nb_drones:` followed by one character and an integer sets the count to the integer alone, so `nb_drones:12` reads 2 |
| MapParserProperties.HubLine | parser.py:82-99 | `hub: ` followed by a declaration records the hub under the captured name when the key is a field of `Metadata`, and raises otherwise |
| MapParserProperties.TerminalLine | parser.py:60-81 | `start_hub:` or `end_hub:` followed by a declaration sets that end's hub from the coordinates, key and value, dropping the captured name, when the key is a field of `Metadata`, and raises otherwise |
| MapParserProperties.ZoneKeyRejected | parser.py:88-92 | a declaration with the key `zone` raises "No type_of_metadata found" |
| MapParserProperties.DeclarationWithoutBracketIgnored | parser.py:69-84 | a declaration line without `[` is ignored silently |
| MapParserProperties.DeclarationWithoutBlockIgnored | parser.py:69-84 | a declaration line with no `[key=value]` block of two word runs is ignored silently; this covers a value containing `-` and a block with two pairs |
| MapParserProperties.DeclarationWithoutLayoutIgnored | parser.py:69-84 | a declaration line on which no layout of the pattern (name, two digit runs, block) occurs anywhere is ignored silently; this covers negative coordinates such as `hub: a -1 2 [color=red]` |
| PyArith.FloorDiv | render.py:47 | Python's `a // b`: the largest multiple of `b` not above `a` for positive `b`, and the mirror case for negative `b` |
| PyArith.FloorMod | render.py:222 | Python's `a % b`: recomposes `a` with `a // b`, and has the sign of `b` |
| PyArith.PyIndex | render.py:221 | an index in `-n..n-1` names position `i` or `i + n` of the list |
| PyArith.FloorDivUnique | render.py:222 | quotient and remainder are the only pair that recomposes `a` with the remainder's sign |
| PyArith.FloorModPeriodic | render.py:222 | adding whole periods does not change the remainder |
| PyArith.FloorDivStep | render.py:222 | adding `b` to `a` adds one to `a // b` |
| PyArith.FloorModNext | render.py:222 | counting modulo a positive `n` goes up by one and wraps from `n - 1` to `0` |
| Sprites.FrameRect | render.py:50 | `pygame.Rect(i * width, 0, width, height)` with `width = self.width // num_frames`; `FramesAdjacent` and `FramesInside` state where the frames lie |
| Sprites.FrameRects | render.py:46-55 | `prepare_frames` cuts `num_frames` frames (none for a negative count), and frame `i` starts at `i * (width // num_frames)` |
| Sprites.FramesAdjacent | render.py:47-50 | frame 0 starts at the left edge, and each frame starts where the previous one ends |
| Sprites.FramesInside | render.py:47-51 | every frame lies inside the sheet, so cutting it cannot fail, and fewer than `num_frames` columns are left over |
| Sprites.Sprite.constructor | render.py:30-35 | a new sprite has the sheet's size, the frame count given and no frames |
| Sprites.Sprite.PrepareFrames | render.py:46-55 | with a frame count of 0 the division raises and nothing changes; otherwise exactly the frames of the sheet are appended |
| Sprites.FrameIndex | render.py:222 | `(time // animation) % num_frames` fails exactly when `animation` or `num_frames` is 0, and lies in `0..num_frames-1` when `num_frames` is positive |
| Sprites.FrameIndexPeriodic | render.py:222 | the animation repeats every `num_frames * animation` milliseconds |
| Sprites.FrameIndexAdvances | render.py:222 | after `animation` milliseconds the next frame is shown, and the first one follows the last |
| Sprites.Pick | render.py:221 | `frames[i]` succeeds exactly for `-len <= i < len`, and gives one of the frames |
| Rendering.Renderer.CurrentSprite | render.py:218-223 | fails with a division error when the frame count or `animation` is 0; any frame it returns is one of the sprite's frames |
| Rendering.CurrentSpritePrepared | render.py:46-223 | once the frames are cut, the frame shown is frame `(time // animation) % num_frames` of the sheet |
| Rendering.MinOf | render.py:116-117 | `min()` is an element that is at most every element |
| Rendering.MaxOf | render.py:116-117 | `max()` is an element that is at least every element |
| Rendering.Renderer.constructor | render.py:62-73 | a renderer holds the island sprite, offsets and clock start at 0 |
| Rendering.Scaled | render.py:114-115 | the pixel column or row of every zone's tile, both scaled by the tile's width as the source does; `ComputeOffset` centres their extent |
| Rendering.Renderer.ComputeOffset | render.py:112-117 | with no zones, `min()` raises and the offsets are unchanged; otherwise each offset is half the window minus the midpoint of the tiles' extent, in floor division |
| Rendering.CenteringOffset | render.py:116-117 | `screen // 2 - (lo + hi) // 2`; its properties are `OffsetCentres`, `OffsetCentresWindow`, `OffsetTranslates` and `DrawnMapOffCentre` |
| Rendering.OffsetCentres | render.py:116-117 | after the shift, the margins left of the first tile corner and right of the last differ only by the parities of the screen size and of the extent's ends |
| Rendering.OffsetCentresWindow | render.py:116-117 | on the 1920×1080 window the tiles' top-left corners are centred to within one pixel, the right or bottom margin never the larger one |
| Rendering.DrawnMapOffCentre | render.py:112-195 | the island tiles, which extend a tile's size beyond their corners, span an extent whose left (top) margin on the window exceeds its right (bottom) margin by that size plus the parity of the extent's ends |
| Rendering.OffsetTranslates | render.py:116-117 | moving the whole map by `k` pixels moves the offset by `-k`, so the drawing stays in place |
| Rendering.Renderer.BridgeGeometry | render.py:133-135 | the tile width, the halves of the tile's width and height, and the offsets `_render_bridges` draws with; `DrawBridgesExact` states the end points they give |
| Rendering.Renderer.RenderBridges | render.py:127-172 | the loop over zones and neighbours draws exactly the bridges `DrawBridges` selects, in order, or fails as it does |
| Bridges.NeighboursOf | render.py:144 | `connections[name].get("connections", [])`: the listed neighbours, none when the entry lists none; `VisitZonesDraws` and `VisitZonesFails` state what the loop over them does |
| Bridges.IsBlocked | render.py:141-150 | `zone == "blocked"` on a zone's metadata; `NoBlockedEndpoint` states that no bridge touches such a zone |
| Bridges.Centre | render.py:159-166 | the screen point of a zone's tile centre; `DrawBridgesExact` states that every bridge runs between such points |
| Bridges.VisitNeighbours | render.py:145-172 | the inner loop; `VisitNeighboursDraws` and `VisitNeighboursFails` state what it draws and when it fails |
| Bridges.VisitZones | render.py:136-172 | the outer loop; `VisitZonesDraws` and `VisitZonesFails` state what it draws and when it fails |
| Bridges.DrawBridges | render.py:127-172 | the bridges drawn, in order; `DrawBridgesExact`, `NoBlockedEndpoint` and `DrawBridgesFails` state which ones and when drawing fails |
| Bridges.Lookup | render.py:146-150 | `zones[name]` finds a zone with that name, and fails exactly when no zone has it |
| Bridges.LookupUnique | render.py:146-157 | with distinct names, looking up a zone's name finds that zone |
| Bridges.SortedPair | render.py:153-154 | `sorted([a, b])` is ordered and holds the two names |
| Bridges.SortedPairUnordered | render.py:153-156 | the pair does not depend on which end comes first, and two pairs are equal exactly when they join the same two names |
| Bridges.VisitNeighboursDraws | render.py:145-172 | the inner loop keeps the drawn set equal to the pairs of the bridges, with each pair once and each bridge on an edge between open zones; afterwards the pair of every open neighbour is drawn |
| Bridges.VisitZonesDraws | render.py:136-172 | the outer loop keeps the same invariant, and afterwards every edge from the remaining zones is drawn |
| Bridges.DrawBridgesExact | render.py:127-172 | a successful render draws each unordered pair at most once, draws only bridges on edges between open zones, from centre to centre, and draws a bridge for every such edge |
| Bridges.NoBlockedEndpoint | render.py:141-151 | with distinct zone names, no bridge has a blocked end or an end without metadata |
| Bridges.VisitNeighboursFails | render.py:145-151 | the inner loop fails exactly when a neighbour is not a zone or has no metadata; an unknown neighbour is named, a zone without metadata is one of the zones, and a missing adjacency entry cannot arise here |
| Bridges.VisitZonesFails | render.py:136-151 | the outer loop fails exactly when a remaining zone is not ready; each failure names a zone without metadata, a zone without an adjacency entry, or an unknown neighbour of an open zone |
| Bridges.DrawBridgesFails | render.py:127-151 | rendering the bridges succeeds exactly when every zone is ready, and each kind of failure names the zone or neighbour at fault |
| Singleton.InstanceCache.constructor | render.py:21 | the class-level cache starts empty |
| Singleton.InstanceCache.Call | render.py:23-26 | the first call for a class builds its instance with the call's arguments and caches it; every later call returns the cached instance unchanged and builds nothing; each class is built at most once |
| Singleton.TwoCalls | render.py:23-26 | two calls for the same class return the same object whatever their arguments, and build at most one |
| Singleton.InformationManager.constructor | render.py:256-261 | a new manager holds no zones and no connections |
| Singleton.InformationManager.ParseInput | render.py:295-305 | the parsed zones and connections are kept exactly when both are non-empty; otherwise the call fails and nothing changes |

## Left out

- Opening and reading the file, `print`, `exit` and the argument parser (parser.py:43-48, parser.py:118-120, parser.py:123-125, render.py:263-277, render.py:315-317). The lines are a parameter, and each exit is an error value naming the failure.
- `line is None` (parser.py:56) never holds for a line read from a file, so it is not modelled.
- Character classes are ASCII. `\w` is `[A-Za-z0-9_]`, `\d` is `[0-9]`, and `\s` is the ASCII whitespace Python's `str.strip()` removes. Unicode letters, digits and spaces are not modelled.
- PyInt.ParseInt: only base-10 ASCII integer literals. Unicode digits are not modelled. Nor is CPython's limit on the length of a decimal string (4300 digits by default, `sys.int_info.default_max_str_digits`), beyond which `int()` raises `ValueError`. The model reads a digit string of any length. This also holds for `PyInt.ParseDigits` and for the coordinates `MapParser.Declared` reads. With that limit, a start or end line with an over-long coordinate and a bad key fails with "Invalid input" in the source, because `int(x)` runs before the key check (parser.py:74-80). The model reports "No type_of_metadata found" for it.
- Everything pygame: loading images, scaling, blitting, drawing lines, events and the clock (render.py:37-44, render.py:75-110, render.py:119-125, render.py:174-216, render.py:225-253). A surface is modelled by its size, and a frame by the rectangle it is cut from.
- The float `scale` of `prepare_frames` (render.py:52-54): floating point. The frames are modelled before scaling.
- Rendering.Renderer.RenderBridges: models which bridges are drawn and their end points, not the drawing call. The colour and width are constants of that call.
- Rendering.DrawnMapOffCentre: covers the island tiles only. Obstacles (20×20, drawn 4 pixels higher, render.py:106-108 and render.py:186-190) and the flags drawn 50 pixels above start and end hubs (render.py:208-216) are not part of the extent it measures.
- The island sprite's width and height are taken as given. `update_upscaled_surface` is pygame scaling and is not modelled.
- Rendering.Renderer.constructor: `__init__` creates neither the offsets nor `current_time`; `_compute_offset` (render.py:116-117) and `run` (render.py:241) create them. The model starts them at 0, so it does not model the AttributeError raised by a read before those calls. It also takes the island sprite as a parameter instead of loading it.
- `current_time` comes from `pygame.time.get_ticks()` (render.py:241). It is a field of the renderer, not a clock.
- The zones are a sequence in the dictionary's order, and the connections a map. `Bridges.NoBlockedEndpoint` assumes the names are distinct, which a dictionary guarantees. A zone's `coordinates` entry is assumed present, and its metadata is modelled by its zone type, `None` meaning no metadata.
- `InputParser` and `ParsingError`, which render.py imports, are not part of this model. `InformationManager.ParseInput` takes the zones and connections that parser would return as parameters.
- Singleton.InstanceCache.Call: a class is identified by its name, an instance by its class and its first arguments. Keyword arguments and `__init__`'s `hasattr` guard are not modelled.
