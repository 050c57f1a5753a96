# BBS tablature core in Dafny

A verified model of the music-graph core of Belle, Bonne, Sage, the C++ music-notation engine under the Tablature application. Some score entities are values; these are Dafny datatypes. Others are objects whose fields the engine updates in place; these are Dafny classes with `modifies` frames. Each operation is proved against a specification function or against the property the engine relies on.

- **Music graph** (`graph.dfy`, module `Graph`; `chains.dfy`, module `Chains`):
  - `MusicGraph` is an arena of integer handles. Each handle has a node kind and a list of typed links.
  - Islands are joined by part-wise ("across") and instant-wise ("down") links. For each kind, a node's forward and backward link are the first ones added (`FirstWins`). With converging links A→C and B→C, C's backward link names A while B's forward link still names C. Nothing makes the mesh one-to-one or acyclic.
  - The geometry is defined on any mesh whose walks end. Its strand-per-part guarantees are proved for meshes whose links form strands (`Numbering.Strands`): forward and backward part-wise links are inverse, and every walk ends.
  - The model covers `CreateIslands`, `AppendColumn`, row- and column-major traversal, dense id stamping with `SetCustomDataToIDs`/`ClearCustomData`, `Clear`, `Island::UniqueID`, and `ExtraStaff` with its comparator.
  - A walk along one kind of link is a chain. The chain lemmas say when a walk ends and what it visits.
- **Geometry** (`numbering.dfy`, module `Numbering`; `layout.dfy`, module `Layout`; `partorder.dfy`, module `PartOrder`):
  - Part strands are tagged, and "part A precedes part B" facts are collected from the down links and ordered.
  - Instants are numbered by the leading-edge sweep.
  - The part ranges, the per-instant part counts and the part × instant matrix follow from the numbering.
  - The `Geometry` class holds all of these and `Parse` fills them.
- **API** (`api.dfy`, module `Api`): `IsIsland` and `RaiseToTopPart`.
- **Stringed instruments** (`instrument.dfy`, module `Instruments`): default tunings, string-count validation, the clamping setters, fret positions and the strings that can play a pitch.
- **Tablature import** (`tab.dfy`, module `Tablature`): `Tab::Import` assigns a chord's notes to distinct strings, first on each note's requested string and then by a fallback scan. The module also covers `TabNote` ordering and duplicate removal.
- **Rhythm, staff and pitch arithmetic** (`utility.dfy`, module `Utility`; `decimal.dfy`, module `Decimal`): durations are Dafny `real`s, which stand in for `prim::Ratio`.
- **XML codec** (`xml.dfy`, module `GraphXML`; `xmlwrite.dfy`, module `XMLWriter`):
  - `XML::Read` works over an already parsed element tree in two passes: it builds the nodes and the node table, then links the entries.
  - `XML::Write` writes the islands of the geometry's matrix in part-major, instant-minor order.
  - Lemmas show what Read recovers from what Write emits.
- **Instant properties** (`properties.dfy`, module `Properties`): the `Instant::Properties` set operations, `SetDefaultProperties`, and `GetProperties`/`SetProperties`/`ClearProperties`.
- **Stems** (`island.dfy`, module `Stems`): the stem-direction voice tracker `UpdateStemState`, and the two-voice rest displacement and `ShiftLeft` choice at the top of `IslandEngraver::Engrave`.
- **Extra staves** (`score.dfy`, module `Notation`): `Score::determineExtraStaves`.
- **Small shared modules**: `wrappers.dfy` (`Option`) and `seqs.dfy` (subsequences).

Mica concepts, which are UUIDs in the engine, are represented by their names as strings, with "" standing for `mica::Undefined`. Pitches are MIDI numbers.

## Model

| member | source | states |
|---|---|---|
| Utility.GetUndottedValue | bbs/Source/Modern/Utility.h:51-60 | for a positive duration, the result is the power of two b with b <= c < 2b, and no power of two at most c exceeds it |
| Utility.UndottedIsLargest | bbs/Source/Modern/Utility.h:51-60 | every power of two at most c is at most the undotted value of c |
| Utility.UndottedUnique | bbs/Source/Modern/Utility.h:51-60 | a duration has exactly one undotted value |
| Utility.CountDots | bbs/Source/Modern/Utility.h:63-78 | 0 exactly for a power of two; otherwise the least dot count up to the maximum whose dotted value is the duration, or -1 when no such count exists |
| Utility.DottedValueRoundTrip | bbs/Source/Modern/Utility.h:63-78 | dotting a power of two keeps it as the undotted value, and different dot counts give different durations, so CountDots recovers the count |
| Utility.CountFlags | bbs/Source/Modern/Utility.h:81-91 | no flags exactly from a quarter up; otherwise the flag count is the number of halvings of a quarter that give the undotted value |
| Utility.GetNotehead | bbs/Source/Modern/Utility.h:94-103 | quarter notehead below a half, half notehead from a half to below a whole, whole notehead from a whole up |
| Utility.GetTopLine | bbs/Source/Modern/Utility.h:119-122 | the top line is a line of the staff (its parity differs from the line count's) on or above the middle line |
| Utility.GetBottomLine | bbs/Source/Modern/Utility.h:125-128 | the bottom line is a line of the staff on or below the middle line |
| Utility.StaffLinesSpan | bbs/Source/Modern/Utility.h:119-128 | top and bottom lines mirror each other about the middle line, and the lines from bottom to top, two line/spaces apart, number exactly the staff's lines |
| Utility.RoundUpToNextSpace | bbs/Source/Modern/Utility.h:131-137 | the result is s or s + 1, whichever has the parity of the staff's line count |
| Utility.GetLineSpaceForTabbedNote | bbs/Source/Modern/Utility.h:171-178 | both arms (odd and even string counts) equal numStrings - 1 - 2 * stringIndex |
| Utility.TabbedStringsOnLines | bbs/Source/Modern/Utility.h:117-128 | the first string sits on the top line, the last on the bottom line, and neighbouring strings are two line/spaces apart |
| Utility.GetNoteNumberForNoteName | bbs/Source/Modern/Utility.h:196-273 | the number lies in the octave's twelve; every spelling in the table gives 12 * octave + (letter pitch class + accidental) mod 12, and an unlisted name gives the octave's C |
| Utility.EnharmonicNoteNumbers | bbs/Source/Modern/Utility.h:206-270 | two spellings in one octave get the same number exactly when they sound the same pitch class |
| Utility.GetMIDIValueForNoteNumberAsWritten | bbs/Source/Modern/Utility.h:277-422 | a MIDI value exactly for 0..127, with the same number except that 110 gives the concept of 100 |
| Utility.MIDIValue110Collides | bbs/Source/Modern/Utility.h:401-402 | the table as written sends 110 to the same concept as 100, and not to MIDI value 110 |
| Utility.GetMIDIValueForNoteNumber | bbs/Source/Modern/Utility.h:277-422 | a MIDI value exactly for 0..127, and then the one with the same number |
| Utility.MIDIValueCorrected | bbs/Source/Modern/Utility.h:277-422 | the corrected table is one-to-one on 0..127 and agrees with the written one everywhere except at 110 |
| Decimal.ToNumber | bbs/Source/Graph/XML.h:400-401 | the reading of an attribute as a number that this model assumes for the engine's converter: a whole decimal numeral with an optional minus sign gives its value, any other text gives 0 |
| Decimal.IntToString | bbs/Source/Graph/XML.h:214-222 | an optional minus sign followed by at least one digit |
| Decimal.ParseIntToString | bbs/Source/Graph/XML.h:214-222 | a number written out reads back as the same number |
| Decimal.IntToStringInjective | bbs/Source/Graph/XML.h:214-222 | different numbers are written differently |
| Instruments.MakeString | bbs/Source/Graph/StringedInstrument.h:62-66 | an undefined note becomes MIDI value 0 and negative semitones become 0; anything else is kept |
| Instruments.DefaultNumStrings | bbs/Source/Graph/StringedInstrument.h:320-331 | six for a guitar and four for a bass, always a count the type allows |
| Instruments.DefaultTuningShape | bbs/Source/Graph/StringedInstrument.h:102-139 | for every allowed type and count the default tuning has exactly that many strings, strictly falling, all MIDI notes; a guitar runs E4 to E2 on its first six, a bass has G2 D2 A1 E1 in a row |
| Instruments.PositionOnString | bbs/Source/Graph/StringedInstrument.h:248-265 | a fret exactly when the index is a string and the note lies between its open note and its open note plus its semitones, and then open note + fret is the note; -1 otherwise |
| Instruments.PositionRoundTrip | bbs/Source/Graph/StringedInstrument.h:248-265 | the note at a fret of a string is found at that fret |
| Instruments.StringedInstrument.constructor | bbs/Source/Graph/StringedInstrument.h:70-84 | negative semitones become 0, a count the type does not allow becomes its default, and the strings are the default tuning, one per string |
| Instruments.StringedInstrument.Default | bbs/Source/Graph/StringedInstrument.h:87-95 | a six-string guitar with 19 frets, shown as standard, tuned E4 B3 G3 D3 A2 E2 |
| Instruments.StringedInstrument.InitializeStrings | bbs/Source/Graph/StringedInstrument.h:102-139 | the strings become the default tuning of the type and count; every other field is kept |
| Instruments.StringedInstrument.SetInstrumentType | bbs/Source/Graph/StringedInstrument.h:149-152 | only the type changes; the strings are not re-tuned |
| Instruments.StringedInstrument.SetDefaultNumberOfStrings | bbs/Source/Graph/StringedInstrument.h:161-170 | accepted exactly when the type allows the count, and then re-tunes to that many strings; refused counts change nothing |
| Instruments.StringedInstrument.SetNumSemitones | bbs/Source/Graph/StringedInstrument.h:180-183 | stores the count, negative counts as 0; the strings keep their own semitones |
| Instruments.StringedInstrument.SetNoteOfString | bbs/Source/Graph/StringedInstrument.h:192-197 | re-tunes the indexed string when the index is in range and the note defined; nothing changes otherwise |
| Instruments.StringedInstrument.SetSemitonesOfString | bbs/Source/Graph/StringedInstrument.h:200-206 | sets the indexed string's semitones when the index is in range and the count not negative; nothing changes otherwise |
| Instruments.StringedInstrument.AddString | bbs/Source/Graph/StringedInstrument.h:209-212 | appends one string made as InstrumentString's constructor makes it; the settings are kept |
| Instruments.StringedInstrument.RemoveString | bbs/Source/Graph/StringedInstrument.h:215-219 | removes the indexed string, later strings moving up by one; an index out of range changes nothing |
| Instruments.StringedInstrument.RemoveAllStrings | bbs/Source/Graph/StringedInstrument.h:222-225 | no strings remain; the settings are kept |
| Instruments.StringedInstrument.SetDisplaySetting | bbs/Source/Graph/StringedInstrument.h:234-237 | only the display setting changes |
| Instruments.StringedInstrument.GetStringsAvailableForNote | bbs/Source/Graph/StringedInstrument.h:271-286 | exactly the strings on which the note can be played, in increasing index order when highest to lowest is asked for and in decreasing order otherwise |
| Graph.ExtraStaff.constructor | bbs/Source/Graph/Base.h:65 | part 0 with no extra staff |
| Graph.ExtraStaff.Make | bbs/Source/Graph/Base.h:67-72 | starts from zero and goes through the setters, so a negative argument leaves its field at 0 |
| Graph.ExtraStaff.SetPartID | bbs/Source/Graph/Base.h:78-81 | a part index that is not negative is stored, a negative one ignored; the count is kept |
| Graph.ExtraStaff.SetNumExtra | bbs/Source/Graph/Base.h:85-88 | a count that is not negative is stored, a negative one ignored; the part is kept |
| Graph.CompareElements | bbs/Source/Graph/Base.h:97-101 | -1, 0 or 1, and each exactly when the first part index is below, equal to or above the second |
| Graph.CompareElementsOrder | bbs/Source/Graph/Base.h:97-101 | the comparator is antisymmetric and transitive, as a sort requires |
| Graph.UniqueID | bbs/Source/Graph/Base.h:204-214 | an island with typesetting information is named by its part and instant; any other node by its lower-cased short type name, a colon and its custom data |
| Graph.IslandIDFields | bbs/Source/Graph/Base.h:288-296 | after its prefix an island's id is its part, a comma and its instant |
| Graph.IslandIDInjective | bbs/Source/Graph/Base.h:288-296 | islands at different parts or instants get different ids |
| Graph.Gathered | bbs/Source/Graph/Base.h:302-318 | every node that is not deleted appears, each once, in increasing handle order |
| Graph.FirstWins | bbs/Source/Graph/Base.h:358 | a node's first link of a kind, the one Find returns, is the one it already had, else the new one |
| Graph.MeshOfTables | bbs/Source/Graph/Base.h:328-366 | the mesh built island by island links every island to the neighbours in its row and column that the tables give |
| Graph.GridAcross | bbs/Source/Graph/Base.h:337-342 | in a complete mesh each island's across link is the next island of its row and its back link the previous one |
| Graph.GridDown | bbs/Source/Graph/Base.h:348-364 | in a complete mesh each island's down link is the island below it and its back link the one above |
| Graph.RowChain | bbs/Source/Graph/Base.h:397-411 | in a mesh the part through the first island of row i runs across the row's consecutive islands |
| Graph.ColumnChain | bbs/Source/Graph/Base.h:415-429 | in a mesh the instant through island (0, j) runs down column j |
| Graph.IslandChain | bbs/Source/Graph/Base.h:397-411 | following mesh links from an island meets only islands |
| Graph.SweepOfRows | bbs/Source/Graph/Base.h:397-411 | sweeping the parts of a mesh visits the islands in numbering order |
| Graph.SweepOfColumns | bbs/Source/Graph/Base.h:415-429 | sweeping the instants of a mesh visits the islands instant by instant, each from the top down |
| Graph.MusicGraph.constructor | bbs/Source/Graph/Base.h:300 | an empty graph without a top |
| Graph.MusicGraph.AddNode | bbs/Source/Graph/Base.h:335 | a new node of the given kind at the next handle, with no links, no typesetting information and no custom data; every other node is kept |
| Graph.MusicGraph.AddAcross | bbs/Source/Graph/Base.h:340 | adding a part-wise link changes only a's forward and b's backward part-wise links, each keeping a link it already had |
| Graph.MusicGraph.AddDown | bbs/Source/Graph/Base.h:351 | adding an instant-wise link changes only a's forward and b's backward instant-wise links, each keeping a link it already had |
| Graph.MusicGraph.AddLink | bbs/Source/Graph/Base.h:340 | adding a link of another kind only appends it to a's list of links |
| Graph.MusicGraph.Find | bbs/Source/Graph/Base.h:358 | the target of the node's first link of the kind, or none exactly when it has no such link |
| Graph.MusicGraph.DeleteNode | bbs/Source/Graph/Base.h:321-325 | the node is marked deleted and loses its outgoing links; nothing else changes |
| Graph.MusicGraph.AllocateTypesetting | bbs/Source/Graph/Base.h:164-180 | the node gets typesetting information with part and instant -1; nothing else changes |
| Graph.MusicGraph.Clear | bbs/Source/Graph/Base.h:321-325 | no nodes remain and there is no top |
| Graph.MusicGraph.SetTop | bbs/Source/Graph/Base.h:336 | only the top changes |
| Graph.MusicGraph.SetCustomDataToIDs | bbs/Source/Graph/Base.h:302-309 | the gathered nodes are numbered 0, 1, ... in gather order; deleted nodes and every other field are kept |
| Graph.MusicGraph.ClearCustomData | bbs/Source/Graph/Base.h:311-318 | every gathered node loses its custom data; deleted nodes and every other field are kept |
| Graph.MusicGraph.CreateIslands | bbs/Source/Graph/Base.h:328-366 | clears the graph and builds a grid of at least one part and one instant, a part or instant count below 1 counting as 1 |
| Graph.MusicGraph.GridLinks | bbs/Source/Graph/Base.h:328-366 | on the grid, island (i, j) is an island, linked across to (i, j + 1) and down to (i + 1, j) where those exist, and back from (i, j - 1) and (i - 1, j) |
| Graph.MusicGraph.AppendColumn | bbs/Source/Graph/Base.h:369-393 | beside each island of the instant below the given top, one new island linked across from it, the new ones linked down one below the other; the first new island is returned and nothing else changes |
| Graph.MusicGraph.AddIsland | bbs/Source/Graph/Base.h:386-388 | a new island linked across from the given island and down from the one above, where those are given |
| Graph.MusicGraph.TraverseRows | bbs/Source/Graph/Base.h:397-411 | the islands are visited part by part from the top, each part instant by instant |
| Graph.MusicGraph.TraverseColumns | bbs/Source/Graph/Base.h:415-429 | the islands are visited instant by instant from the top, each instant part by part |
| Graph.MusicGraph.GridTraversals | bbs/Source/Graph/Base.h:397-429 | on the grid CreateIslands builds, TraverseRows visits every island once in numbering order and TraverseColumns visits them instant by instant |
| Chains.Walk | bbs/Source/Graph/Base.h:397-429 | the nested walk visits, in order, the inner chain from each node of the outer chain |
| Chains.Follow | bbs/Source/Graph/Geometry.h:228-229 | following a link from a node until there is none visits that node's chain |
| Chains.ChainDistinct | bbs/Source/Graph/Base.h:400-410 | a walk that ends never visits a node twice |
| Chains.ChainSuffix | bbs/Source/Graph/Base.h:400-410 | the chain from the i-th node of a chain is the rest of that chain |
| Chains.Last | bbs/Source/Graph/Base.h:400-410 | the last node of a chain has no further link and is on the chain |
| PartOrder.FirstReady | bbs/Source/Graph/Geometry.h:181-182 | the lowest numbered unplaced part at or after the start whose observed predecessors are all placed, or none exactly when no such part exists |
| PartOrder.PlaceResult | bbs/Source/Graph/Geometry.h:181-182 | placing from a partial order that respects the observations ends either in an ordering of all parts that respects them or stuck with parts left over |
| PartOrder.StuckHasNoOrder | bbs/Source/Graph/Geometry.h:185-190 | when placing is stuck, no numbering of the parts respects the observations |
| PartOrder.SolveOrders | bbs/Source/Graph/Geometry.h:181-197 | a solved order lists every part once, and its inverse numbering puts each observed earlier part before its later part |
| PartOrder.ConflictedIffNoOrder | bbs/Source/Graph/Geometry.h:185-190 | the observations are reported conflicted exactly when no numbering of the parts respects them |
| PartOrder.Inverse | bbs/Source/Graph/Geometry.h:193-197 | the part map sends the part placed i-th to i, and back |
| PartOrder.AllParts | bbs/Source/Graph/Geometry.h:193-197 | count distinct parts below count are all of them |
| Numbering.OriginsAre | bbs/Source/Graph/Geometry.h:376-379 | an island starts a strand exactly when no part-wise link leads into it |
| Numbering.OriginsIncrease | bbs/Source/Graph/Geometry.h:371-379 | the origins come in the order of the islands |
| Numbering.StrandForward | bbs/Source/Graph/Geometry.h:382-386 | every island on the strand an origin starts leads back along part-wise links to that origin |
| Numbering.StrandBackward | bbs/Source/Graph/Geometry.h:382-386 | every island lies on the strand of the origin its backward walk ends at |
| Numbering.StrandIndex | bbs/Source/Graph/Geometry.h:367-394 | the number of an island's strand is the position of its origin among the origins |
| Numbering.GatherIslands | bbs/Source/Graph/Geometry.h:352-363 | exactly the islands among the gathered nodes, in gather order |
| Numbering.TagStrand | bbs/Source/Graph/Geometry.h:382-386 | every island from the origin onwards along part-wise links gets the given part, and nothing else changes |
| Numbering.MarkStrandAt | bbs/Source/Graph/Geometry.h:371-390 | one round of the loop: an island that starts a strand has its strand walked and tagged with the next number, any other island is skipped; the tags so far are those of walking the origins met so far in order |
| Numbering.MarkPartStrands | bbs/Source/Graph/Geometry.h:367-394 | the strands are numbered 0, 1, ... in the order of their origins and walked in that order, each island reached taking the strand's number (a later strand retagging what an earlier one reached); the number of origins is returned; when the links form strands, every island gets the number of its own strand |
| Numbering.LastReach | bbs/Source/Graph/Geometry.h:371-390 | the position of the last origin whose walk reaches the island, and no later origin's walk reaches it; none when no walk does |
| Numbering.TaggedAt | bbs/Source/Graph/Geometry.h:382-386 | after the walks, an island has the number of the last strand that reaches it, and keeps what it had when none does |
| Numbering.TaggedNext | bbs/Source/Graph/Geometry.h:371-390 | walking one more origin tags its strand with the next number over the tags so far |
| Numbering.OriginsEnd | bbs/Source/Graph/Geometry.h:382-386 | when every strand start's part-wise walk ends, the walks of all the origins among a list of islands end |
| Numbering.TaggedStrands | bbs/Source/Graph/Geometry.h:367-394 | when the links form strands, walking distinct strand starts in order gives every island whose backward walk ends at the k-th start part k, and every other node keeps its typesetting |
| Numbering.TagsByStrands | bbs/Source/Graph/Geometry.h:367-394 | when the links form strands, MarkPartStrands' tags are those of each island's own strand |
| Numbering.TagsKeep | bbs/Source/Graph/Geometry.h:382-386 | the tagging changes nothing but islands' parts |
| Numbering.AllTagged | bbs/Source/Graph/Geometry.h:367-394 | when the links form strands, after the tagging every island has a part below the number of strands |
| Numbering.StrandTagged | bbs/Source/Graph/Geometry.h:382-389 | when the links form strands, every island reached from the k-th origin along part-wise links has part k |
| Numbering.ObservationsAre | bbs/Source/Graph/Geometry.h:438-448 | an observation is made exactly when some island has an instant-wise link, and says that its part comes before the part of the island below |
| Numbering.ObservationsWithin | bbs/Source/Graph/Geometry.h:438-448 | the observations only name parts that exist |
| Numbering.ObservePartOrders | bbs/Source/Graph/Geometry.h:438-448 | one observation per island with an instant-wise link out of it, in island order |
| Numbering.MakePartMap | bbs/Source/Graph/Geometry.h:193-197 | the part map is the solver's ordering inverted |
| Numbering.RenumberParts | bbs/Source/Graph/Geometry.h:200-202 | every island's part is replaced by its image under the part map; nothing else changes |
| Numbering.FinalPart | bbs/Source/Graph/Geometry.h:200-202 | after renumbering an island's part is its strand's number, renumbered |
| Numbering.PartsFollowStrands | bbs/Source/Graph/Geometry.h:200-202 | after renumbering, islands joined by a part-wise link are in the same part |
| Numbering.PartsAscend | bbs/Source/Graph/Geometry.h:160-162 | for any tagging with parts below the ranking's length, renumbering by a ranking that respects the observations numbers the part an instant-wise link comes from lower than the part it leads to |
| Numbering.OriginPart | bbs/Source/Graph/Geometry.h:200-202 | after renumbering, the k-th origin's part is the rank of strand k |
| Numbering.PartsOnto | bbs/Source/Graph/Geometry.h:193-202 | after renumbering by the inverse of an ordering, every part number below the count is some origin's part |
| Numbering.PartsOneToOne | bbs/Source/Graph/Geometry.h:193-202 | after renumbering by the inverse of an ordering, two different origins have different parts below the count |
| Numbering.BoundsAre | bbs/Source/Graph/Geometry.h:397-422 | the first island of a part is an island of that part without a part-wise link into it, the last one without a link out of it, and there is one whenever the part has such an island |
| Numbering.MarkPartBounds | bbs/Source/Graph/Geometry.h:397-422 | one pass over the islands, a later island overwriting an earlier one |
| Numbering.BoundsFound | bbs/Source/Graph/Geometry.h:412-420 | a part with a strand start and a strand end among the islands gets both bounds |
| Numbering.BoundsComplete | bbs/Source/Graph/Geometry.h:397-435 | once the parts are numbered from the strands, every part has a first and a last island, so reading the instant ranges never meets a missing bound |
| Numbering.StrandEnd | bbs/Source/Graph/Geometry.h:418-420 | the end of an origin's strand is an island on it without a link out |
| Numbering.FindPenultimates | bbs/Source/Graph/Geometry.h:266-273 | each group member's backward part-wise neighbour, none where the member starts its part |
| Numbering.GroupMayAdvance | bbs/Source/Graph/Geometry.h:276-304 | the group may advance exactly when every member's predecessor, where it has one, is on the leading edge |
| Numbering.ReplaceOnEdge | bbs/Source/Graph/Geometry.h:319-326 | the first entry equal to the predecessor is replaced by the member; nothing changes when there is none |
| Numbering.AdvanceGroup | bbs/Source/Graph/Geometry.h:312-330 | members without a predecessor are appended to the edge, the others replace their predecessor, and every member gets the new instant |
| Numbering.AdvancedFrom | bbs/Source/Graph/Geometry.h:312-330 | every entry of the edge after an advance was on it before or is a member of the group |
| Numbering.AdvancedKeeps | bbs/Source/Graph/Geometry.h:312-330 | an entry that is no member's predecessor stays on the edge |
| Numbering.AdvancedIncludes | bbs/Source/Graph/Geometry.h:312-330 | when the group may advance with distinct predecessors outside the group, every member is on the edge after the advance |
| Numbering.FirstInstant | bbs/Source/Graph/Geometry.h:222-238 | the top and the islands below it get instant 0, form the leading edge, and make the first instant's size |
| Numbering.FirstState | bbs/Source/Graph/Geometry.h:222-238 | the first instant starts the sweep's invariant: one group, the column below the top, with its size recorded and its members on the edge, which covers them |
| Numbering.StampedAt | bbs/Source/Graph/Geometry.h:233-330 | after the groups are stamped, a node in no group keeps its typesetting, and an island in some group has the index of one of its groups as its instant |
| Numbering.OnceInstant | bbs/Source/Graph/Geometry.h:329 | when no island is in two groups, a member of group k has instant k |
| Numbering.AdvanceKeepsState | bbs/Source/Graph/Geometry.h:306-336 | advancing a group that may advance stamps it with the next instant, records its size and keeps the sweep's invariant, with the advanced edge |
| Numbering.AdvanceKeepsCovered | bbs/Source/Graph/Geometry.h:312-330 | when the links form strands, an advance keeps every numbered island on the edge or followed by a numbered island of its part |
| Numbering.RemoveKeepsState | bbs/Source/Graph/Geometry.h:253-258 | removing an entry with no part-wise successor keeps the sweep's invariant, and keeps the numbered islands covered |
| Numbering.TryEntry | bbs/Source/Graph/Geometry.h:247-341 | one turn at an entry: removed when its part has ended, advanced when its next group may advance, else left; the sweep's invariant is kept, and so is the cover when the links form strands |
| Numbering.LeadingEdge | bbs/Source/Graph/Geometry.h:220-349 | the sweep logs the groups it numbers: the first is the column below the top, every later one a column below its first island; group k's members get instant k and the instant list records each group's size; only numbered islands change; every later group's predecessors were numbered before it; the sweep ends with an empty edge or stalls only when every entry is blocked; when the links form strands, a finished sweep has numbered the top and every island a link leads to from a numbered island |
| Numbering.SweepDone | bbs/Source/Graph/Geometry.h:244-342 | once the edge is empty and every numbered island was covered, the top is numbered and so is every island that a part-wise or instant-wise link leads to from a numbered island |
| Numbering.NumberedBelow | bbs/Source/Graph/Geometry.h:220-349 | every numbered island keeps its part and has an instant below the number of instants recorded; every node in no group keeps its typesetting |
| Numbering.EdgeNumbered | bbs/Source/Graph/Geometry.h:244-342 | every island on the leading edge has an instant below the number of instants recorded |
| Numbering.InstantsIncrease | bbs/Source/Graph/Geometry.h:312-336 | when no island is in two groups and the first instant starts every part it holds, an island's instant is below the instant of its part-wise successor whenever both are numbered |
| Numbering.PartsCount | bbs/Source/Graph/Geometry.h:332-333 | when no island is in two groups, the k-th recorded size is the number of islands with instant k |
| Numbering.RenumberedAssigned | bbs/Source/Graph/Geometry.h:165-208 | renumbering by the inverse of an ordering that respects the observations gives every island a part below the count, parts that follow strands, ascend down instant-wise links and correspond one to one with the strands |
| Numbering.RenumberedShare | bbs/Source/Graph/Geometry.h:200-202 | after renumbering, islands linked part-wise share their part |
| Numbering.RenumberedDescend | bbs/Source/Graph/Geometry.h:160-162 | for any tagging with parts below the count, renumbering by the inverse of an ordering that respects the observations keeps parts below the count and makes them ascend along instant-wise links |
| Numbering.RenumberedKeeps | bbs/Source/Graph/Geometry.h:169-202 | tagging the strands and then renumbering changes nothing but islands' parts |
| Numbering.RenumberedDistinct | bbs/Source/Graph/Geometry.h:193-202 | after renumbering, different strands are in different parts |
| Numbering.RenumberedCovered | bbs/Source/Graph/Geometry.h:193-202 | after renumbering, every part below the count is some strand's |
| Numbering.RenumberedSame | bbs/Source/Graph/Geometry.h:200-202 | renumbering changes only islands' parts |
| Numbering.DistinctOrigins | bbs/Source/Graph/Geometry.h:193-202 | two distinct strand origins end up in distinct parts |
| Numbering.PartOrigin | bbs/Source/Graph/Geometry.h:193-202 | every part number is the part of the strand the ordering puts in that place |
| Numbering.AssignParts | bbs/Source/Graph/Geometry.h:165-208 | on any mesh whose strand walks end: an island that no strand reaches and that keeps a part outside the strand numbers stops the numbering after the tagging (Unnumbered); contradictory observations stop it after the tagging with no ranking able to respect them (Conflicted); otherwise the parts are renumbered by the solved order, ascend along instant-wise links, only islands' parts change and the bounds are marked; when the links form strands nothing is left unnumbered and the parts follow the strands one to one, every part with both bounds |
| Layout.MarkInstantRanges | bbs/Source/Graph/Geometry.h:425-435 | one range per part, from the instant of its first island to the instant of its last |
| Layout.RangesSpanParts | bbs/Source/Graph/Geometry.h:425-435 | after a completed part numbering, part p's range runs from the instant of an island that starts a strand of p to the instant of one that ends a strand of p |
| Layout.PartsAt | bbs/Source/Graph/Geometry.h:77-85 | exactly the parts whose range contains the instant, in increasing part order |
| Layout.AccessorsAre | bbs/Source/Graph/Geometry.h:149-160 | an island found at part p and instant k has that part and instant and is the last listed island with them; the entry is empty when no island has them |
| Layout.FillAccessors | bbs/Source/Graph/Geometry.h:149-157 | a fresh parts by instants matrix equal to the specification matrix: each cell holds the last listed island with that part and instant, and is empty when there is none |
| Layout.ReadableIslands | bbs/Source/Graph/Geometry.h:153-158 | islands with typesetting information can be placed in the matrix |
| Layout.NumberedInMatrix | bbs/Source/Graph/Geometry.h:149-157 | every island the sweep numbered is listed and has a part below the part count and an instant below the number of instants |
| Layout.PlacedInMatrix | bbs/Source/Graph/Geometry.h:149-157 | a listed island whose part and instant lie inside the matrix has a filled cell at that part and instant |
| Layout.Geometry.constructor | bbs/Source/Graph/Geometry.h:45-147 | a geometry with nothing found |
| Layout.Geometry.AssignPartIDs | bbs/Source/Graph/Geometry.h:165-208 | the islands, the part count and the typesetting AssignParts gives, with its outcome; the part bounds are set only when the parts are assigned and are left as they were otherwise; nothing else changes |
| Layout.Geometry.AssignInstantIDs | bbs/Source/Graph/Geometry.h:220-349 | the leading-edge sweep from the top island, with the guarantees of the sweep (the groups it numbers, their sizes recorded, only numbered islands changed); only a finished sweep sets the instant count and the ranges; when the links form strands, it has numbered the top and every island linked from a numbered one |
| Layout.Geometry.AssignAccessors | bbs/Source/Graph/Geometry.h:149-158 | a fresh matrix equal to the specification matrix of the islands at their part and instant; nothing else changes |
| Layout.Geometry.Parse | bbs/Source/Graph/Geometry.h:66-73 | parts, then instants, then accessors; neither a conflict nor an unnumbered island stops the instants; unless an island was left unnumbered, after a finished sweep every numbered island lies inside the matrix and the matrix holds an island at its part and instant; with assigned parts on strands, each part's range runs from the instant of a strand start to that of a strand end |
| Layout.Geometry.LookupIsland | bbs/Source/Graph/Geometry.h:112-115 | the island at part p and instant k has that part and instant and is the last listed with them; none when no island has them |
| Layout.Geometry.TopMostIslandInInstant | bbs/Source/Graph/Geometry.h:88-95 | the island of the lowest numbered part present at the instant, or none when no part has one |
| Layout.Geometry.GetPartListForInstant | bbs/Source/Graph/Geometry.h:77-85 | the parts whose range contains the instant, in part order |
| Layout.Geometry.IsInstantComplete | bbs/Source/Graph/Geometry.h:98-103 | true exactly when as many parts' ranges contain the instant as its group had islands |
| Properties.Added | bbs/Source/Graph/Properties.h:54-63 | a concept is appended only when it is not there yet: the old list is a prefix, and the result holds exactly the old concepts and the new one |
| Properties.AddedDistinct | bbs/Source/Graph/Properties.h:54-63 | setting a concept never creates a duplicate |
| Properties.AddedIdempotent | bbs/Source/Graph/Properties.h:54-63 | setting a concept twice is setting it once |
| Properties.InstantProperties.constructor | bbs/Source/Graph/Properties.h:47 | an instant starts with no properties |
| Properties.InstantProperties.SetConcept | bbs/Source/Graph/Properties.h:54-63 | the concept is added unless already present |
| Properties.InstantProperties.SetSystemBreak | bbs/Source/Graph/Properties.h:54 | a system break is added unless already present |
| Properties.InstantProperties.SetOptionalBreak | bbs/Source/Graph/Properties.h:55 | an optional break is added unless already present |
| Properties.InstantProperties.SetRepeatingInstant | bbs/Source/Graph/Properties.h:56-59 | a repeating instant is added unless already present |
| Properties.InstantProperties.SetAbsorbedInstant | bbs/Source/Graph/Properties.h:60-63 | an absorbed instant is added unless already present |
| Properties.PropertyNodes | bbs/Source/Graph/Properties.h:137-138 | only property nodes are found |
| Properties.PropertyNodeFound | bbs/Source/Graph/Properties.h:137-138 | every property node a property link leads to is found |
| Properties.PropertyNodeLinked | bbs/Source/Graph/Properties.h:137-138 | every node found is reached by a property link |
| Properties.PropertyNodesAppend | bbs/Source/Graph/Properties.h:137-138 | finding over two runs of links is finding over each in turn |
| Properties.ClearedEmpty | bbs/Source/Graph/Properties.h:147-157 | after clearing a node's properties no property node hangs off it |
| Properties.AttachedProperties | bbs/Source/Graph/Properties.h:180-182 | attaching property nodes for a list of concepts to a node with none gives it exactly that list, as new nodes in order |
| Properties.GetProperties | bbs/Source/Graph/Properties.h:130-144 | the list is left as it was when the node does not raise to a top part; otherwise it becomes the values of that top part's property nodes, in link order |
| Properties.ClearProperties | bbs/Source/Graph/Properties.h:147-157 | nothing happens for a node that is not an island; otherwise every property node of its top part is deleted and the instant has no properties left |
| Properties.DeleteAll | bbs/Source/Graph/Properties.h:156 | each listed node is deleted in turn |
| Properties.SetProperties | bbs/Source/Graph/Properties.h:171-183 | the instant's properties are cleared, then one property node per concept is attached to the top part, so the instant's properties become exactly the list |
| Properties.AttachAll | bbs/Source/Graph/Properties.h:181-182 | one new property node per concept, in order, each linked from the node |
| Properties.AttachOne | bbs/Source/Graph/Properties.h:182 | one new property node for the concept, linked from the node |
| Properties.ResetKind | bbs/Source/Graph/Properties.h:171-183 | setting a node's properties deletes exactly its old property nodes and keeps every other node's kind |
| Properties.ResetLinks | bbs/Source/Graph/Properties.h:171-183 | setting a node's properties empties its old property nodes' links and adds links to the new ones after its own |
| Properties.KindsKept | bbs/Source/Graph/Properties.h:171-183 | setting properties leaves every node that is not a property node as it was |
| Properties.TokenKept | bbs/Source/Graph/Properties.h:171-183 | setting properties leaves what each such node's token link leads to |
| Properties.OthersKept | bbs/Source/Graph/Properties.h:171-183 | where no property node is shared, setting the properties of one node leaves every other node's properties as they were |
| Properties.OwnedKept | bbs/Source/Graph/Properties.h:171-183 | setting properties keeps property nodes unshared |
| Properties.LinkedFrom | bbs/Source/Graph/Properties.h:180-182 | a new property node is linked from the node alone; an old one from whoever linked to it before |
| Properties.ChosenMeaning | bbs/Source/Graph/Properties.h:95-122 | a token island that extends the initial material gets a repeating instant; after the initial material, every barline island gets an optional break; the token that ends the initial material gets nothing |
| Properties.ChooseMeaning | bbs/Source/Graph/Properties.h:97-122 | one step of the choice, in terms of the tokens seen so far |
| Properties.FlagsMeaning | bbs/Source/Graph/Properties.h:82-85 | initial material lasts exactly while the tokens seen are initial material, and meanwhile each flag says whether its kind of token has been seen |
| Properties.SeenMeaning | bbs/Source/Graph/Properties.h:99-114 | a flag is set exactly when its kind of token has been seen |
| Properties.InitialMeaning | bbs/Source/Graph/Properties.h:97-117 | the tokens are initial material exactly when each is a barline, clef or key signature not seen before |
| Properties.WalkedKept | bbs/Source/Graph/Properties.h:86-126 | the walk keeps the kind and the token of every node that is not a property node |
| Properties.WalkedOwned | bbs/Source/Graph/Properties.h:86-126 | the walk keeps property nodes unshared |
| Properties.WalkedProperties | bbs/Source/Graph/Properties.h:86-126 | after the walk each node that is not a property node carries the concepts last chosen for it, or those it had before |
| Properties.SetDefaultProperties | bbs/Source/Graph/Properties.h:79-127 | the top row's islands that have a token get the concepts the choice picks from the tokens met so far, set on their instants; the mesh only grows |
| Properties.Visit | bbs/Source/Graph/Properties.h:88-125 | an island without a token is skipped; otherwise its instant gets the chosen concepts and the flags move on |
| Properties.DefaultsAtRow | bbs/Source/Graph/Properties.h:79-127 | on a top row of distinct islands, each island with a token ends up with a repeating instant while the initial material lasts, an optional break when it is a later barline, and nothing otherwise; one without a token keeps its properties |
| Properties.ClearAllProperties | bbs/Source/Graph/Properties.h:160-168 | each instant met along the top row is cleared; the mesh is kept |
| Properties.ClearOne | bbs/Source/Graph/Properties.h:165 | the properties of the island's instant are cleared |
| Properties.BlankedEmpty | bbs/Source/Graph/Properties.h:160-168 | where property nodes are unshared, every top part of the row is left without properties |
| Api.TopPart | bbs/Source/Graph/API.h:88-104 | some exactly for an island; then an island with nothing above it, reached by going back up the instant from the node |
| Api.RaiseToTopPart | bbs/Source/Graph/API.h:88-104 | true exactly for an island, and the node is moved to the top part of its instant (null when it is not an island) |
| Api.RaiseIdempotent | bbs/Source/Graph/API.h:97-101 | raising a node already raised leaves it where it is |
| Tablature.TabNoteOrder | bbs/Source/Modern/Tab.h:351-377 | exactly one of <, ==, > holds; > is < reversed; <= and >= are the negations of > and <; < and == are transitive; < is the order on (line/space, fret) |
| Tablature.DedupProperties | bbs/Source/Modern/Tab.h:383-390 | no two neighbours are left equal, only entries of the list are kept, every dropped entry equals a kept one, and on a sorted list no two kept entries are equal |
| Tablature.DedupSortedStrict | bbs/Source/Modern/Tab.h:383-390 | on a sorted list the kept entries strictly increase |
| Tablature.DedupIsSubsequence | bbs/Source/Modern/Tab.h:383-390 | the kept entries keep their relative order |
| Tablature.SortedSubsequence | bbs/Source/Modern/Tab.h:383-384 | a subsequence of a sorted list is sorted |
| Tablature.KeptFromShape | bbs/Source/Modern/Tab.h:387-389 | what the loop keeps past an index starts apart from the entry before it, has no equal neighbours, and covers every later entry |
| Tablature.FirstFreeFrom | bbs/Source/Modern/Tab.h:99-116 | the string found plays the note and is not used |
| Tablature.FirstFreeInAvailable | bbs/Source/Modern/Tab.h:95-116 | the first available string that is not used is the lowest free string that plays the note |
| Tablature.PlaceConsistent | bbs/Source/Modern/Tab.h:58-80 | placing one note keeps every tab note on an unused string with its fret and line/space, and the note ends as a tab note or a wrong note |
| Tablature.PrimaryConsistent | bbs/Source/Modern/Tab.h:34-81 | the first pass over notes without a rest keeps the state consistent, and every note ends as a tab note or a wrong note |
| Tablature.PrimaryWrongIsSubsequence | bbs/Source/Modern/Tab.h:79-80 | the first pass's wrong notes are the chord's unplaced notes, in chord order |
| Tablature.RestStopsImport | bbs/Source/Modern/Tab.h:37-44 | a rest ends the first pass with only the rest entry, on the middle line for an odd string count or the middle space for an even one, and no wrong notes |
| Tablature.FallbackStepConsistent | bbs/Source/Modern/Tab.h:88-116 | one wrong note either takes a free string that plays it, becoming a fixed note, or changes nothing |
| Tablature.FallbackConsistent | bbs/Source/Modern/Tab.h:86-117 | the second pass keeps the state consistent and adds one tab note per fixed note; the fixed notes are wrong notes, in order |
| Tablature.RemoveFirstIsWithout | bbs/Source/Modern/Tab.h:122-129 | among distinct nodes, removing the first entry of a node is filtering that node out |
| Tablature.RemoveFixedIsFilter | bbs/Source/Modern/Tab.h:119-130 | removing each fixed note once filters the fixed notes out of the wrong notes, keeping the order of what stays |
| Tablature.WithoutLength | bbs/Source/Modern/Tab.h:119-130 | filtering out a subsequence of distinct notes removes exactly that many |
| Tablature.RemoveFirstAt | bbs/Source/Modern/Tab.h:122-129 | the inner removal loop removes the first entry that is the node, or nothing |
| Tablature.ImportGuarantees | bbs/Source/Modern/Tab.h:16-134 | for a chord of distinct notes without a rest: no string carries two tab notes, each tab note's fret and line/space are those its string gives for its pitch, and the wrong notes left are the unplaced notes in chord order |
| Tablature.Tab.constructor | bbs/Source/Modern/Tab.h:12-13 | no strings, a quarter-note duration, not a rest, no origin |
| Tablature.Tab.Import | bbs/Source/Modern/Tab.h:16-134 | a non-chord changes nothing; a chord sets the duration and origin, and with an active instrument runs both passes and removes the fixed notes from the wrong notes |
| Tablature.Tab.PlaceNotes | bbs/Source/Modern/Tab.h:34-81 | each note goes on its requested string when that string is unused and plays it, else among the wrong notes; a rest ends the loop with only the rest entry |
| Tablature.Tab.PlaceWrongNotes | bbs/Source/Modern/Tab.h:86-117 | each wrong note takes the first free string that plays it, if any, and is then a fixed note |
| Tablature.Tab.RemoveFixedNotes | bbs/Source/Modern/Tab.h:119-130 | each fixed note is removed once from the wrong notes |
| Tablature.Tab.RemoveDuplicateNotes | bbs/Source/Modern/Tab.h:385-390 | from the back, every entry equal to the one before it is dropped; the rest of the tab is kept |
| Tablature.DedupStep | bbs/Source/Modern/Tab.h:387-389 | one step of the loop: an entry equal to the one before it is dropped, any other kept |
| Stems.EntriesMeaning | bbs/Source/Modern/Island.h:147-164 | every token yields one entry: a chord token an entry holding that chord, its continued chord and its tessitura; any other token an entry with no chord and tessitura 999 |
| Stems.Insert | bbs/Source/Modern/Island.h:169-170 | inserting into a sorted list keeps it sorted by tessitura and adds exactly the entry |
| Stems.SortByTessitura | bbs/Source/Modern/Island.h:169-170 | the entries ordered by tessitura from the bottom voice up, a permutation of them |
| Stems.FirstHolding | bbs/Source/Modern/Island.h:180-189 | the first entry of the previous island that holds the chord, or none exactly when no entry holds it |
| Stems.CountedVoice | bbs/Source/Modern/Island.h:173-191 | the count of new voices is positive exactly when some entry is a new voice |
| Stems.VoiceContinues | bbs/Source/Modern/Island.h:173-195 | an entry continues a voice exactly when the chord it continues is held by some entry of the previous island, and then takes over the first such entry's direction; every other field is its own |
| Stems.StemAlternation | bbs/Source/Modern/Island.h:197-212 | in the split case every voice, otherwise every new voice, is stemmed down at an even position from the bottom and up at an odd one; any other voice keeps the direction it took over |
| Stems.DirectedFresh | bbs/Source/Modern/Island.h:173-212 | the three passes change only the stem state of the entries |
| Stems.UpdatedEntries | bbs/Source/Modern/Island.h:140-217 | after an island with chords, Current holds one entry per token, sorted from the bottom voice up, and apart from their stem state they are the tokens' entries reordered |
| Stems.ChordedAfter | bbs/Source/Modern/Island.h:73-90 | when both tokens of a two-token island are chords, both entries hold a chord whichever way the voices go |
| Stems.BottomOf | bbs/Source/Modern/Island.h:75-85 | the bottom voice is the first entry when it is stemmed down, otherwise the second |
| Stems.RestPlan | bbs/Source/Modern/Island.h:73-124 | with two voices: two rests go to LS_4 and LS2; a lone bottom rest goes five steps below the top voice's lowest note but no higher than the middle line; a lone top rest five above the bottom voice's highest note but no lower; two sounding voices shift the bottom chord left when they come closer than two steps; with any other count nothing moves |
| Stems.ShiftLeftWhenClose | bbs/Source/Modern/Island.h:114-122 | a chord is shifted left exactly when some note of one voice and some note of the other lie less than two line-spaces apart |
| Stems.NotePositions.constructor | bbs/Source/Modern/Island.h:87-90 | the note positions given |
| Stems.StemState.constructor | bbs/Source/Modern/Island.h:143-144 | empty current and previous states |
| Stems.StemState.UpdateStemState | bbs/Source/Modern/Island.h:140-217 | without a chord, Current holds the tokens' entries and Previous is kept; with one, Current is the sorted entries after the three passes and Previous becomes Current |
| Stems.StemState.CollectEntries | bbs/Source/Modern/Island.h:146-164 | Current rebuilt with one fresh entry per token; the answer says whether some token is a chord |
| Stems.StemState.MarkVoices | bbs/Source/Modern/Island.h:172-191 | each entry marked against Previous, and the number of new voices returned |
| Stems.StemState.InheritDirections | bbs/Source/Modern/Island.h:193-195 | every entry takes the direction of the voice it continues |
| Stems.StemState.AlternateStems | bbs/Source/Modern/Island.h:197-212 | the alternation pass, over every entry in the split case and over the new voices otherwise |
| Stems.StemState.Engrave | bbs/Source/Modern/Island.h:63-124 | the stem state is updated, then the rests of a two-voice island are moved and the chord to shift left chosen as the rest plan says |
| Stems.StemState.DisplaceRests | bbs/Source/Modern/Island.h:71-124 | the rests are moved and the chord to shift left is chosen as the rest plan says, over the entries the stem update left |
| Notation.StavesMeaning | Tablature/Source/Notation/Score.cpp:106-133 | a row gets an entry exactly when some island of it opens with a part token whose stringed instrument shows standard and tab, and that entry names the row with one extra staff |
| Notation.StavesOrdered | Tablature/Source/Notation/Score.cpp:122-123 | the entries come in strictly increasing part order, each naming an existing row |
| Notation.SortKeeps | Tablature/Source/Notation/Score.cpp:123 | sorting a list whose parts strictly increase gives it back: any sorted list with the same entries is that list |
| Notation.SameHead | Tablature/Source/Notation/Score.cpp:123 | two lists with the same entries, one strictly increasing and one sorted, start alike |
| Notation.RowHasTab | Tablature/Source/Notation/Score.cpp:111-130 | the inner walk answers whether some island of the row shows tablature |
| Notation.Score.constructor | Tablature/Source/Notation/Score.cpp:104 | no extra staves |
| Notation.Score.DetermineExtraStaves | Tablature/Source/Notation/Score.cpp:102-134 | the extra staves are one entry per row that shows tablature, under the row's number, in row order |
| GraphXML.AttrInMeaning | bbs/Source/Graph/XML.h:76 | an attribute's value is that of the first attribute with that name, and "" when no attribute has it |
| GraphXML.FirstIndex | bbs/Source/Graph/XML.h:98-100 | the position of the first entry under a key, -1 exactly when the key is absent |
| GraphXML.FirstIndexAppend | bbs/Source/Graph/XML.h:98-100 | adding an entry under another key leaves a key's position in the node table unchanged |
| GraphXML.Lookup | bbs/Source/Graph/XML.h:107-110 | NodeTable[id].n finds something exactly when the id is filed, and it finds the entry filed under that id |
| GraphXML.Put | bbs/Source/Graph/XML.h:88 | NodeTable[id] = en replaces the entry in place or appends one at the end; afterwards the id maps to en and every other id maps to what it mapped to before |
| GraphXML.PutUnique | bbs/Source/Graph/XML.h:553 | filing an entry keeps the node table's keys distinct |
| GraphXML.NamedPitch | bbs/Source/Graph/XML.h:442-443 | a string note name gives a MIDI value in 0..127 only when it is exactly that value's name |
| GraphXML.NamedPitchRoundTrip | bbs/Source/Graph/XML.h:442-448 | a MIDI value's name reads back as that same value |
| GraphXML.ConfiguredValid | bbs/Source/Graph/XML.h:399-426 | whatever the element's attributes are, the instrument read has a string count its type allows and all its strings are MIDI values |
| GraphXML.DefaultValid | bbs/Source/Graph/XML.h:397 | a new instrument of either type has six strings, a count its type allows, with MIDI-value pitches |
| GraphXML.CountSetValid | bbs/Source/Graph/XML.h:408-412 | setting the number of strings keeps the count allowed and the pitches MIDI values |
| GraphXML.ConfiguredSettings | bbs/Source/Graph/XML.h:399-451 | type, string count, semitones and display each take the attribute when it is in range and keep the default otherwise; the strings are the string children when there are any children |
| GraphXML.StringRoundTrip | bbs/Source/Graph/XML.h:440-448 | a written string element reads back as that one string when its pitch is a MIDI value |
| GraphXML.StringsRoundTrip | bbs/Source/Graph/XML.h:429-451 | written string elements read back as the same strings in the same order |
| GraphXML.InstrumentRoundTrip | bbs/Source/Graph/XML.h:384-458 | an instrument that has at least one string, a valid string count and MIDI-value pitches reads back as the same instrument after it is written |
| GraphXML.EmptyInstrumentRetuned | bbs/Source/Graph/XML.h:431 | an instrument with no strings is written with no children and reads back with the default tuning for its type and string count |
| GraphXML.TokenKind | bbs/Source/Graph/XML.h:489-550 | part, clef, barline, meter, key and chord elements make the matching tokens, never an instrument; any other name makes nothing |
| GraphXML.FiledUnique | bbs/Source/Graph/XML.h:553 | filing a child element keeps the table's keys distinct and leaves the top unchanged |
| GraphXML.InstrumentsReadTable | bbs/Source/Graph/XML.h:384-458 | reading a part's instruments files nothing in the node table and leaves the top unchanged |
| GraphXML.NotesReadUnique | bbs/Source/Graph/XML.h:343-382 | reading a chord's children keeps the keys distinct and leaves the top unchanged |
| GraphXML.TokenReadUnique | bbs/Source/Graph/XML.h:460-555 | reading one child of an island keeps the keys distinct and leaves the top unchanged |
| GraphXML.TokensReadUnique | bbs/Source/Graph/XML.h:464-554 | reading all of an island's children keeps the keys distinct and leaves the top unchanged |
| GraphXML.IslandsReadUnique | bbs/Source/Graph/XML.h:67-95 | the first pass maps each id to one element node, and once the top is set later islands leave it alone |
| GraphXML.IslandsReadNone | bbs/Source/Graph/XML.h:67-95 | a document with no island element carrying an id reads as an empty graph with no top |
| GraphXML.FirstIslandTop | bbs/Source/Graph/XML.h:91-93 | the first island with an id becomes the top as whatever node its id is filed under once its children have been read |
| GraphXML.WireTies | bbs/Source/Graph/XML.h:135-151 | linking one entry keeps every node and adds at most one TieSpan |
| GraphXML.WireAllTies | bbs/Source/Graph/XML.h:97-152 | the linking pass keeps the nodes of the first pass and adds only TieSpans after them |
| GraphXML.ReadGraphNodes | bbs/Source/Graph/XML.h:54-155 | Read's graph holds the nodes of the first pass, followed only by TieSpans |
| GraphXML.Configure | bbs/Source/Graph/XML.h:399-426 | the instrument's settings become those the element's in-range attributes give |
| GraphXML.AddStringOf | bbs/Source/Graph/XML.h:433-450 | a string child with a defined note and semitones of zero or more appends one string; nothing else changes |
| GraphXML.AddStrings | bbs/Source/Graph/XML.h:429-451 | the instrument's strings become exactly those its string children describe, in order |
| GraphXML.ReadInstrument | bbs/Source/Graph/XML.h:397-451 | the instrument read from a stringInstr element is the configured value that ConfiguredSettings describes |
| GraphXML.ReadStringedInstrument | bbs/Source/Graph/XML.h:384-458 | every stringInstr child of a part becomes an instrument token linked from the part; the node table is not touched |
| GraphXML.ReadNote | bbs/Source/Graph/XML.h:348-381 | one child of a chord is filed, under a fresh synthetic id when it has none; a note element also becomes a note linked from the chord |
| GraphXML.ReadChord | bbs/Source/Graph/XML.h:343-382 | the graph and table become those of reading each child of the chord in turn |
| GraphXML.ReadToken | bbs/Source/Graph/XML.h:468-553 | a chord without an id is skipped; any other child is filed after the token it makes is linked from the island and has read its own children |
| GraphXML.ReadIsland | bbs/Source/Graph/XML.h:460-555 | the graph and table become those of reading each child of the island in turn |
| GraphXML.ReadTopLevel | bbs/Source/Graph/XML.h:68-94 | a top-level island element with an id becomes an island node, is filed and has its children read; the first such island sets the top |
| GraphXML.ReadIslands | bbs/Source/Graph/XML.h:67-95 | the graph after the first loop is that of reading every top-level object in turn from an empty graph |
| GraphXML.LinkIsland | bbs/Source/Graph/XML.h:105-111 | an island entry gains part-wise and instant-wise links to the islands its across and down ids name, when they are filed |
| GraphXML.LinkChord | bbs/Source/Graph/XML.h:112-134 | a chord entry gains continuity and voice links to its next chord, or only a voice link to its next-in-voice, when the id is filed |
| GraphXML.LinkNote | bbs/Source/Graph/XML.h:135-151 | a note whose tied-to id is filed gets a new TieSpan float-linked from both notes |
| GraphXML.LinkEntry | bbs/Source/Graph/XML.h:100-151 | one table entry gets the links its element describes |
| GraphXML.LinkAll | bbs/Source/Graph/XML.h:97-152 | the second loop gives every table entry its links, in table order, and leaves the top unchanged |
| GraphXML.Read | bbs/Source/Graph/XML.h:54-155 | Read succeeds exactly when the document parses with a root; on failure the graph is left empty; on success the top and links are those of the two passes |
| XMLWriter.ParseGeometry | bbs/Source/Graph/XML.h:164-165 | a fresh geometry parses the graph, and only the typesetting changes. It returns Parse's outcomes, and the geometry holds everything Parse states: the parts numbered along the strands, the instant groups of the sweep, the stall or finish, and on a finished sweep the counts, the ranges and a matrix that places every numbered island |
| XMLWriter.IslandWritten | bbs/Source/Graph/Geometry.h:149-157 | a listed island with a part and instant inside the counts has its cell filled by an island of the same part and instant, which the matrix lists. It is that island itself when no other listed island shares the cell |
| XMLWriter.NumberedWritten | bbs/Source/Graph/XML.h:164-177 | after a finished parse that left no island unnumbered, every island the sweep numbered has its place written, and is itself written when it is alone in its cell |
| XMLWriter.WriteNumbered | bbs/Source/Graph/XML.h:166-294 | the graph's nodes, links, typesetting and mesh are unchanged and its numbering is cleared again; the output is the score text of the matrix's islands, under the numbering SetCustomDataToIDs gives |
| XMLWriter.WriteParsed | bbs/Source/Graph/XML.h:166-294 | after a finished parse, writing leaves the geometry's Parse guarantees intact over the unchanged graph. After a parse that left no island unnumbered, every island the sweep numbered has its place written, and is itself written when alone in its cell |
| XMLWriter.Write | bbs/Source/Graph/XML.h:161-294 | the graph's nodes, links and mesh are unchanged and its numbering is cleared again. On a finished parse, the geometry holds every guarantee of Parse, and the output is the score text of its matrix's islands. If no island was left unnumbered, every island the sweep numbered has its place written, and is itself written unless another island shares its part and instant |
| XMLWriter.WriteIslands | bbs/Source/Graph/XML.h:171-291 | the text written is a score element holding the islands of the geometry's matrix, part by part and instant by instant |
| XMLWriter.ScoreTextIslands | bbs/Source/Graph/XML.h:171-291 | the output is "<score>", one island element per island of the matrix in matrix order, and the closing tag |
| XMLWriter.MatrixTextIslands | bbs/Source/Graph/XML.h:172-177 | the matrix's text is the text of its islands taken part by part, each part in instant order |
| XMLWriter.RowIslandsMembers | bbs/Source/Graph/XML.h:174-177 | a part's row lists exactly the islands of its filled cells |
| XMLWriter.MatrixIslandsMembers | bbs/Source/Graph/XML.h:172-177 | every island found at some part and instant is written, and nothing else |
| XMLWriter.MatrixIslandsAppend | bbs/Source/Graph/XML.h:172 | the islands of earlier parts are written before those of later parts |
| XMLWriter.RowIslandsAppend | bbs/Source/Graph/XML.h:174 | within a part, the islands of earlier instants are written first |
| XMLWriter.NodeNameNonEmpty | bbs/Source/Graph/XML.h:179 | every node's written id is nonempty, so Read does not skip it |
| XMLWriter.IslandReadBack | bbs/Source/Graph/XML.h:179-188 | a written island reads back as an island filed under its id, and its across and down attributes name the islands its mesh links lead to |
| XMLWriter.NoteReadBack | bbs/Source/Graph/XML.h:257-267 | a written note reads back as the same note, filed under its id |
| XMLWriter.ChordReadBack | bbs/Source/Graph/XML.h:240-249 | a written chord's duration, beat and instant read back as the chord's, whichever next attribute it carries |
| XMLWriter.TokenReadBack | bbs/Source/Graph/XML.h:197-285 | a written token reads back as the same token under its id, and differs exactly when it is a key signature with both a key and a key signature |

## Left out

- Drawing, fonts, console warnings, `ToString`/`PrintProperties`, binary serialization and the `#if 0` variant of `IsIsland` are left out: they print or paint and decide nothing the model tracks.
- The `prim::XML` parser is not part of this model. Read starts from a parsed document, or a parse failure, given as a value.
- `TransitiveMapping` is not part of this model. `PartOrder.SolveOrders` stands in for it: a topological order of the observed part orders that exists exactly when the orders have no cycle.
- `prim::Graph` gathering is not part of this model. `Gathered` is every live handle in handle order.
- Memory: handles are arena indices. Deleting a node marks its slot deleted instead of freeing it, and nothing is modelled about two names for one node object.
- Graph.MusicGraph.Clear: empties the arena and the top instead of deleting only the nodes reachable from the top.
- Layout.Geometry.Parse: the leading-edge loop has no progress guarantee in the engine. The model gives it a fuel budget and reports Stalled when a whole sweep advances nothing, where the engine would spin forever. As in the engine, a conflicted part order does not stop the instant numbering.
- Numbering.TagStrand, Numbering.MarkStrandAt, Numbering.MarkPartStrands, Numbering.AssignParts, Layout.Geometry.AssignPartIDs, Layout.Geometry.Parse, XMLWriter.ParseGeometry, XMLWriter.Write: require `Numbering.StrandsEnd` and `Numbering.Typeset` (TagStrand requires only that its own origin's walk ends). StrandsEnd says every mesh link out of an island leads to an island, and the part-wise walk from every strand start ends. Typeset says every island has typesetting information. The engine assumes both without a guard (bbs/Source/Graph/Geometry.h:373). It loops forever on a part-wise cycle reached from a strand start, and it dereferences null for a missing typesetting or a link to a non-island. A part-wise cycle with no strand start on it is allowed; its islands are reached by no walk.
- Numbering.FirstInstant, Numbering.LeadingEdge, Layout.Geometry.AssignInstantIDs, Layout.Geometry.Parse, XMLWriter.ParseGeometry, XMLWriter.Write: require `Numbering.Columns`: every mesh link out of an island leads to an island, and every island's instant-wise walk down ends. The engine walks columns without a guard (bbs/Source/Graph/Geometry.h:228-229) and loops forever on an instant-wise cycle.
- Numbering.FirstInstant, Numbering.LeadingEdge, Layout.Geometry.AssignInstantIDs: require `Numbering.Typeset` as well, every island having typesetting information. The engine sets the instant of every island of the first instant through its typesetting without a null check (bbs/Source/Graph/Geometry.h:234).
- Numbering.FirstInstant, Numbering.LeadingEdge, Numbering.TryEntry, Layout.Geometry.AssignInstantIDs, Layout.Geometry.Parse, XMLWriter.ParseGeometry, XMLWriter.Write: require the graph's top to be an island. The engine casts the top to an island and walks from it without a check (bbs/Source/Graph/Geometry.h:222-227), so a graph with no top or whose top is not an island, for instance one read from a document with no island, dereferences null there.
- Numbering.AssignParts, Layout.Geometry.AssignPartIDs: an island that no strand walk reaches keeps the part it had. When that part lies outside 0 .. count-1, the engine goes on with it, observing with it and indexing `PartMap` by it out of range (bbs/Source/Graph/Geometry.h:176, 200-202). The model stops after the tagging with outcome Unnumbered instead. It does so even where the engine's solver would have reported a conflict first.
- Numbering.MarkPartStrands, Numbering.AssignParts, Layout.Geometry.AssignPartIDs: the strand-per-part guarantees are proved only when the links form strands. Those are: every island gets its own strand's number, the parts follow the strands one to one, and every part has both bounds. On other meshes the model states the engine's order of walks instead: the last strand to reach an island gives it its number (Numbering.TaggedAt).
- Numbering.LeadingEdge, Numbering.SweepDone, Layout.Geometry.AssignInstantIDs: a finished sweep is proved to number the top and every island linked from a numbered one only when the links form strands. With converging part-wise links, an island can leave the edge before the island its forward link names is numbered. The model does not say which islands a finished sweep then reaches.
- Layout.MarkInstantRanges: gives a part without a first or last island the instant -1 at that end, where the engine dereferences the null bound (bbs/Source/Graph/Geometry.h:430-433). Such a part can arise only when the links do not form strands; Numbering.BoundsComplete proves every part has both bounds when they do.
- Layout.Geometry.Parse: the matrix guarantees after a finished sweep are proved only when no island was left unnumbered. The part-range guarantees are proved only with assigned parts on a mesh whose links form strands.
- Decimal.ToNumber: `prim::String::ToNumber` is not part of this model. Reading only a whole decimal numeral is an assumption; a C-style conversion would read the leading numeral of text such as "12abc" as 12, where the model gives 0. The read-back lemmas start from numerals printed by `Decimal.IntToString`, so they do not depend on the difference.
- Tablature.Tab.Import, Tablature.Tab.PlaceNotes, Tablature.Tab.PlaceWrongNotes: convert note numbers by the corrected table `Utility.GetMIDIValueForNoteNumber`. Note number 110 is therefore pitch 110 here, where the engine's table gives 100 (see Findings).
- Layout.FillAccessors, Layout.Geometry.AssignAccessors: skip an island whose part or instant lies outside the matrix, where the engine writes without a bounds check. Such an island is one the sweep did not number and that kept an earlier instant; Layout.Geometry.Parse proves every numbered island lies inside the matrix after a finished sweep.
- Numbering.InstantsIncrease, Numbering.PartsCount: hold only when no island is in two instant groups, and InstantsIncrease only when the first instant starts every part it holds. The link structure allows an island to lie in two groups; the engine then stamps it again with the later instant.
- XMLWriter.Write: writes "" when the geometry's sweep stalls or runs out of fuel.
- XMLWriter.Write: an island that shares its part and instant with another listed island may go unwritten, because the matrix keeps one island per cell and a later listed island overwrites an earlier one (bbs/Source/Graph/Geometry.h:149-157). The model proves only that its place is written.
- XMLWriter.Write: a note's `tied-to` attribute is not written, because `NoteNode::FollowTieForwards` is not part of this model.
- XMLWriter.Write: attribute values are written without XML escaping, and the ids written are not proved distinct.
- XMLWriter.TokenReadBack: a key signature that has both a key and a key signature reads back with the key only.
- GraphXML.FirstIslandTop: the first island's top is whatever its id is filed under after its children are read, so a child that reuses the island's id displaces it, as in the engine.
- GraphXML.ReadNote: a synthetic UUID is a serial number in a key space of its own, which no id in the document can equal, instead of a random UUID.
- GraphXML.Lookup: a lookup of a missing id leaves the table as it is. `prim::Table` is not part of this model; if its `operator[]` files a blank entry for a missing key, Read's second loop, which re-reads `NodeTable.n()` (bbs/Source/Graph/XML.h:98), reaches that entry and calls `GetName` on its null element (bbs/Source/Graph/XML.h:105). The model reads the missing id as no link and goes on.
- GraphXML.LinkAll: the second loop visits the table's entries in the order their keys were first filed. This is assumed of `prim::Table::ith`, which is not part of this model.
- GraphXML.LinkAll: a table entry without a node gets no links in the second pass. Such an entry is an element its parent does not recognise, for instance a note placed directly in an island. The engine would dereference that null node when the element is named island, chord or note.
- GraphXML.TokenKind: an absent duration, beat or instant attribute of a chord reads as "", where the engine keeps the chord's default value.
- GraphXML.EmptyInstrumentRetuned: an instrument without strings reads back with the default tuning for its type and string count.
- Stems.StemState.Engrave: requires both tokens of a two-token island to be chords, because the engine dereferences a null chord otherwise.
- Stems.SortByTessitura: `Chord::StateInfo` sorting is an insertion sort on the tessitura key alone. The engine's order among entries with equal keys is not modelled.
- Utility.GetUndottedValue, Utility.CountDots, Utility.CountFlags, Utility.GetNotehead: require a positive duration, because `GetUndottedValue`'s second loop never ends for a duration of zero or less.
- Api.RaiseToTopPart, Properties.GetProperties, Properties.SetProperties, Properties.ClearProperties: require the backward instant-wise walk from the node to end; the engine loops forever on a cycle.
- Graph.MusicGraph.TraverseRows, Graph.MusicGraph.TraverseColumns, Graph.MusicGraph.AppendColumn, Notation.Score.DetermineExtraStaves, Properties.SetDefaultProperties, Properties.ClearAllProperties: require the walks they make to end, which the engine assumes without a guard.
- Properties.ClearAllProperties: also requires that no property node lies on the top row (and each island's instant-wise walk back up ends). Properties.h:160-168 checks neither. The engine would clear a property node on the row like an instant, and the walk could reach one that an earlier instant's clearing has already deleted; the model does not cover such a row.
- Notation.Score.DetermineExtraStaves: does not re-sort after each insertion. Notation.StavesOrdered and Notation.SortKeeps prove that sorting leaves the list as it is.
- Layout getters such as `GetNumberOfParts` are the class's fields, read directly.
- Transposition, `GetLineSpacePosition`, `GetAccidentalOfLineSpace`, `GetNoteName`, `GetAccidentalPosition` and `GetLineSpace` are not part of this model; they rest on floating point or unseen concept maps.

## Findings

| source | as written | input that shows it | evidently intended | confidence | as-written member | corrected member |
|---|---|---|---|---|---|---|
| bbs/Source/Modern/Utility.h:402 | `GetMIDIValueForNoteNumber` returns `MIDIValue100` for case 110 | note number 110 | `MIDIValue110`, as for every other case in 0..127 | high; not executed | Utility.MIDIValue110Collides | Utility.MIDIValueCorrected |
