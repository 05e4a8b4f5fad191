# Verified models of a game mod's algorithms

The repository is a Windows library loaded into a game. This project models the algorithms in it that
have something hard to get right, in the form the code has (arrays rewritten in place, buffers and
counters updated in loops, objects with fields, threads that share atomics), and proves what each of
them is for.

- **The fpng codec** (`libs/fpng/fpng.cpp`), 27 modules from `Bits` to `FpngCodec`: scanline filter, pixel
  runs, symbol counting, in-place minimum-redundancy code lengths, length limiting, canonical codes, the
  dynamic block header, the 64-bit bit buffer, Adler-32, stored blocks, and the decoder with its table of
  two symbols a slot. `Inflate` is a reference decoder written from RFC 1950 and RFC 1951 alone; it judges
  the output of both compressors. `Redundancy` says what makes code lengths minimal.
- **The stb compressors** (`libs/stb/stb_image_write.h`): LZ77 with hash chains and lazy matching (`StbZlib`),
  and the entropy coder of the JPEG writer against the decoding procedures of ITU-T T.81 (`JpegEntropy`).
- **Code hooking** (`src/hooks.c`): a byte memory and a small-step machine (`HookMachine`), the allocator of
  executable pages (`HookPages`), and the hooks (`Hooks`).
- **Skinning** (`src/bf/skinning.cpp`): rigid motions, the least-squares fit of a bind pose, the on-line rebasing
  of vertices, and the shader constants that go with it (`RigidMotion`, `BindFit`, `Skinning`, `BoneConstants`).
- **The game's map** (`src/bf/stl.h`), the **INI store** (`libs/simpleini/SimpleIni.h`), **freelook input**
  (`src/bf/input.cpp`), **BLAKE2b** (`src/blake2b/blake2b-ref.c`, with the worked example of its RFC) and the **server settings** (`src/settings.cpp`).

Reading order: a method is proved against a specification function or predicate (what it computes), and
lemmas about those say what that is worth. Ghost parameters and fields carry what the code does not store.

## Findings

Properties that one would expect of the code and that it does not have, each with the condition under
which it holds and an input that fails.

| expected | what holds instead | members |
|---|---|---|
| the make-nonwritable walk visits every executable page | exactly if no request that needed a page was refused after another had been granted one; the refusal stores a null page and drops the older ones | `HookSystem.MakeNonWritable`, `HookPages.WalkReachesAll`, `Hooks.ForgottenPage` |
| values patched into moved code leave the rest of the buffer alone | exactly if each ends in the new code; the code checks only where it starts, so up to four bytes of the old code or of the jump back are overwritten | `Hooks.ValuesStayInside` |
| a skinned vertex is drawn where the game alone would draw it | always if its second weight is not negative; with a negative one exactly if the way back from the slot's bind pose leaves the second offset alone, since the offset is skipped but the constant converted | `BoneConstants.PositionsStay`, `BoneConstants.NegativeWeight`, `BoneConstants.NegativeWeightMoves` |
| a zlib reader gets back what stb compressed | exactly if the input is not empty; for no input the output is 78 5E 00 00 00 01, which has no block | `StbZlib.ZlibCompress` |
| the mouse never gets on the stick through free look | exactly if no axis keeps a mouse reading that no device overwrites; rebinding the first device of an axis to nothing leaves one | `FreeLookRuns.CareIsNeeded`, `FreeLookRuns.FramesStayClean` |
| the distance of the 3DS and 3DCP settings is theirs | it always goes to the mines | `ServerSettings.DistanceGoesToMines` |
| the C library is given text to read a number from | exactly if every distance that is read has a value; `%3DM&D~` hands it a null pointer | `ServerSettings.NullReaches`, `ServerSettings.NullExample` |
| a saved INI value or key is loaded as it was | exactly if it is of the kind that `KeyOk` and `ValueOk` describe: among others a value in quotes loses them, and a quoted key ends at an '=' behind its first quote | `IniText.ReadsBackIff`, `IniText.HeaderReadsBackIff` |
| the raw image decoder takes only what the encoder writes | it also takes one zero byte behind the last row | `FpngRawRead.PixelZlibRawDecompress` with `RawRows` |

The program's INI reader goes on with a section name that has no closing bracket as if the following text
were part of it; the model stops there and says so.

## Model

| member | source | states |
|---|---|---|
| FpngCodec.EncodeAndDecode | libs/fpng/fpng.cpp:3084-3135 | Whole round trip: any 3- or 4-channel image that the encoder takes, compressed or stored, decoded from its stream with anything behind it, gives the same bytes for the same channels, opaque alpha when a fourth channel is asked for, and the same colours when alpha is not asked for. |
| FpngCodec.EncodeImage | libs/fpng/fpng.cpp:1662-1748 | There is image data exactly for the sizes and channels that the encoder takes. If storing is asked for it is the unfiltered image in stored blocks; else it is one final dynamic block with the runs and a code of `IsStreamOf`, unless that stream does not fit the room, when the image is stored. Any PNG reader reconstructs the image from it, and fpng's decoder gives the image for 3 and for 4 channels, whatever follows. |
| FpngCodec.OpensAs | libs/fpng/fpng.cpp:3107-3130 | What a stream with that property decodes to, pixel by pixel: same bytes, alpha 255 added, or alpha dropped. |
| FpngDecode.FpngPixelZlibDecompress | libs/fpng/fpng.cpp:2209-2901 | On any bytes, the decoders for 3 and 4 channels succeed exactly when the one-symbol-at-a-time reference does, and then the output buffer is what the reference draws. |
| FpngDecode.PixelZlibDecompress | libs/fpng/fpng.cpp:2254-2585 | The compressed branch: block kind, header, rows, end of block and the position of the checksum, all as the reference has them. |
| FpngPixels.ReadRow | libs/fpng/fpng.cpp:2261-2552 | One row with the packed table, in every branch with its speculative next pixel: the same symbols and the same bits as one symbol at a time; it refuses only what the reference refuses or what has too few bytes left to end properly. |
| FpngRawRead.PixelZlibRawDecompress | libs/fpng/fpng.cpp:2107-2207 | Stored blocks with their length complements, the position of the checksum and the byte machine together: it succeeds exactly on stored rows of the right size and gives their pixels. |
| FpngRaw.WriteRawBlock | libs/fpng/fpng.cpp:818-866 | The buffer is written with the zlib stream of stored blocks, or the method fails, exactly when the buffer is too small. |
| FpngRaw.RawInflates | libs/fpng/fpng.cpp:818-866 | Any zlib reader gets the stored bytes back. |
| FpngDeflate.PixelDeflateDynRle | libs/fpng/fpng.cpp:990-1161 | When it succeeds, what it wrote inflates to the filtered image and is one block with a code made from how often each symbol occurs, runs as long as can be, and the checksum. It fails only if the buffer is too small for the bits of that stream and the eight bytes stored at a time. |
| FpngDeflate.StreamInflates | libs/fpng/fpng.cpp:1080-1160 | Any stream of that shape, a header for valid codes followed by row tokens, end of block and checksum, inflates to the bytes its tokens stand for. |
| FpngEncode.CollectTokens | libs/fpng/fpng.cpp:1005-1078 | First pass: the tokens of every row expand to exactly the filtered image; a pixel that repeats the one before is in a run, and a run ends only where the pixels change or at the longest run; each symbol is counted exactly as often as the tokens need it. |
| FpngFilter.FilterImage | libs/fpng/fpng.cpp:1685-1699 | Row by row: the filter byte, 2 on all rows but the first if filtering is asked for and else 0, and the bytes, less those above them modulo 256 where it is 2. |
| FpngFilter.FilterRoundTrip | libs/fpng/fpng.cpp:1592-1660 | The reconstruction of section 6.4 of RFC 2083 undoes the filter on every image. |
| FpngFrequencies.AdjustFreq32 | libs/fpng/fpng.cpp:868-907 | Each 16-bit frequency is the share of 65535 of the 32-bit one, rounded down but at least one, and zero for zero; their sum exceeds 65535 by at most the number of symbols. |
| RadixSort.RadixSortSyms | libs/fpng/fpng.cpp:622-637 | The two-pass sort gives a permutation in order of frequency. |
| MinimumRedundancy.CalculateMinimumRedundancy | libs/fpng/fpng.cpp:639-661 | The keys become code lengths in place: longest first, an exactly full code space, and, when 16 bits hold the sums, a minimal total cost among all prefix codes and no length above what the Fibonacci numbers allow. |
| MinimumRedundancy.LengthsFit | libs/fpng/fpng.cpp:663-665 | For frequencies that 16 bits hold no length exceeds 23, so the table of 32 counts is never overrun. |
| LimitLengths.EnforceMaxCodeSize | libs/fpng/fpng.cpp:663-674 | Limiting ends, keeps the number of codes, leaves no negative count, and restores a Kraft sum of exactly one at the limit. |
| HuffmanTable.OptimizeHuffmanTable | libs/fpng/fpng.cpp:676-709 | The whole pipeline: exactly the used symbols get codes, within the limit, filling the code space, a rarer symbol never gets a shorter code, and each code is the canonical codeword turned around for sending. |
| Bits.ReverseCode | libs/fpng/fpng.cpp:703-708 | The bits of the reversed code, low bit first, are the bits of the code, high bit first. |
| Canonical.PrefixFree | libs/fpng/fpng.cpp:701-708 | In a code that does not overfill the code space no codeword is the start of another. |
| HeaderRuns.PackLengths | libs/fpng/fpng.cpp:711-785 | The items are those of the lengths cut into runs of equal ones (`ItemsOf`): one or two as they are, more in 16, 17 or 18, the longest first; they unpack to exactly the lengths that went in, and their symbols are counted. |
| DynamicHeader.StartDynamicBlock | libs/fpng/fpng.cpp:746-816 | What is written is the block type and a header from which section 3.2.7 of RFC 1951 reads the trimmed literal and distance lengths, whatever follows. |
| BitWriter.BitWriter.PutBits | libs/fpng/fpng.cpp:564-566 | The bits stored and buffered grow by exactly the bits put. |
| BitWriter.BitWriter.DynPutBits | libs/fpng/fpng.cpp:730-744 | The same with the bytes stored as they fill: at most 7 bits stay, and it fails only when the buffer is full. |
| BitWriter.BitWriter.ForceFlush | libs/fpng/fpng.cpp:578-588 | The bytes are the bits put, padded with zeros. |
| BitReader.BitReader.Ensure32 | libs/fpng/fpng.cpp:1919-1924 | The unread bits stay the same, at least 32 are buffered, and it fails only when fewer than 64 are left. |
| BitReader.BitReader.Skip | libs/fpng/fpng.cpp:1934-1939 | Exactly the bits asked for are gone from the front. |
| FpngTable.BuildDecoderTable | libs/fpng/fpng.cpp:1836-1895 | It accepts exactly the length lists that are complete or have a single symbol, and then each slot has the symbol whose codeword starts it, or nothing. |
| FpngTable.EverySlotFilled | libs/fpng/fpng.cpp:1880-1893 | For a complete code no slot is left empty. |
| FpngTable.PackTable | libs/fpng/fpng.cpp:2079-2102 | Second symbols are added in place to the slots that have room for one. |
| FpngTable.Lookup | libs/fpng/fpng.cpp:2270-2300 | What a lookup in a packed table means: the first entry, and the second if there is one, are what reading one symbol at a time gives. |
| FpngHeader.PrepareDynamicBlock | libs/fpng/fpng.cpp:1954-2105 | On any bits, the header is accepted as the reference reads it and the table then finds its symbols two at a time; it refuses only what the reference refuses or what is nearly used up. |
| FpngHeader.StandardHeader | libs/fpng/fpng.cpp:1954-2077 | A standard header with the two one-bit distance codes that fpng writes passes the decoder's checks with the same literal code. |
| Adler.Adler32 | libs/fpng/fpng.cpp:480-488 | Either loop gives the sums of section 8.2 of RFC 1950 for every length. |
| Adler.AdlerSse | libs/fpng/fpng.cpp:407-463 | The sixteen weighted lanes give the same sums, and no lane exceeds 32 bits. |
| Adler.AdlerScalar | libs/fpng/fpng.cpp:465-478 | So does the scalar loop in blocks of 5552, the largest for which the sums cannot wrap (`BlockIsTight`). |
| Adler.BlockIsTight | libs/fpng/fpng.cpp:467-468 | With one byte more in a block the sum can leave 32 bits. |
| StbZlib.ZlibCompress | libs/stb/stb_image_write.h:895-1022 | For every input and quality: a zlib reader gets the input back if and only if it is not empty. The output is one block of fixed codes for choices that are all right (`AllRight`): at each position the longest match on the list of its three bytes, the last of equals, unless the next byte starts a longer one; the lists are those of the positions chosen before. It is stored blocks instead exactly if those are shorter. |
| StbZlib.FindMatch | libs/stb/stb_image_write.h:920-938 | The match that is taken is a true copy, no place in the list has a longer one and none behind it one as long; there is none only if no place has three bytes in common within the window. |
| StbZlib.BetterNext | libs/stb/stb_image_write.h:946-957 | Lazy matching sees a longer match at the next byte exactly when the chain has one. |
| StbZlib.StoreInstead | libs/stb/stb_image_write.h:984-1000 | The stored fallback is shorter than what it replaces, so it fits the room already there. |
| JpegEntropy.EncodeScan | libs/stb/stb_image_write.h:1328-1396 | For blocks of quantized coefficients in baseline range and prefix-free tables, the T.81 decoding procedure gives back every block in order; every FF byte is followed by 00, and what fills the last byte is fewer than eight one bits. |
| JpegEntropy.ProcessDU | libs/stb/stb_image_write.h:1355-1396 | One block is written as its DC difference, zero runs, ZRL and EOB. |
| JpegEntropy.CalcBits | libs/stb/stb_image_write.h:1318-1326 | The size category and the magnitude bits of a coefficient. |
| HookPages.WalkReachesAll | src/hooks.c:83-123 | For every list of requests and answers: the walk from the current page reaches every page ever granted if and only if no request that needed a page was refused after another had been granted one. |
| Hooks.HookSystem.GetRwxBytes | src/hooks.c:83-110 | A request fits, gets a page, or is refused one; the buffers that are handed out lie in their pages, apart from each other and from the link words, and what happens to the chain of pages is said in all three cases. |
| Hooks.HookSystem.MakeNonWritable | src/hooks.c:112-123 | The walk ends, visits the pages of the chain in order, and comes to every page granted so far exactly under the condition of `WalkReachesAll` on the requests made so far. |
| Hooks.ForgottenPage | src/hooks.c:83-123 | The shortest failing run: a page is granted and filled, the next request is refused, and the walk visits nothing. |
| Hooks.HookSystem.InjectJmp | src/hooks.c:243-282 | The bytes of a near or far jump and the nops behind it, or nothing when there is no room or memory stays protected. |
| HookMachine.JumpLands | src/hooks.c:254-281 | Those bytes take the machine to the target in one step, modulo 2^32. |
| Hooks.HookSystem.HookFunction | src/hooks.c:318-343 | The start of the function is in a new buffer with a jump back behind it, the function jumps to the hook with nops behind the jump, nothing else changes but a link word, and every hook whose code is not written to stands on. |
| Hooks.HookSystem.MoveCodeAndAddBytes | src/hooks.c:355-398 | The buffer holds new and old code as the mode says, with the values stored, and jumps back; nothing else changes but the code and a link word, and other hooks stand on. |
| Hooks.HookRuns | src/hooks.c:318-343 | From the hooked address the machine is at the hook after one step; from the buffer it executes the original start and goes on behind it, exactly as from the address before. |
| Hooks.EveryHookRuns | src/hooks.c:318-398 | After any number of hooks and moves, every hook whose code was not written to again takes the machine to its target, and its buffer still runs its content and goes on behind the code. |
| Hooks.MoveRuns | src/hooks.c:355-398 | Moved code runs the new code with the old code before it, after it or not at all, and then goes on behind the old place. |
| Hooks.ValuesStayInside | src/hooks.c:379-393 | What follows the new code in the buffer survives whatever values are stored if and only if each of them ends in the new code. |
| RigidMotion.RebasedStays | src/bf/skinning.cpp:248-256 | An offset moved into mesh space by a rigid bind pose, under the motion since that pose, is where the offset is under the bone's own matrix. |
| RigidMotion.NormalTurns | src/bf/skinning.cpp:351-383 | The same for normals. |
| RigidMotion.Orthonormal | src/bf/skinning.cpp:203-230 | The tidied rows are a rigid motion, and a rigid motion is left as it is. |
| BindFit.LeastSquares | src/bf/skinning.cpp:136-153 | A solution of the accumulated normal equations has the least sum of squared errors over all samples. |
| BindFit.Eliminate | src/bf/skinning.cpp:168-192 | Elimination with partial pivoting in place: it fails exactly where no pivot is left, and otherwise keeps the solutions. |
| BindFit.FitAffine | src/bf/skinning.cpp:156-245 | What comes out is the tidied solution of the equations, if there is one and it meets the kept samples (`Fitted`); it is rigid; and if the samples come from a rigid motion and the system is regular, it is that motion. |
| BindFit.CornersDetermine | src/bf/skinning.cpp:156-195 | The system of eight samples at the corners of a cube is regular, wherever they are moved. |
| Skinning.Skinner.OnSkinnedVertexBuilt | src/bf/skinning.cpp:261-346 | After every vertex, each used offset of the current builds has been rebased exactly once if its slot has a bind pose and not at all otherwise; a slot has learned a sample from exactly the vertices that its bone alone moves, in order, until it has a pose; it has a pose exactly if its samples give one, and then that one; poses of other meshes stay, and a build only adds poses. |
| Skinning.ClearSamplesSettle | src/bf/skinning.cpp:306-330 | In any state between two vertices, a slot with eight samples of one rigid motion in places that determine it has that motion as its pose. |
| Skinning.Skinner.NormalComesBack | src/bf/skinning.cpp:333-345 | A unit normal that the engine has turned and stretched comes back as it was. |
| Skinning.KeyNames | src/bf/skinning.cpp:92-97 | Two pose keys are equal exactly for the same mesh, and level and slot modulo 256. |
| BoneConstants.OnBoneConstantsReady | src/bf/skinning.cpp:351-383 | Each slot with a bind pose holds the motion since that pose; everything else in the buffer is as it was. |
| BoneConstants.PositionsStay | src/bf/skinning.cpp:261-383 | The shader draws every vertex of a build where the game alone would have drawn it, for any bone matrices, if its second weight is not negative. |
| BoneConstants.NegativeWeight | src/bf/skinning.cpp:296-297 | With a negative second weight, and the bone in any rigid motion, it does so if and only if the slot has no bind pose or the way back from it leaves the second offset where it is. |
| BoneConstants.NegativeWeightMoves | src/bf/skinning.cpp:296-297 | A state that meets the invariant with such a vertex, and the constants before and after, for which the drawn position changes. |
| GameMap.Node.Next | src/bf/stl.h:183-206 | The node behind this one in key order, or the sentinel. |
| GameMap.Walk | src/bf/stl.h:172-210 | The loop from the leftmost node to the sentinel ends and visits every node once, in order, on every tree with parents and a sentinel. |
| GameMap.FindAxisRemap | src/bf/input.cpp:93-100 | The linear search finds what looking the key up in the map finds. |
| GameMap.FindTrigger | src/bf/input.cpp:105-118 | The same for triggers, with null remaps. |
| FreeLookRuns.FramesStayClean | src/bf/input.cpp:127-202 | In every interleaving of the two threads: frames outside aircraft, or with the feature off, are untouched; in an aircraft only flight axes change, each to a value the engine gave for it without the mouse. |
| FreeLookRuns.RingNeverShowsFreeLook | src/bf/input.cpp:398-415 | In every interleaving no action in the ring shows free look while flying, and all others are passed as they are. |
| FreeLookRuns.DevicesComeBack | src/bf/input.cpp:146-202 | In every interleaving each update gives every hidden device back. |
| FreeLookRuns.CareIsNeeded | src/bf/input.cpp:77-88 | With the bindings as they are, some run puts the mouse on the stick if and only if an axis has a stale mouse reading that no device overwrites. |
| FreeLookHooks.InputHooks.UpdateHook | src/bf/input.cpp:127-202 | One update as the code runs it: devices as before, exactly the axes with another device on offer when free look is held in an aircraft, and what is published has no mouse in it. |
| FreeLookHooks.InputHooks.OnLocalPlayerInput | src/bf/input.cpp:288-338 | One frame: only offered flight axes change, and what happens to the shared flags. |
| FreeLookHooks.InputHooks.AddHook | src/bf/input.cpp:398-415 | The caller's action is never changed; a different object is passed exactly when there is something to hide. |
| IniText.ReadsBackIff | libs/simpleini/SimpleIni.h:1611-1781 | A written line is read back, with the rest of the text behind it, if and only if its key and its value are of the stated kinds. |
| IniText.HeaderReadsBackIff | libs/simpleini/SimpleIni.h:1640-1676 | The same for a section line: no bracket, line break or NUL, and no blanks around the name. |
| IniText.NextEntry | libs/simpleini/SimpleIni.h:1611-1781 | The search on positions in the text, with its restarts at lines it skips, gives the next item and where it ends. |
| IniStore.RoundTrip | libs/simpleini/SimpleIni.h:2606-2759 | Saving a store of representable names, keys and values and loading the text gives the same sections in the same order, with the values of each key together. |
| IniStore.NormalLooksTheSame | libs/simpleini/SimpleIni.h:2380-2451 | To a reader the loaded store has the same keys and, for each key, the same values in the same order, but for an empty section without a name. |
| IniStore.Ini.AddEntry | libs/simpleini/SimpleIni.h:2078-2185 | The section is there afterwards, at its place or behind all others; the key has one more value behind those it had, or the forced one alone in the place of the first; every other key and section is as before; and the result tells whether section or key was new. |
| IniStore.ReplacedValues | libs/simpleini/SimpleIni.h:2128-2165 | A forced value is the only one left of its key, up to case, and no other key notices. |
| IniStore.ReplacedKeys | libs/simpleini/SimpleIni.h:2128-2165 | It takes the place of the key's first value. |
| IniStore.Ini.DeleteValue | libs/simpleini/SimpleIni.h:2803-2872 | Something is deleted exactly if the section is there and, with a key, one of its values is named. The section goes exactly if no key is given, or if it is to go when empty and nothing is left in it; else its other entries stay in order. Every other section is as before. |
| IniStore.DeletedLooks | libs/simpleini/SimpleIni.h:2803-2872 | The same seen by name: which values every name and key has afterwards, and which keys. |
| IniStore.RemovedValues | libs/simpleini/SimpleIni.h:2803-2872 | Deleting takes exactly the values it names. |
| IniStore.Ini.Save | libs/simpleini/SimpleIni.h:2606-2759 | The text of all sections, each key with all its values. |
| IniStore.WrittenExample | libs/simpleini/SimpleIni.h:2652-2755 | The text of a small store, character for character. |
| IniStore.Ini.LoadData | libs/simpleini/SimpleIni.h:1485-1562 | Every item of the text up to its first NUL is added to its section, unless a section name is not closed. |
| IniStore.NeitherLess | libs/simpleini/SimpleIni.h:2945-2959 | The maps' order takes two names for one exactly if they differ in case alone. |
| Blake2b.Hash | src/blake2b/blake2b-ref.c:273-300 | However the message is cut into pieces, with or without a key, the result is the digest of sections 3.2 and 3.3 of RFC 7693; refused exactly for bad lengths. |
| Blake2b.StartIsParamBlock | src/blake2b/blake2b-ref.c:81-128 | The first state of section 3.3 is the initial vector xor the words of the parameter block of section 2.5, which is what the code builds and loads. |
| Blake2b.StoreAt | src/blake2b/blake2b-ref.c:262-266 | Each word of the hash stands in its eight bytes of the digest, low byte first. |
| Blake2bExample.AbcDigest | src/blake2b/blake2b-ref.c:26-151 | The definition gives the digest of "abc" that appendix A of RFC 7693 prints, through all twelve rounds. |
| Blake2b.Blake2b.Update | src/blake2b/blake2b-ref.c:221-246 | The state depends on all that has been fed: all full blocks but the last are compressed, with the 128-bit counter at the bytes compressed. |
| Blake2b.Blake2b.Final | src/blake2b/blake2b-ref.c:248-270 | The hash of everything fed, padded, with the final flag set; refused when it was done before or there is too little room. |
| ServerText.ReadsProse | src/settings.cpp:305-393 | Any well-formed items printed with percent-free text between them are read as they are, in order, up to where no item can follow. |
| ServerText.EveryText | src/settings.cpp:305-393 | Every text is of that form, so nothing that could be read is missed. |
| ServerText.ConsumesAll | src/settings.cpp:273-303 | Printing the parameters that were read gives the parameter list back, character for character. |
| ServerSettings.Server.ParseFromText | src/settings.cpp:305-393 | The settings after a text are those after its items one by one, field by field as `SetBy` says, and strtol is given exactly the distances that are read. |
| ServerSettings.ItemsSet | src/settings.cpp:335-391 | What any items make of the settings: text, colour and distance of the mines are those of the last parameter with the key in an item that has one, each switch has its own key, and a template keeps its marker or gets the first one, each field from its key. |
| ServerSettings.TextOnlyAdds | src/settings.cpp:335-391 | No text takes back what was allowed or switched, replaces a marker, or changes the distances of supply depots and control points. |
| ServerSettings.DistanceGoesToMines | src/settings.cpp:343-354 | The distance of 3DS and 3DCP changes the mines' distance and not their own. |
| ServerSettings.NullReaches | src/settings.cpp:335-379 | A null pointer reaches strtol if and only if some distance that is read has no value. |
| ServerSettings.NullExample | src/settings.cpp:335-343 | It does for `%3DM&D~`. |

## Left out

- The one-pass fpng encoders, their literal tables and the SSE CRC: finite tables and hardware instructions.
- PNG chunks: signature, IHDR with its 16-bit sizes, CRC and chunk scanning are not part of this model; the streams are modelled with anything behind them.
- FpngCodec.EncodeImage: does not model the 32-bit product of sizes; the filtered image is required to have fewer than 2^32 bytes.
- FpngCodec.EncodeAndDecode: does not model images whose filtered size does not fit 32 bits, for the same reason.
- MinimumRedundancy.CalculateMinimumRedundancy: minimal cost is not carried past length limiting, which gives it up.
- FpngFrequencies.AdjustFreq32: the halving loop of the code does not rewrite the 16-bit values, so their sum may exceed 65535 by up to the number of symbols; nothing stronger is true of it.
- The fourth flush in the middle of a pixel of the 4-channel encoder cannot come about, and is modelled as the branch it is.
- Bit operations on the 64-bit buffers are written as arithmetic on numbers below 2^64, and packed table entries as datatypes.
- Checks by assert only, and failing memory allocation (malloc, new), are not modelled.
- The JPEG transform, quantization, colour conversion and table contents; baseline range and prefix-free tables are required of the caller.
- Hooks.HookSystem.GetRwxBytes: requests larger than a page less its link word are not modelled; the code does not check for them. Refused requests are those of VirtualAlloc; elsewhere mmap answers MAP_FAILED, which the code does not recognise.
- Hooks.HookSystem.MoveCodeAndAddBytes: requires that memory is to be had, since the code does not look; with values that do not fit it promises only where it writes.
- Hooks.HookSystem.HookFunction: code that lies in the allocator's own pages, and changes of page protection other than as an answer, are not modelled.
- Hooks.HookRuns: instructions whose effect depends on where they are, other than the two relative jumps, are not modelled; the moved code is straight-line.
- Floating point in skinning is modelled over the reals, with an exact square root.
- Skinning.Skinner.OnSkinnedVertexBuilt: a vertex of a mesh that is not skinned is required not to overwrite one of the build in progress.
- The choice of vertex shader, the view protection hook and everything that calls into Windows or the game.
- FreeLookHooks.InputHooks.UpdateHook: the engine's own update is any function that reads an axis as its devices say.
- Memory orders weaker than sequential consistency for the shared atomics.
- IniStore.RoundTrip: comments, multi-line values and keys without a value are not modelled; load-order numbers are positions in a list, and the in-place NUL termination of the loaded text is not shown.
- IniStore.Ini.LoadData: stops at a section name without its bracket, where the program goes on.
- ServerSettings.Server.ParseFromText: strtol, colour names and templates are functions of their text.
- Blake2b tree hashing parameters other than the last-node flag.
