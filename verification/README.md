# ICC profile watchdog: decoder and gamma ramp cache

IccProfileWatchdog keeps each display's video card gamma ramp in step with its Windows
colour profile. It has two parts:

- **Decoder.** It reads an ICC profile file (header, tag directory and tag payloads). It
  decodes only the private `vcgt` (video card gamma table) payload: three channels of 256
  big-endian 16-bit levels.
- **Cache.** It remembers, per display device key, which profile file is linked and which
  ramp that file yields. On a refresh it reconciles this with what Windows reports. On
  demand it writes the ramps to the hardware, or resets them to the identity ramp.

This project models both parts in Dafny as pure functions over immutable data. It proves
what the code promises about them.

| module | file | models |
|---|---|---|
| `Results` | results.dfy | `Option` and `Result`, standing for null and for exceptions |
| `BigEndian` | big_endian.dfy | `SequenceReaderExtensions`: the big-endian readers over a byte window, and the six-field ICC date |
| `IccModels` | icc_models.dfy | `IccHeader`, `IccProfileTag` with its four-character name, and the `VideoCardGammaTableTag` constructor |
| `IccParser` | icc_parser.dfy | `IccProfileParser`: header, tag count, directory, sort by offset, per-tag payloads |
| `S15Fixed16` | s15_fixed16.dfy | the value of the header's s15Fixed16Number illuminant, as written and as intended |
| `ByteSources` | byte_source.dfy | `ByteSource`: the position counter and remembered buffer over a pipe |
| `Displays` | displays.dfy | `DisplayHelper`: identity ramp, ramp equality, default profile path |
| `IccProfileHelper` | icc_profile_helper.dfy | `LoadIccProfileAsync` and `GetVcgtGammaRampFromProfile` |
| `CachedDisplays` | cached_display.dfy | `DisplayInfo`, `CachedProfile`, `CachedDisplay` |
| `RampCache` | gamma_ramp_cache.dfy | `GammaRampCache`: refresh, profile resolution, description |
| `RampWrites` | gamma_ramp_writes.dfy | `GammaRampCache`: update and reset of the hardware ramps |

The model flattens the decoder's streaming. A profile is one byte sequence. The header
and directory are read at fixed positions. Each tag's payload is the window
`stream[offset .. offset + size]`. Readers are a byte window plus the index of the next
unread byte. Each reader returns the value and the next index, or the exception the
source throws as an error value.

The Windows calls become parameters:

- the display enumeration (`GetDisplays`);
- the two colour-management queries behind `GetDefaultColorProfilePath`;
- reading a profile file;
- `CreateDC`, `GetDeviceGammaRamp` and `SetDeviceGammaRamp`.

The writes and context releases the cache makes come back as a call trace. The cache is a
record threaded through each operation. An operation that throws returns the cache as the
exception left it, together with the error.

A display refers to its `CachedProfile` by reference in the source. Here it holds the record
by value. Nothing ever changes a `CachedProfile` after it is added to the cache. So two
displays share a profile exactly when they hold the same record, and an invariant (`Wf`)
says that record is in the profile list.

## Model

Source paths are relative to the repository root.

| member | source | states |
|---|---|---|
| BigEndian.TryReadBigEndian | src/IccProfileWatchdog/IccProfiles/Extensions/SequenceReaderExtensions.cs:14-29 | true exactly when byteCount bytes remain; then the reader moves forward by exactly byteCount and, up to eight bytes, the value is the sum of b_i·256^(n−1−i); on false every remaining byte has been taken |
| BigEndian.ReadLoopShape | src/IccProfileWatchdog/IccProfiles/Extensions/SequenceReaderExtensions.cs:17-26 | the read loop completes iff enough bytes remain, ends exactly `remaining` bytes further on, and otherwise ends at the window's end |
| BigEndian.ReadLoopExact | src/IccProfileWatchdog/IccProfiles/Extensions/SequenceReaderExtensions.cs:17-26 | with at most eight bytes the `value <<= 8` of the ulong never drops a bit: the loop yields the exact big-endian value |
| BigEndian.ShiftLeftByte | src/IccProfileWatchdog/IccProfiles/Extensions/SequenceReaderExtensions.cs:19 | the shift clears the low byte, so the OR that follows is an addition; it is an exact ×256 when the top byte is clear |
| BigEndian.ReadBigEndianUint | src/IccProfileWatchdog/IccProfiles/Extensions/SequenceReaderExtensions.cs:83-91 | "Not enough input" exactly when TryReadBigEndian returns false; otherwise its value and position |
| BigEndian.ReadBigEndianUInt8 | src/IccProfileWatchdog/IccProfiles/Extensions/SequenceReaderExtensions.cs:37-38 | succeeds iff one byte remains, and yields that byte |
| BigEndian.ReadBigEndianInt16 | src/IccProfileWatchdog/IccProfiles/Extensions/SequenceReaderExtensions.cs:46-47 | two's-complement reinterpretation: a raw value ≥ 32768 becomes raw − 65536 |
| BigEndian.ReadBigEndianUInt16 | src/IccProfileWatchdog/IccProfiles/Extensions/SequenceReaderExtensions.cs:55-56 | succeeds iff two bytes remain; the big-endian value, below 2^16 |
| BigEndian.ReadBigEndianUInt32 | src/IccProfileWatchdog/IccProfiles/Extensions/SequenceReaderExtensions.cs:64-65 | succeeds iff four bytes remain; the big-endian value, below 2^32 |
| BigEndian.ReadBigEndianUInt64 | src/IccProfileWatchdog/IccProfiles/Extensions/SequenceReaderExtensions.cs:73-74 | succeeds iff eight bytes remain; all 64 bits arrive without loss |
| BigEndian.ReadDateTimeNumber | src/IccProfileWatchdog/IccProfiles/Extensions/SequenceReaderExtensions.cs:107-115 | twelve bytes read as year, month, day, hour, minute and second, two bytes each, in that order |
| BigEndian.EncodeRoundTrip | src/IccProfileWatchdog/IccProfiles/Extensions/SequenceReaderExtensions.cs:14-29 | reading back the n-byte big-endian encoding of any v < 256^n gives v and consumes exactly n bytes |
| IccModels.UInt16LoopIsTable | src/IccProfileWatchdog/IccProfiles/Models/VideoCardGammaTableTag.cs:18-34 | a per-channel loop of ReadBigEndianUInt16 calls equals the closed-form table on every input, including which read fails |
| IccModels.ReadVideoCardGammaTable | src/IccProfileWatchdog/IccProfiles/Models/VideoCardGammaTableTag.cs:14-35 | succeeds iff 1550 bytes remain and then consumes exactly 1550; fewer than 14 fail in Advance, fewer than 1550 with "Not enough input"; red, green and blue entry k are the UInt16 at 14+2k, 526+2k and 1038+2k |
| IccModels.UInt16TableRoundTrip | src/IccProfileWatchdog/IccProfiles/Models/VideoCardGammaTableTag.cs:19-22 | a channel loop over the big-endian encoding of any values returns exactly those values |
| IccModels.VideoCardGammaTableRoundTrip | src/IccProfileWatchdog/IccProfiles/Models/VideoCardGammaTableTag.cs:14-35 | any three 256-entry channels behind any 14 bytes decode back unchanged, whatever follows |
| IccModels.As4CCRoundTrip | src/IccProfileWatchdog/IccProfiles/Models/IccProfileTag.cs:45-52 | the four name bytes (Tag>>24, >>16, >>8, Tag, each truncated) read back big-endian give Tag |
| IccModels.VcgtName | src/IccProfileWatchdog/IccProfiles/Models/IccProfileTag.cs:45-52 | the name is "vcgt" exactly when the signature is 0x76636774 |
| IccParser.ReadFixed16Raw | src/IccProfileWatchdog/IccProfiles/Extensions/SequenceReaderExtensions.cs:98-99 | four bytes: the signed whole part, then the unsigned fraction |
| IccParser.ReadHeader | src/IccProfileWatchdog/IccProfiles/Parser/IccProfileParser.cs:77-102 | succeeds iff 100 bytes are present; the twenty fields lie big-endian in order from byte 0, and the reader stops at byte 100 |
| IccParser.ReadHeaderIds | src/IccProfileWatchdog/IccProfiles/Parser/IccProfileParser.cs:81-87 | size to creation date from bytes 0-35, failing iff fewer than 36 bytes |
| IccParser.ReadHeaderDevice | src/IccProfileWatchdog/IccProfiles/Parser/IccProfileParser.cs:88-94 | signature to rendering intent from bytes 36-67 |
| IccParser.ReadHeaderTail | src/IccProfileWatchdog/IccProfiles/Parser/IccProfileParser.cs:95-100 | illuminant, creator and profile ID from bytes 68-99 |
| IccParser.ReadTagCount | src/IccProfileWatchdog/IccProfiles/Parser/IccProfileParser.cs:104-108 | the UInt32 at bytes 128-131 |
| IccParser.ParseSingleOffset | src/IccProfileWatchdog/IccProfiles/Parser/IccProfileParser.cs:119-126 | signature, offset and size read in that order, with no data, 12 bytes consumed |
| IccParser.ReadOffsets | src/IccProfileWatchdog/IccProfiles/Parser/IccProfileParser.cs:110-117 | succeeds iff 12·n bytes remain; entry i comes from bytes pos+12i to pos+12i+11 |
| IccParser.InsertByOffset | src/IccProfileWatchdog/IccProfiles/Parser/IccProfileParser.cs:54 | inserting into a list sorted by offset keeps it sorted and adds exactly that tag |
| IccParser.SortByOffset | src/IccProfileWatchdog/IccProfiles/Parser/IccProfileParser.cs:54 | the result is non-decreasing by offset and a permutation of the input |
| IccParser.ReadTagData | src/IccProfileWatchdog/IccProfiles/Parser/IccProfileParser.cs:135-147 | fewer than 4 bytes fail; a type other than 0x76636774 gives no data; a vcgt payload gives the table 18 bytes in, or fails in Advance below 18 bytes and for lack of input below 1554 |
| IccParser.PayloadData | src/IccProfileWatchdog/IccProfiles/Parser/IccProfileParser.cs:35-38 | a window running past the stream fails "too short", or in Slice when the size overflows the int cast |
| IccParser.VcgtPayloadWindow | src/IccProfileWatchdog/IccProfiles/Parser/IccProfileParser.cs:36-38 | a tag holds a table only if its window has at least 1554 bytes inside the stream; the table sits 18 bytes into the window |
| IccParser.GammaTableInWindow | src/IccProfileWatchdog/IccProfiles/Parser/IccProfileParser.cs:38 | the table read from a window is the one stored 18 bytes after the window's start in the stream |
| IccParser.PayloadOnlyWindow | src/IccProfileWatchdog/IccProfiles/Parser/IccProfileParser.cs:35-38 | a tag's data depends only on the stream bytes from offset to offset+size |
| IccParser.ReadPayloads | src/IccProfileWatchdog/IccProfiles/Parser/IccProfileParser.cs:33-39 | succeeds iff every tag's payload decodes; each tag keeps its entry and gains its data; otherwise the error is the first failing tag's |
| IccParser.ParseProfile | src/IccProfileWatchdog/IccProfiles/Parser/IccProfileParser.cs:30-42 | a stream under 132 bytes fails "Too short for an ICC profile."; so does one with fewer bytes behind byte 132 than the `int` product 12·count; when the wrapped product lets that wait pass but the directory does not fit, ReadOffsets fails "Not enough input" |
| IccParser.DirectoryBytesAsInt | src/IccProfileWatchdog/IccProfiles/Parser/IccProfileParser.cs:130 | 12·count wrapped modulo 2^32 into the signed `int` range: never above 12·count, and exact while 12·count < 2^31 |
| IccParser.ShortDirectoryIsTooShort | src/IccProfileWatchdog/IccProfiles/Parser/IccProfileParser.cs:59-75 | below 178956971 declared tags, a directory that does not fit the stream fails "too short" |
| IccParser.WrappedDirectoryRunsShort | src/IccProfileWatchdog/IccProfiles/Parser/IccProfileParser.cs:128-133 | a declared count of 0x10000000 makes 12·count the negative int −2^30, so a stream shorter than its directory fails "Not enough input", not "too short" |
| IccParser.PreambleReads | src/IccProfileWatchdog/IccProfiles/Parser/IccProfileParser.cs:46-49 | behind 132 bytes the header and tag count reads cannot fail |
| IccParser.ParseHeader | src/IccProfileWatchdog/IccProfiles/Parser/IccProfileParser.cs:48 | a parsed profile carries the header of bytes 0-99 |
| IccParser.ParseTags | src/IccProfileWatchdog/IccProfiles/Parser/IccProfileParser.cs:53-54 | a parsed profile's tags are the payload pass over the declared directory sorted by offset |
| IccParser.PayloadsKeepTags | src/IccProfileWatchdog/IccProfiles/Parser/IccProfileParser.cs:33-39 | the payload pass keeps order, signature, offset and size, and every tag carries its own window's data |
| IccParser.DirectoryHasNoData | src/IccProfileWatchdog/IccProfiles/Parser/IccProfileParser.cs:121-125 | directory entries carry no data before the payload pass |
| IccParser.ParseProfileOk | src/IccProfileWatchdog/IccProfiles/Parser/IccProfileParser.cs:30-57 | success means: the directory fits, the header is bytes 0-99, and the tags are a permutation of the directory, sorted by offset, each with its window's data |
| IccParser.ParseIsPayloads | src/IccProfileWatchdog/IccProfiles/Parser/IccProfileParser.cs:32-39 | once the directory fits, the parse fails exactly when the payload pass does, with its error |
| IccParser.ParseProfileSucceeds | src/IccProfileWatchdog/IccProfiles/Parser/IccProfileParser.cs:30-57 | the parse succeeds iff the directory fits and every declared tag's payload decodes |
| IccParser.AllDecodeReordered | src/IccProfileWatchdog/IccProfiles/Parser/IccProfileParser.cs:54 | whether every tag decodes does not depend on the order the sort leaves them in |
| IccParser.ParsePayloadError | src/IccProfileWatchdog/IccProfiles/Parser/IccProfileParser.cs:33-39 | a payload failure reports the first failing tag in offset order |
| IccParser.ParseNoTags | src/IccProfileWatchdog/IccProfiles/Parser/IccProfileParser.cs:49-56 | a zero tag count gives the header and an empty tag list |
| IccParser.HeaderOnlyPrefix | src/IccProfileWatchdog/IccProfiles/Parser/IccProfileParser.cs:77-102 | the header depends on bytes 0-99 only; bytes 100-127 are ignored |
| S15Fixed16.Fixed16AsWritten | src/IccProfileWatchdog/IccProfiles/Extensions/SequenceReaderExtensions.cs:98-99 | the fraction divided by 65535 lands in [whole, whole+1], reaching whole+1 |
| S15Fixed16.Fixed16AsWrittenMisreads | src/IccProfileWatchdog/IccProfiles/Extensions/SequenceReaderExtensions.cs:99 | halves (0, 0x8000) do not read as 0.5, and (0, 0xFFFF) and (1, 0) read as the same 1.0 |
| S15Fixed16.Fixed16Value | src/IccProfileWatchdog/IccProfiles/Extensions/SequenceReaderExtensions.cs:98-99 | the corrected value lies in [whole, whole+1) |
| S15Fixed16.Fixed16RoundTrip | src/IccProfileWatchdog/IccProfiles/Extensions/SequenceReaderExtensions.cs:98-99 | any signed 32-bit count of 1/65536 units, split into halves, reads back as exactly that many units |
| S15Fixed16.Fixed16Injective | src/IccProfileWatchdog/IccProfiles/Extensions/SequenceReaderExtensions.cs:98-99 | distinct halves never read as the same value |
| S15Fixed16.Illuminant | src/IccProfileWatchdog/IccProfiles/Models/IccProfile.cs:44-46 | each illuminant component lies within one unit above its whole part |
| S15Fixed16.D50Illuminant | src/IccProfileWatchdog/IccProfiles/Models/IccProfile.cs:44-46 | the stored D50 halves read as 63190/65536, 1 and 54061/65536 |
| ByteSources.New | src/IccProfileWatchdog/IccProfiles/Parser/ByteSource/ByteSource.cs:17-26 | Position starts at 0, with no remembered buffer and no calls made |
| ByteSources.TryRead | src/IccProfileWatchdog/IccProfiles/Parser/ByteSource/ByteSource.cs:29-38 | true iff the pipe had a result; only then is it remembered; Position never moves |
| ByteSources.ReadAsync | src/IccProfileWatchdog/IccProfiles/Parser/ByteSource/ByteSource.cs:41-47 | the result is always remembered and handed back |
| ByteSources.IncrementPosition | src/IccProfileWatchdog/IccProfiles/Parser/ByteSource/ByteSource.cs:82-90 | with no buffer it throws "No buffer to advance within"; past the buffer it throws in Slice; otherwise Position grows by exactly `consumed` |
| ByteSources.AdvanceTo | src/IccProfileWatchdog/IccProfiles/Parser/ByteSource/ByteSource.cs:65-69 | throws without a buffer or past its end; otherwise Position grows by exactly `consumed` and the call reaches the pipe |
| ByteSources.AdvanceToExamined | src/IccProfileWatchdog/IccProfiles/Parser/ByteSource/ByteSource.cs:76-80 | the same, with the examined position passed on as well |
| ByteSources.MarkSequenceAsExamined | src/IccProfileWatchdog/IccProfiles/Parser/ByteSource/ByteSource.cs:52-59 | consumes nothing and examines the whole buffer; does nothing without one |
| ByteSources.StepKeepsCount | src/IccProfileWatchdog/IccProfiles/Parser/ByteSource/ByteSource.cs:65-90 | each operation moves Position by exactly the bytes it reports consumed to the pipe |
| ByteSources.RunKeepsCount | src/IccProfileWatchdog/IccProfiles/Parser/ByteSource/ByteSource.cs:82-90 | over any run, Position minus the total reported consumed is unchanged, and the call log only grows |
| ByteSources.PositionIsTotalConsumed | src/IccProfileWatchdog/IccProfiles/Parser/ByteSource/ByteSource.cs:89 | from a new source, Position equals the total bytes reported consumed |
| ByteSources.PositionNeverDecreases | src/IccProfileWatchdog/IccProfiles/Parser/ByteSource/ByteSource.cs:89 | Position never goes down |
| ByteSources.NoAdvanceBeforeRead | src/IccProfileWatchdog/IccProfiles/Parser/ByteSource/ByteSource.cs:84-87 | a run that advances before any read throws "No buffer to advance within" |
| Displays.GetEmptyGammaRamp | src/IccProfileWatchdog/Displays/DisplayHelper.cs:128-145 | three channels of 256 entries, entry i being i·257, with no 16-bit wrap |
| Displays.EmptyRampIsIdentity | src/IccProfileWatchdog/Displays/DisplayHelper.cs:128-145 | the loop builds exactly the reference identity ramp |
| Displays.IdentityChannelShape | src/IccProfileWatchdog/Displays/DisplayHelper.cs:137-142 | 0 at index 0, 65535 at index 255, strictly increasing |
| Displays.SequenceEqual | src/IccProfileWatchdog/Displays/DisplayHelper.cs:155-157 | true exactly when both channels are the same sequence |
| Displays.AreGammaRampsEqual | src/IccProfileWatchdog/Displays/DisplayHelper.cs:153-158 | true iff red, green and blue are each equal as sequences |
| Displays.RampEqualityIsSymmetric | src/IccProfileWatchdog/Displays/DisplayHelper.cs:153-158 | ramp equality is reflexive and symmetric |
| Displays.SingleChangeDiffers | src/IccProfileWatchdog/Displays/DisplayHelper.cs:153-158 | changing any one entry of any channel makes the ramps unequal |
| Displays.IndexOf | src/IccProfileWatchdog/Displays/DisplayHelper.cs:78 | the first index holding the character, or −1 iff it does not occur |
| Displays.NameBeforeNul | src/IccProfileWatchdog/Displays/DisplayHelper.cs:78 | the buffer's prefix before the first NUL; empty when there is none |
| Displays.GetDefaultColorProfilePath | src/IccProfileWatchdog/Displays/DisplayHelper.cs:63-82 | null iff the profile query fails; otherwise the colour directory, a backslash and the name before the first NUL |
| Displays.ProfileScope | src/IccProfileWatchdog/Displays/DisplayHelper.cs:65-71 | the per-user store is asked only when the query succeeded and said so |
| Displays.ProfilePathLayout | src/IccProfileWatchdog/Displays/DisplayHelper.cs:77-78 | the path is the directory constant, a doubled backslash, then the name, with no NUL |
| Displays.NoNulGivesNoName | src/IccProfileWatchdog/Displays/DisplayHelper.cs:78 | a buffer with no NUL gives an empty file name |
| IccProfileHelper.LoadIccProfile | src/IccProfileWatchdog/IccProfiles/IccProfileHelper.cs:18-30 | null for a blank path; otherwise the file's parse, or the error of reading or decoding it |
| IccProfileHelper.BlankPathOpensNothing | src/IccProfileWatchdog/IccProfiles/IccProfileHelper.cs:20-23 | a null, empty or whitespace path gives null whatever the file system holds |
| IccProfileHelper.LoadedProfileIsParsed | src/IccProfileWatchdog/IccProfiles/IccProfileHelper.cs:25-29 | a visible path yields a profile iff the file reads and decodes |
| IccProfileHelper.FirstVcgtTag | src/IccProfileWatchdog/IccProfiles/IccProfileHelper.cs:44 | the first tag in list order named "vcgt", or none iff no tag is |
| IccProfileHelper.GetVcgtGammaRampFromProfile | src/IccProfileWatchdog/IccProfiles/IccProfileHelper.cs:37-58 | null for no profile; any ramp returned is the table of the first "vcgt" tag |
| IccProfileHelper.FirstVcgtDecides | src/IccProfileWatchdog/IccProfiles/IccProfileHelper.cs:44-48 | the first "vcgt" tag decides: its table, or null when it has none |
| IccProfileHelper.FirstIsFound | src/IccProfileWatchdog/IccProfiles/IccProfileHelper.cs:44 | FirstOrDefault finds the first matching tag |
| IccProfileHelper.LaterTagsIgnored | src/IccProfileWatchdog/IccProfiles/IccProfileHelper.cs:44-48 | tags after the first "vcgt" tag never change the answer |
| IccProfileHelper.NameNotPayloadDecides | src/IccProfileWatchdog/IccProfiles/IccProfileHelper.cs:44 | without a tag signed 'vcgt' the answer is null, whatever payloads the tags hold |
| IccProfileHelper.RampFromParsedProfile | src/IccProfileWatchdog/IccProfiles/IccProfileHelper.cs:50-57 | a ramp from a decoded profile has 256 entries per channel |
| CachedDisplays.NewCachedDisplay | src/IccProfileWatchdog/Cache/CachedDisplay.cs:8-14 | empty names and no profile |
| CachedDisplays.ProfileName | src/IccProfileWatchdog/Cache/CachedDisplay.cs:16 | "[no color profile]" without a profile, else the file name of its path |
| CachedDisplays.LinkedPath | src/IccProfileWatchdog/Cache/GammaRampCache.cs:175 | null iff no profile is linked, else its path |
| CachedDisplays.DisplayText | src/IccProfileWatchdog/Cache/CachedDisplay.cs:19-22 | the display name, ": ", then the profile name |
| CachedDisplays.UnlinkedDisplayText | src/IccProfileWatchdog/Cache/CachedDisplay.cs:16-22 | an unlinked display reads "<name>: [no color profile]" |
| RampCache.NewCache | src/IccProfileWatchdog/Cache/GammaRampCache.cs:10-14 | no displays, no profiles, count 0 |
| RampCache.FindDisplay | src/IccProfileWatchdog/Cache/GammaRampCache.cs:167 | the first display with the key, or none iff no display has it |
| RampCache.FindProfile | src/IccProfileWatchdog/Cache/GammaRampCache.cs:207 | the first profile with the path, or none iff no profile has it |
| RampCache.LoadRamp | src/IccProfileWatchdog/Cache/GammaRampCache.cs:210-215 | loading fails exactly when LoadIccProfileAsync throws; otherwise the first vcgt ramp of the profile |
| RampCache.UpdateDisplayProfile | src/IccProfileWatchdog/Cache/GammaRampCache.cs:199-220 | changes only this display's link; on success it links the path; a cached path reuses the cached record; an uncached path fails exactly when loading the file fails; on success the profile list gains exactly one record, holding that path and the ramp the file's first vcgt tag gives (LoadRamp), and the display links it; a failed load leaves the display unlinked and the profiles as they were |
| RampCache.AddNewDisplayProfile | src/IccProfileWatchdog/Cache/GammaRampCache.cs:186-197 | the display is appended with its names before its profile is resolved, so it stays even when loading throws |
| RampCache.RefreshOne | src/IccProfileWatchdog/Cache/GammaRampCache.cs:164-181 | reports exactly whether the key needed a refresh; without that need it changes nothing; keys are kept and at most one display is appended |
| RampCache.RefreshDisplayProfiles | src/IccProfileWatchdog/Cache/GammaRampCache.cs:161-184 | cached displays keep their keys; new displays are appended only for enumerated keys; profiles are only appended; the count is untouched |
| RampCache.RefreshCache | src/IccProfileWatchdog/Cache/GammaRampCache.cs:38-53 | a null or empty enumeration throws before any change; otherwise the count is recorded and profiles are never dropped; with the count unchanged the cached displays keep their keys; with it changed every remaining display's key is an enumerated one |
| RampCache.RefreshCacheRebuilds | src/IccProfileWatchdog/Cache/GammaRampCache.cs:38-53 | after a count change no display of before survives: every display is named after the first enumerated display with its key; the result is true; on success every enumerated key has its display |
| RampCache.RefreshKeepsOld | src/IccProfileWatchdog/Cache/GammaRampCache.cs:161-197 | the loop only relinks the displays it started with, and appends displays only under keys none of them had |
| RampCache.RefreshNamesNew | src/IccProfileWatchdog/Cache/GammaRampCache.cs:186-197 | every display the loop appends carries the display and device names of the first enumerated display with its key |
| RampCache.RefreshOneSettles | src/IccProfileWatchdog/Cache/GammaRampCache.cs:164-181 | after a pass its key no longer needs a refresh, and every other key's need is unchanged |
| RampCache.RefreshReportsChange | src/IccProfileWatchdog/Cache/GammaRampCache.cs:161-184 | true iff some enumerated key was uncached or linked to another path than the resolved one |
| RampCache.RefreshSettlesAll | src/IccProfileWatchdog/Cache/GammaRampCache.cs:161-184 | after a refresh that does not throw, no enumerated key needs one |
| RampCache.SettledRefreshIsQuiet | src/IccProfileWatchdog/Cache/GammaRampCache.cs:175 | when no key needs a refresh, the loop returns false and changes nothing |
| RampCache.RepeatRefreshIsQuiet | src/IccProfileWatchdog/Cache/GammaRampCache.cs:38-53 | an immediate repeat with the same displays and answers returns false and leaves the cache, and so the loaded profiles, as it was |
| RampCache.UpdateKeepsWf | src/IccProfileWatchdog/Cache/GammaRampCache.cs:199-220 | profile resolution keeps profile paths unique and links only cached records |
| RampCache.RefreshCacheKeepsWf | src/IccProfileWatchdog/Cache/GammaRampCache.cs:38-53 | a refresh, returning or throwing, keeps that invariant |
| RampCache.GetProfilesDescription | src/IccProfileWatchdog/Cache/GammaRampCache.cs:59-73 | "No displays detected." for none, the display's ProfileName for one, "Multi display setup (n)." for more |
| RampCache.NatToString | src/IccProfileWatchdog/Cache/GammaRampCache.cs:63 | decimal digits without sign or leading zero |
| RampCache.NatToStringRoundTrip | src/IccProfileWatchdog/Cache/GammaRampCache.cs:63 | the digits read back give the count |
| RampWrites.UpdateGammaRampForDisplay | src/IccProfileWatchdog/Cache/GammaRampCache.cs:94-119 | nothing when the read fails; otherwise the linked ramp, or identity when there is none, written iff the hardware differs from it |
| RampWrites.ResetGammaRampForDisplay | src/IccProfileWatchdog/Cache/GammaRampCache.cs:121-125 | writes the identity ramp |
| RampWrites.Visit | src/IccProfileWatchdog/Cache/GammaRampCache.cs:150-157 | the action's write, if any, then the release in `finally`; the flag is whether the write threw |
| RampWrites.ModifyGammaRamps | src/IccProfileWatchdog/Cache/GammaRampCache.cs:127-159 | no displays make no calls; any trace ends in a release |
| RampWrites.UpdateGammaRamps | src/IccProfileWatchdog/Cache/GammaRampCache.cs:24-25 | a completed update releases every acquired context, in order, and makes exactly the reference calls: the target ramp written to a context exactly when its current ramp reads and differs, then the release |
| RampWrites.UpdateWritesTargets | src/IccProfileWatchdog/Cache/GammaRampCache.cs:94-159 | over the whole loop, a completed update's trace is the reference trace of target writes and releases, display by display |
| RampWrites.ResetGammaRamps | src/IccProfileWatchdog/Cache/GammaRampCache.cs:30-31 | a completed reset writes identity to every acquired context and releases each |
| RampWrites.VisitReleasesOnce | src/IccProfileWatchdog/Cache/GammaRampCache.cs:150-157 | one visit releases its context exactly once, right after any write |
| RampWrites.EveryAcquiredReleased | src/IccProfileWatchdog/Cache/GammaRampCache.cs:134-158 | the released contexts are a leading run of the acquired ones, and all of them when the loop completes |
| RampWrites.WriteThenRelease | src/IccProfileWatchdog/Cache/GammaRampCache.cs:150-157 | every write is immediately followed by its context's release, even when it throws |
| RampWrites.SkippedDisplayIgnored | src/IccProfileWatchdog/Cache/GammaRampCache.cs:136-148 | a display whose context is zero or throws is skipped; the others see exactly the same calls |
| RampWrites.AbortEndsOnThrow | src/IccProfileWatchdog/Cache/GammaRampCache.cs:150-157 | a loop that stops early stopped on a write that threw, after releasing its context |
| RampWrites.ResetWritesIdentity | src/IccProfileWatchdog/Cache/GammaRampCache.cs:127-159 | a completed reset is exactly identity then release, for each acquired context in order |
| RampWrites.UpdateWritesOnlyDifferences | src/IccProfileWatchdog/Cache/GammaRampCache.cs:96-117 | with the read succeeding, a display already at its target gets only a release; any other gets its target, then a release |

## Left out

- BigEndian.TryReadBigEndian: the value is stated only for up to eight bytes. Beyond that the ulong drops high bytes, and no caller reads more than eight.
- IccParser.SortByOffset: Array.Sort is unstable, so its order among equal offsets is unspecified. The model fixes one such order and claims only sortedness and permutation.
- IccParser.ParseProfileOk: "the vcgt table of a parsed tag is the one stored 18 bytes after its offset" is proved in two steps (`VcgtPayloadWindow`, then `GammaTableInWindow`), not as one statement.
- IccParser.ReadHeader: reads the twenty fields in three consecutive runs of one reader. The order and positions are the source's.
- PipeReader buffering and segmenting, the ReadAtLeastAsync retry loop, and cancellation are flattened into one byte sequence. The "too short" failure keeps the source's rule: the stream ends before the requested size.
- AdvanceToLocalPositionAsync is not part of this model. Each tag's payload is taken as the stream window at its offset, also for offsets inside the header or directory, which a forward-only pipe could not revisit.
- IccParser.ParseProfile: the model assumes `new IccProfileTag[count]` succeeds. For large declared counts the .NET runtime may throw OutOfMemoryException or OverflowException there first, depending on the memory available. The wrapped `int` product 12·count that follows is modelled.
- Reads15Fixed16 is given its value in exact real arithmetic. Single-precision rounding is left out; the header keeps the raw halves.
- The DateTime constructor's range checks are left out; the date is the six raw fields.
- ByteSource's `long` Position is unbounded here. The MarkSequenceAsExamined Debug.Assert is compiled out of release builds and not modelled.
- Opening and reading a file (FileStream, PipeReader.Create) is the `readFile` parameter. Any exception there is one error value.
- Win32 calls become parameters: EnumDisplayDevices is the enumeration handed to RefreshCache; WcsGetUsePerUserProfiles and WcsGetDefaultColorProfile are the `Os` functions; CreateDC, GetDeviceGammaRamp and SetDeviceGammaRamp are the `Hardware` functions. The bool results of DeleteDC and SetDeviceGammaRamp are ignored, as in the source.
- RampWrites.UpdateGammaRampForDisplay: only SetDeviceGammaRamp is given the power to throw. Exceptions from GetDeviceGammaRamp marshaling and from the logger are not modelled.
- The ArrayPool buffer's length and leftover contents are part of what the `defaultProfile` parameter returns.
- Path.GetFileName is a parameter.
- IccModels.TagNameIs: TagName is the UTF-8 decoding of the four signature bytes, compared as a string. The model compares the bytes with the ASCII codes of the name. The two agree for an ASCII name such as "vcgt": UTF-8 decodes to that string exactly when the bytes are its ASCII codes. A non-ASCII tag name is not modelled.
- GammaRampCache.GetDisplaysDescription and ToString (string joins for logging) are not modelled.
- ProfileWatchdog (event loop, channel, timers, system event subscriptions), the tray UI, hosting, logging and async scheduling are left out. The cache operations run one after another.

## Findings

| source | as written | input that shows it | evidently intended | confidence | as-written member | corrected member |
|---|---|---|---|---|---|---|
| src/IccProfileWatchdog/IccProfiles/Extensions/SequenceReaderExtensions.cs:99 | the fraction is divided by (1 << 16) − 1 = 65535 | halves (0, 0x8000), the encoding of 0.5, read as 32768/65535; halves (0, 0xFFFF) and (1, 0) both read as 1.0 | divide by 65536, the unit of the s15Fixed16Number type in clause 4.6 of ICC.1:2010 | high; not executed | S15Fixed16.Fixed16AsWrittenMisreads | S15Fixed16.Fixed16RoundTrip |
