# A model of the single-key board and its CLI

The project models how a configuration travels from the Go command line into the storage of a
one-key CircuitPython keyboard and back, and how that key then behaves. It follows the code, file by
file: the loops, cursors, buffers and stores that the programs update in place are methods and classes
here, each proved against a specification function; what the system is for is proved about those
functions.

- `bytes`, `bits`, `arith`, `utf8`: bytes and 16-bit fields, bit strings, division, UTF-8 (sections 3
  and 4 of RFC 3629).
- `crc`, `crcvalues`, `distance`, `trailer`, `border`: CRC-16/CCITT-FALSE as a linear register; its preset, the
  damage it detects, how far apart it keeps two valid bodies, and the one pattern it misses on the border of
  body and CRC.
- `config`, `limits`, `format`, `roundtrip`, `layout`, `cursor`, `gocodec`, `pycodec`: the configuration and its
  ranges, the blob format as a printer, as a parser and as the documented layout, and both programs' encoders
  and decoders.
- `ascii85`, `ascii85proofs`, `ascii85groups`, `wire`: the text encoding on both sides, what any text decodes
  to, and what counting characters and lines can rely on.
- `text`, `textlaws`, `store`, `device`, `protocol`: lines, the NVM region, the live configuration, and the command
  protocol as one step of a state machine and as the class that takes it.
- `runs`, `storage`, `boots`, `commands`, `readanswers`, `refusals`, `overlap`, `playing`: what holds over every
  run of lines and ticks, and which command draws which answer.
- `framing`, `lines`, `client`, `clientreplies`, `versioninfo`, `transfer`, `system`, `endtoend`: chunked line
  reading, the CLI's half of the framing, what it makes of every answer, and the two programs together, byte
  for byte.
- `ticks`, `gesture`, `modes`, `keyloop`, `leds`, `mainloop`: the wrap-around clock, the colour-tap gesture, what
  the names of modes come to, the debounced key, the LEDs, and the main loop in which they and the port take turns.
- `patch`, `document`, `keynames`, `jsonform`: the dotted-path edit, on values and in place, and the
  editable form of a configuration.

A `Result` stands for an error return or an exception, without its message. Times are integers in
milliseconds; `Tick(epoch, t)` is what the board's counter shows at true time `t`.

## Main results

- *Round trips.* Decoding an encoding gives the configuration back for exactly the storable ones, with
  anything after it (`RoundTrip.DecodeEncodeIff`); the two decoders agree on every byte string
  (`RoundTrip.DecodersAgree`) and the two encoders on every validated configuration
  (`System.ValidRoundTrip`); Ascii85, the JSON form and the key names each have theirs.
- *The format as documented.* The decoders accept exactly the data in which a configuration lies field by field
  as docs/format.md lays it out, and return that one (`Layout.DecodedIff`); the strings in it are exactly the
  encodings of Unicode text (`Utf8.WellFormedIff`).
- *Error detection.* Every burst of up to 16 bits, every odd number of flipped bits and every one, two or
  three flipped bits in what the storage can hold changes the CRC (`Crc.BurstDetected`,
  `Distance.OddDetected`, `Distance.FewFlipsDetected`), and four need not (`Distance.FourFlipsMissed`).
- *End to end.* An upload draws one reply and leaves exactly the sent bytes, and a download returns them,
  from the bytes one program writes to the bytes the other reads, in any cut and whatever the key does
  (`EndToEnd.UploadThenDownload`).
- *Every answer.* Exactly which command and which line of an upload is refused (`Refusals.RefusedIff`,
  `Refusals.UploadLineIff`), and that the CLI reports every refusal as an error and nothing else
  (`ClientReplies.StepIsUnderstood`); `read` spells what is stored, or else the live configuration
  (`ReadAnswers.ReadsStored`, `ReadAnswers.ReadsLive`).
- *Every run.* The upload invariant, one answer for every command, refusals that change nothing, stored
  and live configuration in step, and a port that frees itself (`Runs`, `StorageInvariant`).
- *Time.* The gesture and the debouncer, over a 2^29-periodic clock, refine closed forms on true time
  (`Gesture`, `KeyLoop`), from the name of a mode in the document on (`Modes`).
- *The main loop.* In one machine of key, port and board, what is fired is the stored binding whose colour
  the true time since the latest press put on show (`MainLoop.FiringsAreStored`), and the loop goes on
  exactly as long as no hold divides by zero (`MainLoop.HaltsIff`, `MainLoop.NeverHalts`).
- *Edits.* The path edit is a lens, and rewriting the document in place computes it (`Patch`,
  `Documents`).

## Where the code falls short of its aim

Each is a property that does not hold of the code as it is; it is stated with a concrete case and with
the exact condition under which it does hold.

- `profile` with a negative index passes its range check (src/singlekey/protocol.py:132), is refused, and
  still changes the live configuration: `StorageInvariant.NegativeProfileParts`, and the condition
  `StorageInvariant.StepSyncedIff`. If the last profile is another one the key then shows one profile and
  fires from another: `Playing.NegativePlaysAnother`, and the conditions `Playing.PlaysActiveIff` and
  `Playing.FiresShownIff`. With nothing stored, `version` and `read` are then refused:
  `Refusals.NegativeSilences`, and the condition `Refusals.RefusedIff`.
- A blob whose records overlap is accepted, though its re-encoding may exceed the storage; `profile` is
  then refused with the same effect: `Overlap.OverlapThenProfileParts`, same condition.
- The trailer is little-endian while the CRC shifts out its high bit first, so damage across the border of
  body and trailer can go unnoticed: `Border.DamageMissed`, and the conditions `Trailer.AdjacentDamageIff`
  for the check and `Border.MaskedIff` for the decoders.
- The decoders take a dwell of 0, by which the display divides, outside anything that catches it; a hold
  then ends the main loop and with it the port: `MainLoop.ZeroDwellIsStored`, `MainLoop.ZeroDwellHalts`,
  and the condition `MainLoop.HaltsIff`.
- A level change in the upper half of the clock's period after the last edge (2^28 ms or more, modulo
  2^29) is taken for a bounce: `KeyLoop.LongIdleIsIgnored`, and the condition `KeyLoop.AcceptedIff`. The
  comment at src/singlekey/keystate.py:17-22 describes the same trap at boot, which the code does avoid.
- A tick in that half does not abandon an upload either; the condition is `Runs.TimeoutIff`.

docs/format.md:192 ends the answer to `read` with a bare OK; the code adds the byte count, which is what the
model follows. docs/format.md:212-214 promises that `write` is atomic, which `Runs.RefusedRunIsHarmless` and
`Runs.AcceptedUpload` bear out; the same does not hold of `profile`, which docs/format.md:195 describes as
setting and persisting the active profile.

## Model

| member | source | states |
|---|---|---|
| `Crc.ComputeCrc16` | cli/internal/blob/crc16.go:8-21 | The nested loops of both implementations compute one specification function: start at 0xFFFF, exclusive-or each byte into the top, eight shifts with 0x1021. |
| `Crc.FeedAllIsFeedBits` | cli/internal/blob/crc16.go:8-21 | The byte loop equals a bit-serial register fed most significant bit first, for every start value and every data. |
| `Crc.FeedBitsLinear` | cli/internal/blob/crc16.go:11-19 | The register is linear over exclusive-or: the difference of two runs is the run of the differences. |
| `Crc.NoShortCancel` | cli/internal/blob/crc16.go:11-19 | No non-zero pattern of at most 16 bits brings a clear register back to clear. |
| `Crc.BurstDetected` | cli/internal/blob/crc16.go:8-21 | Two equally long byte strings, of any length, that differ only within 16 consecutive bits have different CRCs. |
| `Crc.AdjacentBytesBurst` | cli/internal/blob/crc16.go:8-21 | Any change confined to two adjacent bytes is such a burst. |
| `CrcValues.CrcOfNothing` | cli/internal/blob/crc16.go:9 | The CRC of nothing is 0xFFFF. |
| `CrcValues.PresetIsComplement` | src/singlekey/blob.py:48 | The preset does just what taking the first sixteen bits for their opposites and starting from a clear register does. |
| `CrcValues.LeadingZeroNoticed` | cli/internal/blob/crc16.go:8-21 | A zero byte in front of any data changes its CRC. |
| `CrcValues.CheckValue` | docs/format.md:55-56 | The CRC of "123456789" is 0x29B1. |
| `Distance.OddDetected` | cli/internal/blob/crc16.go:8-21 | Any odd number of flipped bits, in data of any length, changes the CRC. |
| `Distance.NoEarlyReturn` | cli/internal/blob/crc16.go:11-19 | No power of x below the 32767th is 1 modulo the generator, which the inner loop shifts by. |
| `Distance.PairDetected` | cli/internal/blob/crc16.go:8-21 | Any two flipped bits less than 32767 apart change the CRC. |
| `Distance.FewFlipsDetected` | cli/internal/blob/crc16.go:8-21 | In at most 4094 bytes any one, two or three flipped bits change the CRC. |
| `Distance.FourFlipsMissed` | cli/internal/blob/crc16.go:8-21 | And not any four: the four bits of the generator, anywhere, keep it. |
| `Distance.FewFlipsRejected` | src/singlekey/blob.py:206-214 | Up to three flipped bits in the body of a blob that fits the storage, outside its length field, make either decoder refuse it. |
| `Trailer.ByteFed` | cli/internal/blob/crc16.go:11-19 | The sixteen register bits a single byte leaves in a clear register, as exclusive-ors of its bits. |
| `Trailer.BorderBurstIff` | cli/internal/blob/codec.go:142-145 | Damage to the last body byte and the first trailer byte passes the CRC check exactly when it is none, or the masks are 0x89 and 0xA1. |
| `Trailer.AdjacentDamageIff` | src/singlekey/blob.py:206-214 | For damage to any two adjacent bytes of an accepted blob outside its length field: the check passes exactly when nothing changed or it is that one pattern on the border, and a failed check means both decoders refuse. |
| `Border.MaskedIff` | src/singlekey/blob.py:206-238 | What that one pattern does to the encoding of any storable configuration: the CLI accepts it exactly when the last step ends in a byte that may be anything, and then decodes the configuration with just that byte changed; a count or length of 0 that became 137 is refused; the firmware besides refuses a text that is no longer UTF-8. |
| `Border.DamageMissed` | cli/internal/blob/codec.go:142-145 | A concrete failure: every configuration with such a last step has a damage to two adjacent bytes of its blob that the CLI accepts as another configuration. |
| `Configs.BindingEncodedSize` | cli/internal/blob/config.go:141-148 | The loop returns the sum over all steps plus the four fixed bytes. |
| `Configs.ProfileEncodedSize` | cli/internal/blob/config.go:150-159 | The loop returns name, fixed fields, tap and every slot. |
| `Configs.ConfigEncodedSize` | cli/internal/blob/config.go:161-168 | The loop returns header, offset table, trailer and every record. |
| `Configs.ValidateBinding` | cli/internal/blob/config.go:228-238 | True exactly for at most 64 steps, each of them valid. |
| `Configs.ValidateProfile` | cli/internal/blob/config.go:195-226 | True exactly for a profile within all the CLI's limits. |
| `Configs.Validate` | cli/internal/blob/config.go:171-193 | True exactly for a supported version, 1 to 8 valid profiles, an existing active one, and an encoded size of at most 4096. |
| `Limits.ValidIff` | docs/format.md:132-149 | The CLI takes exactly the configurations of version 1 within the documented ranges, key and media codes set, whose encoding has at most 4096 bytes. |
| `Limits.EncodableIff` | src/singlekey/blob.py:312-384 | The firmware's encoder raises exactly when the profiles are not 1 to 8, the active one does not exist, a count does not fit its byte, a step has an unknown type, or the encoding exceeds 4096 bytes. |
| `Layout.DecodedIff` | docs/format.md:28-101 | Both decoders accept exactly the data in which a configuration lies as documented, field by field at its offset, and return just that configuration; for any bytes after the announced size. |
| `Layout.StepParsed` | docs/format.md:92-101 | A step is read exactly where its documented bytes lie, and the cursor ends right behind them. |
| `Layout.BindingRead` | docs/format.md:79-90 | What is read as a binding lies there: colour, count of at most 64, and the steps one after another. |
| `Layout.BindingFound` | docs/format.md:79-90 | And what lies there is read. |
| `Layout.ProfileRead` | docs/format.md:58-77 | What is read as a profile record lies there: name, times, modes, idle colour, slot count, the tap binding and the slots in order. |
| `Layout.ProfileFound` | docs/format.md:58-77 | And what lies there is read. |
| `Layout.PrintedLies` | docs/format.md:28-51 | What is printed of a validated configuration, with anything after it, lies as documented, the reserved byte 0 and the records back to back between table and checksum. |
| `RoundTrip.EncodedSize` | cli/internal/blob/config.go:161-168 | The byte budget is exact: the encoding has the size the CLI computes, for every encodable configuration. |
| `RoundTrip.DecodeEncode` | cli/internal/blob/codec.go:120-173 | For every storable configuration whose size fits 16 bits, and any bytes after it, decoding its encoding gives it back, for both decoders. |
| `RoundTrip.DecodeEncodeIff` | cli/internal/blob/codec.go:10-46 | The round trip holds for exactly the storable configurations. |
| `RoundTrip.StepRoundTrip` | cli/internal/blob/codec.go:257-295 | A printed step at any offset reads back as itself and the cursor ends right after it. |
| `RoundTrip.ProfileRoundTrip` | cli/internal/blob/codec.go:175-227 | A printed profile record at any offset reads back as itself and the cursor ends right after it. |
| `RoundTrip.TableEntry` | cli/internal/blob/codec.go:26-38 | Every offset in the table fits, lies behind the table and inside the body, and points at the record of its profile. |
| `RoundTrip.DecodedStorable` | src/singlekey/blob.py:195-238 | For every byte string: a success has 1 to 8 profiles, an existing active one, names of at most 16 bytes, 1 to 16 slots, at most 64 steps a binding, and for the firmware known modes and UTF-8 strings. |
| `RoundTrip.DecodeDelimited` | src/singlekey/blob.py:202-208 | Decoding depends on the first `blob_len` bytes only. |
| `RoundTrip.BurstRejected` | src/singlekey/blob.py:210-214 | A burst of up to 16 bits in the body of an accepted blob, outside the length field, makes either decoder refuse it. |
| `RoundTrip.DecodersAgree` | src/singlekey/blob.py:195-306 | On every byte string the firmware's decoder returns what the CLI's does, except that it refuses unknown mode bytes and strings that are not UTF-8. |
| `RoundTrip.ValidIsStorable` | cli/internal/blob/config.go:171-193 | What the CLI validates a decoder would accept; with UTF-8 strings the firmware's too. |
| `RoundTrip.StorableIsEncodable` | src/singlekey/blob.py:312-384 | What a decoder produced never makes the firmware's encoder raise on a count or a length, if it fits the storage. |
| `System.ValidRoundTrip` | cli/internal/blob/codec.go:10-46 | For every configuration the CLI validates: both encoders print the same bytes, at most 4096, and decoding them with anything after returns the configuration. |
| `GoCodec.AppendBinding` | cli/internal/blob/codec.go:64-82 | Appends exactly the specified bytes of colour, count and steps. |
| `GoCodec.EncodeProfileRecord` | cli/internal/blob/codec.go:48-62 | Produces exactly the specified record. |
| `GoCodec.EncodeConfig` | cli/internal/blob/codec.go:10-46 | An error exactly for what does not validate, otherwise the specified bytes; the internal size mismatch cannot occur. |
| `GoCodec.DecodeStep` | cli/internal/blob/codec.go:257-295 | Reads what the format's parser reads, and stops where it stops. |
| `GoCodec.DecodeBinding` | cli/internal/blob/codec.go:229-255 | The loop over steps reads what the format's parser reads. |
| `GoCodec.DecodeProfile` | cli/internal/blob/codec.go:175-227 | Reads what the format's parser reads, refusing the same counts. |
| `GoCodec.DecodeConfig` | cli/internal/blob/codec.go:120-173 | Total on every byte string, with every read in range, and equal to the specification the round trip is proved of. |
| `PyCodec.EncodeBindingRecord` | src/singlekey/blob.py:365-384 | Raises exactly on an unknown step type, a text over 255 bytes or more than 255 steps, otherwise the CLI's bytes. |
| `PyCodec.EncodeProfileRecord` | src/singlekey/blob.py:346-362 | Raises exactly where a length does not fit a byte or a binding does not encode, otherwise the CLI's bytes. |
| `PyCodec.EncodeConfig` | src/singlekey/blob.py:312-343 | Raises exactly on a wrong profile count, an active index out of range on either side, an unencodable record or an overlong total; otherwise the CLI's bytes. |
| `PyCodec.DecodeText` | src/singlekey/blob.py:245 | Accepts exactly well-formed UTF-8. |
| `Utf8.WellFormedIff` | src/singlekey/blob.py:245 | A byte string is well-formed exactly when it is the encoding of some sequence of Unicode scalar values, by the arithmetic of section 3 of RFC 3629. |
| `Utf8.EncodeAllInjective` | src/singlekey/blob.py:301 | And of only one. |
| `PyCodec.DecodeStep` | src/singlekey/blob.py:294-306 | Reads what the firmware's dialect of the parser reads. |
| `PyCodec.DecodeBinding` | src/singlekey/blob.py:279-291 | The loop over steps reads what that parser reads. |
| `PyCodec.DecodeProfile` | src/singlekey/blob.py:241-276 | Reads what that parser reads, with the mode checks only the firmware makes. |
| `PyCodec.DecodeConfig` | src/singlekey/blob.py:195-238 | Total on every byte string, and equal to the specification. |
| `Ascii85.EncodeBytes` | src/singlekey/a85.py:34-55 | The group loop and the zero-padded tail compute the specified text. |
| `Ascii85.Emit` | src/singlekey/a85.py:58-63 | Appends the first `count` of the five base-85 digits. |
| `Ascii85.DecodeText` | src/singlekey/a85.py:66-104 | The scanning loop accepts and returns what the specification does, including the overflow, stray-character and misplaced-`z` errors. |
| `Ascii85.EncodedLength` | src/singlekey/a85.py:111-118 | The text of `n` bytes has exactly `encoded_len(n)` characters. |
| `Ascii85.EncodedAlphabet` | src/singlekey/a85.py:34-55 | Encoding produces only the 85 digits, so never `z`. |
| `Ascii85Proofs.DecodeEncode` | src/singlekey/a85.py:66-104 | Every byte string survives encoding, whitespace inserted anywhere, and decoding: tails of every length, no overflow, no padding left over. |
| `Ascii85Groups.DecodedByGroups` | src/singlekey/a85.py:66-104 | What any text decodes to, or that it does not, group by group with its whitespace taken out: `z`, five digits whose value fits 32 bits, two to four digits at the end filled up with `u`. |
| `Ascii85Groups.KnownPair` | docs/format.md:159-163 | "Man " is "9jqo^" and back. |
| `Ascii85Proofs.ScanTail` | src/singlekey/a85.py:95-104 | Zero padding and `u` padding of a 1-, 2- or 3-byte tail meet in the bytes that were encoded. |
| `Ascii85Proofs.LinesJoin` | src/singlekey/a85.py:121-124 | Wrapping at any positive width loses nothing and leaves no empty or overlong line. |
| `Ascii85Proofs.CountingRulesOutShorthand` | src/singlekey/a85.py:111-118 | Text of exactly `encoded_len(n)` characters that decodes to `n` bytes has four whitespace characters for every `z`. |
| `Ascii85Proofs.PayloadIsNotTerminator` | src/singlekey/a85.py:121-124 | For every byte string, no line of 80 columns is `OK`, and none contains a space, so none starts like a terminator or an event. |
| `Ascii85Proofs.TailIsNotOk` | src/singlekey/a85.py:58-63 | No byte value has `OK` as its two-character tail group. |
| `Wire.EncodersAgree` | cli/internal/wire/ascii85.go:26-30 | The library encoding with `z` expanded is the firmware's encoding. |
| `Wire.DecodeLibrary` | src/singlekey/a85.py:79-83 | The library's own text, `z` and all, decodes to the bytes it was made of. |
| `Wire.EncodeLines` | cli/internal/wire/ascii85.go:43-53 | The slicing loop yields that text wrapped at 80 columns. |
| `Text.ParseDec` | cli/internal/device/device.go:338 | A printed count reads back as the number, on both sides. |
| `Text.ParseHex` | src/singlekey/protocol.py:210-214 | A CRC printed as `0x%04x` reads back as the number. |
| `TextLaws.NumberIff` | src/singlekey/protocol.py:210-214 | An argument is a number exactly when it is decimal with an optional sign, or hexadecimal after "0x" or "0X". |
| `TextLaws.NumberMeans` | src/singlekey/protocol.py:210-214 | And signs and leading zeros mean what one expects. |
| `TextLaws.WordsAtBlank` | src/singlekey/protocol.py:62-63 | A blank of any of the six kinds, anywhere, separates the words on its two sides. |
| `TextLaws.WordsOfOne` | src/singlekey/protocol.py:62-63 | Text without one is a single word; the two determine the words of every line. |
| `TextLaws.StrayIgnored` | src/singlekey/protocol.py:222-230 | A control character anywhere in a command line makes no difference. |
| `TextLaws.MarginsIgnored` | src/singlekey/protocol.py:222-230 | Nor does a space at either end. |
| `TextLaws.PlainKept` | src/singlekey/protocol.py:222-230 | All else is kept; the three determine what any line is taken for. |
| `TextLaws.CaseIgnored` | src/singlekey/protocol.py:63 | A command in capitals, or some, is the same command. |
| `Store.NvmStore.LoadConfig` | src/singlekey/nvmstore.py:28-50 | Never fails: the stored configuration, or the factory one with the reason; the region is left alone. |
| `Store.NvmStore.ScanBlank` | src/singlekey/nvmstore.py:95-106 | True exactly for an empty region or one filled with a single 0x00 or 0xFF. |
| `Store.NvmStore.Write` | src/singlekey/nvmstore.py:52-70 | Writes in place over the front of the region, and only what decodes and fits; a refusal changes neither region nor status. |
| `Store.NvmStore.WriteConfig` | src/singlekey/nvmstore.py:72-74 | The same for a configuration, with the encoder's refusals as well. |
| `Store.NvmStore.StoredBytes` | src/singlekey/nvmstore.py:76-85 | The length field behind a good magic if the region holds that many bytes, otherwise 0; the CRC is not looked at. |
| `Store.NvmStore.ReadStored` | src/singlekey/nvmstore.py:87-92 | Exactly that many bytes, or nothing. |
| `Boots.BootsIff` | docs/format.md:151-157 | From the bytes in the region alone: the status is no-nvm, blank, ok or corrupt exactly when there is no region, an erased one, one in which a configuration lies, or another, and the configuration is the one that lies there or the factory one. |
| `Boots.NothingSticks` | src/singlekey/nvmstore.py:21-22 | Without a region, over every run from power-on: no upload is ever taken, the status stays no-nvm, and the factory profiles stay live, if with another one active. |
| `Devices.Device.constructor` | src/code.py:46-67 | Power-on loads the region and keeps it as it is. |
| `Devices.Device.CommitBlob` | src/code.py:84-89 | Region, live configuration and status change together, or none does. |
| `Devices.Device.Activate` | src/code.py:91-95 | The live index is set first, and stays set when the save then fails. |
| `Devices.Device.Reset` | src/code.py:97-102 | The live configuration is replaced first, and stays replaced when the save then fails. |
| `Devices.Device.Read` | src/code.py:78-82 | The stored bytes, or the encoded live configuration when there are none. |
| `ReadAnswers.ReadsStored` | src/singlekey/protocol.py:101-105 | With a header in the region that announces bytes it holds, `read` answers exactly those bytes, spelled in lines of at most 80 characters and closed by their count, and changes nothing. |
| `ReadAnswers.ReadsLive` | src/code.py:78-82 | Without one it answers, the same way, bytes that decode to the live configuration on both sides; it is refused exactly when that cannot be encoded. |
| `ReadAnswers.ReportsUsed` | src/singlekey/protocol.py:89-99 | And `version` counts as used what is announced, or else the size of the live configuration. |
| `ReadAnswers.ErasedReadsFactory` | src/singlekey/nvmstore.py:28-50 | A board that powers on without a region, or with an erased one of any size, says so and answers `read` with the factory configuration. |
| `Protocols.Protocol.HandleLine` | src/singlekey/protocol.py:53-73 | One line takes the specified step of the state machine, over the whole state of protocol, board and region. |
| `Protocols.Protocol.RunCommand` | src/singlekey/protocol.py:61-73 | Each command word takes its specified step; an unknown one is refused. |
| `Commands.EventsSpelled` | src/singlekey/protocol.py:152-156 | The answers to `events` as they are written. |
| `Commands.AnswersSpelled` | src/singlekey/protocol.py:127-160 | The answers to `profile`, `test` and `defaults` as they are written. |
| `Refusals.RefusedIff` | src/singlekey/protocol.py:53-160 | For every command line on every reachable board, exactly when the answer is ERR, from command word, arguments, configuration and region. |
| `Refusals.HelpIsComplete` | src/singlekey/protocol.py:20-29 | Every word the help does not name is refused and changes nothing. |
| `Refusals.SavesIff` | src/singlekey/nvmstore.py:52-74 | A sound configuration saves, with or without a region, exactly when its active profile exists and it fits. |
| `Refusals.NegativeSilences` | src/singlekey/protocol.py:127-135 | A concrete failure: with nothing stored, a refused `profile -1` leaves the board unable to answer `version` or `read`. |
| `Protocols.Protocol.CmdRead` | src/singlekey/protocol.py:101-105 | The wrapped text and its byte count, or a refusal when there is nothing. |
| `Protocols.Protocol.CmdWrite` | src/singlekey/protocol.py:107-125 | Opens an upload only for a length between 12 and the region's size; replies only to refuse. |
| `Protocols.Protocol.CmdProfile` | src/singlekey/protocol.py:127-135 | The specified step, including the board change that a refused negative index leaves behind. |
| `Protocols.Protocol.HandleUploadLine` | src/singlekey/protocol.py:164-199 | Counts first, refuses on excess, waits on less, and looks at the text only on an exact count. |
| `Refusals.UploadLineIff` | src/singlekey/protocol.py:164-199 | For every line of an upload, exactly when it waits, draws OK or draws ERR, the whole new state in each case, bytes of the region behind the blob included. |
| `Protocols.Protocol.CheckAndCommit` | src/singlekey/protocol.py:182-199 | Decoding, byte count, transfer CRC and commit in that order; only the last changes anything. |
| `Protocols.Protocol.Tick` | src/singlekey/protocol.py:75-82 | Abandons an upload with one refusal after 5 s of silence, and does nothing otherwise. |
| `Runs.RunSound` | src/singlekey/protocol.py:164-176 | In every reachable receiving state the count is the buffered length and below the expected one, which belongs to a length between 12 and the region's size. |
| `Runs.StepReplies` | src/singlekey/protocol.py:53-82 | A step replies nothing or body lines closed by exactly one OK or ERR. |
| `Runs.RepliesBalance` | src/singlekey/protocol.py:53-82 | Over every run, terminating replies and the upload still open balance exactly against the commands started. |
| `Runs.OnlyTheseChangeTheBoard` | src/singlekey/protocol.py:127-199 | Only an accepted upload, `profile` and `defaults` can change what is stored or live. |
| `Runs.RefusedRunIsHarmless` | src/singlekey/protocol.py:164-203 | A run without those two commands in which no upload is accepted leaves the board as it was. |
| `Runs.AcceptedUpload` | src/singlekey/protocol.py:164-199 | A line that draws `OK written n` decoded, with all buffered before it, to the announced length and CRC; those bytes front the region, decode to the live configuration, and the upload is over. |
| `Runs.BurstRefused` | src/singlekey/protocol.py:164-193 | A line that completes a transfer whose bytes suffered a burst of up to 16 bits is refused, ends the upload and changes nothing. |
| `Runs.AcceptedCounting` | src/singlekey/protocol.py:164-188 | An accepted transfer has exactly four interior whitespace characters for every `z`. |
| `Runs.TimeoutIff` | src/singlekey/protocol.py:75-82 | Exactly which tick abandons an upload: true silence, modulo the clock's period, of 5000 ms up to half the period. |
| `Runs.TimesOut` | src/singlekey/protocol.py:75-82 | Silence of 5000 ms to 2^28 - 1 ms always returns the port to idle, at any boot epoch. |
| `StorageInvariant.BootSound` | src/singlekey/nvmstore.py:28-50 | Whatever bytes the region holds, the board boots with a configuration whose active profile exists. |
| `StorageInvariant.ReachableSound` | src/code.py:84-102 | From any power-on, every run keeps the upload invariant and sound live profiles. |
| `StorageInvariant.SaveConfigIff` | src/singlekey/nvmstore.py:72-74 | A sound configuration saves exactly when its index exists and it fits, and what is then stored decodes to it. |
| `StorageInvariant.StepBoard` | src/singlekey/protocol.py:127-199 | Which one board operation a step performs, for every state and event. |
| `StorageInvariant.StepSyncedIff` | src/code.py:91-102 | From agreement of stored and live configuration, a step keeps it exactly when it is not a `profile` with a negative or unencodable target, nor a `defaults` that does not fit. |
| `StorageInvariant.RunSynced` | src/code.py:84-102 | Over any run without such a step the region decodes to the live configuration. |
| `StorageInvariant.SuccessSyncs` | src/singlekey/nvmstore.py:52-74 | Any save answered with OK brings the two into agreement, whatever the region held. |
| `StorageInvariant.SuccessCanonical` | src/singlekey/nvmstore.py:52-74 | With an encoder's bytes and natural indices, it brings the exact encoding of the live configuration into the region. |
| `StorageInvariant.CanonicalMeans` | src/singlekey/nvmstore.py:28-92 | Then the next load reports ok with the live configuration and reading back gives its encoding. |
| `StorageInvariant.RunCanonical` | src/code.py:78-102 | The storage invariant over every run of such events: the region starts with the encoding of the live configuration, the next boot loads it, `read_blob` returns it. |
| `StorageInvariant.NegativeProfileParts` | src/singlekey/protocol.py:127-135 | A concrete failure: `profile -1` is refused, yet changes the live configuration and not the stored one. |
| `Overlap.OverlapDecodes` | src/singlekey/blob.py:228-234 | A blob whose eight offsets point at one record is accepted as eight profiles. |
| `Overlap.OverlapThenProfileParts` | src/code.py:91-95 | Such a blob can be stored and run, but `profile 1` is then refused and parts the live configuration from the stored one. |
| `Commands.ProfileAnswers` | src/singlekey/protocol.py:127-135 | For every natural index, on any board with room, blank, corrupt or loaded: an existing profile is named, active, and the region then starts with the encoding of just that; any other changes nothing. |
| `Commands.TestAnswers` | src/singlekey/protocol.py:137-150 | For all natural indices the answer counts the steps of the binding so numbered, 0 being the tap, exactly when both exist; nothing changes. |
| `Commands.EventsAnswers` | src/singlekey/protocol.py:152-156 | Sets what it says and nothing else. |
| `Commands.DefaultsAnswers` | src/singlekey/protocol.py:158-160 | With room for it the factory configuration becomes live and stored, and the reply counts its bytes. |
| `Commands.VersionAnswers` | src/singlekey/protocol.py:89-99 | On an invariant board the used count is the size of exactly the live configuration. |
| `Transfer.HeaderParses` | cli/internal/device/device.go:337-340 | The header line the CLI prints is read by the firmware as the same length and CRC. |
| `Transfer.TransferProgress` | src/singlekey/protocol.py:164-203 | After any part of a transfer, with ticks in between, the board is waiting for exactly the rest or has answered once. |
| `Transfer.UploadEndToEnd` | cli/internal/device/device.go:337-354 | For every validated UTF-8 configuration, any idle board with room, any prior region, any cut into lines and ticks under 5 s apart from a line: one reply `OK written n`, the region starts with exactly those bytes, the configuration is live. |
| `Transfer.ReadAfterUpload` | src/singlekey/protocol.py:101-105 | `read` then answers with those bytes, wrapped, and their count. |
| `LineReading.ChunkIndependent` | cli/internal/device/device.go:243-259 | However a stream is cut into reads, the lines are the newline split of the whole and the unfinished rest is kept. |
| `LineReading.LineEnds` | cli/internal/device/device.go:246-249 | A line ends at a newline, less any carriage returns before it, and not before; which determines the lines of any stream. |
| `LineReading.SplitWritten` | cli/internal/device/device.go:236-241 | Lines written with a newline each are read back as they were. |
| `LineReading.SerialLines.ReadLines` | src/code.py:193-204 | One call delivers the complete lines of what is buffered and keeps exactly the rest. |
| `Client.Conn.ReadLine` | cli/internal/device/device.go:243-259 | The first line of the stream still to come; without one, everything read is kept. |
| `Client.Conn.ReadResponse` | cli/internal/device/device.go:215-234 | The reply is taken apart as specified over the lines of the stream, independent of chunking. |
| `ClientReplies.BareOkIsTrusted` | cli/internal/device/device.go:309-325 | A download that ends in a bare OK is taken without a count. |
| `ClientReplies.Decided` | cli/internal/device/device.go:215-234 | The reply ends at its first OK or ERR line, wherever events cut in and whatever follows: OK answers with the body before it, ERR refuses. |
| `ClientReplies.RefusalIsError` | cli/internal/device/device.go:228-229 | After an ERR line both an upload and a download report an error. |
| `ClientReplies.UploadedIff` | cli/internal/device/device.go:346-353 | An upload counts as done exactly when the terminating line is an OK. |
| `ClientReplies.SilenceIsError` | cli/internal/device/device.go:243-259 | Without a terminating line both report an error, however much body came. |
| `ClientReplies.CountIsChecked` | cli/internal/device/device.go:309-325 | A download whose announced count is not the number of bytes that came is an error, and otherwise those bytes. |
| `ClientReplies.GarbageIsError` | cli/internal/device/device.go:309-325 | And so is one whose text does not decode. |
| `ClientReplies.StepIsUnderstood` | cli/internal/device/device.go:215-234 | For every answer of the board, to any line or tick in any state: the client takes it for answered exactly when it ends in OK, with just the body lines sent, and for refused exactly when it ends in ERR. |
| `ClientReplies.RefusedUploadIsError` | cli/internal/device/device.go:346-349 | Whatever step of the board refuses, the client's upload or download reports an error. |
| `ClientReplies.BurstIsReported` | cli/internal/device/device.go:346-349 | So a transfer whose bytes suffered a burst is reported as an error. |
| `ClientReplies.SilenceIsReported` | src/singlekey/protocol.py:75-82 | And so is one that fell silent for 5000 ms to 2^28 - 1 ms. |
| `Client.Conn.ReadBlob` | cli/internal/device/device.go:309-325 | The decoded body, unless the count in the terminator disagrees. |
| `Client.Conn.WriteBlob` | cli/internal/device/device.go:337-354 | Sends exactly the header and the wrapped text, and reports the count in the reply. |
| `Client.RespondToReply` | cli/internal/device/device.go:215-234 | Wherever event lines cut in, body and terminator come apart as they were sent. |
| `Client.DownloadsWhatWasStored` | cli/internal/device/device.go:309-325 | For every blob, any chunking and any events, the client downloads exactly that blob. |
| `ReadAnswers.DownloadsStored` | cli/internal/device/device.go:309-325 | The client downloads exactly the bytes the region announces. |
| `ReadAnswers.DownloadsLive` | cli/internal/device/device.go:296-325 | With nothing stored it downloads bytes that it decodes to the live configuration. |
| `VersionInfo.ReadInfo` | cli/internal/device/device.go:272-293 | The loop over fields collects what the specification reads. |
| `VersionInfo.InfoArrives` | cli/internal/device/device.go:272-293 | Of every reply to `version` the CLI gets just the numbers and the status the board put in, negative indices included. |
| `Client.UploadReportsCount` | cli/internal/device/device.go:346-353 | The number in `OK written n` is the number reported, wherever events cut in. |
| `System.ClientLinesArrive` | src/code.py:193-204 | The board reads exactly the lines the CLI wrote, however they are chunked. |
| `EndToEnd.ArrivalsAreDelivered` | src/code.py:193-204 | The lines the protocol gets are those the bytes hold, however the bytes are spread over turns of the loop. |
| `EndToEnd.BytesUpload` | cli/internal/device/device.go:337-354 | The upload from bytes: any spread of what the CLI writes over turns, with ticks under 5 s from a line, ends in one OK and the configuration stored and live. |
| `EndToEnd.UploadThenDownload` | cli/internal/device/device.go:295-354 | The two programs byte for byte, through the main loop with any key activity: the bytes of an upload and of `read` in any cut, the answers with events in any cut; the CLI reports the size it encoded, the board stores just those bytes and runs the configuration, and the CLI downloads them and decodes the configuration. |
| `Ticks.DiffOfTicks` | src/singlekey/ticks.py:16-22 | For any epoch the difference of two readings is the true difference folded into half a period. |
| `Ticks.CounterWraps` | src/singlekey/ticks.py:12-14 | The counter counts milliseconds and starts again after 2^29 - 1. |
| `Ticks.ElapsedIsTrueTime` | src/singlekey/ticks.py:16-22 | Below 2^28 ms the counter measures true time across its wrap. |
| `Gesture.ColorTap.Release` | src/singlekey/colortap.py:44-59 | Fires what was on show at that instant, an existing binding or none, or raises what the display raises; the hold is over either way. |
| `Gesture.StateInRange` | src/singlekey/colortap.py:74-90 | The tap window is exactly the time before `tap_max_ms`; after it the display is an existing slot, or the dark one of wrap with cancel. |
| `Gesture.StateAtInRange` | src/singlekey/colortap.py:74-90 | For a stored profile with any dwell: the display exists exactly within the tap window or when the dwell is not 0, and names an existing slot. |
| `Gesture.PlayableIff` | src/singlekey/colortap.py:74-80 | Every hold has a display exactly when the dwell is not 0. |
| `Gesture.ValidIsPlayable` | cli/internal/blob/config.go:195-226 | What the CLI validates can be played at every hold. |
| `Gesture.HoldIsTrueTime` | src/singlekey/colortap.py:74-90 | A hold of less than 2^28 true ms shows what its true length says, or raises when that does, at any epoch. |
| `Gesture.WrapShows` | src/singlekey/colortap.py:86-90 | Wrap: slot `i` is shown exactly in the `i`-th dwell of each rotation. |
| `Gesture.WrapCancelShows` | src/singlekey/colortap.py:84-88 | Wrap with cancel: each rotation has the slots in order and exactly one dark dwell. |
| `Gesture.ClampShows` | src/singlekey/colortap.py:82-83 | Clamp: the slots in order, then the last one for good. |
| `Gesture.WrapRepeats` | src/singlekey/colortap.py:84-90 | The display repeats after the rotation. |
| `Gesture.ClampNeverDecreases` | src/singlekey/colortap.py:82-83 | Holding longer never steps a clamped display back. |
| `Gesture.CancelIsDark` | src/singlekey/colortap.py:92-101 | The dark dwell is dark and fires nothing. |
| `Modes.OverflowName` | cli/internal/blob/json.go:266-275 | A profile is read only under "wrap", "wrap_cancel", "clamp" or the empty name, in any case and with any margin, and they are bytes 0, 1, 2 and 0. |
| `Modes.OverflowByteShows` | docs/format.md:122-130 | Byte 0: the slots take turns and it is never dark; 1: with exactly one dark dwell after the last; 2: the last one stays. |
| `Modes.OverflowNameShows` | cli/internal/blob/json.go:266-276 | From the name in the document to what a hold shows. |
| `Modes.StoredOverflowShows` | docs/format.md:58-77 | From the byte behind name and times in a stored record to what a hold shows. |
| `KeyLoop.Debouncer.Poll` | src/singlekey/keystate.py:25-34 | One poll takes the specified step over level and last change. |
| `KeyLoop.AcceptedIff` | src/singlekey/keystate.py:25-34 | Over every trace and epoch, exactly which samples are edges: a change that is the first, or comes between the debounce time and half a period after the last edge, modulo the period. |
| `KeyLoop.EdgesAreSpaced` | src/singlekey/keystate.py:25-34 | Edges alternate and are at least the debounce time apart in true time. |
| `KeyLoop.LongIdleIsIgnored` | src/singlekey/keystate.py:29-31 | A concrete gap: a press half a clock period after the last edge is not seen. |
| `KeyLoop.PollKey` | src/code.py:235-247 | The loop's part that polls the key and drives the gesture takes the specified step. |
| `KeyLoop.FiringsAnswerPresses` | src/code.py:235-251 | Over any run of polls and profile changes, firings never outnumber presses, from any state on. |
| `KeyLoop.ReleaseFiresShown` | src/code.py:238-247 | Ending a hold fires the binding its true length shows, or raises when that has no display. |
| `Playing.StepInForce` | src/code.py:84-116 | A step that does not part stored and live keeps the key on the active profile of what is stored. |
| `Playing.StepInForceIff` | src/code.py:84-116 | From agreement, a step keeps stored, live and played together exactly when it is not a parting one. |
| `Playing.PlaysActiveIff` | src/code.py:84-116 | A step leaves the key on the active profile of the live configuration exactly when it is not a parting one, or the other profile happens to be the same. |
| `Playing.RunInForce` | src/code.py:84-116 | And so does every run of them. |
| `Playing.PowerOnInForce` | src/code.py:46-67 | A board that loads its region starts that way. |
| `Playing.SuccessInForce` | src/code.py:84-116 | Every board gets there with the first save answered with OK. |
| `Playing.DefaultsRecovers` | src/code.py:97-102 | Whatever bytes a board powers on with, one `defaults` that fits establishes the storage invariant and puts the key on the stored profile. |
| `Playing.FiresStoredBinding` | src/code.py:104-109 | Then what a release fires exists in the stored configuration, is the binding so numbered of its active profile, and has the colour that was on show. |
| `Playing.FiresShownIff` | src/code.py:104-109 | With the gesture on one profile and another one active: every release fires what it showed exactly when the two agree on every binding a hold can reach. |
| `Playing.NegativePlaysAnother` | src/code.py:91-95 | A concrete failure: after a refused `profile -1`, where the last profile is another one, the key stays on the old profile and fires from the last; and some release fires another binding than it showed, exactly unless the two agree on every binding a hold can reach. |
| `MainLoop.StartIsSound` | src/code.py:212-229 | Power-on with any region is where the following theorems begin. |
| `MainLoop.ShowGesture` | src/code.py:253-260 | The part of the loop that looks at the display hands its colour over exactly when the display has changed. |
| `MainLoop.SerialIsRun` | src/code.py:262-264 | Whatever the key does, protocol, board and replies take exactly the run of the lines read from the bytes, as long as the loop goes on. |
| `MainLoop.HeldSinceLatestPress` | src/code.py:232-247 | Whatever profiles are stored meanwhile, a hold in progress began with the latest press. |
| `MainLoop.FiringsAreStored` | src/code.py:232-264 | One machine for key, port and board: over any interleaving without a parting step every firing is of the binding so numbered of the stored active profile, and the one, with the colour, that the true time since the latest press showed. |
| `MainLoop.FiringsBalance` | src/code.py:232-251 | Over any run of that machine, from any state, firings never outnumber presses. |
| `MainLoop.LedsFollowDisplay` | src/code.py:253-256 | In every turn of every run the LEDs hold the colour of what is shown, although it is handed over only on a change and profiles clear it. |
| `MainLoop.HaltsIff` | src/code.py:235-254 | A turn ends the loop by an exception exactly when the played dwell is 0 and a hold is past the tap window. |
| `MainLoop.NeverHalts` | src/code.py:232-264 | Over any run in which only playable configurations are stored the loop goes on. |
| `MainLoop.ValidIsHarmless` | cli/internal/device/device.go:327-334 | An upload of what the CLI validates is such a one. |
| `MainLoop.ZeroDwellIsStored` | src/singlekey/blob.py:241-276 | A concrete failure: a blob with a dwell of 0 is accepted, stored and run. |
| `MainLoop.ZeroDwellHalts` | src/singlekey/colortap.py:80 | Any hold of such a profile past its tap window then ends the loop. |
| `MainLoop.SmallestIsStorable` | cli/internal/blob/config.go:195-226 | Configurations with one empty slot take 35 bytes, are storable with any dwell, valid with 100 to 10000 ms, and playable exactly with a dwell that is not 0. |
| `Leds.LedEngine.Paint` | src/singlekey/leds.py:143-156 | The onboard pixel and every configured pixel show the look; bytes past them are untouched, and every channel is a byte. |
| `Leds.LedEngine.Render` | src/singlekey/leds.py:87-108 | Shows flash over hold over idle animation, and drops a flash that is over. |
| `Leds.LedEngine.BootFrame` | src/singlekey/leds.py:59-85 | Runs exactly while the sweep lasts; once over it writes nothing. |
| `Leds.LedEngine.SetProfile` | src/singlekey/leds.py:44-48 | The chain is cut to the buffer, and hold and flash are dropped. |
| `Leds.LedEngine.SetHold` | src/singlekey/leds.py:50-52 | Sets the held colour and nothing else. |
| `Modes.ProfileReadIff` | cli/internal/blob/json.go:144-174 | A profile of a document is read exactly when both its modes are named, its colour parses and its bindings are read. |
| `Leds.RainbowSpans` | src/singlekey/leds.py:143-156 | Neighbouring pixels are the same number of steps apart, so that all of them span the wheel once. |
| `Leds.BreatheRises` | src/singlekey/leds.py:132-138 | Breathing rises evenly from 38 to 255. |
| `Leds.SweepTurnsOnce` | src/singlekey/leds.py:59-85 | The startup sweep goes round the wheel once, evenly. |
| `Leds.FadesEvenly` | src/singlekey/leds.py:73-82 | Over its last quarter it fades evenly from full brightness. |
| `Leds.ScaledInProportion` | src/singlekey/leds.py:124-130 | Scaling takes the two proportions in turn, each rounded down. |
| `Modes.IdleName` | cli/internal/blob/json.go:278-291 | A profile is read only under "off", "solid", "breathe", "rainbow" or the empty name, which are bytes 0, 1, 2, 3 and 0. |
| `Modes.IdleNameShows` | src/singlekey/leds.py:99-108 | From that name to the LEDs at rest: dark, the idle colour, that colour breathing, the wheel moving on every 8 ms. |
| `Leds.FlashThenHold` | src/singlekey/leds.py:87-97 | In true time a flash shows over a hold while it lasts, and then the hold shows again. |
| `Leds.RainbowTurns` | src/singlekey/leds.py:140-156 | The rainbow starts on the onboard pixel and is back where it was after 2048 ms. |
| `Leds.WheelCorners` | src/singlekey/leds.py:159-167 | The wheel starts red, is green at 85 and blue at 170. |
| `Leds.ScaleDims` | src/singlekey/leds.py:124-130 | Scaling dims each channel by itself; full brightness changes nothing and zero gives black. |
| `Leds.WheelIsSmooth` | src/singlekey/leds.py:159-167 | The wheel's channels always add up to 255, and a step, including the one that closes it, moves none by more than 3. |
| `Leds.BreatheRepeats` | src/singlekey/leds.py:132-138 | As a function of the counter's reading, breathing repeats every 3000 ms, rises from the floor to 255 and comes down the same way. |
| `Leds.BreatheOnTicks` | src/singlekey/leds.py:132-138 | On the board's counter a breath later the light is the same, except across the counter's wrap, which sets it 88 ms ahead. |
| `Leds.FlashLasts` | src/singlekey/leds.py:54-57 | A flash is on show for exactly its duration in true time, across the clock's wrap. |
| `Leds.EnvelopeInRange` | src/singlekey/leds.py:73-82 | The sweep's brightness stays within 1 to 255. |
| `Leds.EnvelopeFalls` | src/singlekey/leds.py:79-82 | And never increases. |
| `Leds.SelfTestLights` | src/singlekey/leds.py:59-85 | Before the fade every pixel has a lit channel, at any brightness, chain length and duration. |
| `Patch.GetPath` | cli/internal/patch/patch.go:45-62 | The walk in a loop reads what the recursive definition reads. |
| `Patch.SegmentsJoin` | cli/internal/patch/patch.go:27 | Splitting a path at dots loses nothing and leaves none inside a segment. |
| `Patch.SegmentsAtDot` | cli/internal/patch/patch.go:27 | A dot anywhere separates the segments on its two sides. |
| `Patch.IndexOfPrinted` | cli/internal/patch/patch.go:89-97 | A list index is a number below the length; a negative one never is. |
| `Patch.SetPathThenGet` | cli/internal/patch/patch.go:21-42 | An edit succeeds exactly when the path is not empty, resolves, and the text suits what is there; reading the path then gives the interpreted text. |
| `Patch.SetThenGet` | cli/internal/patch/patch.go:64-117 | The same on segments. |
| `Patch.SetLeavesOthers` | cli/internal/patch/patch.go:64-117 | Every path that parts from the edited one, list indices compared as numbers, reads as before. |
| `Patch.SetKeepsShape` | cli/internal/patch/patch.go:64-117 | No container on the way gains or loses a key or an element. |
| `Patch.SetSet` | cli/internal/patch/patch.go:64-117 | A second edit leaves no trace of a first that kept the kind of value. |
| `Patch.ScalarKeepsKind` | cli/internal/patch/patch.go:145-168 | Editing a string, number or boolean keeps its kind. |
| `Patch.CoerceIff` | cli/internal/patch/patch.go:145-180 | Exactly which text is refused for the value that is there; plain text for a string never is and is taken as it stands. |
| `Documents.Container.Set` | cli/internal/patch/patch.go:64-117 | The rewrite in place of maps and slices equals the edit on values; a refused one leaves every container untouched. |
| `Documents.Edit` | cli/internal/patch/patch.go:64-117 | One child of the path, rewritten or replaced by a newly parsed tree. |
| `Documents.SetDocument` | cli/internal/patch/patch.go:21-42 | Building the tree, rewriting it and reading it back is the edit on values. |
| `KeyNames.Reverse` | cli/internal/blob/keynames.go:95-106 | Whatever order the table is walked in, every code gets a name of its own and fixed names are kept. |
| `KeyNames.LookupCodeName` | cli/internal/blob/keynames.go:109-158 | Looking up the printed name of any code, named or numeric, gives the code, whichever names the table chose. |
| `TextLaws.NameAnyCase` | cli/internal/blob/keynames.go:109-120 | A name is found in any case: what is looked up is its capitals. |
| `TextLaws.NameAnyMargin` | cli/internal/blob/keynames.go:109-110 | And with any blanks around it. |
| `KeyNames.ModsReadIff` | cli/internal/blob/keynames.go:160-171 | Modifiers are read exactly when every name is known, and have just the named bits, in any order and however often. |
| `KeyNames.LookupInRange` | cli/internal/blob/keynames.go:109-148 | Whatever is looked up, by name or number, is below the limit of its field. |
| `KeyNames.ListMods` | cli/internal/blob/keynames.go:173-181 | The loop lists the names of exactly the set bits in order. |
| `KeyNames.FoldMods` | cli/internal/blob/keynames.go:160-171 | The loop folds the named bits, or fails on the first unknown name. |
| `KeyNames.ModsRoundTrip` | cli/internal/blob/keynames.go:160-181 | Every modifier mask survives being spelled out. |
| `JsonForm.ConvertBinding` | cli/internal/blob/json.go:176-182 | The loop converts every step in order. |
| `JsonForm.ConvertProfile` | cli/internal/blob/json.go:126-142 | The loop converts every slot in order. |
| `JsonForm.ReadBinding` | cli/internal/blob/json.go:184-200 | The loop reads every step, or fails on the first bad one. |
| `JsonForm.ReadProfile` | cli/internal/blob/json.go:144-174 | The loop reads every slot, or fails on the first bad one. |
| `JsonForm.RgbRoundTrip` | cli/internal/blob/json.go:293-309 | Every colour survives being printed and parsed. |
| `JsonForm.RgbDigits` | cli/internal/blob/json.go:309 | A colour is printed red, green, blue, two capital digits each. |
| `JsonForm.RgbAnyCase` | cli/internal/blob/json.go:293-307 | Those digits in any case, with or without the mark, read as the colour. |
| `JsonForm.StepRoundTrip` | cli/internal/blob/json.go:202-264 | Every step survives, zero delays, all key, media and modifier codes included, but an empty text, which is refused, and a step of unknown type, which turns into a delay of 0. |
| `JsonForm.StepReadIff` | cli/internal/blob/json.go:216-264 | Exactly the steps that set one form, with modifiers for a key only and known names, are read, and as what. |
| `JsonForm.ProfileRoundTrip` | cli/internal/blob/json.go:126-174 | Every valid profile survives its editable form. |
| `JsonForm.ConfigRoundTrip` | cli/internal/blob/json.go:68-95 | Every valid configuration survives its editable form. |

## Left out

- Store.NvmStore.LoadConfig: which fault made a region corrupt is not modelled; a decoder's error has no message.
- Gesture.StateAt: a profile has at least one slot, as every decoder and the factory configuration give it.
- Commands.TestAnswers: an exception of the action runner, which the firmware answers with ERR, is not modelled; neither is one in the main loop, which it reports as an event.
- Devices.Device.CommitBlob: handing the active profile to the gesture and the LEDs after a save is modelled on values, in `Playing.PlayedNext` and `MainLoop.Turned`, not as an update of those objects by the device.
- RoundTrip.BurstRejected: bursts that reach into the length field, bytes 8 and 9, are not covered, because they move the CRC; `Trailer.AdjacentDamageIff` and `Distance.FewFlipsRejected` leave out the same two bytes.
- Runs.Next: the lines of an event are ASCII, by their type, because a character outside ASCII in an upload makes Python raise an exception the protocol does not catch; bytes that are not UTF-8 likewise end `SerialLines.ReadLines`.
- Text.ParseInt: underscores between digits, which Python's `int` allows, are not modelled.
- Text.Strip: whitespace is the six ASCII characters; CPython's `str.strip` and `str.split` also take 0x1C to 0x1F for it.
- Protocols.Render: a profile name with a newline in it splits the reply to `profile` in two lines; only replies without one are lines here.
- Client.Conn.WriteBlob: the count is read from the form the firmware prints; what `Sscanf` makes of other spacing is not modelled, nor are failing writes.
- Client.Conn.ReadLine: the deadline is the end of what the transport delivers; no clock is modelled on the host.
- VersionInfo.ParseInfo: only the six ASCII blanks separate fields, which is all the board prints; why a region is corrupt is left out with the other error texts.
- Patch.Coerce: the library's parsers of numbers, booleans and JSON are parameters, and numbers are opaque.
- KeyNames.LookupCodeName: the name tables are parameters of the shape the source lists, not its individual entries.
- Text of errors and of `help`: replies keep their kind and the numbers they carry.
- A step is one of its four forms here; the unused fields the source's record carries beside it are not modelled.
- The factory configuration is a parameter, any storable one; its particular contents are not modelled.
- Serial ports, autodetection and draining before a command: input and output against libraries.
- The keyboard, the pixels and the action runner: firing a binding reports its number of steps.
- Event lines of the main loop, and the frame timer: events appear as lines the client skips.
- `Decode` of the CLI's wire package on text its own encoder did not produce.
- CLI commands, flags and printing, the manual, the flashing scripts, the enclosure: no logic of the transfer.
- The golden fixtures: single files that the repository's own tests state.
