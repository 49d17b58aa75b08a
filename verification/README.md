# Verified models of the FlyRouter repository's stateful programs

A Dafny project that models the programs of this repository whose correctness is hardest to see, and proves what
their code and its comments promise, for all inputs and over whole runs.

The parts, and the files that hold them:

- **The FT-60R codeplug store.** One flat byte image shared by packed channel records, names, bank planes, scan bits,
  home channels and PMS pairs. `Ft60rImage` gives every edit as one masked overwrite per address; `Ft60rEdits` proves
  the round trips and the non-interference of edits; `Ft60rRuns` composes edits; `Ft60rConfig` and `Ft60rDocument` are
  the configuration language and its meaning; `Ft60rDriver` is the driver on its memory array, proved against all
  that. The codecs are `Ft60rRecord`, `Ft60rName`, `Ft60rSquelch`, `Ft60rTexts`, `Decimal`, `Tones` and `ConfigText`.
- **Transfers and image files.** `SerialLink` is a serial line as a stream of bytes and silences. `Ft60rClone` is the
  FT-60R clone protocol with its retry loops and checksum. `BaofengTransfer` and `BaofengDriver` are the block protocol
  of the four Baofeng drivers with a radio at the other end. `ImageFiles` holds the file formats of all five drivers,
  and `Bf888s` the one with a block that moves.
- **The program around the drivers.** `Radio` is connecting by magic commands, the two identifiers, and the comparison
  that stands before every upload. `Ft60rBackup` is what becomes of an FT-60R backup. `Ft60rConfigure` joins clone,
  backup file, configuration and upload into one run, and reads its result back. `Baoclone` is the program on its
  global variables, with the write run and the configuration run.
- **Baofeng codecs.** `Bcd` (eight-digit words), `Bf888sChannel`, `Bf888sDriver`, `SquelchSettings` and
  `BaofengSquelch`.
- **The CRC challenge of the watchdog driver.** `Crc`, `CrcErrors` and `CrcInvariants` are the two CRC-16 updates and
  what they detect in messages of any length; `FlyAvr` is the challenge, the driver's buffers and its failure counter.
- **Three smaller programs.** `Unescape` and `Shbin` (escape decoder and octal printer), `ChangeMac` (EEPROM rewriter),
  `Imx222` and `Imx222Driver` (a camera driver's register shadow). `Bytes` and `Words` are shared.

Where the source works step by step on a buffer or an object, the model is a method or a class over an array, proved
against a function of the old contents; the properties are then lemmas about that function. Bit-vector facts are kept
in small lemmas that name every intermediate word, and the proofs that put them together see the functions by name.

The functions that give values (tables, addresses, field layouts, words of the configuration, ranges, protocol bytes) are
pinned a second time, each on the operation it serves and in plain numbers: these lemmas end in `InNumbers` or stand
under a heading of that name. `Ft60rLayout` holds the addresses of the FT-60R memory, and `Ft60rRows` what every row of
a configuration is accepted for and reads back as.

Several promises do not hold as the names suggest. Each has its exact condition, and an input or a family of inputs that
shows it fail: writing an image file to an FT-60R, whose identifier is never asked for when it is detected, so that only
files that begin with eight zero bytes are not refused (`Radio.Ft60rTakesOnlyZeroIdent`, `Radio.SunnyvaleIsRefused`,
`Ft60rBackup.BackupRestores`), FT-60R scan modes (`Ft60rEdits.ScanSurvivesExactly`, `Ft60rEdits.ScanOnlyIsLost`),
frequency pairs (`Ft60rRecord.FrequenciesExact`, `Ft60rRecord.TopOffsetsWrap`), squelch pairs
(`Ft60rSquelch.StoredExactly`, `Ft60rSquelch.SplitTonesAreLost`), bank and power words
(`Ft60rTexts.BanksSurviveExactly`, `Ft60rTexts.FirstBankBecomesSecond`, `Ft60rTexts.PowerSurvivesExactly`), inverted
codes of the UV-5R (`BaofengSquelch.Uv5rRoundTrip`, `BaofengSquelch.Uv5rInvertedShifts`), tones of 800 Hz and more on
the BF-888S (`Bf888sChannel.SquelchRoundTrip`, `Bf888sChannel.HighToneBecomesCode`), an EEPROM that declares a size of 2
or less (`ChangeMac.RewrittenIsSound`), a null register read while a full update is due (`Imx222.NullReadExact`,
`Imx222.NullReadLosesUpdate`), a frame of fewer than two lines (`Imx222.LimitIsSafe`, `Imx222.OneLineWraps`), and the
reach of the CRCs (`CrcErrors.CcittDetectsBursts`, `CrcInvariants.SeventeenBitsCanPass`). The escape decoder says it is
based on `echo`, which prints an unknown escape as it stands; its code prints the character twice and drops the
backslash, and the model follows the code (estgb/src/estgb.c:159-161, estgb/src/estgb.c:227-236).

`dafny verify dfyconfig.toml` checks everything.

## Model

| member | source | states |
|---|---|---|
| Ft60rDocument.ConfigMeans | baoclone/src/radio.c:294-368 | For any accepted configuration and any image, the channel, home and PMS tables read afterwards are what the file means as a document: the last channel block and the last PMS block that have rows, folded over an empty table, and every home row over the old homes |
| Ft60rConfig.ConfigIdempotent | baoclone/src/radio.c:294-368 | Applying the same lines again changes no byte of the image, even when they stop at a bad line |
| Ft60rDocument.ConfigForgetsHistory | baoclone/src/ft-60r.c:1085-1277 | Two images that differ in any way have the same channel table (PMS table) after a file with channel (PMS) rows |
| Ft60rDocument.ConfigKeepsOutside | baoclone/src/ft-60r.c:649-761 | No bit outside the regions owned by the tables that have rows in the file changes |
| Ft60rDocument.ParseMeans | baoclone/src/radio.c:294-368 | Invariant of the line machine: the flag that triggers erasing is set exactly when the open block has rows, and the edits made so far amount to the meaning of the blocks read so far |
| Ft60rDriver.Codeplug.ParseConfig | baoclone/src/radio.c:294-368 | The line loop, editing the memory in place as lines arrive, leaves exactly the configured image and reports acceptance |
| Ft60rDriver.Codeplug.ParseRow | baoclone/src/ft-60r.c:1298-1308 | A row is stored under its table, erasing first when it is the first; a refused row changes nothing |
| Ft60rDriver.Codeplug.ParseChannel | baoclone/src/ft-60r.c:1085-1168 | All checks come before the first store: a refused channel row leaves the memory alone, an accepted one is one channel edit, after the erase loop when first |
| Ft60rDriver.Codeplug.ParseHome | baoclone/src/ft-60r.c:1175-1236 | An accepted home row is one home edit and erases nothing |
| Ft60rDriver.Codeplug.ParsePms | baoclone/src/ft-60r.c:1243-1277 | An accepted PMS row is one pair edit, after the erase loop when first |
| Ft60rDriver.Codeplug.ScanTuning | baoclone/src/ft-60r.c:1102-1143 | The frequency, power and modulation checks accept exactly the tunings of the specification |
| ConfigText.ReadLine | baoclone/src/radio.c:307-363 | Stripping the comment and trailing blanks, then splitting at the colon, classifies every line as nothing, header, parameter or row |
| ConfigText.RowsAreNotEmpty | baoclone/src/radio.c:352-358 | The check for an empty or commented row never fires: such a line was already skipped |
| Ft60rRuns.RunTwice | baoclone/src/ft-60r.c:649-761 | Any sequence of edits is byte-exactly idempotent, because it is one masked overwrite per address |
| Ft60rRuns.RunRefinesFold | baoclone/src/ft-60r.c:568-761 | Editing the bytes and then reading the tables equals folding the edits over the tables |
| Ft60rRuns.LastRowDecides | baoclone/src/ft-60r.c:649-694 | The last row that names a channel decides what the channel reads as |
| Ft60rRuns.ErasersEmpty | baoclone/src/ft-60r.c:1158-1164 | The erase loops leave every channel and every pair reading as empty, and the other tables as they were |
| Ft60rRuns.RunKeepsOutside | baoclone/src/ft-60r.c:476-761 | No edit sequence changes a bit outside the tables it edits |
| Ft60rDriver.Codeplug.EraseChannels | baoclone/src/ft-60r.c:1158-1164 | The erase loop of the channel table is a run of one thousand channel edits |
| Ft60rDriver.Codeplug.ErasePairs | baoclone/src/ft-60r.c:1267-1273 | The erase loop of the PMS table is a run of fifty pair edits |
| Ft60rEdits.ChannelReadsBack | baoclone/src/ft-60r.c:460-488 | Whatever the image held, a channel just set up reads back with its frequencies, squelch, power, width, AM flag, ten-bit bank set and normalised name |
| Ft60rEdits.OtherChannelKept | baoclone/src/ft-60r.c:649-694 | No edit changes what any other channel reads as, although bank planes share bytes between channels |
| Ft60rEdits.HomeReadsBack | baoclone/src/ft-60r.c:700-742 | A home channel just set up reads back |
| Ft60rEdits.OtherHomeKept | baoclone/src/ft-60r.c:700-742 | No other edit changes a home channel |
| Ft60rEdits.PmsReadsBack | baoclone/src/ft-60r.c:748-761 | A PMS pair just set up reads back on the 2.5 kHz grid; a zero lower limit clears both halves |
| Ft60rEdits.OtherPmsKept | baoclone/src/ft-60r.c:748-761 | No other edit changes a PMS pair |
| Ft60rEdits.ScanReadsMirror | baoclone/src/ft-60r.c:635-690 | What a channel reads as its scan mode is what was written for its mirror in the group of four, since writer and reader count the slots from opposite ends |
| Ft60rEdits.ScanSurvivesExactly | baoclone/src/ft-60r.c:635-690 | A scan mode survives exactly when the two bits of the mirror slot already held it |
| Ft60rEdits.ScanOnlyIsLost | baoclone/src/ft-60r.c:635-690 | For example, on an erased scan byte the mode Only of the first channel reads back as + |
| Ft60rDriver.Codeplug.SetupChannel | baoclone/src/ft-60r.c:649-694 | The stores of setup_channel amount to one masked overwrite of every byte of the image, with masks that do not depend on it |
| Ft60rDriver.Codeplug.FillRecord | baoclone/src/ft-60r.c:655-685 | All sixteen bytes of the record are replaced, each bit field in its place, and nothing else moves |
| Ft60rDriver.Codeplug.SetupBanks | baoclone/src/ft-60r.c:476-488 | One bit per bank plane is set or cleared, and no other bit of those planes |
| Ft60rDriver.Codeplug.EncodeName | baoclone/src/ft-60r.c:537-558 | The name record is overwritten by masks that depend only on the name |
| Ft60rDriver.Codeplug.SetupHome | baoclone/src/ft-60r.c:700-742 | The home record of the band is replaced and nothing else |
| Ft60rDriver.Codeplug.SetupPms | baoclone/src/ft-60r.c:748-761 | Both limits of the pair are written, or both are only marked unused |
| Ft60rDriver.Codeplug.DecodeChannel | baoclone/src/ft-60r.c:568-643 | The reader computes the abstract channel and scan mode of the image |
| Ft60rDriver.Codeplug.DecodeTx | baoclone/src/ft-60r.c:592-603 | The duplex switch computes the transmit frequency of the record |
| Ft60rDriver.Codeplug.DecodeTones | baoclone/src/ft-60r.c:605-633 | The tone-mode switch fills the four tone and code results of the record |
| Ft60rDriver.Codeplug.DecodeHome | baoclone/src/ft-60r.c:568-643 | A home channel is read without looking at its used bit |
| Ft60rDriver.Codeplug.DecodePms | baoclone/src/ft-60r.c:568-643 | Both limits of a pair are read, as 0 when unused |
| Ft60rDriver.Codeplug.DecodeBanks | baoclone/src/ft-60r.c:460-471 | The bank mask is the set of planes holding the channel bit |
| Ft60rDriver.Codeplug.DecodeName | baoclone/src/ft-60r.c:493-514 | Six characters decoded, trailing underscores dropped |
| Ft60rRecord.RecordRoundTrip | baoclone/src/ft-60r.c:568-694 | Reading the record written for a tuning gives its normalised frequencies and every other field unchanged, and the used bit is set exactly for a nonzero receive frequency |
| Ft60rRecord.FrequenciesExact | baoclone/src/ft-60r.c:587-675 | A frequency pair survives if and only if the receiver is on the 2.5 kHz grid and the transmitter is a multiple of 50 kHz away by less than 12.8 MHz, or further away and on the grid |
| Ft60rRecord.TopOffsetsWrap | baoclone/src/ft-60r.c:661-666 | An offset, up or down, in the last 25 kHz below 12.8 MHz rounds to 256, wraps in eight bits, and the transmitter reads back on the receiver |
| Decimal.FreqRoundTrip | baoclone/src/ft-60r.c:430-455 | Coding a frequency below 1 GHz in three BCD bytes and decoding it subtracts exactly its remainder modulo 2500 |
| Ft60rName.NameRoundTrip | baoclone/src/ft-60r.c:493-558 | Whatever the eight bytes held, an encoded name decodes to the truncated, upper-cased name with unknown characters as underscores and trailing ones dropped |
| Ft60rName.StoredNameTwice | baoclone/src/ft-60r.c:493-558 | The stored form of a name is a normal form: storing it again stores the same |
| Ft60rName.EncodeChar | baoclone/src/ft-60r.c:519-532 | The search returns the place of the folded character in the character set, or the box |
| Ft60rSquelch.EncodeSquelch | baoclone/src/ft-60r.c:378-424 | The branches over the four table searches compute the stored triple of the specification |
| Ft60rSquelch.ReencodeKeepsMode | baoclone/src/ft-60r.c:378-424 | For all eight modes and all table indices, encoding the printed pair again keeps the mode and what it decodes to |
| Ft60rSquelch.StoredExactly | baoclone/src/ft-60r.c:378-424 | A written pair survives storing if and only if it is one of the eight combinations the memory can hold |
| Ft60rSquelch.SplitTonesAreLost | baoclone/src/ft-60r.c:404-418 | For example two different tones come back as the transmit tone twice |
| Tones.CtcssInjective | baoclone/src/util.c:50-56 | No CTCSS tone stands twice in the table |
| Tones.DcsInjective | baoclone/src/util.c:61-73 | No DCS code stands twice in the table |
| Tones.FindTone | baoclone/src/ft-60r.c:332-353 | The search finds the index of a tone exactly when the table has it |
| Tones.FindCode | baoclone/src/ft-60r.c:359-371 | The search finds the index of a code exactly when the table has it |
| Ft60rTexts.PrintBanks | baoclone/src/ft-60r.c:802-817 | The loop prints one digit per bank, or a dash |
| Ft60rTexts.PrintedBanksParse | baoclone/src/ft-60r.c:802-817 | A printed bank word is always accepted, and is read as every bank moved up by one |
| Ft60rTexts.BanksSurviveExactly | baoclone/src/ft-60r.c:1063-1078 | A printed bank word means the banks it was printed from if and only if there are none or all ten |
| Ft60rTexts.FirstBankBecomesSecond | baoclone/src/ft-60r.c:802-817 | For example a channel of the first bank alone is put into the second |
| Ft60rTexts.PowerSurvivesExactly | baoclone/src/ft-60r.c:1120-1129 | A printed power word is read as printed for High and Low only: the middle level is printed Med and read as Mid |
| Ft60rTexts.ScanSurvives | baoclone/src/ft-60r.c:57 | The three scan words are read as printed |
| Ft60rClone.DownloadOfClone | baoclone/src/ft-60r.c:214-264 | A clone stream is accepted if and only if its byte sum fits, then yields exactly the image sent; otherwise the download starts over behind it |
| Ft60rClone.LoadedWasSent | baoclone/src/ft-60r.c:214-264 | The converse, for any input: what a download loads has a fitting sum, and the signals consumed last are exactly the clone stream of that image, acknowledges included |
| Ft60rClone.AcknowledgesDecide | baoclone/src/ft-60r.c:145-168 | With any bytes in the 449 places of the acknowledges, one wrong byte ends the program, and only then do the data and their sum matter |
| Ft60rClone.OneByteRefused | baoclone/src/ft-60r.c:145-262 | Changing any single byte of a good stream keeps it from being loaded: a byte of image or sum makes the download start over, an acknowledge ends the program |
| Ft60rClone.SilenceIsSkipped | baoclone/src/ft-60r.c:235-236 | A silence before the clone starts does not end the download |
| Ft60rClone.UploadEndsWithClone | baoclone/src/ft-60r.c:270-325 | However many passes failed, an upload that returns has last put on the line the identifier, the memory in 64-byte blocks and the byte sum |
| Ft60rClone.CloneRoundTrip | baoclone/src/ft-60r.c:214-325 | The last bytes of an upload that returned, cut into identifier, blocks and sum with an acknowledge after each, are loaded by a download as the image that was uploaded |
| Ft60rClone.Cloner.TakeBlock | baoclone/src/ft-60r.c:131-168 | One block in place: the data and then the acknowledge, a missing start reported, anything else ending the program; an acknowledge is sent exactly when all data came |
| Ft60rClone.Cloner.TakeBody | baoclone/src/ft-60r.c:239-240 | The block loop fills the memory range in order |
| Ft60rClone.Cloner.TakeClone | baoclone/src/ft-60r.c:214-264 | The retry loop ends with the first stream whose checksum fits, touches only the transferred range and the checksum byte, and has sent one acknowledge for every block taken |
| Ft60rClone.Cloner.GiveBlock | baoclone/src/ft-60r.c:174-208 | One block out, its echo counted, its acknowledge checked |
| Ft60rClone.Cloner.GiveBody | baoclone/src/ft-60r.c:310-312 | The block loop sends the memory range in order and stops at the first failure |
| Ft60rClone.Cloner.GivePass | baoclone/src/ft-60r.c:302-325 | One pass sends identifier, blocks and sum, and leaves the sum behind the memory |
| Ft60rClone.Cloner.GiveClone | baoclone/src/ft-60r.c:270-325 | The retry loop over passes changes no memory byte but the checksum |
| Ft60rBackup.BackupRestores | baoclone/src/radio.c:206-225 | Clone, image file, write run on an FT-60R: the upload is started if and only if the identifier of the clone is all zero, and then the bytes sent last are identifier, memory and sum; every other backup is refused |
| Ft60rBackup.MemoryOfClone | baoclone/src/radio.c:190-204 | After a clone and its backup every byte of the memory is known: identifier, transferred memory, sum, and the rest as before |
| Ft60rBackup.FileOfClone | baoclone/src/ft-60r.c:984-988 | The backup file of a clone is its identifier followed by its memory |
| Ft60rConfigure.ConfigRunUploads | baoclone/src/main.c:97-108 | The configuration run starts its upload if and only if a clone was loaded and every line accepted; the comparison of identifiers never refuses it |
| Ft60rConfigure.ConfigureMeans | baoclone/src/main.c:97-108 | For every line, every configuration file and any failed passes: the backup is the clone as it came, the bytes sent last are the identifier, the configured memory and their sum, and the tables of that memory are what the file means over the tables of the clone |
| Ft60rConfigure.SentClonesBack | baoclone/src/ft-60r.c:214-325 | What such a run sends last, cloned back into a program with any memory, gives every configured byte |
| Ft60rConfigure.ConfiguredRadioReadsBack | baoclone/src/main.c:97-139 | End to end: the tables read from the radio cloned back after a configuration run are the meaning of the file over the tables of the first clone, and all bits outside the tables with rows are those of the first clone |
| Ft60rRuns.TablesLookInside | baoclone/src/ft-60r.c:568-643 | The tables depend on no byte outside the part of the memory that is transferred |
| Radio.WriteRunUploads | baoclone/src/main.c:86-95 | For every file: the write run starts an upload with a driver if and only if a radio was found, the size of the file selects that driver, and the file begins with the identifier the radio told |
| Radio.Ft60rTakesOnlyZeroIdent | baoclone/src/radio.c:95-184 | As long as no answer begins with an acknowledge, what is found is an FT-60R, and the write run uploads exactly the files of a known size whose first eight bytes are zero |
| Radio.UnansweredFindsFt60r | baoclone/src/radio.c:137-184 | Over any number of magic commands without an acknowledge only an FT-60R can be found, and radio_ident keeps its value |
| Radio.EchoConnects | baoclone/src/radio.c:95-104 | A cable that echoes the first magic command is found to be an FT-60R at once |
| Radio.SunnyvaleIsRefused | baoclone/src/radio.c:206-215 | For example, a file that begins like files/ft-60r-sunnyvale.img is refused |
| Radio.ConnectedIdent | baoclone/src/radio.c:151-159 | A UV-B5 or BF-888S is found only with an identifier that begins like that of the model |
| Radio.ProgramRadiosApart | baoclone/src/radio.c:151-215 | An image saved from a UV-B5 or BF-888S is uploaded only to a radio detected as the same model |
| Baoclone.Program.SendMagic | baoclone/src/radio.c:74-132 | One magic command on the globals: the verdict, the identifier with the bytes that came before a silence, and the bytes sent |
| Baoclone.Program.ConnectTo | baoclone/src/radio.c:137-185 | Ten rounds of three commands select the device of the specification, and leave its identifier |
| Baoclone.Program.LoadImage | baoclone/src/radio.c:230-272 | The identifier of the file goes to image_ident only, the size selects the device |
| Baoclone.Program.UploadTo | baoclone/src/radio.c:209-225 | Nothing is sent when the identifiers differ; otherwise the upload of the device in force runs |
| Baoclone.Program.WriteFile | baoclone/src/main.c:86-95 | The write run on the globals sends the magic commands and then exactly the upload of the specification, or nothing |
| Baoclone.Program.ConfigureFt60r | baoclone/src/main.c:102-107 | The configuration run on one shared memory: backup, edits in place, and what is sent, for every way it can end |
| SerialLink.Line.Read | baoclone/src/util.c:243-291 | A read returns all bytes in order, or fails at the first silence with the bytes before it in the buffer |
| BaofengTransfer.BackupRestores | baoclone/src/radio.c:190-289 | For all four Baofeng drivers, backup from one radio and write run on another: an upload is started if and only if the target tells the identifier in the file; when complete, every byte of the transferred ranges becomes that of the source radio, in spite of the block that moves inside the BF-888S file, and every other byte stays; when none is started every byte stays |
| BaofengTransfer.DownloadOfRadio | baoclone/src/bf-888s.c:150-161 | From a radio that answers the requests, a download takes exactly the ranges of the driver, over the memory as it was or erased |
| BaofengTransfer.UploadStores | baoclone/src/bf-888s.c:166-176 | The write commands of a complete upload lay exactly the ranges of the image over the memory of the radio that obeys them |
| BaofengTransfer.ProtocolsTile | baoclone/src/uv-5r.c:212-257 | For every driver the read blocks and the differently sized write blocks tile the same ranges without gap or overhang |
| BaofengTransfer.TransferredIsStored | baoclone/src/uv-5r.c:943-979 | Every address a driver transfers is held by its image file |
| BaofengDriver.Driver.TakeBlock | baoclone/src/bf-888s.c:54-106 | A block is taken only behind the exact reply header and before an acknowledge; its bytes land at their address and nowhere else; the request and the acknowledge sent are stated |
| BaofengDriver.Driver.TakeRange | baoclone/src/uv-5r.c:216-222 | The address loop fills one range and sends its requests |
| BaofengDriver.Driver.TakeRanges | baoclone/src/uv-5r.c:212-223 | The loops over the ranges of a driver, one after the other |
| BaofengDriver.Driver.Take | baoclone/src/bf-888s.c:150-161 | Erasing and then reading all ranges computes the downloaded image |
| BaofengDriver.Driver.GiveBlock | baoclone/src/uv-b5.c:129-161 | Command, address, length and data go out, and an acknowledge must come back |
| BaofengDriver.Driver.GiveBlocks | baoclone/src/uv-5r.c:241-247 | The address loop sends one range and stops at the first failure |
| BaofengDriver.Driver.GiveAll | baoclone/src/uv-5r.c:237-257 | The loops over the ranges of a driver, stopping at the first failure |
| BaofengDriver.Driver.Give | baoclone/src/uv-b5.c:178-184 | The upload of a driver sends what the specification says and leaves the memory alone |
| Bf888s.SaveThenRead | baoclone/src/bf-888s.c:490-527 | Reading a saved image restores identifier and bytes 0x10..0x3e0, except that 0x370..0x380 is erased |
| Bf888s.ReadThenSave | baoclone/src/bf-888s.c:490-527 | Saving what was read gives the file back if and only if its two ignored places are blank |
| Bf888sDriver.Driver.SetupChannel | baoclone/src/bf-888s.c:289-305 | The field stores replace exactly the sixteen bytes of the record |
| Bf888sDriver.Driver.DecodeChannel | baoclone/src/bf-888s.c:263-287 | The assignments to the eleven results compute the decoded record, or zeros for a channel not in use |
| Bf888sDriver.Driver.SplitSquelch | baoclone/src/bf-888s.c:178-201 | The branches over the nibbles compute the decoded tone or code |
| Bf888sDriver.ChannelsAfterSetup | baoclone/src/bf-888s.c:263-305 | After one channel is set up it decodes from its own record and every other channel as before |
| Bf888sChannel.RecordRoundTrip | baoclone/src/bf-888s.c:263-305 | A record reads back eight digits of both frequencies, all five flags, and a tone if and only if it fits; eight zero digits disable the channel |
| Bf888sChannel.SquelchRoundTrip | baoclone/src/bf-888s.c:178-247 | A squelch word reads back as written if and only if a tone is below 800 Hz and a code below 999 |
| Bf888sChannel.HighToneBecomesCode | baoclone/src/bf-888s.c:178-247 | For example a tone of 802.3 Hz comes back as the code 23 |
| Bcd.IntRoundTrip | baoclone/src/util.c:326-352 | int_to_bcd then bcd_to_int keeps exactly the eight low digits, through a word with decimal nibbles only |
| Bcd.BcdRoundTrip | baoclone/src/util.c:326-352 | bcd_to_int then int_to_bcd gives a 32-bit word back if and only if all its nibbles are decimal |
| BaofengSquelch.UvB5Encode | baoclone/src/uv-b5.c:219-270 | The two table searches compute the stored index and polarity |
| BaofengSquelch.UvB5RoundTrip | baoclone/src/uv-b5.c:192-270 | A UV-B5 setting reads back as written if and only if its tone or code is in the tables (or empty) |
| BaofengSquelch.UvB5Reencodes | baoclone/src/uv-b5.c:192-270 | Every stored index and polarity is given back by coding what it decodes to |
| BaofengSquelch.Uv5rEncode | baoclone/src/uv-5r.c:287-320 | The table search computes the stored word |
| BaofengSquelch.Uv5rInvertedShifts | baoclone/src/uv-5r.c:267-276 | An inverted code comes back as its successor in the table, and the last one is read past the end |
| BaofengSquelch.Uv5rRoundTrip | baoclone/src/uv-5r.c:259-320 | A UV-5R setting reads back as written if and only if it is no inverted code of the table and its value fits |
| ImageFiles.SaveSelectsDriver | baoclone/src/radio.c:239-261 | The size of the file any of the five drivers writes selects that driver |
| ImageFiles.SaveThenRead | baoclone/src/radio.c:230-289 | For all five drivers a saved file is read by its own driver, restores the identifier and every stored byte, and leaves the rest of the memory alone |
| ImageFiles.SaveAgain | baoclone/src/radio.c:230-289 | Saving what was read back writes the same file, whatever the memory held before |
| ImageFiles.Uv5rReadBack | baoclone/src/uv-5r.c:943-979 | The main and auxiliary blocks of the UV-5R are restored |
| ImageFiles.AgedReadBack | baoclone/src/uv-5r.c:959-985 | The main block of the aged UV-5R is restored |
| ImageFiles.UvB5ReadBack | baoclone/src/uv-b5.c:774-802 | The memory of the UV-B5 is restored behind the forty header bytes |
| ImageFiles.Bf888ReadBack | baoclone/src/bf-888s.c:490-527 | The BF-888S memory is restored with the moved block in place |
| ImageFiles.Ft60rReadBack | baoclone/src/ft-60r.c:972-988 | The FT-60R memory is restored with the identifier in its first eight bytes |
| ImageFiles.Store.Read | baoclone/src/radio.c:230-272 | Dispatch and reading on the memory array; an unknown size or a short file ends the program |
| ImageFiles.Store.ReadBf888 | baoclone/src/bf-888s.c:490-511 | Reading in place: the move of 16 bytes and the erasing happen on the memory array |
| ImageFiles.Store.SaveBf888 | baoclone/src/bf-888s.c:517-527 | The eight writes produce the BF-888S file |
| ImageFiles.Store.Save | baoclone/src/radio.c:277-289 | The file written, and the identifier left in the memory by the FT-60R driver |
| Crc.FastIsBitwise | flyavr/src/flyavr.c:559-568 | The shift-and-xor update equals eight bit steps with the polynomial 0x8408 taken from the low end |
| Crc.CcittUpdate | flyavr/src/flyavr.c:559-568 | The three assignments compute the reflected bitwise update |
| Crc.XmodemUpdate | flyavr/src/flyavr.c:571-588 | The eight-step loop computes the bitwise update with the polynomial 0x1021 |
| Crc.Mirror | flyavr/src/flyavr.c:559-588 | Reversing the bits of state and byte turns one update into the other |
| Crc.MirrorMessage | flyavr/src/flyavr.c:559-588 | The same for messages of any length |
| CrcErrors.CcittSuffixInjective | flyavr/src/flyavr.c:559-568 | Two different states stay different whatever message follows |
| CrcErrors.CcittDetectsBursts | flyavr/src/flyavr.c:559-568 | From any start value, two different messages of one length whose differences lie within sixteen consecutive bits have different CRCs |
| CrcErrors.XmodemDetectsBursts | flyavr/src/flyavr.c:571-588 | The same for the other update, bits counted from the high end |
| CrcErrors.TwoBytesDetected | flyavr/src/flyavr.c:559-588 | Two messages that differ only within two adjacent bytes have different CRCs, for both updates |
| CrcErrors.XmodemThroughCcitt | flyavr/src/flyavr.c:559-588 | Any message has the same CRC by one update as, mirrored, by the other |
| CrcInvariants.CcittGoodFrame | flyavr/src/flyavr.c:559-568 | Appending the complemented value low byte first always leads to 0xF0B8 |
| CrcInvariants.XmodemZeroFrame | flyavr/src/flyavr.c:571-588 | Appending the value high byte first always leads to 0 |
| CrcInvariants.CcittParity | flyavr/src/flyavr.c:559-568 | The parity of the CRC is that of the start value flipped once for every one bit of the message |
| CrcInvariants.CcittDetectsOddErrors | flyavr/src/flyavr.c:559-568 | Messages of any lengths with bit counts of different parity never collide |
| CrcInvariants.XmodemDetectsOddErrors | flyavr/src/flyavr.c:571-588 | The same for the other update |
| CrcInvariants.SeventeenBitsCanPass | flyavr/src/flyavr.c:559-568 | The burst bound is sharp: one difference over seventeen bits cancels from every state |
| FlyAvr.Crc1 | flyavr/src/flyavr.c:600-613 | The in-place routine computes the answer from bytes 0, 1 and 3; the value of byte 2 is overwritten |
| FlyAvr.AnswersAgree | flyavr/src/flyavr.c:600-613 | Two challenges have one answer if and only if they agree on bytes 0, 1 and 3 |
| FlyAvr.U32ToBuf | flyavr/src/flyavr.c:279-285 | Four bytes, low first, and no others |
| FlyAvr.JoinOfSplit | flyavr/src/flyavr.c:274-285 | Storing a number and reading it back gives the number |
| FlyAvr.SplitOfJoin | flyavr/src/flyavr.c:274-285 | Reading four bytes as a number and storing it gives the bytes |
| FlyAvr.Watchdog.GetCrc1 | flyavr/src/flyavr.c:340-364 | A challenge is accepted exactly when the receive buffer holds its answer; the request and both buffers are stated in full |
| FlyAvr.Watchdog.TimerFunc | flyavr/src/flyavr.c:449-473 | One firing counts a failure or resets the count, and stops the machine at five |
| FlyAvr.PanicIffFiveInARow | flyavr/src/flyavr.c:449-473 | Over every run the machine has been stopped if and only if five checks in a row have failed |
| FlyAvr.CounterIsTail | flyavr/src/flyavr.c:449-473 | While the machine runs, the counter is the length of the failures at the end |
| FlyAvr.HonestDeviceLives | flyavr/src/flyavr.c:340-473 | A device that computes the answer is never given up on |
| FlyAvr.SilentDevice | flyavr/src/flyavr.c:233-261 | After the bus goes silent the stale buffer still passes a challenge exactly when it agrees with the answered one on bytes 0, 1 and 3 |
| Unescape.UnescapeInPlace | estgb/src/estgb.c:162-239 | Decoding the buffer into itself computes the decoder of the original text, never longer than it, ends with a zero byte and keeps every byte behind that |
| Unescape.DecodeOne | estgb/src/estgb.c:174-236 | One round: the write index stays at or below the read index and nothing unread is overwritten |
| Unescape.ReadEscape | estgb/src/estgb.c:176-232 | The escape switch consumes and yields what the decoder says, unknown escapes yielding their character twice |
| Unescape.ReadOctal | estgb/src/estgb.c:206-223 | At most three octal digits, in a byte that wraps |
| Unescape.DecodeFixes | estgb/src/estgb.c:162-239 | A text decodes to itself if and only if no backslash in it has anything after it |
| Shbin.Shbin | microsources/shbin.c:20-30 | The printed script is header and 64-byte lines, and running it prints the file |
| Shbin.PrintChunk | microsources/shbin.c:24-27 | One line: the opening, five characters a byte, the close |
| Shbin.PrintedDecodes | microsources/shbin.c:26 | A printed byte decodes to itself whatever follows: no digit leaks into or out of it |
| Shbin.ScriptPrintsFile | microsources/shbin.c:21-30 | Running the lines through the escape decoder prints exactly the bytes of the file, zero bytes included |
| Shbin.BodiesDecode | microsources/shbin.c:21-30 | The arguments of all lines decoded at once give the same bytes |
| ChangeMac.Run | changemac/src/changemac.c:26-131 | The whole run: refusals write nothing, otherwise the file is the patched image with its checksum |
| ChangeMac.ComputeChecksum | changemac/src/changemac.c:103-111 | The loop over the declared size, skipping the checksum word, computes the complement of the xor |
| ChangeMac.RewrittenIsSound | changemac/src/changemac.c:103-115 | After the tool the xor of all words is 0xFFFF if and only if the declared size is above 2 |
| ChangeMac.SoundIffStored | changemac/src/changemac.c:103-115 | The xor of all words is 0xFFFF exactly when the size reaches the checksum and the stored checksum is the computed one |
| ChangeMac.RewrittenKeeps | changemac/src/changemac.c:62-115 | Only the field and the two checksum bytes change, and the field holds what was asked |
| ChangeMac.SeriesOfRuns | changemac/src/changemac.c:53-115 | Any series of runs leaves what patching all the fields and computing the checksum once leaves |
| ChangeMac.SecondRunChangesNothing | changemac/src/changemac.c:53-115 | A further run that only recomputes, or repeats the request, is byte-identical |
| ChangeMac.UndoRestores | changemac/src/changemac.c:53-115 | Writing the old field back restores the image if and only if its checksum was right to begin with |
| ChangeMac.OneWordShows | changemac/src/changemac.c:103-111 | A sound image with one word altered, the size word apart, is not sound |
| Imx222.SensorHoldsTheWish | hi35xx_sensor_imx222/src/imx222_cmos.c:869-925 | Over every run of calls, after each read outside calibration, the first one after it included, the five sensor registers hold what the calls asked for; no null read may come while a full update is due |
| Imx222.RunRefines | hi35xx_sensor_imx222/src/imx222_cmos.c:216-925 | Invariant of every run: the shadow holds the wish, and once initialised the last values sent are those of the sensor |
| Imx222.ReadSendsTheDifference | hi35xx_sensor_imx222/src/imx222_cmos.c:897-909 | A later read flags exactly the registers whose sensor value differs from the wish |
| Imx222.NullReadLosesUpdate | hi35xx_sensor_imx222/src/imx222_cmos.c:911-915 | A null read while a full update is due loses it: a run where the sensor is left wrong |
| Imx222.NullReadExact | hi35xx_sensor_imx222/src/imx222_cmos.c:869-925 | After any run that ends in a read, whatever null reads it had, the sensor holds what was asked for if and only if just before no register looked unchanged while the sensor held something else; none does while a full update is due |
| Imx222.StdLinesIsLongest | hi35xx_sensor_imx222/src/imx222_cmos.c:216-252 | The frame length is the greatest one, up to 65535, that keeps the requested rate |
| Imx222.LimitIsSafe | hi35xx_sensor_imx222/src/imx222_cmos.c:266-290 | The reported exposure limit keeps the shutter at 2 or more if and only if the frame has two lines |
| Imx222.OneLineWraps | hi35xx_sensor_imx222/src/imx222_cmos.c:266-290 | For example with one line the reported limit is the largest number there is, and a time of 5 wraps |
| Imx222Driver.Driver.FpsSet | hi35xx_sensor_imx222/src/imx222_cmos.c:216-264 | One step of the state machine, and the limits told to the exposure control |
| Imx222Driver.Driver.SlowFramerateSet | hi35xx_sensor_imx222/src/imx222_cmos.c:266-279 | One step of the state machine, and the new exposure limit |
| Imx222Driver.Driver.IntTimeUpdate | hi35xx_sensor_imx222/src/imx222_cmos.c:282-290 | One step of the state machine, the subtraction wrapping in 32 bits |
| Imx222Driver.Driver.GainsUpdate | hi35xx_sensor_imx222/src/imx222_cmos.c:361-370 | One step of the state machine, the sum wrapping before it is capped |
| Imx222Driver.Driver.SetPixelDetect | hi35xx_sensor_imx222/src/imx222_cmos.c:734-773 | One step of the state machine: direct register writes, and a full update due afterwards |
| Imx222Driver.Driver.SetImageMode | hi35xx_sensor_imx222/src/imx222_cmos.c:795-866 | One step of the state machine, with the sensor initialised when the call succeeds |
| Imx222Driver.Driver.SensorInit | hi35xx_sensor_imx222/src/imx222_sensor_ctl.c:158-181 | The shadowed registers after initialisation |
| Imx222Driver.Driver.SensorGlobalInit | hi35xx_sensor_imx222/src/imx222_cmos.c:953-963 | One step of the state machine: everything back to the start, the sensor untouched |
| Imx222Driver.Driver.SetWdrMode | hi35xx_sensor_imx222/src/imx222_cmos.c:775-793 | One step of the state machine: a full update becomes due |
| Imx222Driver.Driver.GetRegs | hi35xx_sensor_imx222/src/imx222_cmos.c:869-925 | One step of the state machine: flags, delivery of the flagged registers, and the copy for the next comparison |
| Imx222Driver.Driver.GetRegsNull | hi35xx_sensor_imx222/src/imx222_cmos.c:869-915 | One step of the state machine: flags only |
| Imx222Driver.CalcTable | hi35xx_sensor_imx222/src/imx222_cmos.c:313-358 | The search returns the greatest table gain not above the request, and its index |
| Imx222Driver.LookupMonotone | hi35xx_sensor_imx222/src/imx222_cmos.c:292-358 | The lookup follows the order of the requests, and a looked-up gain is a fixed point |
| Imx222Driver.GainsFit | hi35xx_sensor_imx222/src/imx222_cmos.c:292-370 | For indices from the two tables the cap never bites: the gain register is their sum |
| Imx222Driver.ExposureEncoded | hi35xx_sensor_imx222/src/imx222_cmos.c:216-290 | An exposure within the limit a rate call reported is encoded without wrapping, and both 16-bit registers hold their numbers |
| Ft60rRows.ChannelRowAccepted | baoclone/src/ft-60r.c:1085-1156 | A channel row ends the program unless its number is 1 to 1000, both frequencies lie in 108 to 520 or 700 to 999 MHz, and its words are among those listed; a signed transmit column is added to the receive frequency |
| Ft60rRows.ChannelRowReads | baoclone/src/ft-60r.c:1085-1168 | What the channel reads as after an accepted row: receive frequency on the 2.5 kHz grid, transmit frequency from the sum or the absolute value, power 0, 1 or 2, width and AM flag, and the squelch pair |
| Ft60rRows.ChannelRowPlaces | baoclone/src/ft-60r.c:1144-1168 | Its name, one bank for every digit of the word, and the two bits of its scan mode: 0 for +, 1 for -, 2 for Only |
| Ft60rRows.HomeRowAccepted | baoclone/src/ft-60r.c:1175-1234 | A home row is accepted for the five bands and the same ranges and words |
| Ft60rRows.HomeRowReads | baoclone/src/ft-60r.c:700-742 | Bands 144, 250, 350, 430 and 850 are home records 0 to 4, which read back the frequencies, power, width and AM flag of the row |
| Ft60rRows.PmsRowAccepted | baoclone/src/ft-60r.c:1243-1266 | A PMS row is accepted for numbers 1 to 50 and limits in the two frequency ranges |
| Ft60rRows.PmsRowReads | baoclone/src/ft-60r.c:1243-1277 | The pair one below the number of an accepted row reads back both limits on the 2.5 kHz grid |
| Ft60rRows.HeadersInWords | baoclone/src/ft-60r.c:1283-1292 | The three headers, in any case and with anything behind, open their table; no other header is accepted |
| Ft60rRows.ParameterInWords | baoclone/src/ft-60r.c:993-1001 | The only parameter accepted is the name of the radio, in any case |
| Ft60rRows.OthersAfterRow | baoclone/src/radio.c:360-364 | After an accepted row all other entries are as before it, except that the first channel row under a header empties the other channels, and the first PMS row the other pairs |
| Ft60rRows.RowsAndTables | baoclone/src/radio.c:358-364 | A row under no table ends the program; an accepted one keeps the table open and marks that it has rows |
| Ft60rRows.BadAndEmptyLines | baoclone/src/radio.c:320-336 | After a bad line nothing more is read, and a line without text changes nothing |
| ConfigText.SameWordInLetters | baoclone/src/ft-60r.c:1120-1143 | Words are compared letter by letter without regard to case |
| ConfigText.HeaderLine | baoclone/src/radio.c:307-340 | Where a line ends in front of its comment and trailing blanks; without text it is nothing, without a colon or a leading blank a header |
| ConfigText.ParameterLine | baoclone/src/radio.c:342-349 | The first colon parts name and value, and blanks and tabs in front of the value are skipped |
| ConfigText.RowLine | baoclone/src/radio.c:351-356 | A line with a leading blank is a row without its leading blanks and tabs |
| Ft60rRecord.ShiftInNumbers | baoclone/src/ft-60r.c:657-675 | The low four bits of the first byte are 0, 3, 2 or 4 for no shift, up, down, or 12.8 MHz and more; the offset byte is the difference rounded to 50 kHz, modulo 256 |
| Ft60rRecord.FlagsInNumbers | baoclone/src/ft-60r.c:676-683 | The flag bits of the first byte: AM, narrow, used |
| Ft60rRecord.ReceiverInNumbers | baoclone/src/ft-60r.c:445-455 | The receive frequency lies digit by digit in three bytes, with the 2.5 kHz steps in the top two bits |
| Ft60rRecord.TransmitterInNumbers | baoclone/src/ft-60r.c:659-675 | The second frequency is stored the same way when it is 12.8 MHz or more away, and is zero otherwise |
| Ft60rRecord.SettingsInNumbers | baoclone/src/ft-60r.c:677-690 | Tone mode, step 0 or 2 from 400 MHz on, tone, power, code and the constant bytes, each in its bits |
| Ft60rRecord.ReadFrequencies | baoclone/src/ft-60r.c:589-603 | Any record, from whatever radio: the digits of its frequency, minus or plus 50 kHz times the offset byte for the codes 2 and 3, the second frequency for 4 |
| Ft60rRecord.ReadSettings | baoclone/src/ft-60r.c:605-641 | Any record: power, width, AM, step, and for each of the eight tone modes which of the four tone and code results are set |
| Decimal.DigitsInNumbers | baoclone/src/ft-60r.c:445-455 | The six parts of a frequency, each in its nibble or bits, with the unused bits clear |
| Ft60rSquelch.ModesInNumbers | baoclone/src/ft-60r.c:378-424 | Mode, tone and code stored for any pair of columns, the modes by number and the default tone by its index 12 |
| Tones.TonesInNumbers | baoclone/src/util.c:50-56 | The fifty tones by index |
| Tones.LowCodesInNumbers | baoclone/src/util.c:61-73 | The first half of the codes by index |
| Tones.HighCodesInNumbers | baoclone/src/util.c:61-73 | The second half of the codes by index |
| Ft60rName.CharsInNumbers | baoclone/src/ft-60r.c:48-51 | Codes 0 to 35 show as digits and capital letters, codes above 64 as underscores |
| Ft60rName.SignsShow | baoclone/src/ft-60r.c:48-51 | Codes 36 to 64 show as the signs in their order, the space as an underscore |
| Ft60rName.GlyphsInNumbers | baoclone/src/ft-60r.c:519-532 | Digits, letters of either case, blanks and underscores are stored under their codes |
| Ft60rName.SignGlyph | baoclone/src/ft-60r.c:519-532 | Every sign is stored under its place; the second slash and the small letter of the set are never found |
| Ft60rName.UnknownInNumbers | baoclone/src/ft-60r.c:519-532 | A character outside the set is stored as code 64 |
| Ft60rName.NameInNumbers | baoclone/src/ft-60r.c:537-558 | The eight bytes of a name: codes padded with 36 and two top bits set, or 0xff six times and both bits cleared |
| Ft60rName.ReadNameInNumbers | baoclone/src/ft-60r.c:493-514 | A name is read only when both top bits are set, up to its last character that is not an underscore |
| Ft60rLayout.ChannelRecordPlace | baoclone/src/ft-60r.c:649-655 | The record of a channel lies at 0x0248 plus 16 times its place |
| Ft60rLayout.ChannelNamePlace | baoclone/src/ft-60r.c:537-558 | Its name lies at 0x4708 plus 8 times its place |
| Ft60rLayout.BankBitPlace | baoclone/src/ft-60r.c:476-488 | A bank keeps the bit of a channel at 0x69c8 plus 0x80 times the bank, eight channels to a byte; no other channel loses its bit |
| Ft60rLayout.ScanPlace | baoclone/src/ft-60r.c:686-690 | A scan mode is written to two bits from 0x6ec8 on, four to a byte from the low end, leaving the other three |
| Ft60rLayout.ChannelLeavesOthers | baoclone/src/ft-60r.c:649-694 | No byte outside those of the channel moves |
| Ft60rLayout.HomePlace | baoclone/src/ft-60r.c:700-742 | A home record lies at 0x01c8 plus 16 times its place, and nothing else moves |
| Ft60rLayout.PmsPlaces | baoclone/src/ft-60r.c:748-761 | The two halves of a PMS pair lie at 0x40c8 plus 32 times its place and 16 bytes on; only the used bits and three bytes of each change |
| Ft60rLayout.ErasedRecord | baoclone/src/ft-60r.c:1158-1164 | An erased channel is left with tone 12, the constant 15, and zeros |
| Ft60rLayout.ErasedPair | baoclone/src/ft-60r.c:1267-1273 | An erased PMS pair has its two used bits cleared and no other bit changed |
| Ft60rLayout.ChannelIsReadFrom | baoclone/src/ft-60r.c:568-594 | The reader of a channel looks at the same addresses, and reports nothing when the used bit is clear |
| Ft60rLayout.BanksAreReadFrom | baoclone/src/ft-60r.c:460-471 | It collects the banks whose bit is set at those addresses |
| Ft60rLayout.ScanIsReadFrom | baoclone/src/ft-60r.c:638 | It takes the scan mode from the slots counted from the high end |
| Ft60rLayout.HomeIsReadFrom | baoclone/src/ft-60r.c:568-575 | A home channel is read from its address |
| Ft60rLayout.PmsIsReadFrom | baoclone/src/ft-60r.c:568-592 | Both limits are read from their addresses, as 0 where the used bit is clear |
| Ft60rLayout.OwnedInNumbers | baoclone/src/ft-60r.c:649-761 | Which bits of which addresses each table may change, in numbers |
| Ft60rLayout.OwnedTogether | baoclone/src/ft-60r.c:649-761 | Several tables may change the bits that one of them may |
| Ft60rClone.SumConcat | baoclone/src/ft-60r.c:246-251 | The sum of two stretches of bytes together is the sum of their sums |
| Ft60rClone.SumOfOne | baoclone/src/ft-60r.c:246-251 | The sum of one byte is its value, and that of none is 0 |
| Ft60rClone.SumIsTotal | baoclone/src/ft-60r.c:246-251 | The sum is the last of the running totals that start at 0 and grow by one byte at a time |
| Ft60rClone.CloneSumInNumbers | baoclone/src/ft-60r.c:245-262 | A clone is loaded exactly when its last byte is the running total of all bytes before it modulo 256 |
| Ft60rClone.UploadSumInNumbers | baoclone/src/ft-60r.c:314-325 | The last 28617 bytes of an upload that returned are identifier, memory and their running total modulo 256 |
| Ft60rClone.CloneSignals | baoclone/src/ft-60r.c:235-243 | A clone on the line is 29066 bytes, with 0x06 after the identifier, after every 64 bytes and after the sum |
| Ft60rClone.AcksInNumbers | baoclone/src/ft-60r.c:145-146 | Taking a good clone sends 449 times 0x06 |
| Ft60rClone.PassInNumbers | baoclone/src/ft-60r.c:302-325 | A radio that falls silent after any number of answered blocks has been sent exactly one piece more |
| Ft60rClone.PassExactly | baoclone/src/ft-60r.c:174-208 | A pass goes through exactly when each of its 449 pieces comes back in time with 0x06 behind it |
| Ft60rClone.UploadReturns | baoclone/src/ft-60r.c:293-325 | An upload returns exactly when one of its passes goes through |
| BaofengTransfer.TransferredInNumbers | baoclone/src/bf-888s.c:150-176 | The addresses each of the four drivers transfers, in numbers |
| BaofengTransfer.AcksInNumbers | baoclone/src/uv-b5.c:102-111 | The acknowledges accepted behind a block: 0x74, 0x78 and 0x1f for the UV-B5, 0x06 for the others |
| BaofengTransfer.FirstRequestInNumbers | baoclone/src/uv-5r.c:116-149 | The first request of a download: its letter, address and length, and the acknowledge that follows |
| BaofengTransfer.RequestsInNumbers | baoclone/src/uv-5r.c:212-233 | A whole download sends five bytes for each of 101, 96, 256 or 38 blocks |
| BaofengTransfer.FirstCommandInNumbers | baoclone/src/uv-5r.c:174-194 | The first write command: its letter, address and length, and its 16 or 8 bytes of memory |
| BaofengTransfer.BackupInNumbers | baoclone/src/bf-888s.c:150-161 | The memory after a download byte by byte: transferred, erased to 0xff below 0x400 by the BF-888S driver only, or as before |
| BaofengTransfer.FetchedWasSent | baoclone/src/bf-888s.c:54-106 | A block is taken only from its exact header, its bytes, and an accepted acknowledge |
| BaofengTransfer.DataArrivesExactly | baoclone/src/bf-888s.c:54-90 | The program acknowledges a block exactly when its header and all its bytes have come in time |
| BaofengTransfer.WriteAckInNumbers | baoclone/src/bf-888s.c:124-132 | A block written is acknowledged by 0x06 alone |
| BaofengTransfer.UploadCompletes | baoclone/src/uv-5r.c:237-257 | An upload completes exactly when each of its 404, 384, 256 or 38 blocks is acknowledged by 0x06 in time, and has then sent 20 or 12 bytes for each |
| Baoclone.UploadReturns | baoclone/src/radio.c:209-225 | When the upload of a write run returns, for each of the five drivers |
| Ft60rConfigure.UploadReturns | baoclone/src/main.c:97-108 | When the upload of a configuration run returns |
| Radio.MagicInNumbers | baoclone/src/radio.c:139-141 | The three magic commands byte by byte |
| Radio.AnswerConnects | baoclone/src/radio.c:146-185 | A radio that answers first at any of the thirty commands is detected by the command and, for the first of a round, by the beginning of its identifier |
| Radio.OtherFindings | baoclone/src/radio.c:151-182 | An identifier of neither model does not end the search; an echo always does |
| Radio.VerdictWas | baoclone/src/radio.c:88-131 | A radio counts as answering only for an acknowledge, eight bytes and an acknowledge, and an echo only for the whole command |
| Radio.SilenceInNumbers | baoclone/src/radio.c:146-150 | A silent line is given up on after thirty commands of seven bytes |
| ImageFiles.SizesInNumbers | baoclone/src/radio.c:242-263 | The six file sizes and the driver each selects |
| ImageFiles.FilesInNumbers | baoclone/src/uv-5r.c:970-985 | Every byte of the files the drivers write, by its place |
| ImageFiles.ChirpInNumbers | baoclone/src/uv-b5.c:796-802 | The forty bytes between identifier and memory of a UV-B5 file |
| ImageFiles.Bf888InNumbers | baoclone/src/bf-888s.c:490-527 | Every byte of a BF-888S file, and every byte of the memory after reading one |
| ImageFiles.MemoryInNumbers | baoclone/src/uv-5r.c:943-968 | Every byte of the memory after reading a file of the other formats |
| Bcd.NibblesInNumbers | baoclone/src/util.c:342-352 | The nibbles of a coded number are its eight low decimal digits in order |
| Bcd.DigitsInNumbers | baoclone/src/util.c:326-336 | A word decodes to its nibbles weighted by powers of ten |
| Bf888sChannel.FrequenciesInNumbers | baoclone/src/bf-888s.c:289-296 | Both frequencies in a record: eight decimal digits, two to a byte, the last two first |
| Bf888sChannel.SquelchInNumbers | baoclone/src/bf-888s.c:211-247 | The word of a squelch setting: a tone as it is, a code from 8000, an inverted one from 12000 on |
| Bf888sChannel.TailInNumbers | baoclone/src/bf-888s.c:249-305 | Both squelch words low byte first, the five flags in their bits, and three bytes of ones |
| Bf888sChannel.ReadFrequencies | baoclone/src/bf-888s.c:263-276 | Any record: when it is not in use, and otherwise both frequencies from their nibbles |
| Bf888sChannel.ReadSquelchInNumbers | baoclone/src/bf-888s.c:178-201 | Any squelch word: nothing, a tone, a code, or an inverted code |
| Bf888sChannel.ReadSettings | baoclone/src/bf-888s.c:277-287 | Any record: both squelch words and the five flags |
| Bf888sDriver.PlacesInNumbers | baoclone/src/bf-888s.c:289-291 | The sixteen records begin at 0x10, and setting one up moves no other byte |
| BaofengSquelch.UvB5InNumbers | baoclone/src/uv-b5.c:192-213 | The UV-B5 counts fifty tones from 1 and the codes from 51 |
| BaofengSquelch.Uv5rInNumbers | baoclone/src/uv-5r.c:259-283 | The UV-5R keeps tones from 60 Hz on, codes from 1 and inverted codes from 105 |
| BaofengSquelch.WrittenInNumbers | baoclone/src/uv-5r.c:287-320 | What both radios are given for a setting |
| FlyAvr.AnswerInNumbers | flyavr/src/flyavr.c:600-613 | The four bytes of the answer in their order, from the disguised bytes 0, 1 and 3 of the challenge |
| FlyAvr.RequestInNumbers | flyavr/src/flyavr.c:340-350 | A challenge travels behind the command byte 0x20, low byte first |
| FlyAvr.PanicInNumbers | flyavr/src/flyavr.c:449-473 | Four failures in a row are borne, the fifth stops the machine, a success starts the count again |
| FlyAvr.FiveInNumbers | flyavr/src/flyavr.c:449-473 | Five failures in a row, position by position |
| Unescape.LettersInNumbers | estgb/src/estgb.c:177-194 | The escapes of one letter, the backslash, and the unknown escape that writes its character twice |
| Unescape.HexInNumbers | estgb/src/estgb.c:133-156 | The hexadecimal digits and their values |
| Unescape.HexEscape | estgb/src/estgb.c:195-208 | Up to two hexadecimal digits behind an x |
| Unescape.OctalEscape | estgb/src/estgb.c:214-226 | Up to three octal digits, modulo 256 |
| Unescape.ZeroEscape | estgb/src/estgb.c:209-226 | A zero in front of the octal digits does not count; alone it is the zero byte |
| ChangeMac.ResultInNumbers | changemac/src/changemac.c:65-97 | Which bytes a request writes: an address at 0x120c, a country at 0x1212, antennas at 0x1208, the checksum at 0x1202 |
| ChangeMac.RefusalsInNumbers | changemac/src/changemac.c:65-82 | An address whose text has not seventeen characters is refused, and a file above 128 KiB |
| ChangeMac.SoundInNumbers | changemac/src/changemac.c:99-110 | Soundness as the running exclusive or of the words from 0x1200 on, as many as the first one declares |
| Shbin.TextsInNumbers | microsources/shbin.c:20-27 | The texts of a script in ASCII codes |
| Shbin.PrintedInNumbers | microsources/shbin.c:25-26 | One byte is printed as a backslash and four octal digits |
| Shbin.LinesInNumbers | microsources/shbin.c:20-31 | The length of a script: a line for every 64 bytes and one for the rest |
| Imx222.ImageModeInNumbers | hi35xx_sensor_imx222/src/imx222_cmos.c:795-866 | The answer, mode, sensor registers and frame length after a mode call for every size, rate and state |
| Imx222.CalibrationInNumbers | hi35xx_sensor_imx222/src/imx222_cmos.c:734-773 | Calibration writes shutter 2, gain 0 and 6750 or 9000 lines; its end writes the normal frame length |
| Imx222.FpsInNumbers | hi35xx_sensor_imx222/src/imx222_cmos.c:216-264 | The rates each mode supports, and the longest frame that keeps the rate |
| Imx222.SlowFramerateInNumbers | hi35xx_sensor_imx222/src/imx222_cmos.c:266-279 | The frame length is capped at 65535 and lies in registers 3 and 4 |
| Imx222.ExposureInNumbers | hi35xx_sensor_imx222/src/imx222_cmos.c:282-290 | The exposure is counted from the end of the frame, modulo 65536, in registers 0 and 1 |
| Imx222.GainsInNumbers | hi35xx_sensor_imx222/src/imx222_cmos.c:361-370 | The gain register is the sum of both gains in 32 bits, capped at 140 |
| Imx222.StartInNumbers | hi35xx_sensor_imx222/src/imx222_cmos.c:953-963 | A fresh driver and a global initialisation: mode 1, 1125 lines, nothing sent |
| Imx222.ReadInNumbers | hi35xx_sensor_imx222/src/imx222_cmos.c:869-925 | A read flags and sends every register while a full update is due, otherwise those that changed |
| Imx222Driver.LookupFinds | hi35xx_sensor_imx222/src/imx222_cmos.c:311-351 | A request between two entries finds the lower one, one below the second entry the first, and one from the last entry on the last |
| Imx222Driver.LowGainsInNumbers | hi35xx_sensor_imx222/src/imx222_cmos.c:301-309 | The first forty gains by index |
| Imx222Driver.HighGainsInNumbers | hi35xx_sensor_imx222/src/imx222_cmos.c:301-309 | The other gains by index |

## Left out

- Ft60rDriver.Codeplug.ParseConfig: takes the splitting and scanning of a row's columns (`sscanf`) as a parameter, any function from a table and a text to columns, so the results hold for whatever the C library does; numbers arrive as integer Hz and tenths of a hertz; a line is what one `fgets` returns, so a text line over 255 characters is several of them.
- Ft60rDriver.Codeplug.SetupChannel: frequencies are integer Hz, so the truncation of `mhz * 1000000.0` is not modelled; stores to several bit fields of one byte are grouped per byte.
- Ft60rDriver.Codeplug.DecodeChannel: a tone or code index beyond its table, which the source reads out of bounds, reads as 0; VFO records are not modelled.
- Ft60rClone.Cloner.TakeBlock: what is sent and what arrives are two separate streams, so that an acknowledge goes out before the answer to it is awaited is not part of the contract; delays and progress output are left out.
- BaofengTransfer.BackupRestores: the radio is a function from the bytes it is sent to the bytes it answers, and it obeys the protocol of the driver that the file selects, whichever driver connecting found.
- Ft60rClone.Cloner.GiveClone: a pass starts by flushing the line, so each pass is given its own input; an endless series of failures is a finite prefix of it.
- FlyAvr.Watchdog.GetCrc1: a transfer either delivers all four bytes or leaves the buffer alone; a partly filled buffer after a bus error is not modelled, nor are timer periods and the unlocked use of the buffers by the other commands.
- Shbin.ScriptPrintsFile: the shell that runs the script is modelled by its lines alone, each printing its decoded argument; quoting rules of the shell beyond the closing quote are not modelled.
- ChangeMac.Run: requires an image that reaches the fields and the declared size, since the source reads and writes outside its buffer otherwise; addresses arrive as bytes and the length of their text, because `sscanf` is not modelled; words are little-endian as on the hosts the tool is built for.
- Imx222Driver.Driver.FpsSet: frame rates are real numbers, so the rounding of 32-bit floats is not modelled.
- Imx222Driver.Driver.SetImageMode: the initialisation of the sensor is atomic with the call that leads to it, and only the five shadowed registers are followed.
- Imx222.SensorHoldsTheWish: a mode switch does not change the wished frame length, because the driver keeps its line counts across it.
- BaofengSquelch.UvB5Reencodes: indices beyond the code table, which the source reads out of bounds, are excluded; decoding them is a value of its own.
- Bf888sDriver.Driver.SetupChannel: frequencies are integers in units of 10 Hz, so the truncation of the 32-bit float product is not modelled; rows, settings and parameters of the BF-888S are not parsed.
- Configuration parsing of the UV-5R and UV-B5, their settings, limits, FM presets and VFO records: the same shapes as the FT-60R with less interaction; the UV-B5 writes parameters at an address it does not read them from (uv-b5.c:680, uv-b5.c:806).
- Ft60rBackup.BackupRestores: does not promise that a backup can be written back, because the program refuses it unless the identifier of the clone is all zero (radio.c:212); that holds as long as no answer to a magic command begins with an acknowledge, and an answer that does may leave other bytes in radio_ident.
- Ft60rConfigure.ConfigureMeans: begins behind the connection, with what the line still brings; the configuration run of the Baofeng radios is not modelled.
- Baoclone.Program.WriteFile: what the line brings is given from flush to flush; whether the upload of an FT-60R ever returns is up to the line.
- Opening serial ports, termios and sleeps; printing of tables and usage texts.
- The other sensors' drivers, the GPS driver, the packet builders, the messenger clients around the escape decoder, and kernel and USB registration.
- Constant tables of sensor tuning and the register lists outside the shadow.
