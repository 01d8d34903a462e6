# StarGo mount and NexDome dome drivers: protocol core in Dafny

This project models the serial-protocol core of two INDI device drivers and proves
properties of the model.

- **Avalon StarGo telescope mount** (`indi-avalon/lx200stargo.cpp`, class `LX200StarGo`).
  The driver frames LX200-style commands ending in `#`. Every query first drains the
  frames the mount already sent and feeds each one to `ParseMotionState`, which keeps
  the motors, tracking mode and slew rate current. It then writes the command and
  collects replies until a read fails. The mount's state in the driver is updated from
  those motion frames. Further state comes from the decoders of the slew, park, pier-side,
  ST4, meridian-flip and date replies.
- **NexDome dome** (`indi-nexdome/nex_dome.cpp`, class `NexDome`). The driver sends `@`
  commands ending in CR LF. It reads a reply up to the stop character, splits it into
  lines, trims each line, and picks the line that answers a `get` command. All other
  lines are handed to the event handler. It also polls for events and formats byte
  dumps for its log.

Modules:

| file | module | what |
|---|---|---|
| `ctext.dfy` | `CText` | The C library behaviour the drivers rely on: `sscanf` with `%d`, `%1d`, `%c` and `%*c`, including its EOF result; `printf` integer fields with width, `0` and `+`; 32-bit `%u`/`%d` reinterpretation; `snprintf` truncation; NUL-terminated strings. |
| `stargo_protocol.dfy` | `StarGoProtocol` | The StarGo reply decoders and command builders, and the scope-status transitions, as pure functions with their lemmas. |
| `stargo_link.dfy` | `StarGoLink` | The StarGo transport (`receive`, `transmit`, and the drain and collect phases of `sendQuery`) as functions over a scripted serial port, with lemmas. |
| `stargo_device.dfy` | `StarGoDevice` | Class `StarGo`: the driver object. It has the mount-state fields, the query loops as `while` loops proved to agree with `StarGoLink`, and every modelled driver operation as a method. |
| `nexdome_text.dfy` | `NexDomeText` | `hexDump` over an array, `split`, and `ltrim`/`rtrim`/`trim` as loops, each with its specification functions and lemmas. |
| `nexdome.dfy` | `NexDomeDriver` | Class `NexDome`: `sendCommand`, `setParameter`, `getParameter`, `processEvent` and `checkEvents` over a scripted serial line, with lemmas. |

How the outside world appears in the model:

- **Serial line.** Each port is a value. It holds the outcomes its reads will meet and
  the results its writes will meet. It also logs what the driver wrote, the timeout of
  each read, and (for the StarGo) the number of warnings logged.
  - An exhausted StarGo read script reads as a timeout. An exhausted NexDome read
    script reads as an error.
  - An exhausted write script succeeds.
- **Header constants.** The headers are not part of this model. `AVALON_TIMEOUT` and
  `ND::DRIVER_LEN` are therefore parameters of the driver objects. The NexDome command
  codes (`ND::CommandsMap`) are a `code` string parameter of the operations.
- **Default arguments.** The headers are taken to give these defaults:
  - `sendQuery`'s `wait` is `true`;
  - NexDome `sendCommand` has no reply buffer (`res` is null), and `cmd_len` and `res_len`
    are not positive. With these, the command is sent as a C string and the reply is read
    up to the stop character. `setParameter` relies on all three defaults.
    `getParameter` passes its own reply buffer and relies on the two length defaults.
    The model passes `0, 0` for the lengths in both.
- **Enum numbering.** The LX200 enums follow the usual INDI numbering:
  - slew modes MAX, FIND, CENTER, GUIDE are 0 to 3;
  - directions NORTH, WEST, EAST, SOUTH are 0 to 3;
  - the track-mode indices SetTrackMode receives are SIDEREAL, SOLAR, LUNAR, NONE = 0 to 3,
    as `TrackModeCode` gives them. Index 3 is the driver's own NONE button
    (`indi-avalon/lx200stargo.cpp:354`).
- **Trim characters.** The default set for `trim` is taken to be the C locale's white
  space.

Where the design notes of the repository and the code disagree, the model follows the
code:

- The collect loop of `sendQuery` does not stop at the first reply. It reads until a read
  fails, and the response is the last frame received.
- `isIdle` is true exactly when the tracking mode is SIDEREAL. This is the reverse of
  its name.
- `getLocalDate` puts a two-digit year above 50 in the 1900s. Its comment says "50 or
  more".
- `checkEvents`'s comment says it removes `:` and `#`. The code removes only the first
  character of the event.

## Model

| member | source | states |
|---|---|---|
| StarGoProtocol.ParseMotion | indi-avalon/lx200stargo.cpp:1108-1181 | A frame that does not parse leaves the motion state unchanged. |
| StarGoProtocol.ParseMotionAccepts | indi-avalon/lx200stargo.cpp:1112 | Without white space, a frame is accepted exactly when it is `:Z1` and three digits. |
| StarGoProtocol.ParseMotionFields | indi-avalon/lx200stargo.cpp:1112-1175 | An accepted frame sets the motors, the mode and the slew rate, each from its own digit. |
| StarGoProtocol.DigitMapping | indi-avalon/lx200stargo.cpp:1120-1173 | Digits 0 to 3 select OFF/DEC_ONLY/RA_ONLY/ON, NONE/LUNAR/SOLAR/SIDEREAL and GUIDE/CENTERING/FIND/MAX. Any other digit leaves its field as it was. |
| StarGoProtocol.ParseMotionNeedsPrefix | indi-avalon/lx200stargo.cpp:1112-1180 | A frame without the `:Z1` prefix is rejected and changes nothing. |
| StarGoProtocol.MotionFrameRoundTrip | indi-avalon/lx200stargo.cpp:1112-1175 | The frame printed for any motion state parses back to that state, whatever follows it. |
| StarGoProtocol.ParseMotionIdempotent | indi-avalon/lx200stargo.cpp:1108-1181 | Parsing the same frame twice gives the same result as parsing it once. |
| StarGoProtocol.ParseMotionPadded | indi-avalon/lx200stargo.cpp:1112 | `%01d` skips white space, so spaces after `:Z1` do not change the outcome. |
| StarGoProtocol.SlewCompleteIff | indi-avalon/lx200stargo.cpp:1275-1284 | For a reply without white space, and with both digits present, the slew is complete exactly when the reply is `m` and two digits that are each 0 or 1. |
| StarGoProtocol.SlewCompleteAgrees | indi-avalon/lx200stargo.cpp:1275-1284 | The code as written and the corrected decoder agree except when exactly one digit scans and that digit is below 2. |
| StarGoProtocol.SlewCompleteExamples | indi-avalon/lx200stargo.cpp:1257-1284 | `m00` and `m10` are complete; `m25` is not. |
| StarGoProtocol.SlewCompleteRejects | indi-avalon/lx200stargo.cpp:1276-1280 | `""`, `m`, `m0` and `x00` never report a finished slew. |
| StarGoProtocol.SlewCompleteStaleRead | indi-avalon/lx200stargo.cpp:1274-1284 | As written, the answer for `m0` depends on the uninitialised `y`. |
| StarGoProtocol.ParkSyncDigit | indi-avalon/lx200stargo.cpp:1329-1341 | `p0` is unparked and unsynced, `p1` unparked and synced, `p2` parked and synced. Any other digit keeps both flags. |
| StarGoProtocol.ParkSyncFails | indi-avalon/lx200stargo.cpp:1329-1333 | For a reply without white space, decoding fails exactly when the reply is not empty and does not start with `p` and an optional digit. `""` and `p` (EOF from `sscanf`) set both flags false. |
| StarGoProtocol.ParkSyncParkedIsSynced | indi-avalon/lx200stargo.cpp:1335-1340 | If parked implied synced before the query, it still does after it. |
| StarGoProtocol.StatusFlagDigit | indi-avalon/lx200stargo.cpp:1379-1386 | `v<letter><digit>` is enabled exactly when the digit is the one that means enabled: 1 for `h` and `d`, 0 for `s` (lines 1498-1506 and 1561-1569 as well). |
| StarGoProtocol.StatusFlagFails | indi-avalon/lx200stargo.cpp:1379-1383 | For a reply without white space, decoding fails exactly on a reply that neither starts with `v<letter><digit>` nor is a prefix of `v<letter>`. Such a prefix gives the flag for answer 0. |
| StarGoProtocol.PierReplyDecodes | indi-avalon/lx200stargo.cpp:1623-1646 | The corrected decoder succeeds exactly on `P` followed by a character, and maps that character to the pier side. |
| StarGoProtocol.PierReplyExamples | indi-avalon/lx200stargo.cpp:1629-1646 | `PX`, `PW` and `PE` give UNKNOWN, WEST and EAST; any other letter keeps the side; `P` and `""` fail. |
| StarGoProtocol.PierReplyAgrees | indi-avalon/lx200stargo.cpp:1623-1646 | The code as written and the corrected decoder agree on every reply except `""` and `P`. |
| StarGoProtocol.PierReplyStaleRead | indi-avalon/lx200stargo.cpp:1620-1646 | As written, `P` and `""` switch on the uninitialised `answer`. |
| StarGoProtocol.Century | indi-avalon/lx200stargo.cpp:2499-2503 | The century prefix is `19` exactly when the year is above 50, and `20` otherwise. |
| StarGoProtocol.DateTextScans | indi-avalon/lx200stargo.cpp:2496 | `MM/DD/YY` scans as three numbers. |
| StarGoProtocol.LocalDateIso | indi-avalon/lx200stargo.cpp:2496-2505 | A `MM/DD/YY` reply becomes the 10-character ISO date `CCYY-MM-DD`. |
| StarGoProtocol.LocalDateRejects | indi-avalon/lx200stargo.cpp:2496-2498 | Empty replies and replies with fewer than three numbers are refused. |
| StarGoProtocol.LocalDateRoundTrip | indi-avalon/lx200stargo.cpp:2412-2419 | The 13-character `:SC MM/DD/YY#` command reads back through the `getLocalDate` decoder as the date it sets, with the year taken mod 100. |
| StarGoProtocol.PulseCommandDecodes | indi-avalon/lx200stargo.cpp:2094-2116 | There is a command exactly for the four directions. It is `:Mg`, the direction letter and `%04d` of the duration as a 32-bit signed value. It is 9 characters for durations below 10000. |
| StarGoProtocol.PulseCommandInjective | indi-avalon/lx200stargo.cpp:2100-2113 | Different pulses give different commands. |
| StarGoProtocol.SlewRateCommands | indi-avalon/lx200stargo.cpp:1855-1897 | There is a command exactly for indices 0 to 3. GUIDE/CENTERING/FIND/MAX send `:RG#`, `:RC#`, `:RM#` and `:RS#`, and different rates send different commands. |
| StarGoProtocol.TrackModeCommands | indi-avalon/lx200stargo.cpp:1765-1786 | There is a command exactly for the four known modes. Each is a `:T` command, and different modes send different commands. |
| StarGoProtocol.GuidingSpeedCommandDecodes | indi-avalon/lx200stargo.cpp:1433-1444 | `:X20`/`:X21` and `%2d`: the axis digit, a number that reads back as the speed, and a length of 7 for speeds below 100. A speed below 10 is space-padded. |
| StarGoProtocol.SiteLatitudeRoundTrip | indi-avalon/lx200stargo.cpp:1242 | For latitudes under 100 degrees, `:St%+03d*%02d:%02d#` is 13 characters, always carries the sign, and reads back as its components. |
| StarGoProtocol.SiteLongitudeRoundTrip | indi-avalon/lx200stargo.cpp:1215-1218 | In both format branches, the longitude is 14 characters, the sign is `-` exactly for a negative degree, and it reads back as its components. |
| StarGoProtocol.SiteLongitudeSigned | indi-avalon/lx200stargo.cpp:1215-1218 | Both format strings print the degrees as `%+04d` would: `:Sg+%03d` for a non-negative degree and `:Sg%04d` for a negative one. |
| StarGoProtocol.CoordinateFormatOf | indi-avalon/lx200stargo.cpp:1829-1847 | A reply of at most five characters, or with `.` at index 5, is the low-precision format. Otherwise `.` at index 8 is the ultra-high format, and anything else is the high format. |
| StarGoProtocol.CoordinateFormatShapes | indi-avalon/lx200stargo.cpp:1829-1847 | Whatever its digits, an `HH:MM.T` reply is low precision, `HH:MM:SS` high precision and `HH:MM:SS.` followed by anything ultra-high precision. |
| StarGoProtocol.CoordinateFormatExamples | indi-avalon/lx200stargo.cpp:1829-1847 | `HH:MM.T` is low precision, `HH:MM:SS` high precision and `HH:MM:SS.SS` ultra-high precision. An empty reply counts as low precision. |
| StarGoProtocol.UpdatedStatusCases | indi-avalon/lx200stargo.cpp:563-629 | Parking with the motors off completes the park. A slew or park in progress is otherwise kept. Otherwise TRACKING exactly when a motor runs and a mode is set, and IDLE when not. |
| StarGoProtocol.ParkThenUpdate | indi-avalon/lx200stargo.cpp:557-678 | After SetParked, the next motion update keeps a parked mount PARKED while its motors are off. Otherwise it gives TRACKING when a motor runs and a mode is set, and IDLE when not. |
| StarGoProtocol.UpdatedStatusIdempotent | indi-avalon/lx200stargo.cpp:563-629 | A second update from the same motion state changes nothing. |
| StarGoProtocol.SlewDoneStatus | indi-avalon/lx200stargo.cpp:467-493 | A finished slew is IDLE exactly when the mode is SIDEREAL, and otherwise TRACKING. A finished park is PARKED. Nothing else changes. |
| StarGoLink.MotionParserParses | indi-avalon/lx200stargo.cpp:1076-1079 | The frame parser of the query loops is `ParseMotionState`; a rejected frame leaves the state. |
| StarGoLink.Received | indi-avalon/lx200stargo.cpp:1719-1722 | A read drops its last byte exactly when that byte is `#`. |
| StarGoLink.ReceivedFrame | indi-avalon/lx200stargo.cpp:1719-1720 | A NUL-free frame with its `#` reads as the frame. |
| StarGoLink.ReceivedUnterminated | indi-avalon/lx200stargo.cpp:1721-1722 | A frame without `#` keeps all its bytes. |
| StarGoLink.ReplyFrame | indi-avalon/lx200stargo.cpp:1719-1720 | A text reply arrives less its `#` and is rejected by the motion parser, which leaves the state as it was. |
| StarGoLink.ReceivedMotionFrame | indi-avalon/lx200stargo.cpp:1112-1175 | A motion frame arrives as it was sent, less its `#`, and sets the state it encodes. |
| StarGoLink.DrainFrames | indi-avalon/lx200stargo.cpp:1072-1081 | The drain reads every buffered frame without waiting and feeds it to the parser in order. It keeps none as the response, and warns only when the final read is an error. |
| StarGoLink.CollectFrames | indi-avalon/lx200stargo.cpp:1088-1104 | All frames before the first failed read are parsed. The response is the last of them, or the old buffer when there is none. Read `i` waits exactly when `wait` does and every earlier frame was accepted. |
| StarGoLink.CollectTimeoutsStep | indi-avalon/lx200stargo.cpp:1089-1101 | The first rejected frame turns off waiting for the rest of the collect phase. |
| StarGoLink.QueryOutcome | indi-avalon/lx200stargo.cpp:1064-1106 | A query succeeds exactly when its write does. A failed write does no post-write read and answers `""`. Every query logs its command. |
| StarGoLink.QueryAnswer | indi-avalon/lx200stargo.cpp:1064-1106 | Strays are parsed and dropped. The replies are parsed after them, and the response is the last reply. The read timeouts follow the wait rule. |
| StarGoLink.StraysThenReply | indi-avalon/lx200stargo.cpp:1072-1104 | With two stray frames and one rejected reply, only the first read after the write waits. |
| StarGoLink.TwoStraysThenReply | indi-avalon/lx200stargo.cpp:1112-1180 | Motion frames are accepted and set the state; the text `reply` is rejected and keeps it. |
| StarGoLink.QuerySilent | indi-avalon/lx200stargo.cpp:1083-1105 | A query that gets no answer still succeeds with `""`. It warns only if it waited. |
| StarGoLink.QueryWriteFails | indi-avalon/lx200stargo.cpp:1083-1087 | A failed write returns false after the drain, with one warning and no further read. |
| StarGoDevice.StarGo.constructor | indi-avalon/lx200stargo.cpp:113-152 | Sets up the modelled port and mount-state fields from its parameters. The source constructor only does framework setup. |
| StarGoDevice.StarGo.Receive | indi-avalon/lx200stargo.cpp:1705-1725 | One section read with the wait's timeout. A success returns the frame without a trailing `#`. A failure keeps the buffer and warns unless it was a timeout without waiting. |
| StarGoDevice.StarGo.Transmit | indi-avalon/lx200stargo.cpp:1737-1752 | One write. A failure returns false and logs a warning. |
| StarGoDevice.StarGo.ParseMotionState | indi-avalon/lx200stargo.cpp:1108-1181 | The motion fields become the ones `ParseMotion` gives, and nothing else changes. |
| StarGoDevice.StarGo.DrainOne | indi-avalon/lx200stargo.cpp:1072-1081 | One pass of the drain loop keeps the state on the path of the drain function. |
| StarGoDevice.StarGo.CollectOne | indi-avalon/lx200stargo.cpp:1089-1101 | One pass of the collect loop keeps the state on the path of the collect function, including the wait switch. |
| StarGoDevice.StarGo.DrainPending | indi-avalon/lx200stargo.cpp:1072-1081 | The drain loop ends in the state `Drain` gives. |
| StarGoDevice.StarGo.CollectReplies | indi-avalon/lx200stargo.cpp:1088-1104 | The collect loop ends in the state `Collect` gives and returns its response. |
| StarGoDevice.StarGo.SendQuery | indi-avalon/lx200stargo.cpp:1064-1106 | The whole query ends in the state `Query` gives, and its success and response are the ones `Query` gives. The scope status is untouched. |
| StarGoDevice.StarGo.QueryMountMotionState | indi-avalon/lx200stargo.cpp:1296-1305 | Sends `:X3C#` without waiting; the motion state comes from the frames. |
| StarGoDevice.StarGo.SetParked | indi-avalon/lx200stargo.cpp:945-958 | The status is PARKED exactly when `isparked`, and TRACKING otherwise. The port and the motion state are unchanged. |
| StarGoDevice.StarGo.UpdateMotionStatus | indi-avalon/lx200stargo.cpp:557-678 | After a successful `:X3C#` the status is the `UpdatedStatus` of the new motors and mode. A failed query leaves it unchanged. The slew rate is only what the frames set. |
| StarGoDevice.StarGo.IsIdle | indi-avalon/lx200stargo.cpp:540-546 | Queries the motion state, then is true exactly when the mode is SIDEREAL. |
| StarGoDevice.StarGo.QueryIsSlewComplete | indi-avalon/lx200stargo.cpp:1254-1285 | A successful `:X34#` whose reply decodes as complete. |
| StarGoDevice.StarGo.ReadScopeStatus | indi-avalon/lx200stargo.cpp:467-493 | SLEWING: when the slew is done, a second query and IDLE or TRACKING. PARKING: PARKED when done. Any other status sends nothing and changes nothing. |
| StarGoDevice.StarGo.QueryParkSync | indi-avalon/lx200stargo.cpp:1314-1342 | `:X38#`; the flags are the decoded ones on success and stay as they were otherwise. |
| StarGoDevice.StarGo.QueryFlag | indi-avalon/lx200stargo.cpp:1364-1387 | The shared shape of the three `v<letter>` status queries. |
| StarGoDevice.StarGo.QueryGetST4Status | indi-avalon/lx200stargo.cpp:1364-1387 | `:TTGFh#`: enabled when the digit is 1. |
| StarGoDevice.StarGo.QueryGetMeridianFlipEnabledStatus | indi-avalon/lx200stargo.cpp:1486-1507 | `:TTGFs#`: enabled when the digit is 0. |
| StarGoDevice.StarGo.QueryGetMeridianFlipForcedStatus | indi-avalon/lx200stargo.cpp:1548-1570 | `:TTGFd#`: forced when the digit is 1. |
| StarGoDevice.StarGo.SyncSideOfPier | indi-avalon/lx200stargo.cpp:1607-1649 | `:X39#`; the pier side is the decoded one, and is kept on failure or on an unknown letter. |
| StarGoDevice.StarGo.GetLocalDate | indi-avalon/lx200stargo.cpp:2479-2508 | `:GC#`; the ISO date on success, and the caller's buffer otherwise. |
| StarGoDevice.StarGo.CheckLX200Format | indi-avalon/lx200stargo.cpp:1800-1849 | `:GR#`, and for a short reply then `:U#` and `:GR#` once more. The format comes from the last reply, and is LONG when a query fails. The result is always false. |
| StarGoDevice.StarGo.SendPulseCmd | indi-avalon/lx200stargo.cpp:2094-2122 | An unknown direction returns 1 with nothing sent. Otherwise it sends the pulse command without waiting and returns 1 or 0. |
| StarGoDevice.StarGo.SetSlewMode | indi-avalon/lx200stargo.cpp:1868-1897 | An unknown mode fails with nothing sent. Otherwise it sends the rate command without waiting. |
| StarGoDevice.StarGo.SetSlewRate | indi-avalon/lx200stargo.cpp:1855-1866 | `setSlewMode(3 - index)`. |
| StarGoDevice.StarGo.SetTrackMode | indi-avalon/lx200stargo.cpp:1754-1799 | An unknown mode fails with nothing sent. Otherwise it sends the mode command without waiting. |
| StarGoDevice.StarGo.SendCommand | indi-avalon/lx200stargo.cpp:1892-1896 | The shared step of the no-wait commands: with no command it fails and sends nothing. Otherwise it is one query without waiting. The scope status is kept. |
| StarGoDevice.StarGo.SetGuidingSpeeds | indi-avalon/lx200stargo.cpp:1424-1455 | `:X20` and then `:X21`. A failed first query stops before the second. |
| StarGoDevice.StarGo.SetLocalDate | indi-avalon/lx200stargo.cpp:2412-2427 | `:SC MM/DD/YY#`. It fails when the query fails or the reply starts with `0`. |
| StarGoDevice.StarGo.QuerySetSiteLatitude | indi-avalon/lx200stargo.cpp:1232-1248 | Sends the latitude command and reports the query's success. |
| StarGoDevice.StarGo.QuerySetSiteLongitude | indi-avalon/lx200stargo.cpp:1205-1225 | Sends the longitude command and reports the query's success. |
| NexDomeText.Hex2Decodes | indi-nexdome/nex_dome.cpp:611 | `%02X` of a byte reads back as the byte. |
| NexDomeText.HexSpacedAt | indi-nexdome/nex_dome.cpp:610-611 | Byte `i` is printed at characters `3i` and `3i+1`, followed by a space. |
| NexDomeText.HexTextDecodes | indi-nexdome/nex_dome.cpp:608-615 | A dump of `n > 0` bytes has `3n - 1` characters and no NUL. Its digit pairs read back as the bytes, and spaces separate them. |
| NexDomeText.PrintHexByte | indi-nexdome/nex_dome.cpp:611 | One `sprintf` writes two digits, a space and a NUL, and nothing else. |
| NexDomeText.HexDump | indi-nexdome/nex_dome.cpp:608-615 | For `n > 0` bytes the buffer starts with the dump and two NULs, and the rest is unchanged. An empty input changes nothing. |
| NexDomeText.CutLastSpace | indi-nexdome/nex_dome.cpp:613-614 | The space after the last byte becomes NUL. |
| NexDomeText.PiecesJoin | indi-nexdome/nex_dome.cpp:620-628 | The pieces between separators join back into the input. |
| NexDomeText.PiecesNoSep | indi-nexdome/nex_dome.cpp:620-628 | No piece holds the separator. |
| NexDomeText.PiecesEnd | indi-nexdome/nex_dome.cpp:620-628 | There are several pieces exactly when the input holds a separator. The last piece is empty exactly when the input is empty or ends with one. |
| NexDomeText.SplitJoin | indi-nexdome/nex_dome.cpp:620-628 | `split` loses only a trailing separator. No line holds one, and there is always a line. |
| NexDomeText.SplitExamples | indi-nexdome/nex_dome.cpp:620-628 | `""`, `a\nb`, `a\n` and `a\n\nb` split as the token iterator does: an empty line between separators is kept, and a final empty piece is dropped. |
| NexDomeText.LStripSpec | indi-nexdome/nex_dome.cpp:633-637 | `ltrim` removes the longest prefix made of trim characters, and the result is a suffix of the input. |
| NexDomeText.RStripSpec | indi-nexdome/nex_dome.cpp:642-646 | `rtrim` removes the longest suffix made of trim characters, and the result is a prefix of the input. |
| NexDomeText.TrimEnds | indi-nexdome/nex_dome.cpp:651-654 | The result of `trim` neither starts nor ends with a trim character. |
| NexDomeText.TrimPiece | indi-nexdome/nex_dome.cpp:651-654 | `trim` cuts a slice out of its input, and everything cut is trim characters. |
| NexDomeText.TrimAllChars | indi-nexdome/nex_dome.cpp:651-654 | A string made only of trim characters becomes empty. |
| NexDomeText.TrimIdempotent | indi-nexdome/nex_dome.cpp:651-654 | Trimming twice is trimming once. |
| NexDomeText.LTrim | indi-nexdome/nex_dome.cpp:633-637 | The loop leaves exactly `LStrip` of the input. |
| NexDomeText.RTrim | indi-nexdome/nex_dome.cpp:642-646 | The loop leaves exactly `RStrip` of the input. |
| NexDomeText.Trim | indi-nexdome/nex_dome.cpp:651-654 | `rtrim` and then `ltrim`. |
| NexDomeDriver.TargetLetter | indi-nexdome/nex_dome.cpp:414 | The target letter is `R` exactly for the rotator. |
| NexDomeDriver.ExchangeWithoutRead | indi-nexdome/nex_dome.cpp:569-580 | A failed write fails and reads nothing. Without a reply buffer, the command succeeds with its write and reads nothing. |
| NexDomeDriver.FramedLine | indi-nexdome/nex_dome.cpp:558-561 | A short NUL-free command goes out as itself followed by CR LF. |
| NexDomeDriver.SectionReply | indi-nexdome/nex_dome.cpp:596 | A section reply loses exactly its last byte. |
| NexDomeDriver.SetCommandDecodes | indi-nexdome/nex_dome.cpp:410-423 | The set command is `@<code>W<target>,` and a number, which `strtol` reads back as the value. The `,value` part is always present. |
| NexDomeDriver.SetCommandInjective | indi-nexdome/nex_dome.cpp:410-423 | Different values give different set commands. |
| NexDomeDriver.LastAnswerFound | indi-nexdome/nex_dome.cpp:451-469 | There is an answer exactly when some trimmed line matches `:<code>R` and at least one more character. |
| NexDomeDriver.LastAnswerLine | indi-nexdome/nex_dome.cpp:451-469 | The answer is the tail of a matching line, and no later line matches. |
| NexDomeDriver.ReplyAfterEvent | indi-nexdome/nex_dome.cpp:446-473 | An event line followed by an answer line gives that answer's value, whatever the event is. |
| NexDomeDriver.VersionReplyFound | indi-nexdome/nex_dome.cpp:183-188 | A version reply after an event line is found, with value `3.1`. |
| NexDomeDriver.EventFrame | indi-nexdome/nex_dome.cpp:491-495 | An event of three or more NUL-free bytes loses only its first byte. |
| NexDomeDriver.EventRejects | indi-nexdome/nex_dome.cpp:486-490 | A read error or fewer than three bytes returns false and keeps the response unchanged. |
| NexDomeDriver.NexDome.constructor | indi-nexdome/nex_dome.cpp:101-110 | Sets up the modelled serial line, buffer size and shutter state from its parameters. The source constructor only does framework setup. |
| NexDomeDriver.NexDome.SendCommand | indi-nexdome/nex_dome.cpp:543-603 | One write, then a read only with a reply buffer. The result and the line are those of `Exchange`. |
| NexDomeDriver.NexDome.SetParameter | indi-nexdome/nex_dome.cpp:410-423 | Sends the set command with no reply buffer, so only the write decides the result. |
| NexDomeDriver.NexDome.ProcessEvent | indi-nexdome/nex_dome.cpp:501-538 | Always false, and changes nothing: no table entry ever matches. |
| NexDomeDriver.NexDome.MatchReplies | indi-nexdome/nex_dome.cpp:455-469 | The loop finds an answer exactly when `LastAnswer` does, and keeps the last one. |
| NexDomeDriver.NexDome.GetParameter | indi-nexdome/nex_dome.cpp:428-474 | True exactly when the exchange succeeds and some line answers. The caller's value is never written. |
| NexDomeDriver.NexDome.GetParameterValue | indi-nexdome/nex_dome.cpp:428-474 | The same exchange, and it also returns the last answer's value, or the caller's value when there is none. |
| NexDomeDriver.NexDome.CheckEvents | indi-nexdome/nex_dome.cpp:479-496 | One section read with the event timeout. False on an error or under three bytes. Otherwise the text less its first character, or `out_of_range` when the text is empty. |

## Left out

- Serial I/O: the blocking reads and writes, their timeouts and `tcflush`/`flush` are a scripted port. Partial reads that fail are taken to leave the buffer unchanged.
- A section read of zero bytes indexes `buffer[-1]` in `receive` and `res[-1]` in `sendCommand`, which is undefined behaviour. The model reads it as an empty frame.
- StarGo frame length: `receive` reads up to `#` with no length bound into the `AVALON_RESPONSE_BUFFER_LENGTH` buffer of `sendQuery` (lines 1069 and 1709), and line 1104 copies the frame into the caller's buffer with `strcpy`. A frame longer than that buffer overflows both. The model's frames are unbounded strings, so it does not capture the overflow.
- StarGoDevice.StarGo.QueryIsSlewComplete: decodes with the corrected `SlewComplete`. For `m0` or `m1` the code as written tests the uninitialised `y` (line 1284), and the model answers false. An indeterminate value has no defined outcome, so the model follows the evidently intended decoding. "## Findings" states the difference with `SlewCompleteAsWritten`.
- StarGoDevice.StarGo.ReadScopeStatus: uses `QueryIsSlewComplete`, so it counts `m0` or `m1` as a slew still in progress.
- StarGoDevice.StarGo.SyncSideOfPier: decodes with the corrected `PierReply`. For `""` or `P` the code as written switches on the uninitialised `answer` and returns true (lines 1623-1648), and the model returns false. An indeterminate value has no defined outcome, so the model follows the evidently intended decoding. "## Findings" states the difference with `PierReplyAsWritten`.
- A NexDome section reply that fills all `DRIVER_LEN` bytes has no NUL. The model takes its text up to the stop character, or up to the first NUL.
- Floating point: `getSexComponents`, the longitude normalisation in `querySetSiteLongitude`, and the float parts of the other queries. The site commands take the integer components directly.
- StarGoDevice.StarGo.ReadScopeStatus: only the status branch (lines 467-493) is modelled. The coordinate reads and the `MountGotoHomeSP` property update are not.
- StarGoDevice.StarGo.SetTrackMode: the tracking-frequency refresh after the command is not modelled, because it does floating-point parsing.
- StarGoDevice.StarGo.SetParked: the base-class `INDI::Telescope::SetParked` and the property updates are not modelled.
- The simulation branches and all INDI property plumbing, because they are host-framework glue.
- The `std::regex` engine: the `getParameter` match is an explicit prefix test plus a test that the tail is non-empty and has no line terminators. This assumes the command codes have no regex metacharacters. `split` is a split on `'\n'`.
- `ND::CommandsMap.at` throwing on an unknown command: the code string is a parameter.
- The NexDome `TimerHit` polling loop and `std::stoi` in `getStartupValues`, because they are timing and library effects.
- The debug logging, including the `hexDump` of commands and replies in `sendCommand`.
- NexDomeDriver.NexDome.SendCommand: with an explicit `res_len`, the reply is the bytes read. What stays in the rest of the buffer is not modelled.

## Findings

| source | as written | input that shows it | evidently intended | confidence | as-written member | corrected member |
|---|---|---|---|---|---|---|
| indi-avalon/lx200stargo.cpp:1274-1284 | `sscanf` returning 1 still reads the uninitialised `y` | `m0` | a reply without both digits is not complete | high (not executed) | StarGoProtocol.SlewCompleteAsWritten, StarGoProtocol.SlewCompleteStaleRead | StarGoProtocol.SlewComplete, StarGoProtocol.SlewCompleteIff |
| indi-avalon/lx200stargo.cpp:1620-1646 | `sscanf` returning EOF passes the `!` test and the switch reads the uninitialised `answer` | `P` or `""` | a reply without a pier letter fails | high (not executed) | StarGoProtocol.PierReplyAsWritten, StarGoProtocol.PierReplyStaleRead | StarGoProtocol.PierReply, StarGoProtocol.PierReplyDecodes |
| indi-nexdome/nex_dome.cpp:428-464 | `value` is a by-value parameter, so the match stored in it never reaches the caller; `Handshake` then compares `""` with the minimum version, and `getStartupValues` calls `stoi("")` | reply `:SER,0` then `:SVR3.1` to a version query | the caller's string receives the matched value | high (not executed) | NexDomeDriver.NexDome.GetParameter, NexDomeDriver.VersionReplyFound | NexDomeDriver.NexDome.GetParameterValue, NexDomeDriver.LastAnswerLine |
