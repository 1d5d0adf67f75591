# BLF to CSV converter: the records-to-rows stage

The converter reads a Binary Logging Format (BLF) log of CAN bus traffic and
writes one CSV row per message. It does no binary decoding itself: a BLF
reader library yields the decoded messages. What the script owns, and what
this Dafny project models, is the step after decoding:

- **The filter-and-count loop** (`Conversion`). It walks the decoded messages
  in order. Error frames are dropped and counted unless error frames were
  requested. Every other message becomes one row and is counted.
  `ConvertMessages` is that loop, a method with a `for` loop over the message
  sequence. It returns the rows handed to the CSV writer together with
  `message_count` and `error_count`. It is proved against the specification
  function `ExpectedRows`, and the lemmas beside it state the properties of
  that function.
- **The row serialiser** (`CanRows`, `TextFormat`). It turns a message into
  column texts:
  - payload bytes become space-separated two-digit upper-case hex;
  - the arbitration ID becomes `0x` and upper-case hex digits, unpadded;
  - flags become `True`/`False`;
  - the channel becomes its decimal number, or `N/A` when absent.
  Each encoder has a decoder. The round-trip lemmas show that a row's seven
  columns other than the timestamp read back as the message's channel, ID,
  flags, dlc and payload. The timestamp column is rounded and is not read
  back.
- **The entry point's decisions** (`CommandLine`). The output path is the
  explicit one when it is given and non-empty. Otherwise it is the input
  path with its final suffix replaced by `.csv`, following pathlib's
  `with_suffix`. The exit code is 1 when the input is missing. Otherwise it
  is 0 exactly when the conversion reports success.

Modules: `Wrappers` (Option), `TextFormat`, `CanRows`, `Conversion`,
`CommandLine`, one file each.

The BLF container and frame codec live in the reader library, not in the
script, so they are not modelled. The script writes every column of an error
frame it keeps, arbitration ID and data included, so the model does too.

## Model

| member | source | states |
|---|---|---|
| `Conversion.ConvertMessages` | script.py:61-87 | The loop returns the rows the writer receives, in order. They equal `ExpectedRows` of the input. `message_count` is the number of rows, `error_count` is the number of skipped messages, and together they equal the number of messages read. |
| `Conversion.Conservation` | script.py:61-87 | Every message read is either written as one row or counted as a skipped error frame, never both and never neither. |
| `Conversion.ErrorFramesExcluded` | script.py:65-69 | Without the option, every row's `is_error_frame` column is "False", so no error frame is written. The skip count equals the number of error frames in the input. |
| `Conversion.ErrorFramesIncluded` | script.py:65-86 | With the option, the skip count stays 0. There is exactly one row per message, and row i is the row of message i. |
| `Conversion.ConvertAppend` | script.py:65-87 | Rows and counts of a concatenated input are the concatenation and sum of those of its parts. Each row depends only on its own message. |
| `Conversion.PrefixRows` | script.py:65-86 | The rows of the input split at any point into the rows of the prefix followed by the rows of the rest. |
| `Conversion.KeptMessageRow` | script.py:65-86 | A message that is not an excluded error frame is never dropped. Its row sits at the index equal to the number of rows written before it. |
| `Conversion.KeptMessagesInOrder` | script.py:65-86 | Of two written messages, the earlier one's row comes first: input order is preserved. |
| `Conversion.RowSource` | script.py:65-86 | Every row is the row of some non-skipped input message, the one with exactly that many rows before it. With `KeptMessageRow` this makes rows and kept messages correspond one to one. |
| `Conversion.SingleErrorFrame` | script.py:65-69 | A log of one error frame yields no rows and a skip count of 1 by default. With the option it yields one row and a skip count of 0. |
| `CanRows.MakeRow` | script.py:75-84 | The row of one message. Its properties are stated by `CanRows.RowColumns` (flags, dlc, timestamp, channel presence), `CanRows.DecodeMakeRow` (the seven exact columns read back) and `CanRows.MakeRowInjective`. |
| `CanRows.DecodeMakeRow` | script.py:75-84 | The seven columns other than the timestamp decode back to the message's channel, ID, flags, dlc and payload. The timestamp is not recovered, because its column is rounded to six decimals. |
| `CanRows.MakeRowInjective` | script.py:75-84 | Two messages whose rows agree outside the timestamp column are equal except possibly in their timestamps. |
| `CanRows.RowColumns` | script.py:75-84 | Each flag column is "True" exactly when the flag is set. `dlc` is copied unchanged, and so is the timestamp value the column is formatted from. The channel column is "N/A" exactly when the message has no channel. |
| `CanRows.BoolText` | script.py:79-81 | `str()` of a flag: "True" exactly when the flag is set, otherwise "False". `CanRows.BoolTextRoundTrip` states that it reads back. |
| `CanRows.BoolTextRoundTrip` | script.py:79-81 | A flag is written as "True" or "False" and reads back as the same flag. |
| `CanRows.ChannelText` | script.py:77 | The channel column: "N/A" exactly when there is no channel, otherwise its decimal digits. `CanRows.ChannelTextRoundTrip` states that it reads back. |
| `CanRows.ChannelTextRoundTrip` | script.py:77 | The channel column is "N/A" exactly when there is no channel. Otherwise it is the channel's decimal text and reads back as that number. |
| `CanRows.IdText` | script.py:78 | `f'0x{id:X}'`: "0x" followed by the ID's upper-case hex digits. `CanRows.IdTextRoundTrip` and `CanRows.IdTextCanonical` state that ID and column determine each other. |
| `CanRows.IdTextRoundTrip` | script.py:78 | The `arbitration_id` column is "0x" followed by canonical upper-case hex digits with no leading zeros, and it reads back as the ID. |
| `CanRows.IdTextCanonical` | script.py:78 | Every "0x" plus canonical-hex string is the column of exactly one ID, so ID and column determine each other. |
| `CanRows.StandardFrameRow` | script.py:72-84 | A standard frame with ID 0x123, DLC 4 and payload 01 02 03 04 gives the columns "0x123", "False", "False", "False", 4 and "01 02 03 04". |
| `TextFormat.ToBase` | script.py:78 | The unpadded digits of a number in base 16 or 10 are non-empty and valid for the base. They have no leading zero, and they start with "0" only for the number 0. |
| `TextFormat.FromBaseToBase` | script.py:78 | Reading back the digits of a number gives that number. |
| `TextFormat.ToBaseFromBase` | script.py:78 | Every canonical digit string is the rendering of its own value. |
| `TextFormat.ParseToBase` | script.py:77-78 | Parsing the rendered digits gives the number back. |
| `TextFormat.ByteHex` | script.py:72 | A byte is written as exactly two upper-case hex digits, zero padded, whose value is the byte. |
| `TextFormat.DataHex` | script.py:72 | The `data` column: "" for no bytes, otherwise the bytes' hex pairs joined by single spaces. `TextFormat.DataHexLayout`, `TextFormat.ParseDataHexRoundTrip` and `TextFormat.DataHexInjective` state its layout and that it reads back. |
| `TextFormat.DataHexLayout` | script.py:72 | An empty payload gives "". n ≥ 1 bytes give 3n−1 characters: byte i's two hex digits at positions 3i and 3i+1, and a space at exactly the positions 3i+2. |
| `TextFormat.ParseHexGroupsStep` | script.py:72 | One hex pair parses as its byte, and a pair followed by a space and more text parses as that byte followed by the rest. |
| `TextFormat.ParseDataHexRoundTrip` | script.py:72 | The `data` column parses back to the payload. |
| `TextFormat.DataHexInjective` | script.py:72 | Distinct payloads give distinct `data` columns. |
| `CommandLine.Suffix` | script.py:157 | pathlib's suffix of a name is either empty or a proper ending of the name. It starts with the name's last '.', which is not its first character, and it has at least one character after the dot. Conversely, when the name's last '.' is neither its first nor its last character, the suffix is the text from that dot on. |
| `CommandLine.WithCsvSuffix` | script.py:157 | `input_path.with_suffix('.csv')`, None where pathlib raises ValueError for an empty name. `CommandLine.WithCsvSuffixShape` determines it completely. |
| `CommandLine.WithCsvSuffixShape` | script.py:157 | The default path exists exactly when the input's final component is non-empty. It keeps the input's directory part and the name up to its suffix, and its own suffix is ".csv". |
| `CommandLine.WithCsvSuffixIdempotent` | script.py:157 | Replacing the suffix of the default path by ".csv" again changes nothing. |
| `CommandLine.WithCsvSuffixAppends` | script.py:157 | A name without a suffix gets ".csv" appended. |
| `CommandLine.WithCsvSuffixReplaces` | script.py:157 | "logs/drive.blf" becomes "logs/drive.csv". |
| `CommandLine.WithCsvSuffixOfBareName` | script.py:157 | "drive" becomes "drive.csv". |
| `CommandLine.WithCsvSuffixOfRoot` | script.py:157 | "/" has an empty name, so there is no default path (pathlib raises ValueError). |
| `CommandLine.OutputPath` | script.py:154-157 | The explicit output path when it is given and non-empty, otherwise the default one. `CommandLine.OutputPathChoice` states which. |
| `CommandLine.OutputPathChoice` | script.py:154-157 | A non-empty explicit output path is used as given. Otherwise the default path keeps the input's directory part, its name is the input's name up to its suffix followed by ".csv", and its own suffix is ".csv". No path results only when neither is available. |
| `CommandLine.RunMain` | script.py:147-171 | A missing input gives exit code 1 and starts no conversion. Otherwise the conversion is started on the input path, the chosen output path and the error-frame option. The exit code is 0 exactly when the conversion reports success. The exit code is always 0 or 1. |

## Left out

- The BLF decoder (container reading, decompression, object headers, frame bodies) belongs to the python-can library and is not part of this model. The reader is modelled as the sequence of messages it yields.
- Opening files, `csv.DictWriter` quoting and escaping, and the header row are library I/O. Writing a row is modelled as appending it to the output sequence.
- The timestamp column's `.6f` formatting is floating-point text formatting. The row carries the message's timestamp unformatted. Because the real column is rounded, no lemma claims that the timestamp reads back or that timestamps tell rows apart. `CanRows.DecodeMakeRow` and `CanRows.MakeRowInjective` speak only of the other seven columns.
- The csv writer's `str()` of the integer `dlc` is not modelled. The row carries the number, as the row dictionary does.
- Progress and summary prints, and the mapping of exceptions to a `False` result, are console output and exception plumbing. `RunMain` receives the conversion's success report as a parameter (`convert`), and the file-existence check as the boolean `inputExists`.
- Argument parsing is left out. `RunMain` starts from the parsed arguments.
- `CanRows.ChannelText` models the `hasattr(msg, 'channel')` fallback: `None` stands for a message without a `channel` attribute, written "N/A". A message whose `channel` attribute exists with the value None cannot be represented; the csv writer would write it as "" (not "N/A"). The message type of the library may always have the attribute; it is not part of this model, so which messages lack a channel is left open. Channels are modelled as natural numbers.
- `CommandLine.WithCsvSuffix` takes a path's name to be the text after its last '/'. pathlib's normalisation is not modelled: trailing slashes, "." and ".." components, repeated separators, and Windows separators. The same applies to the `str(Path(...))` rendering of the input and output paths passed to the conversion. The suffix rule is the one of pathlib up to Python 3.13 (the last '.' must be neither the first nor the last character of the name). From Python 3.14 a name ending in a single '.' has that '.' as its suffix, so "d." becomes "d.csv" there, while the model gives "d..csv".
- `CommandLine.RunMain` reports the ValueError that `with_suffix` raises for an empty name as exit code 1 with no conversion started. That is the exit status of an uncaught exception; the traceback is not modelled.
