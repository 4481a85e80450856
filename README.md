# qoi-info header reader, modelled in Dafny

`qoi-info` is a small command-line tool that prints the header of a QOI
("Quite OK Image") file. A QOI header is 14 bytes long:

- bytes 0-3: the magic "qoif"
- bytes 4-7: the width, a big-endian unsigned 32-bit integer
- bytes 8-11: the height, in the same encoding
- byte 12: channels (3 or 4)
- byte 13: colorspace (0 or 1)

The tool reads these fields one after the other through a cursor that starts at 0. Each read
uses `read_section`, which seeks to the cursor, fills a zero-initialised
buffer, and moves the cursor on by the buffer's size. The tool then rejects a
wrong magic and maps the channels and colorspace bytes to labels. An unknown
byte at either field is an error. On success it prints the size and the two labels.

This project models that core:

- `big_endian.dfy` (module `BigEndian`) holds `read_u32_from_u8_buffer` as
  `ReadU32`. It is written with the same widening, shifts and ORs on 32-bit
  bit-vectors. The module also holds the encoder `U32ToBE` that the round
  trips are stated against.
- `section_reader.dfy` (module `SectionReader`) holds `read_section` as the
  method `ReadSection`. The file is an in-memory byte sequence. The caller's
  cursor `*ptr` is passed in and handed back advanced, because Dafny has no
  reference parameters. `Section` is the function that specifies the buffer
  the method returns.
- `qoi_info.dfy` (module `QoiInfo`) holds the decode and interpretation steps
  of `main`. `Inspect` is the imperative sequence of lines 32-73, which
  threads the cursor through five reads. It is proved equal to the function
  `Describe`, which is built on `Decode`. The tool's process exits become the
  `Error` values `InvalidMagic`, `UnknownChannels(b)` and
  `UnknownColorspace(b)`. The printed text becomes a `Report` record.

Some behaviour follows the code rather than the format's intent:

- A short or empty read is not an error. The tool calls `read`, not
  `read_exact`, and ignores the byte count. Missing bytes stay 0, and the
  cursor still advances by the full size. As a result, a file that holds
  "qoif" but stops before byte 12 fails as `UnknownChannels(0)`. A 13-byte
  file with a good channels byte is accepted, with colorspace 0.
- The label for three channels is the literal "RBG", as the tool prints it.
  It is most likely a slip for "RGB", but the model keeps the tool's
  spelling.
- Width and height are reported as they are decoded, and zero is allowed.

## Model

| member | source | states |
|---|---|---|
| BigEndian.ReadU32Value | qoi-info/src/main.rs:76-81 | the decoded value is byte0·2^24 + byte1·2^16 + byte2·2^8 + byte3, and it is below 2^32 |
| BigEndian.DecodeEncode | qoi-info/src/main.rs:76-81 | decoding the big-endian encoding of any 32-bit value gives it back |
| BigEndian.EncodeDecode | qoi-info/src/main.rs:76-81 | re-encoding the decoded value of any four bytes gives those bytes back |
| BigEndian.ReadU32Injective | qoi-info/src/main.rs:76-81 | two 4-byte buffers decode to the same value exactly when they are equal |
| SectionReader.Delivered | qoi-info/src/main.rs:92 | one read delivers at most the buffer's size, never reads past end of file, and stops early only at end of file |
| SectionReader.SectionAt | qoi-info/src/main.rs:83-101 | the buffer always has exactly `size` bytes; byte i is the file's byte at ptr+i when there is one, else 0 |
| SectionReader.SectionInside | qoi-info/src/main.rs:83-101 | when the file holds the whole range, the buffer is exactly the file's bytes from ptr to ptr+size |
| SectionReader.SectionExtend | qoi-info/src/main.rs:84-99 | bytes after the range do not change the buffer, and neither do zero bytes appended to a short file |
| SectionReader.ReadSection | qoi-info/src/main.rs:83-101 | returns the zero-filled section at the cursor, and the cursor moves on by `size` whether or not the read was short |
| QoiInfo.ParseChannels | qoi-info/src/main.rs:45-55 | succeeds exactly for bytes 3 and 4, giving the layout whose code is that byte; any other byte fails with UnknownChannels carrying it |
| QoiInfo.ParseColorspace | qoi-info/src/main.rs:57-64 | succeeds exactly for bytes 0 and 1, giving the tag whose code is that byte; any other byte fails with UnknownColorspace carrying it |
| QoiInfo.ChannelsRoundTrip | qoi-info/src/main.rs:45-47 | parsing a layout's code gives the layout back; code 3 has the label "RBG" and code 4 the label "RGBA" |
| QoiInfo.ColorspaceRoundTrip | qoi-info/src/main.rs:57-59 | parsing a tag's code gives the tag back; code 0 has the label "sRGB with linear alpha" and code 1 the label "all channels linear" |
| QoiInfo.MagicRead | qoi-info/src/main.rs:34-35 | the magic read equals "qoif" exactly when the file really starts with "qoif"; zero fill of a short file cannot fake it |
| QoiInfo.FieldReads | qoi-info/src/main.rs:40-43 | the reads at offsets 4, 8, 12 and 13 give the big-endian values and the bytes found there, or 0 past end of file |
| QoiInfo.InvalidMagicIff | qoi-info/src/main.rs:34-38 | decoding fails with InvalidMagic exactly when the file does not start with "qoif" |
| QoiInfo.UnknownChannelsIff | qoi-info/src/main.rs:45-55 | with a good magic, decoding fails with UnknownChannels of the byte at 12 exactly when that byte is neither 3 nor 4, whatever the colorspace byte |
| QoiInfo.UnknownColorspaceIff | qoi-info/src/main.rs:57-64 | with a good magic and channels byte, decoding fails with UnknownColorspace of the byte at 13 exactly when that byte is neither 0 nor 1 |
| QoiInfo.DecodeOkIff | qoi-info/src/main.rs:32-73 | decoding succeeds exactly when magic, channels and colorspace are all valid; width and height are then the big-endian values at 4 and 8, with no range check |
| QoiInfo.HeaderRoundTrip | qoi-info/src/main.rs:32-64 | decoding the 14-byte encoding of any header, followed by any bytes, gives that header back |
| QoiInfo.DecodeDeterminesHeader | qoi-info/src/main.rs:32-64 | a successful decode fixes the header bytes: the file, zero-padded, starts with the encoding of the decoded header |
| QoiInfo.DecodeReadsOnlyHeader | qoi-info/src/main.rs:32-43 | nothing after the first 14 bytes affects the outcome |
| QoiInfo.DecodeZeroPadding | qoi-info/src/main.rs:84-99 | a short file is not rejected for its length; it decodes as if zero-padded |
| QoiInfo.TruncatedBeforeChannels | qoi-info/src/main.rs:45-55 | a file that holds "qoif" but has at most 12 bytes fails with UnknownChannels(0) |
| QoiInfo.MissingColorspaceAccepted | qoi-info/src/main.rs:57-64 | a 13-byte file with a good magic and channels byte is accepted, with colorspace "sRGB with linear alpha" |
| QoiInfo.DescribeReport | qoi-info/src/main.rs:66-73 | on success the report has the file name, the decoded width and height, and the labels of the channels and colorspace bytes; on failure it has the decoder's error |
| QoiInfo.Inspect | qoi-info/src/main.rs:32-73 | the sequence of five cursor reads and two checks yields exactly `Describe`; the cursor ends at 4 after a bad magic (nothing more is read) and at 14 otherwise |
| QoiInfo.ExampleRgba | qoi-info/src/main.rs:32-73 | the header 71 6F 69 66 00 00 00 0A 00 00 00 05 04 00 reports 10x5, "RGBA", "sRGB with linear alpha" |
| QoiInfo.ExampleBadMagic | qoi-info/src/main.rs:34-38 | four zero bytes followed by anything are rejected with InvalidMagic |
| QoiInfo.ExampleBadChannels | qoi-info/src/main.rs:45-55 | a channels byte of 5 gives UnknownChannels(5), whatever the colorspace byte |

## Left out

- Command-line handling and the usage message (qoi-info/src/main.rs:9-22) are process I/O. They are not modelled.
- `File::open` and its error message (qoi-info/src/main.rs:24-30) are not modelled. The file is given as an in-memory byte sequence instead.
- The seek and read failure branches (qoi-info/src/main.rs:85-91, 92-98) are not modelled. They depend on the operating system, and the model has no I/O-error outcome.
- SectionReader.Delivered: a read is taken to deliver every available byte up to the buffer's size, as a read of a regular file does. The general read contract would also allow fewer bytes, and the model does not cover that.
- The exact message texts, the exit statuses (1 and -1) and the formatting of the report (qoi-info/src/main.rs:36, 49-53, 61, 66-73) are not modelled. Errors are `Error` values, and the report is a `Report` record of the file name, the numbers and the two labels.
- The cursor is an unbounded natural number rather than a `u64`. The cursor never exceeds 14, so the `u64` addition at line 99 cannot overflow.
