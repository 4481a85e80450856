/** The header check and interpretation of `qoi-info`: read the 14-byte QOI
    header field by field through a cursor, reject a wrong magic, map the
    channels and colorspace bytes to labels, and report the dimensions.
    The file is an in-memory byte sequence; the process exits of the tool
    are error values here. */
module QoiInfo {
  import opened BigEndian
  import opened SectionReader

  /** Why the tool stops without a report. */
  datatype Error =
    | InvalidMagic              // the first four bytes are not "qoif"
    | UnknownChannels(b: Byte)  // channels byte other than 3 or 4
    | UnknownColorspace(b: Byte) // colorspace byte other than 0 or 1

  datatype Result<T> = Ok(value: T) | Err(error: Error)

  /** The channel layouts the tool accepts. */
  datatype Channels = Rgb | Rgba {
    /** The byte that stands for this layout in the header. */
    function Code(): Byte {
      match this
      case Rgb => 3
      case Rgba => 4
    }

    /** The label the tool prints. The three-channel label is spelt "RBG"
        in the tool, most likely a slip for "RGB"; it is kept as written. */
    function Label(): string {
      match this
      case Rgb => "RBG"
      case Rgba => "RGBA"
    }
  }

  /** The colorspace tags the tool accepts. */
  datatype Colorspace = SrgbLinearAlpha | AllLinear {
    /** The byte that stands for this tag in the header. */
    function Code(): Byte {
      match this
      case SrgbLinearAlpha => 0
      case AllLinear => 1
    }

    /** The label the tool prints. */
    function Label(): string {
      match this
      case SrgbLinearAlpha => "sRGB with linear alpha"
      case AllLinear => "all channels linear"
    }
  }

  /** A decoded header. Width and height are unsigned 32-bit values with no
      further constraint: zero is allowed. */
  datatype Header = Header(width: bv32, height: bv32, channels: Channels, colorspace: Colorspace)

  /** What the tool prints on success: the file name as given, the size and
      the two labels. */
  datatype Report = Report(file: string, width: nat, height: nat, channels: string, colorspace: string)

  /** The signature "qoif". */
  const Magic: seq<Byte> := [113, 111, 105, 102]

  /** Length of the header: magic, width, height, channels, colorspace. */
  const HeaderSize: nat := 14

  /** The channels `match`: 3 and 4 are known, any other byte is an error
      that carries it. */
  function ParseChannels(b: Byte): (r: Result<Channels>)
    ensures r.Ok? <==> b == 3 || b == 4
    ensures r.Ok? ==> r.value.Code() == b
    ensures r.Err? ==> r.error == UnknownChannels(b)
  {
    if b == 3 then Ok(Rgb)
    else if b == 4 then Ok(Rgba)
    else Err(UnknownChannels(b))
  }

  /** The colorspace `match`: 0 and 1 are known, any other byte is an error
      that carries it. */
  function ParseColorspace(b: Byte): (r: Result<Colorspace>)
    ensures r.Ok? <==> b == 0 || b == 1
    ensures r.Ok? ==> r.value.Code() == b
    ensures r.Err? ==> r.error == UnknownColorspace(b)
  {
    if b == 0 then Ok(SrgbLinearAlpha)
    else if b == 1 then Ok(AllLinear)
    else Err(UnknownColorspace(b))
  }

  /** Decodes the header of `file` as the tool does: magic at offset 0,
      width at 4, height at 8, channels at 12, colorspace at 13, each read
      with the zero-filling section read; the magic is checked first, the
      channels byte before the colorspace byte. */
  function Decode(file: seq<Byte>): Result<Header>
  {
    if Section(file, 0, 4) != Magic then Err(InvalidMagic)
    else
      var widthBuf := Section(file, 4, 4);
      var heightBuf := Section(file, 8, 4);
      var channels := Section(file, 12, 1);
      var colorspace := Section(file, 13, 1);
      match ParseChannels(channels[0])
      case Err(e) => Err(e)
      case Ok(ch) =>
        match ParseColorspace(colorspace[0])
        case Err(e) => Err(e)
        case Ok(cs) => Ok(Header(ReadU32(widthBuf), ReadU32(heightBuf), ch, cs))
  }

  /** The report printed for a header read from the file named `path`. */
  function Render(path: string, h: Header): Report
  {
    Report(path, h.width as int, h.height as int, h.channels.Label(), h.colorspace.Label())
  }

  /** What the tool produces for the file named `path` with contents `file`. */
  function Describe(path: string, file: seq<Byte>): Result<Report>
  {
    match Decode(file)
    case Err(e) => Err(e)
    case Ok(h) => Ok(Render(path, h))
  }

  /** The 14 header bytes for `h`. */
  function EncodeHeader(h: Header): (r: seq<Byte>)
    ensures |r| == HeaderSize
  {
    Magic + U32ToBE(h.width) + U32ToBE(h.height) + [h.channels.Code(), h.colorspace.Code()]
  }

  /** The body of `main` after the file is open: reads the five fields
      through the cursor `ptr`, which starts at 0, stopping after the magic
      when it is wrong; then checks channels, then colorspace, then builds
      the report. Also returns the final cursor. */
  method Inspect(path: string, file: seq<Byte>) returns (r: Result<Report>, ptr: nat)
    ensures r == Describe(path, file)
    ensures ptr == if r == Err(InvalidMagic) then 4 else HeaderSize
  {
    ptr := 0;
    var magic;
    magic, ptr := ReadSection(ptr, file, 4);
    if magic != Magic {
      return Err(InvalidMagic), ptr;
    }
    var widthBuf, heightBuf, channels, colorspace;
    widthBuf, ptr := ReadSection(ptr, file, 4);
    heightBuf, ptr := ReadSection(ptr, file, 4);
    channels, ptr := ReadSection(ptr, file, 1);
    colorspace, ptr := ReadSection(ptr, file, 1);

    var channel;
    match ParseChannels(channels[0])
    case Err(e) => return Err(e), ptr;
    case Ok(ch) => channel := ch;

    var cs;
    match ParseColorspace(colorspace[0])
    case Err(e) => return Err(e), ptr;
    case Ok(c) => cs := c;

    r := Ok(Report(path, ReadU32(widthBuf) as int, ReadU32(heightBuf) as int,
                   channel.Label(), cs.Label()));
  }

  // ---------------------------------------------------------------------
  // Properties of the decoder

  /** The byte the tool sees at offset `i`: the file's byte, or 0 past end
      of file. */
  function ByteAt(file: seq<Byte>, i: nat): Byte
  {
    if i < |file| then file[i] else 0
  }

  /** The big-endian value of the four bytes the tool sees from offset `i`. */
  function BigEndianAt(file: seq<Byte>, i: nat): nat
  {
    ByteAt(file, i) as nat * 0x100_0000 + ByteAt(file, i + 1) as nat * 0x1_0000
    + ByteAt(file, i + 2) as nat * 0x100 + ByteAt(file, i + 3) as nat
  }

  /** The file starts with the signature. */
  predicate HasMagic(file: seq<Byte>)
  {
    |file| >= 4 && file[..4] == Magic
  }

  /** Each label is the parsed layout's own, and parsing a layout's code
      gives the layout back. */
  lemma ChannelsRoundTrip(c: Channels)
    ensures ParseChannels(c.Code()) == Ok(c)
    ensures c.Code() == 3 <==> c.Label() == "RBG"
    ensures c.Code() == 4 <==> c.Label() == "RGBA"
  {
  }

  /** Parsing a colorspace's code gives the colorspace back, and each code
      has its label. */
  lemma ColorspaceRoundTrip(c: Colorspace)
    ensures ParseColorspace(c.Code()) == Ok(c)
    ensures c.Code() == 0 <==> c.Label() == "sRGB with linear alpha"
    ensures c.Code() == 1 <==> c.Label() == "all channels linear"
  {
  }

  /** The magic read matches exactly when the file really starts with
      "qoif": none of its bytes is 0, so zero fill cannot fake it. */
  lemma {:induction false} MagicRead(file: seq<Byte>)
    ensures Section(file, 0, 4) == Magic <==> HasMagic(file)
  {
    var m := Section(file, 0, 4);
    if |file| >= 4 {
      SectionInside(file, 0, 4);
    } else {
      SectionAt(file, 0, 4, 3);
      assert m[3] == 0;
      assert m != Magic by { assert Magic[3] == 102; }
    }
  }

  /** The single-byte reads at 12 and 13, and the four-byte ones at 4 and
      8, see the bytes `ByteAt` names. */
  lemma {:induction false} FieldReads(file: seq<Byte>)
    ensures Section(file, 12, 1)[0] == ByteAt(file, 12)
    ensures Section(file, 13, 1)[0] == ByteAt(file, 13)
    ensures ReadU32(Section(file, 4, 4)) as nat == BigEndianAt(file, 4)
    ensures ReadU32(Section(file, 8, 4)) as nat == BigEndianAt(file, 8)
  {
    SectionAt(file, 12, 1, 0);
    SectionAt(file, 13, 1, 0);
    forall i | 0 <= i < 4
      ensures Section(file, 4, 4)[i] == ByteAt(file, 4 + i)
      ensures Section(file, 8, 4)[i] == ByteAt(file, 8 + i)
    {
      SectionAt(file, 4, 4, i);
      SectionAt(file, 8, 4, i);
    }
    ReadU32Value(Section(file, 4, 4));
    ReadU32Value(Section(file, 8, 4));
  }

  /** Decoding fails with InvalidMagic exactly when the file does not start
      with "qoif"; no other field then matters. */
  lemma {:induction false} InvalidMagicIff(file: seq<Byte>)
    ensures Decode(file) == Err(InvalidMagic) <==> !HasMagic(file)
  {
    MagicRead(file);
    FieldReads(file);
  }

  /** With a good magic, decoding fails on the channels byte exactly when it
      is neither 3 nor 4, whatever the colorspace byte, and the error
      carries that byte. */
  lemma {:induction false} UnknownChannelsIff(file: seq<Byte>)
    requires HasMagic(file)
    ensures Decode(file) == Err(UnknownChannels(ByteAt(file, 12)))
            <==> ByteAt(file, 12) != 3 && ByteAt(file, 12) != 4
    ensures ByteAt(file, 12) != 3 && ByteAt(file, 12) != 4
            ==> Decode(file).Err? && Decode(file).error.UnknownChannels?
  {
    MagicRead(file);
    FieldReads(file);
  }

  /** With a good magic and a known channels byte, decoding fails on the
      colorspace byte exactly when it is neither 0 nor 1, and the error
      carries that byte. */
  lemma {:induction false} UnknownColorspaceIff(file: seq<Byte>)
    requires HasMagic(file)
    requires ByteAt(file, 12) == 3 || ByteAt(file, 12) == 4
    ensures Decode(file) == Err(UnknownColorspace(ByteAt(file, 13)))
            <==> ByteAt(file, 13) != 0 && ByteAt(file, 13) != 1
  {
    MagicRead(file);
    FieldReads(file);
  }

  /** Decoding succeeds exactly when the magic, channels and colorspace are
      all good; the header then holds the big-endian values at offsets 4
      and 8 as they are (zero included) and the layouts whose codes are the
      bytes at 12 and 13. */
  lemma {:induction false} DecodeOkIff(file: seq<Byte>)
    ensures Decode(file).Ok?
            <==> HasMagic(file)
                 && (ByteAt(file, 12) == 3 || ByteAt(file, 12) == 4)
                 && (ByteAt(file, 13) == 0 || ByteAt(file, 13) == 1)
    ensures Decode(file).Ok? ==>
              var h := Decode(file).value;
              h.width as nat == BigEndianAt(file, 4)
              && h.height as nat == BigEndianAt(file, 8)
              && h.channels.Code() == ByteAt(file, 12)
              && h.colorspace.Code() == ByteAt(file, 13)
  {
    MagicRead(file);
    FieldReads(file);
  }

  /** Decoding the encoding of any header, followed by anything at all
      (the pixel data), gives the header back. */
  lemma {:induction false} HeaderRoundTrip(h: Header, rest: seq<Byte>)
    ensures Decode(EncodeHeader(h) + rest) == Ok(h)
  {
    var file := EncodeHeader(h) + rest;
    assert file[..4] == Magic;
    SectionInside(file, 0, 4);
    SectionInside(file, 4, 4);
    SectionInside(file, 8, 4);
    SectionInside(file, 12, 1);
    SectionInside(file, 13, 1);
    assert file[4..8] == U32ToBE(h.width);
    assert file[8..12] == U32ToBE(h.height);
    DecodeEncode(h.width);
    DecodeEncode(h.height);
  }

  /** Only the first 14 bytes matter: whatever follows them is not read. */
  lemma {:induction false} DecodeReadsOnlyHeader(file: seq<Byte>, rest: seq<Byte>)
    requires |file| >= HeaderSize
    ensures Decode(file + rest) == Decode(file)
  {
    SectionExtend(file, rest, 0, 4);
    SectionExtend(file, rest, 4, 4);
    SectionExtend(file, rest, 8, 4);
    SectionExtend(file, rest, 12, 1);
    SectionExtend(file, rest, 13, 1);
  }

  /** A file shorter than the header is not rejected for its length: it
      decodes exactly as if it were padded with zero bytes. */
  lemma {:induction false} DecodeZeroPadding(file: seq<Byte>, k: nat)
    ensures Decode(file + Zeros(k)) == Decode(file)
  {
    SectionExtend(file, Zeros(k), 0, 4);
    SectionExtend(file, Zeros(k), 4, 4);
    SectionExtend(file, Zeros(k), 8, 4);
    SectionExtend(file, Zeros(k), 12, 1);
    SectionExtend(file, Zeros(k), 13, 1);
  }

  /** A successful decode determines the header bytes: the file, padded
      with zeros where it is short, starts with the encoding of the header. */
  lemma {:induction false} DecodeDeterminesHeader(file: seq<Byte>, h: Header)
    requires Decode(file) == Ok(h)
    ensures (file + Zeros(HeaderSize))[..HeaderSize] == EncodeHeader(h)
  {
    var padded := file + Zeros(HeaderSize);
    DecodeZeroPadding(file, HeaderSize);
    MagicRead(padded);
    SectionInside(padded, 4, 4);
    SectionInside(padded, 8, 4);
    SectionInside(padded, 12, 1);
    SectionInside(padded, 13, 1);
    EncodeDecode(padded[4..8]);
    EncodeDecode(padded[8..12]);
    var e := EncodeHeader(h);
    forall i | 0 <= i < HeaderSize
      ensures padded[i] == e[i]
    {
      if i < 4 {
        assert padded[..4][i] == padded[i];
      } else if i < 8 {
        assert padded[4..8][i - 4] == padded[i];
      } else if i < 12 {
        assert padded[8..12][i - 8] == padded[i];
      }
    }
  }

  /** A file that holds "qoif" but ends before the channels byte fails as
      an unknown channel format with byte 0. */
  lemma {:induction false} TruncatedBeforeChannels(file: seq<Byte>)
    requires HasMagic(file) && |file| <= 12
    ensures Decode(file) == Err(UnknownChannels(0))
  {
    UnknownChannelsIff(file);
  }

  /** A 13-byte file with a good magic and channels byte is accepted: the
      missing colorspace byte reads as 0. */
  lemma {:induction false} MissingColorspaceAccepted(file: seq<Byte>)
    requires |file| == 13 && HasMagic(file)
    requires file[12] == 3 || file[12] == 4
    ensures Decode(file).Ok? && Decode(file).value.colorspace == SrgbLinearAlpha
  {
    DecodeOkIff(file);
  }

  /** The report carries the file name, the decoded size and the labels of
      the channels and colorspace bytes; on failure it is the decoder's
      error. */
  lemma {:induction false} DescribeReport(path: string, file: seq<Byte>)
    ensures Describe(path, file).Err? <==> Decode(file).Err?
    ensures Describe(path, file).Err? ==> Describe(path, file).error == Decode(file).error
    ensures Describe(path, file).Ok? ==>
              var rep := Describe(path, file).value;
              rep.file == path
              && rep.width == BigEndianAt(file, 4)
              && rep.height == BigEndianAt(file, 8)
              && rep.channels == (if ByteAt(file, 12) == 3 then "RBG" else "RGBA")
              && rep.colorspace
                 == (if ByteAt(file, 13) == 0 then "sRGB with linear alpha" else "all channels linear")
  {
    DecodeOkIff(file);
  }

  /** A 10 by 5 RGBA image in sRGB. */
  lemma ExampleRgba()
    ensures Describe("a.qoi", [113, 111, 105, 102, 0, 0, 0, 10, 0, 0, 0, 5, 4, 0])
            == Ok(Report("a.qoi", 10, 5, "RGBA", "sRGB with linear alpha"))
  {
    var file: seq<Byte> := [113, 111, 105, 102, 0, 0, 0, 10, 0, 0, 0, 5, 4, 0];
    DecodeOkIff(file);
  }

  /** A wrong signature is rejected whatever follows it. */
  lemma ExampleBadMagic(rest: seq<Byte>)
    ensures Decode([0, 0, 0, 0] + rest) == Err(InvalidMagic)
  {
    InvalidMagicIff([0, 0, 0, 0] + rest);
  }

  /** A channels byte of 5 is reported as such, whatever the colorspace byte. */
  lemma ExampleBadChannels(cs: Byte)
    ensures Decode([113, 111, 105, 102, 0, 0, 0, 1, 0, 0, 0, 1, 5, cs])
            == Err(UnknownChannels(5))
  {
    UnknownChannelsIff([113, 111, 105, 102, 0, 0, 0, 1, 0, 0, 0, 1, 5, cs]);
  }
}
