/**
 * The generator of `ProtocolConstants.java`: a pure function from a partial
 * protocol configuration (SysEx framing bytes, message structure offsets and
 * encoding limits, each key optional) and a Java package name to the text of a
 * Java class holding those values as `public static final` constants.
 *
 * The generated text is tied to its meaning by reading it back: `ReadConstants`
 * recovers the declared constants from the lines of the file, and
 * `GeneratedConstantsReadBack` proves that it recovers exactly
 * `ExpectedConstants(config)`, the constants the configuration calls for.
 */
module JavaConstants {
  import opened Wrappers
  import opened PyText

  // ---------------------------------------------------------------------------
  // Configuration records (every key may be missing)
  // ---------------------------------------------------------------------------

  /** SysEx framing configuration; `None` is a key missing from the dictionary. */
  datatype SysExConfig = SysExConfig(
    start: Option<int>,
    end: Option<int>,
    manufacturerId: Option<int>,
    deviceId: Option<int>,
    minMessageLength: Option<int>,
    messageTypeOffset: Option<int>,
    fromHostOffset: Option<int>,
    payloadOffset: Option<int>)

  /** Protocol encoding limits; `None` is a key missing from the dictionary. */
  datatype LimitsConfig = LimitsConfig(
    stringMaxLength: Option<int>,
    arrayMaxItems: Option<int>,
    maxPayloadSize: Option<int>,
    maxMessageSize: Option<int>)

  /** The protocol configuration; `None` is a section missing from the dictionary. */
  datatype ProtocolConfig = ProtocolConfig(sysex: Option<SysExConfig>, limits: Option<LimitsConfig>)

  /** The empty dictionary `{}`. */
  const NoSysEx := SysExConfig(None, None, None, None, None, None, None, None)
  const NoLimits := LimitsConfig(None, None, None, None)

  // Defaults for missing keys.
  const DefaultStart := 0xF0
  const DefaultEnd := 0xF7
  const DefaultManufacturerId := 0x7F
  const DefaultDeviceId := 0x01
  const DefaultMinMessageLength := 6
  const DefaultMessageTypeOffset := 3
  const DefaultFromHostOffset := 4
  const DefaultPayloadOffset := 5
  const DefaultStringMaxLength := 16
  const DefaultArrayMaxItems := 8
  const DefaultMaxPayloadSize := 256
  const DefaultMaxMessageSize := 261

  // ---------------------------------------------------------------------------
  // The generator
  //
  // Long literal lines are written as concatenations of shorter literals; the
  // text is the same, and the verifier reasons about short literals cheaply.
  // ---------------------------------------------------------------------------

  /** The whole file: header, SysEx constants, limits and footer, one newline between each. */
  function GenerateConstantsJava(config: ProtocolConfig, package: string): string
  {
    var header := Header(package);
    var sysexConstants := SysExConstants(config.sysex.GetOr(NoSysEx));
    var limits := Limits(config.limits.GetOr(NoLimits));
    var footer := Footer();
    header + "\n" + sysexConstants + "\n" + limits + "\n" + footer
  }

  /** `n` copies of `c`. */
  function Repeat(c: char, n: nat): (r: string)
    ensures |r| == n && forall i :: 0 <= i < n ==> r[i] == c
  {
    if n == 0 then "" else Repeat(c, n - 1) + [c]
  }

  /** A `//` comment at class-body indentation. */
  function LineComment(text: string): string
  {
    "    // " + text
  }

  /** A one-line `/** ... */` doc comment at class-body indentation. */
  function DocComment(text: string): string
  {
    "    /** " + text + " */"
  }

  /** A section banner: a rule of 76 `=`, the title, another rule. */
  function Banner(title: string): seq<string>
  {
    [LineComment(Repeat('=', 76)), LineComment(title), LineComment(Repeat('=', 76))]
  }

  /** The lines of the header: the package clause, the class comment, the class opening and the first banner. */
  function HeaderLines(package: string): seq<string>
  {
    ["package " + package + ";", ""] + ClassCommentLines() + ClassOpeningLines()
    + Banner("SYSEX FRAMING CONSTANTS") + [""]
  }

  function ClassCommentLines(): seq<string>
  {
    [ "/**",
      " * ProtocolConstants - " + "Protocol Configuration" + " Constants",
      " *",
      " * AUTO-GENERATED - " + "DO NOT EDIT",
      " * Generated from: " + "protocol_config.yaml",
      " *",
      " * This class contains " + "all protocol constants " + "including SysEx framing,",
      " * message structure " + "offsets, and encoding " + "limits.",
      " *",
      " * All constants are " + "public static final " + "(compile-time constants).",
      " */" ]
  }

  function ClassOpeningLines(): seq<string>
  {
    [ "public final class " + "ProtocolConstants {",
      "",
      LineComment("Private constructor " + "prevents instantiation " + "(utility class)"),
      "    private " + "ProtocolConstants() {",
      "        throw new " + "AssertionError(\"Utility " + "class cannot be " + "instantiated\");",
      "    }",
      "" ]
  }

  /** The header text; it ends with a newline, hence the empty last line. */
  function Header(package: string): string
  {
    JoinLines(HeaderLines(package))
  }

  const NoSysExComment := LineComment("No SysEx config found")

  /** The SysEx section: a fixed comment when the dictionary is empty, else the joined lines. */
  function SysExConstants(c: SysExConfig): string
  {
    if c == NoSysEx then NoSysExComment + "\n"
    else JoinLines(SysExLines(c))
  }

  const DeclarationPrefix := "    public static final "

  /** One Java constant declaration. */
  function DeclarationLine(javaType: string, name: string, literal: string): string
  {
    DeclarationPrefix + javaType + " " + name + " = " + literal + ";"
  }

  /** A delimiter byte literal: `(byte) ` in front when the value does not fit a signed Java byte. */
  function DelimiterLiteral(value: int): string
  {
    if value >= 0x80 then "(byte) " + Hex04(value) else Hex04(value)
  }

  /** A constant with its one-line doc comment above it. */
  function Documented(doc: string, javaType: string, name: string, literal: string): seq<string>
  {
    [DocComment(doc), DeclarationLine(javaType, name, literal)]
  }

  /**
   * The lines joined for a non-empty SysEx dictionary: the message delimiters,
   * the protocol identifiers and the message structure offsets, each constant
   * documented, a blank line between each two.
   */
  function SysExLines(c: SysExConfig): seq<string>
  {
    DelimiterLines(c.start.GetOr(DefaultStart), c.end.GetOr(DefaultEnd)) + [""]
    + IdentifierLines(c.manufacturerId.GetOr(DefaultManufacturerId), c.deviceId.GetOr(DefaultDeviceId)) + [""]
    + StructureLines(c.minMessageLength.GetOr(DefaultMinMessageLength), c.messageTypeOffset.GetOr(DefaultMessageTypeOffset),
                     c.fromHostOffset.GetOr(DefaultFromHostOffset), c.payloadOffset.GetOr(DefaultPayloadOffset))
  }

  function DelimiterLines(start: int, end: int): seq<string>
  {
    Documented("SysEx start byte", "byte", "SYSEX_START", DelimiterLiteral(start)) + [""]
    + Documented("SysEx end byte", "byte", "SYSEX_END", DelimiterLiteral(end))
  }

  function IdentifierLines(manufacturerId: int, deviceId: int): seq<string>
  {
    Documented("MIDI manufacturer ID", "byte", "MANUFACTURER_ID", Hex04(manufacturerId)) + [""]
    + Documented("Device identifier", "byte", "DEVICE_ID", Hex04(deviceId))
  }

  function StructureLines(minLength: int, typeOffset: int, fromHostOffset: int, payloadOffset: int): seq<string>
  {
    LengthLines(minLength) + [""] + OffsetLines(typeOffset, fromHostOffset, payloadOffset)
  }

  function LengthLines(minLength: int): seq<string>
  {
    Documented("Minimum valid SysEx " + "message length", "int", "MIN_MESSAGE_LENGTH", Decimal(minLength))
  }

  function OffsetLines(typeOffset: int, fromHostOffset: int, payloadOffset: int): seq<string>
  {
    Documented("Position of MessageID " + "byte in SysEx message", "int", "MESSAGE_TYPE_OFFSET", Decimal(typeOffset)) + [""]
    + Documented("Position of fromHost " + "flag in SysEx message", "int", "FROM_HOST_OFFSET", Decimal(fromHostOffset)) + [""]
    + Documented("Start of payload data " + "in SysEx message", "int", "PAYLOAD_OFFSET", Decimal(payloadOffset))
  }

  /** The limits section: empty text when the dictionary is empty, else the joined lines. */
  function Limits(c: LimitsConfig): string
  {
    if c == NoLimits then "" else JoinLines(LimitsLines(c))
  }

  /**
   * The lines joined for a non-empty limits dictionary: the banner, then the
   * string, array and payload limits, each constant documented, a blank line
   * between each two.
   */
  function LimitsLines(c: LimitsConfig): seq<string>
  {
    [""] + Banner("ENCODING LIMITS") + [""]
    + StringLimitLines(c.stringMaxLength.GetOr(DefaultStringMaxLength)) + [""]
    + ArrayLimitLines(c.arrayMaxItems.GetOr(DefaultArrayMaxItems)) + [""]
    + PayloadLimitLines(c.maxPayloadSize.GetOr(DefaultMaxPayloadSize), c.maxMessageSize.GetOr(DefaultMaxMessageSize))
  }

  function StringLimitLines(stringMax: int): seq<string>
  {
    Documented("Maximum characters " + "per string field", "int", "STRING_MAX_LENGTH", Decimal(stringMax))
  }

  function ArrayLimitLines(arrayMax: int): seq<string>
  {
    Documented("Maximum items per " + "array field", "int", "ARRAY_MAX_ITEMS", Decimal(arrayMax))
  }

  function PayloadLimitLines(maxPayload: int, maxMessage: int): seq<string>
  {
    Documented("Maximum payload bytes", "int", "MAX_PAYLOAD_SIZE", Decimal(maxPayload)) + [""]
    + Documented("Maximum total " + "message bytes", "int", "MAX_MESSAGE_SIZE", Decimal(maxMessage))
  }

  /** The lines of the footer: two blank lines, the closing brace, and a final newline. */
  function FooterLines(): seq<string>
  {
    ["", "", "}  // class " + "ProtocolConstants", ""]
  }

  function Footer(): string
  {
    JoinLines(FooterLines())
  }

  // ---------------------------------------------------------------------------
  // Reading the generated text back
  // ---------------------------------------------------------------------------

  datatype Declaration = Declaration(javaType: string, name: string, literal: string)

  /**
   * Recognises a line `    public static final <type> <name> = <literal>;`
   * and splits it into its three parts; any other line gives `None`.
   */
  function ParseDeclaration(line: string): Option<Declaration>
  {
    var n := |DeclarationPrefix|;
    if |line| <= n || line[..n] != DeclarationPrefix || line[|line| - 1] != ';' then None
    else
      var body := line[n..|line| - 1];
      var i := FirstIndex(body, ' ');
      var rest := if i < |body| then body[i + 1..] else "";
      var j := FirstIndex(rest, ' ');
      if i == |body| || |rest| < j + 3 || rest[j..j + 3] != " = " then None
      else Some(Declaration(body[..i], rest[..j], rest[j + 3..]))
  }

  /** How a constant's value is written. */
  datatype Notation = HexLiteral | ByteCastHexLiteral | DecimalLiteral

  /** A constant as the Java compiler sees it: its type, its name, its value and how it is written. */
  datatype Constant = Constant(javaType: string, name: string, value: int, notation: Notation)

  const ByteCast := "(byte) "

  /** The value of a literal: `(byte) ` then a hex literal, a hex literal, or a decimal literal. */
  function ReadLiteral(literal: string): Option<(int, Notation)>
  {
    if |literal| >= |ByteCast| && literal[..|ByteCast|] == ByteCast then
      match ParseHex(literal[|ByteCast|..])
      case Some(v) => Some((v, ByteCastHexLiteral))
      case None => None
    else
      match ParseHex(literal)
      case Some(v) => Some((v, HexLiteral))
      case None =>
        match ParseDecimal(literal)
        case Some(v) => Some((v, DecimalLiteral))
        case None => None
  }

  /** What one line contributes: nothing, a constant, or a declaration whose literal cannot be read. */
  datatype LineReading = NoDeclaration | Declares(constant: Constant) | Unreadable

  function ReadLine(line: string): LineReading
  {
    match ParseDeclaration(line)
    case None => NoDeclaration
    case Some(d) =>
      match ReadLiteral(d.literal)
      case Some((v, notation)) => Declares(Constant(d.javaType, d.name, v, notation))
      case None => Unreadable
  }

  /**
   * The constants declared by `lines`, in order; `None` when a declaration's
   * literal cannot be read.
   */
  function ReadConstants(lines: seq<string>): Option<seq<Constant>>
  {
    Gather(lines, ReadLine)
  }

  /** Reads each line with `read` and keeps the constants, in order; `None` as soon as one is unreadable. */
  function Gather(lines: seq<string>, read: string -> LineReading): Option<seq<Constant>>
  {
    if |lines| == 0 then Some([])
    else
      match (read(lines[0]), Gather(lines[1..], read))
      case (NoDeclaration, rest) => rest
      case (Declares(c), Some(cs)) => Some([c] + cs)
      case _ => None
  }
}
