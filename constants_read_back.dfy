/**
 * What `ProtocolConstants.java` declares.  `ReadConstants` reads the lines of
 * the generated text back into constants; `GeneratedConstantsReadBack` proves
 * that it recovers exactly `ExpectedConstants(config)`: the SysEx constants
 * (when the section is not empty), then the limit constants (likewise), each
 * with its configured value or its default, the delimiters with the `(byte)`
 * cast exactly when their value is at least 0x80.
 */
module ConstantsReadBack {
  import opened Wrappers
  import opened PyText
  import opened JavaConstants

  // ---------------------------------------------------------------------------
  // What the file is meant to declare
  // ---------------------------------------------------------------------------

  /** How a delimiter is written: with the `(byte)` cast exactly when its value is at least 0x80. */
  function DelimiterNotation(value: int): Notation
  {
    if value >= 0x80 then ByteCastHexLiteral else HexLiteral
  }

  /**
   * The SysEx constants a dictionary calls for, in order: none for the empty
   * dictionary, otherwise all eight, each with its key's value or its default.
   */
  function ExpectedSysExConstants(c: SysExConfig): seq<Constant>
  {
    if c == NoSysEx then []
    else
      DelimiterConstants(c.start.GetOr(DefaultStart), c.end.GetOr(DefaultEnd))
      + IdentifierConstants(c.manufacturerId.GetOr(DefaultManufacturerId), c.deviceId.GetOr(DefaultDeviceId))
      + StructureConstants(c.minMessageLength.GetOr(DefaultMinMessageLength), c.messageTypeOffset.GetOr(DefaultMessageTypeOffset),
                           c.fromHostOffset.GetOr(DefaultFromHostOffset), c.payloadOffset.GetOr(DefaultPayloadOffset))
  }

  function DelimiterConstants(start: int, end: int): seq<Constant>
  {
    [ Constant("byte", "SYSEX_START", start, DelimiterNotation(start)),
      Constant("byte", "SYSEX_END", end, DelimiterNotation(end)) ]
  }

  function IdentifierConstants(manufacturerId: int, deviceId: int): seq<Constant>
  {
    [ Constant("byte", "MANUFACTURER_ID", manufacturerId, HexLiteral),
      Constant("byte", "DEVICE_ID", deviceId, HexLiteral) ]
  }

  function StructureConstants(minLength: int, typeOffset: int, fromHostOffset: int, payloadOffset: int): seq<Constant>
  {
    [Constant("int", "MIN_MESSAGE_LENGTH", minLength, DecimalLiteral)] + OffsetConstants(typeOffset, fromHostOffset, payloadOffset)
  }

  function OffsetConstants(typeOffset: int, fromHostOffset: int, payloadOffset: int): seq<Constant>
  {
    [ Constant("int", "MESSAGE_TYPE_OFFSET", typeOffset, DecimalLiteral),
      Constant("int", "FROM_HOST_OFFSET", fromHostOffset, DecimalLiteral),
      Constant("int", "PAYLOAD_OFFSET", payloadOffset, DecimalLiteral) ]
  }

  /** The limit constants a dictionary calls for, in order: none for the empty dictionary, otherwise all four. */
  function ExpectedLimitConstants(c: LimitsConfig): seq<Constant>
  {
    if c == NoLimits then []
    else
      [ Constant("int", "STRING_MAX_LENGTH", c.stringMaxLength.GetOr(DefaultStringMaxLength), DecimalLiteral),
        Constant("int", "ARRAY_MAX_ITEMS", c.arrayMaxItems.GetOr(DefaultArrayMaxItems), DecimalLiteral) ]
      + PayloadLimitConstants(c.maxPayloadSize.GetOr(DefaultMaxPayloadSize), c.maxMessageSize.GetOr(DefaultMaxMessageSize))
  }

  function PayloadLimitConstants(maxPayload: int, maxMessage: int): seq<Constant>
  {
    [ Constant("int", "MAX_PAYLOAD_SIZE", maxPayload, DecimalLiteral),
      Constant("int", "MAX_MESSAGE_SIZE", maxMessage, DecimalLiteral) ]
  }

  /** A missing section reads as the empty dictionary. */
  function ExpectedConstants(config: ProtocolConfig): seq<Constant>
  {
    ExpectedSysExConstants(config.sysex.GetOr(NoSysEx)) + ExpectedLimitConstants(config.limits.GetOr(NoLimits))
  }

  // ---------------------------------------------------------------------------
  // The file, line by line
  // ---------------------------------------------------------------------------

  /** The lines of the SysEx section's text (the fixed comment's text ends with a newline). */
  function SysExSectionLines(c: SysExConfig): seq<string>
  {
    if c == NoSysEx then [NoSysExComment, ""] else SysExLines(c)
  }

  /** The lines of the limits section's text (the empty text is one empty line). */
  function LimitsSectionLines(c: LimitsConfig): seq<string>
  {
    if c == NoLimits then [""] else LimitsLines(c)
  }

  function FileLines(config: ProtocolConfig, package: string): seq<string>
  {
    HeaderLines(package) + SysExSectionLines(config.sysex.GetOr(NoSysEx))
    + LimitsSectionLines(config.limits.GetOr(NoLimits)) + FooterLines()
  }

  predicate NewlineFree(lines: seq<string>)
  {
    forall k :: 0 <= k < |lines| ==> '\n' !in lines[k]
  }

  // ---------------------------------------------------------------------------
  // The main theorem
  // ---------------------------------------------------------------------------

  /**
   * Reading the generated file back, line by line, recovers exactly the
   * constants the configuration calls for, in order, with their types, names,
   * values and notations.
   */
  lemma GeneratedConstantsReadBack(config: ProtocolConfig, package: string)
    requires '\n' !in package
    ensures ReadConstants(Lines(GenerateConstantsJava(config, package))) == Some(ExpectedConstants(config))
  {
    ReadLineIsLineReader();
    GeneratedTextReadBack(config, package, ReadLine);
  }

  /**
   * What a line reader must do for the theorem: ignore every line that cannot
   * be a declaration, and read a declaration with a readable literal as its
   * constant.  The proofs below use only this, never the parser's details.
   */
  ghost predicate IsLineReader(read: string -> LineReading)
  {
    && (forall line :: CannotDeclare(line) ==> read(line) == NoDeclaration)
    && (forall javaType, name, literal | ' ' !in javaType && ' ' !in name && ReadLiteral(literal).Some? ::
          read(DeclarationLine(javaType, name, literal))
          == Declares(Constant(javaType, name, ReadLiteral(literal).value.0, ReadLiteral(literal).value.1)))
  }

  lemma ReadLineIsLineReader()
    ensures IsLineReader(ReadLine)
  {
    forall line | CannotDeclare(line) ensures ReadLine(line) == NoDeclaration {
      NotADeclaration(line);
    }
    forall javaType, name, literal | ' ' !in javaType && ' ' !in name && ReadLiteral(literal).Some?
      ensures ReadLine(DeclarationLine(javaType, name, literal))
        == Declares(Constant(javaType, name, ReadLiteral(literal).value.0, ReadLiteral(literal).value.1))
    {
      ReadDeclarationLine(javaType, name, literal);
    }
  }

  lemma GeneratedTextReadBack(config: ProtocolConfig, package: string, read: string -> LineReading)
    requires IsLineReader(read) && '\n' !in package
    ensures Gather(Lines(GenerateConstantsJava(config, package)), read) == Some(ExpectedConstants(config))
  {
    GeneratedText(config, package);
    FileLinesReadBack(config, package, read);
    LinesOfJoin(FileLines(config, package));
  }

  /** The generated text is the file's lines joined with newlines. */
  lemma GeneratedText(config: ProtocolConfig, package: string)
    ensures GenerateConstantsJava(config, package) == JoinLines(FileLines(config, package))
  {
    var sysex := config.sysex.GetOr(NoSysEx);
    var limits := config.limits.GetOr(NoLimits);
    var H, S, L, F := HeaderLines(package), SysExSectionLines(sysex), LimitsSectionLines(limits), FooterLines();
    SysExSectionText(sysex);
    LimitsSectionText(limits);
    JoinLinesAppend(H, S);
    JoinLinesAppend(H + S, L);
    JoinLinesAppend(H + S + L, F);
  }

  lemma SysExSectionText(c: SysExConfig)
    ensures |SysExSectionLines(c)| >= 1 && SysExConstants(c) == JoinLines(SysExSectionLines(c))
  {
    if c == NoSysEx {
      var S := SysExSectionLines(c);
      assert S[1..] == [""];
      assert JoinLines(S) == S[0] + ['\n'] + Join(S[1..], '\n');
      assert NoSysExComment + "\n" + "" == NoSysExComment + "\n";
    }
  }

  lemma LimitsSectionText(c: LimitsConfig)
    ensures |LimitsSectionLines(c)| >= 1 && Limits(c) == JoinLines(LimitsSectionLines(c))
  {
  }

  /** The file's lines hold no newline and read back as the expected constants. */
  lemma FileLinesReadBack(config: ProtocolConfig, package: string, read: string -> LineReading)
    requires IsLineReader(read) && '\n' !in package
    ensures |FileLines(config, package)| >= 1 && NewlineFree(FileLines(config, package))
    ensures Gather(FileLines(config, package), read) == Some(ExpectedConstants(config))
  {
    var sysex := config.sysex.GetOr(NoSysEx);
    var limits := config.limits.GetOr(NoLimits);
    HeaderFacts(package, read);
    SysExSectionFacts(sysex, read);
    LimitsSectionFacts(limits, read);
    FooterFacts(read);
    Sandwiched(HeaderLines(package), SysExSectionLines(sysex), LimitsSectionLines(limits), FooterLines(),
      ExpectedSysExConstants(sysex), ExpectedLimitConstants(limits), read);
  }

  /** Two parts between two parts that declare nothing read as the two parts' constants. */
  lemma Sandwiched(h: seq<string>, s: seq<string>, l: seq<string>, f: seq<string>,
                   xs: seq<Constant>, ys: seq<Constant>, read: string -> LineReading)
    requires NewlineFree(h) && NewlineFree(s) && NewlineFree(l) && NewlineFree(f) && |h| >= 1
    requires Gather(h, read) == Some([]) && Gather(s, read) == Some(xs)
    requires Gather(l, read) == Some(ys) && Gather(f, read) == Some([])
    ensures |h + s + l + f| >= 1 && NewlineFree(h + s + l + f)
    ensures Gather(h + s + l + f, read) == Some(xs + ys)
  {
    NewlineFreeAppend(h, s);
    NewlineFreeAppend(h + s, l);
    NewlineFreeAppend(h + s + l, f);
    GatherAppend(h, s, read);
    assert [] + xs == xs;
    GatherAppend(h + s, l, read);
    GatherAppend(h + s + l, f, read);
    assert xs + ys + [] == xs + ys;
  }

  // ---------------------------------------------------------------------------
  // The parts of the file
  // ---------------------------------------------------------------------------

  lemma HeaderFacts(package: string, read: string -> LineReading)
    requires IsLineReader(read) && '\n' !in package
    ensures |HeaderLines(package)| >= 1 && NewlineFree(HeaderLines(package))
    ensures Gather(HeaderLines(package), read) == Some([])
  {
    HeaderInert(package);
    InertLines(HeaderLines(package), read);
  }

  lemma HeaderInert(package: string)
    requires '\n' !in package
    ensures AllInert(HeaderLines(package))
  {
    ClassCommentInert();
    ClassOpeningInert();
    BannerInert("SYSEX FRAMING CONSTANTS");
    HeaderPartsInert(package, ClassCommentLines(), ClassOpeningLines(), Banner("SYSEX FRAMING CONSTANTS"));
  }

  /** The package clause and a blank line, then three parts that declare nothing, then a blank line. */
  lemma HeaderPartsInert(package: string, c: seq<string>, o: seq<string>, b: seq<string>)
    requires '\n' !in package
    requires AllInert(c) && AllInert(o) && AllInert(b)
    ensures AllInert(["package " + package + ";", ""] + c + o + b + [""])
  {
    var p := ["package " + package + ";", ""];
    assert Inert(p[0]) by { assert p[0][0] == 'p'; }
    assert AllInert([""]);
    AllInertParts(p, c, o, b, [""]);
  }

  lemma AllInertParts(a: seq<string>, b: seq<string>, c: seq<string>, d: seq<string>, e: seq<string>)
    requires AllInert(a) && AllInert(b) && AllInert(c) && AllInert(d) && AllInert(e)
    ensures AllInert(a + b + c + d + e)
  {
    AllInertAppend(a, b);
    AllInertAppend(a + b, c);
    AllInertAppend(a + b + c, d);
    AllInertAppend(a + b + c + d, e);
  }

  lemma FooterFacts(read: string -> LineReading)
    requires IsLineReader(read)
    ensures |FooterLines()| >= 1 && NewlineFree(FooterLines())
    ensures Gather(FooterLines(), read) == Some([])
  {
    var F := FooterLines();
    assert Inert(F[2]);
    assert AllInert(F);
    InertLines(F, read);
  }

  lemma SysExSectionFacts(c: SysExConfig, read: string -> LineReading)
    requires IsLineReader(read)
    ensures |SysExSectionLines(c)| >= 1 && NewlineFree(SysExSectionLines(c))
    ensures Gather(SysExSectionLines(c), read) == Some(ExpectedSysExConstants(c))
  {
    if c == NoSysEx {
      NoSysExFacts(read);
    } else {
      var start, end := c.start.GetOr(DefaultStart), c.end.GetOr(DefaultEnd);
      var manufacturerId, deviceId := c.manufacturerId.GetOr(DefaultManufacturerId), c.deviceId.GetOr(DefaultDeviceId);
      var minLength := c.minMessageLength.GetOr(DefaultMinMessageLength);
      var typeOffset := c.messageTypeOffset.GetOr(DefaultMessageTypeOffset);
      var fromHostOffset := c.fromHostOffset.GetOr(DefaultFromHostOffset);
      var payloadOffset := c.payloadOffset.GetOr(DefaultPayloadOffset);
      SysExGroupsReadBack(start, end, manufacturerId, deviceId, minLength, typeOffset, fromHostOffset, payloadOffset, read);
      assert SysExSectionLines(c) == DelimiterLines(start, end) + [""] + IdentifierLines(manufacturerId, deviceId) + [""]
        + StructureLines(minLength, typeOffset, fromHostOffset, payloadOffset);
    }
  }

  /** The comment that stands in for the empty SysEx section declares nothing. */
  lemma NoSysExFacts(read: string -> LineReading)
    requires IsLineReader(read)
    ensures NewlineFree([NoSysExComment, ""]) && Gather([NoSysExComment, ""], read) == Some([])
  {
    LineCommentInert("No SysEx config found");
    assert AllInert([NoSysExComment, ""]);
    InertLines([NoSysExComment, ""], read);
  }

  /** The three groups of SysEx constants, a blank line between each two, read back in order. */
  lemma SysExGroupsReadBack(start: int, end: int, manufacturerId: int, deviceId: int,
                            minLength: int, typeOffset: int, fromHostOffset: int, payloadOffset: int,
                            read: string -> LineReading)
    requires IsLineReader(read)
    ensures var lines := DelimiterLines(start, end) + [""] + IdentifierLines(manufacturerId, deviceId) + [""]
      + StructureLines(minLength, typeOffset, fromHostOffset, payloadOffset);
      |lines| >= 1 && NewlineFree(lines)
      && Gather(lines, read) == Some(DelimiterConstants(start, end) + IdentifierConstants(manufacturerId, deviceId)
           + StructureConstants(minLength, typeOffset, fromHostOffset, payloadOffset))
  {
    var D, I, S := DelimiterLines(start, end), IdentifierLines(manufacturerId, deviceId),
      StructureLines(minLength, typeOffset, fromHostOffset, payloadOffset);
    var d, i, s := DelimiterConstants(start, end), IdentifierConstants(manufacturerId, deviceId),
      StructureConstants(minLength, typeOffset, fromHostOffset, payloadOffset);
    DelimiterLinesReadBack(start, end, read);
    IdentifierLinesReadBack(manufacturerId, deviceId, read);
    StructureLinesReadBack(minLength, typeOffset, fromHostOffset, payloadOffset, read);
    SeparatedReadBack(D, I, d, i, read);
    SeparatedReadBack(D + [""] + I, S, d + i, s, read);
  }

  lemma DelimiterLinesReadBack(start: int, end: int, read: string -> LineReading)
    requires IsLineReader(read)
    ensures NewlineFree(DelimiterLines(start, end))
    ensures Gather(DelimiterLines(start, end), read) == Some(DelimiterConstants(start, end))
  {
    var S := Documented("SysEx start byte", "byte", "SYSEX_START", DelimiterLiteral(start));
    var E := Documented("SysEx end byte", "byte", "SYSEX_END", DelimiterLiteral(end));
    var s := [Constant("byte", "SYSEX_START", start, DelimiterNotation(start))];
    var e := [Constant("byte", "SYSEX_END", end, DelimiterNotation(end))];
    StartReadBack(start, read);
    EndReadBack(end, read);
    TwoSeparatedReadBack(S, E, s[0], e[0], read);
  }

  lemma IdentifierLinesReadBack(manufacturerId: int, deviceId: int, read: string -> LineReading)
    requires IsLineReader(read)
    ensures NewlineFree(IdentifierLines(manufacturerId, deviceId))
    ensures Gather(IdentifierLines(manufacturerId, deviceId), read) == Some(IdentifierConstants(manufacturerId, deviceId))
  {
    var M := Documented("MIDI manufacturer ID", "byte", "MANUFACTURER_ID", Hex04(manufacturerId));
    var D := Documented("Device identifier", "byte", "DEVICE_ID", Hex04(deviceId));
    var m := [Constant("byte", "MANUFACTURER_ID", manufacturerId, HexLiteral)];
    var d := [Constant("byte", "DEVICE_ID", deviceId, HexLiteral)];
    ManufacturerIdReadBack(manufacturerId, read);
    DeviceIdReadBack(deviceId, read);
    TwoSeparatedReadBack(M, D, m[0], d[0], read);
  }

  lemma StructureLinesReadBack(minLength: int, typeOffset: int, fromHostOffset: int, payloadOffset: int,
                               read: string -> LineReading)
    requires IsLineReader(read)
    ensures NewlineFree(StructureLines(minLength, typeOffset, fromHostOffset, payloadOffset))
    ensures Gather(StructureLines(minLength, typeOffset, fromHostOffset, payloadOffset), read)
      == Some(StructureConstants(minLength, typeOffset, fromHostOffset, payloadOffset))
  {
    var L, O := LengthLines(minLength), OffsetLines(typeOffset, fromHostOffset, payloadOffset);
    var l, o := [Constant("int", "MIN_MESSAGE_LENGTH", minLength, DecimalLiteral)], OffsetConstants(typeOffset, fromHostOffset, payloadOffset);
    MinLengthReadBack(minLength, read);
    assert Gather(L, read) == Some(l) && NewlineFree(L);
    OffsetLinesReadBack(typeOffset, fromHostOffset, payloadOffset, read);
    SeparatedReadBack(L, O, l, o, read);
    assert StructureLines(minLength, typeOffset, fromHostOffset, payloadOffset) == L + [""] + O;
    assert StructureConstants(minLength, typeOffset, fromHostOffset, payloadOffset) == l + o;
  }

  lemma OffsetLinesReadBack(typeOffset: int, fromHostOffset: int, payloadOffset: int, read: string -> LineReading)
    requires IsLineReader(read)
    ensures NewlineFree(OffsetLines(typeOffset, fromHostOffset, payloadOffset))
    ensures Gather(OffsetLines(typeOffset, fromHostOffset, payloadOffset), read)
      == Some(OffsetConstants(typeOffset, fromHostOffset, payloadOffset))
  {
    var T := Documented("Position of MessageID " + "byte in SysEx message", "int", "MESSAGE_TYPE_OFFSET", Decimal(typeOffset));
    var H := Documented("Position of fromHost " + "flag in SysEx message", "int", "FROM_HOST_OFFSET", Decimal(fromHostOffset));
    var P := Documented("Start of payload data " + "in SysEx message", "int", "PAYLOAD_OFFSET", Decimal(payloadOffset));
    var t := Constant("int", "MESSAGE_TYPE_OFFSET", typeOffset, DecimalLiteral);
    var h := Constant("int", "FROM_HOST_OFFSET", fromHostOffset, DecimalLiteral);
    var p := Constant("int", "PAYLOAD_OFFSET", payloadOffset, DecimalLiteral);
    TypeOffsetReadBack(typeOffset, read);
    FromHostOffsetReadBack(fromHostOffset, read);
    PayloadOffsetReadBack(payloadOffset, read);
    ThreeSeparatedReadBack(T, H, P, t, h, p, read);
  }

  /** Two one-constant parts with a blank line between them, read back in order. */
  lemma TwoSeparatedReadBack(a: seq<string>, b: seq<string>, x: Constant, y: Constant, read: string -> LineReading)
    requires IsLineReader(read)
    requires NewlineFree(a) && NewlineFree(b)
    requires Gather(a, read) == Some([x]) && Gather(b, read) == Some([y])
    ensures NewlineFree(a + [""] + b)
    ensures Gather(a + [""] + b, read) == Some([x, y])
  {
    SeparatedReadBack(a, b, [x], [y], read);
    assert [x] + [y] == [x, y];
  }

  /** Three one-constant parts, a blank line between each two, read back in order. */
  lemma ThreeSeparatedReadBack(a: seq<string>, b: seq<string>, c: seq<string>, x: Constant, y: Constant, z: Constant,
                               read: string -> LineReading)
    requires IsLineReader(read)
    requires NewlineFree(a) && NewlineFree(b) && NewlineFree(c)
    requires Gather(a, read) == Some([x]) && Gather(b, read) == Some([y]) && Gather(c, read) == Some([z])
    ensures NewlineFree(a + [""] + b + [""] + c)
    ensures Gather(a + [""] + b + [""] + c, read) == Some([x, y, z])
  {
    SeparatedReadBack(a, b, [x], [y], read);
    SeparatedReadBack(a + [""] + b, c, [x] + [y], [z], read);
    assert [x] + [y] + [z] == [x, y, z];
  }

  lemma LimitsSectionFacts(c: LimitsConfig, read: string -> LineReading)
    requires IsLineReader(read)
    ensures |LimitsSectionLines(c)| >= 1 && NewlineFree(LimitsSectionLines(c))
    ensures Gather(LimitsSectionLines(c), read) == Some(ExpectedLimitConstants(c))
  {
    if c == NoLimits {
      BlankLine(read);
    } else {
      var stringMax, arrayMax := c.stringMaxLength.GetOr(DefaultStringMaxLength), c.arrayMaxItems.GetOr(DefaultArrayMaxItems);
      var maxPayload, maxMessage := c.maxPayloadSize.GetOr(DefaultMaxPayloadSize), c.maxMessageSize.GetOr(DefaultMaxMessageSize);
      LimitGroupsReadBack(stringMax, arrayMax, maxPayload, maxMessage, read);
      assert LimitsSectionLines(c) == [""] + Banner("ENCODING LIMITS") + [""] + StringLimitLines(stringMax) + [""]
        + ArrayLimitLines(arrayMax) + [""] + PayloadLimitLines(maxPayload, maxMessage);
    }
  }

  /** The banner, then the string, array and payload limits, a blank line between each two, read back in order. */
  lemma LimitGroupsReadBack(stringMax: int, arrayMax: int, maxPayload: int, maxMessage: int, read: string -> LineReading)
    requires IsLineReader(read)
    ensures var lines := [""] + Banner("ENCODING LIMITS") + [""] + StringLimitLines(stringMax) + [""]
      + ArrayLimitLines(arrayMax) + [""] + PayloadLimitLines(maxPayload, maxMessage);
      |lines| >= 1 && NewlineFree(lines)
      && Gather(lines, read) == Some([ Constant("int", "STRING_MAX_LENGTH", stringMax, DecimalLiteral),
                                       Constant("int", "ARRAY_MAX_ITEMS", arrayMax, DecimalLiteral) ]
                                     + PayloadLimitConstants(maxPayload, maxMessage))
  {
    var B := [""] + Banner("ENCODING LIMITS") + [""];
    var S, A, P := StringLimitLines(stringMax), ArrayLimitLines(arrayMax), PayloadLimitLines(maxPayload, maxMessage);
    var s := [Constant("int", "STRING_MAX_LENGTH", stringMax, DecimalLiteral)];
    var a := [Constant("int", "ARRAY_MAX_ITEMS", arrayMax, DecimalLiteral)];
    ItemLimitsReadBack(stringMax, arrayMax, read);
    PayloadLimitLinesReadBack(maxPayload, maxMessage, read);
    SeparatedReadBack(B + S + [""] + A, P, s + a, PayloadLimitConstants(maxPayload, maxMessage), read);
    assert s + a == [s[0], a[0]];
  }

  /** The banner, then the string and array limits, read back in order. */
  lemma ItemLimitsReadBack(stringMax: int, arrayMax: int, read: string -> LineReading)
    requires IsLineReader(read)
    ensures var lines := [""] + Banner("ENCODING LIMITS") + [""] + StringLimitLines(stringMax) + [""] + ArrayLimitLines(arrayMax);
      NewlineFree(lines)
      && Gather(lines, read) == Some([Constant("int", "STRING_MAX_LENGTH", stringMax, DecimalLiteral)]
                                     + [Constant("int", "ARRAY_MAX_ITEMS", arrayMax, DecimalLiteral)])
  {
    var B := [""] + Banner("ENCODING LIMITS") + [""];
    var S, A := StringLimitLines(stringMax), ArrayLimitLines(arrayMax);
    var s := [Constant("int", "STRING_MAX_LENGTH", stringMax, DecimalLiteral)];
    var a := [Constant("int", "ARRAY_MAX_ITEMS", arrayMax, DecimalLiteral)];
    LimitsBannerFacts(read);
    StringMaxReadBack(stringMax, read);
    ArrayMaxReadBack(arrayMax, read);
    assert Gather(S, read) == Some(s) && NewlineFree(S);
    assert Gather(A, read) == Some(a) && NewlineFree(A);
    NewlineFreeAppend(B, S);
    GatherAppend(B, S, read);
    assert [] + s == s;
    SeparatedReadBack(B + S, A, s, a, read);
  }

  lemma LimitsBannerFacts(read: string -> LineReading)
    requires IsLineReader(read)
    ensures var B := [""] + Banner("ENCODING LIMITS") + [""]; NewlineFree(B) && Gather(B, read) == Some([])
  {
    BannerInert("ENCODING LIMITS");
    AllInertAppend([""], Banner("ENCODING LIMITS"));
    AllInertAppend([""] + Banner("ENCODING LIMITS"), [""]);
    InertLines([""] + Banner("ENCODING LIMITS") + [""], read);
  }

  lemma PayloadLimitLinesReadBack(maxPayload: int, maxMessage: int, read: string -> LineReading)
    requires IsLineReader(read)
    ensures NewlineFree(PayloadLimitLines(maxPayload, maxMessage))
    ensures Gather(PayloadLimitLines(maxPayload, maxMessage), read) == Some(PayloadLimitConstants(maxPayload, maxMessage))
  {
    var P := Documented("Maximum payload bytes", "int", "MAX_PAYLOAD_SIZE", Decimal(maxPayload));
    var M := Documented("Maximum total " + "message bytes", "int", "MAX_MESSAGE_SIZE", Decimal(maxMessage));
    var p := [Constant("int", "MAX_PAYLOAD_SIZE", maxPayload, DecimalLiteral)];
    var m := [Constant("int", "MAX_MESSAGE_SIZE", maxMessage, DecimalLiteral)];
    MaxPayloadReadBack(maxPayload, read);
    MaxMessageReadBack(maxMessage, read);
    TwoSeparatedReadBack(P, M, p[0], m[0], read);
  }

  /** Two parts with a blank line between them read as the first part's constants, then the second's. */
  lemma SeparatedReadBack(a: seq<string>, b: seq<string>, xs: seq<Constant>, ys: seq<Constant>, read: string -> LineReading)
    requires IsLineReader(read)
    requires NewlineFree(a) && NewlineFree(b)
    requires Gather(a, read) == Some(xs) && Gather(b, read) == Some(ys)
    ensures NewlineFree(a + [""] + b)
    ensures Gather(a + [""] + b, read) == Some(xs + ys)
  {
    BlankLine(read);
    NewlineFreeAppend(a, [""]);
    NewlineFreeAppend(a + [""], b);
    GatherAppend(a, [""], read);
    GatherAppend(a + [""], b, read);
    assert xs + [] + ys == xs + ys;
  }

  lemma BlankLine(read: string -> LineReading)
    requires IsLineReader(read)
    ensures NewlineFree([""]) && Gather([""], read) == Some([])
  {
    assert AllInert([""]);
    InertLines([""], read);
  }

  // ---------------------------------------------------------------------------
  // Declarations and literals
  // ---------------------------------------------------------------------------

  /** The doc text, type and name of a constant each fit on a line, and the type and name hold no space. */
  predicate PlainWords(doc: string, javaType: string, name: string)
  {
    '\n' !in doc && '\n' !in javaType && '\n' !in name && ' ' !in javaType && ' ' !in name
  }

  // One lemma per constant: what the verifier must show about a text literal
  // costs it more than in proportion to the literal's length, so each
  // constant's doc text and name are dealt with on their own.

  lemma StartReadBack(start: int, read: string -> LineReading)
    requires IsLineReader(read)
    ensures var lines := Documented("SysEx start byte", "byte", "SYSEX_START", DelimiterLiteral(start));
      NewlineFree(lines) && Gather(lines, read) == Some([Constant("byte", "SYSEX_START", start, DelimiterNotation(start))])
  {
    assert PlainWords("SysEx start byte", "byte", "SYSEX_START");
    ReadDelimiterLiteral(start);
    DocumentedReadBack("SysEx start byte", "byte", "SYSEX_START", DelimiterLiteral(start), read);
  }

  lemma EndReadBack(end: int, read: string -> LineReading)
    requires IsLineReader(read)
    ensures var lines := Documented("SysEx end byte", "byte", "SYSEX_END", DelimiterLiteral(end));
      NewlineFree(lines) && Gather(lines, read) == Some([Constant("byte", "SYSEX_END", end, DelimiterNotation(end))])
  {
    assert PlainWords("SysEx end byte", "byte", "SYSEX_END");
    ReadDelimiterLiteral(end);
    DocumentedReadBack("SysEx end byte", "byte", "SYSEX_END", DelimiterLiteral(end), read);
  }

  lemma ManufacturerIdReadBack(manufacturerId: int, read: string -> LineReading)
    requires IsLineReader(read)
    ensures var lines := Documented("MIDI manufacturer ID", "byte", "MANUFACTURER_ID", Hex04(manufacturerId));
      NewlineFree(lines) && Gather(lines, read) == Some([Constant("byte", "MANUFACTURER_ID", manufacturerId, HexLiteral)])
  {
    assert PlainWords("MIDI manufacturer ID", "byte", "MANUFACTURER_ID");
    ReadHexLiteral(manufacturerId);
    DocumentedReadBack("MIDI manufacturer ID", "byte", "MANUFACTURER_ID", Hex04(manufacturerId), read);
  }

  lemma DeviceIdReadBack(deviceId: int, read: string -> LineReading)
    requires IsLineReader(read)
    ensures var lines := Documented("Device identifier", "byte", "DEVICE_ID", Hex04(deviceId));
      NewlineFree(lines) && Gather(lines, read) == Some([Constant("byte", "DEVICE_ID", deviceId, HexLiteral)])
  {
    assert PlainWords("Device identifier", "byte", "DEVICE_ID");
    ReadHexLiteral(deviceId);
    DocumentedReadBack("Device identifier", "byte", "DEVICE_ID", Hex04(deviceId), read);
  }

  lemma MinLengthReadBack(minLength: int, read: string -> LineReading)
    requires IsLineReader(read)
    ensures var lines := Documented("Minimum valid SysEx " + "message length", "int", "MIN_MESSAGE_LENGTH", Decimal(minLength));
      NewlineFree(lines) && Gather(lines, read) == Some([Constant("int", "MIN_MESSAGE_LENGTH", minLength, DecimalLiteral)])
  {
    assert PlainWords("Minimum valid SysEx " + "message length", "int", "MIN_MESSAGE_LENGTH");
    ReadDecimalLiteral(minLength);
    DocumentedReadBack("Minimum valid SysEx " + "message length", "int", "MIN_MESSAGE_LENGTH", Decimal(minLength), read);
  }

  lemma TypeOffsetReadBack(typeOffset: int, read: string -> LineReading)
    requires IsLineReader(read)
    ensures var lines := Documented("Position of MessageID " + "byte in SysEx message", "int", "MESSAGE_TYPE_OFFSET", Decimal(typeOffset));
      NewlineFree(lines) && Gather(lines, read) == Some([Constant("int", "MESSAGE_TYPE_OFFSET", typeOffset, DecimalLiteral)])
  {
    assert PlainWords("Position of MessageID " + "byte in SysEx message", "int", "MESSAGE_TYPE_OFFSET");
    ReadDecimalLiteral(typeOffset);
    DocumentedReadBack("Position of MessageID " + "byte in SysEx message", "int", "MESSAGE_TYPE_OFFSET", Decimal(typeOffset), read);
  }

  lemma FromHostOffsetReadBack(fromHostOffset: int, read: string -> LineReading)
    requires IsLineReader(read)
    ensures var lines := Documented("Position of fromHost " + "flag in SysEx message", "int", "FROM_HOST_OFFSET", Decimal(fromHostOffset));
      NewlineFree(lines) && Gather(lines, read) == Some([Constant("int", "FROM_HOST_OFFSET", fromHostOffset, DecimalLiteral)])
  {
    assert PlainWords("Position of fromHost " + "flag in SysEx message", "int", "FROM_HOST_OFFSET");
    ReadDecimalLiteral(fromHostOffset);
    DocumentedReadBack("Position of fromHost " + "flag in SysEx message", "int", "FROM_HOST_OFFSET", Decimal(fromHostOffset), read);
  }

  lemma PayloadOffsetReadBack(payloadOffset: int, read: string -> LineReading)
    requires IsLineReader(read)
    ensures var lines := Documented("Start of payload data " + "in SysEx message", "int", "PAYLOAD_OFFSET", Decimal(payloadOffset));
      NewlineFree(lines) && Gather(lines, read) == Some([Constant("int", "PAYLOAD_OFFSET", payloadOffset, DecimalLiteral)])
  {
    assert PlainWords("Start of payload data " + "in SysEx message", "int", "PAYLOAD_OFFSET");
    ReadDecimalLiteral(payloadOffset);
    DocumentedReadBack("Start of payload data " + "in SysEx message", "int", "PAYLOAD_OFFSET", Decimal(payloadOffset), read);
  }

  lemma StringMaxReadBack(stringMax: int, read: string -> LineReading)
    requires IsLineReader(read)
    ensures var lines := Documented("Maximum characters " + "per string field", "int", "STRING_MAX_LENGTH", Decimal(stringMax));
      NewlineFree(lines) && Gather(lines, read) == Some([Constant("int", "STRING_MAX_LENGTH", stringMax, DecimalLiteral)])
  {
    assert PlainWords("Maximum characters " + "per string field", "int", "STRING_MAX_LENGTH");
    ReadDecimalLiteral(stringMax);
    DocumentedReadBack("Maximum characters " + "per string field", "int", "STRING_MAX_LENGTH", Decimal(stringMax), read);
  }

  lemma ArrayMaxReadBack(arrayMax: int, read: string -> LineReading)
    requires IsLineReader(read)
    ensures var lines := Documented("Maximum items per " + "array field", "int", "ARRAY_MAX_ITEMS", Decimal(arrayMax));
      NewlineFree(lines) && Gather(lines, read) == Some([Constant("int", "ARRAY_MAX_ITEMS", arrayMax, DecimalLiteral)])
  {
    assert PlainWords("Maximum items per " + "array field", "int", "ARRAY_MAX_ITEMS");
    ReadDecimalLiteral(arrayMax);
    DocumentedReadBack("Maximum items per " + "array field", "int", "ARRAY_MAX_ITEMS", Decimal(arrayMax), read);
  }

  lemma MaxPayloadReadBack(maxPayload: int, read: string -> LineReading)
    requires IsLineReader(read)
    ensures var lines := Documented("Maximum payload bytes", "int", "MAX_PAYLOAD_SIZE", Decimal(maxPayload));
      NewlineFree(lines) && Gather(lines, read) == Some([Constant("int", "MAX_PAYLOAD_SIZE", maxPayload, DecimalLiteral)])
  {
    assert PlainWords("Maximum payload bytes", "int", "MAX_PAYLOAD_SIZE");
    ReadDecimalLiteral(maxPayload);
    DocumentedReadBack("Maximum payload bytes", "int", "MAX_PAYLOAD_SIZE", Decimal(maxPayload), read);
  }

  lemma MaxMessageReadBack(maxMessage: int, read: string -> LineReading)
    requires IsLineReader(read)
    ensures var lines := Documented("Maximum total " + "message bytes", "int", "MAX_MESSAGE_SIZE", Decimal(maxMessage));
      NewlineFree(lines) && Gather(lines, read) == Some([Constant("int", "MAX_MESSAGE_SIZE", maxMessage, DecimalLiteral)])
  {
    assert PlainWords("Maximum total " + "message bytes", "int", "MAX_MESSAGE_SIZE");
    ReadDecimalLiteral(maxMessage);
    DocumentedReadBack("Maximum total " + "message bytes", "int", "MAX_MESSAGE_SIZE", Decimal(maxMessage), read);
  }

  /** A documented constant reads back as that one constant. */
  lemma DocumentedReadBack(doc: string, javaType: string, name: string, literal: string, read: string -> LineReading)
    requires IsLineReader(read)
    requires PlainWords(doc, javaType, name) && '\n' !in literal
    requires ReadLiteral(literal).Some?
    ensures NewlineFree(Documented(doc, javaType, name, literal))
    ensures Gather(Documented(doc, javaType, name, literal), read)
      == Some([Constant(javaType, name, ReadLiteral(literal).value.0, ReadLiteral(literal).value.1)])
  {
    var lines := Documented(doc, javaType, name, literal);
    DocCommentInert(doc);
    DeclarationLineIsOneLine(javaType, name, literal);
    var c := Constant(javaType, name, ReadLiteral(literal).value.0, ReadLiteral(literal).value.1);
    assert read(lines[0]) == NoDeclaration;
    assert read(lines[1]) == Declares(c);
    assert lines[1..][0] == lines[1] && lines[1..][1..] == [];
    assert Gather(lines[1..][1..], read) == Some([]);
    assert [c] + [] == [c];
  }

  /** A declaration line parses back into its type, name and literal. */
  lemma ReadDeclarationLine(javaType: string, name: string, literal: string)
    requires ' ' !in javaType && ' ' !in name
    ensures ParseDeclaration(DeclarationLine(javaType, name, literal)) == Some(Declaration(javaType, name, literal))
  {
    var body := javaType + " " + name + " = " + literal;
    assert DeclarationLine(javaType, name, literal) == DeclarationPrefix + body + ";";
    ParseFramedDeclaration(DeclarationLine(javaType, name, literal), body, javaType, name, literal);
  }

  lemma DeclarationLineIsOneLine(javaType: string, name: string, literal: string)
    requires '\n' !in javaType && '\n' !in name && '\n' !in literal
    ensures '\n' !in DeclarationLine(javaType, name, literal)
  {
  }

  lemma ParseFramedDeclaration(line: string, body: string, javaType: string, name: string, literal: string)
    requires line == DeclarationPrefix + body + ";"
    requires body == javaType + " " + name + " = " + literal
    requires ' ' !in javaType && ' ' !in name
    ensures ParseDeclaration(line) == Some(Declaration(javaType, name, literal))
  {
    Framed(DeclarationPrefix, body, ';');
    ReadDeclarationBody(javaType, name, literal);
  }

  /** The part of a declaration between the prefix and the `;` splits at its first two spaces. */
  lemma ReadDeclarationBody(javaType: string, name: string, literal: string)
    requires ' ' !in javaType && ' ' !in name
    ensures var body := javaType + " " + name + " = " + literal;
      FirstIndex(body, ' ') == |javaType| && body[..|javaType|] == javaType
      && body[|javaType| + 1..] == name + " = " + literal
    ensures var rest := name + " = " + literal;
      FirstIndex(rest, ' ') == |name| && rest[..|name|] == name
      && rest[|name|..|name| + 3] == " = " && rest[|name| + 3..] == literal
  {
    var body := javaType + " " + name + " = " + literal;
    var rest := name + " = " + literal;
    assert body == javaType + " " + rest;
    FirstIndexIs(body, ' ', |javaType|);
    assert body[..|javaType|] == javaType;
    assert body[|javaType| + 1..] == rest;
    FirstIndexIs(rest, ' ', |name|);
    assert rest[..|name|] == name;
    assert rest[|name|..|name| + 3] == " = ";
    assert rest[|name| + 3..] == literal;
  }

  /** `format(v, '#04x')` reads back as a plain hex literal of value `v`. */
  lemma ReadHexLiteral(v: int)
    ensures '\n' !in Hex04(v)
    ensures ReadLiteral(Hex04(v)) == Some((v, HexLiteral))
  {
    var r := Hex04(v);
    HexHasNoNewline(r);
    if |r| >= |ByteCast| {
      assert r[..|ByteCast|] != ByteCast by { assert r[..|ByteCast|][0] != '('; }
    }
  }

  /** A delimiter literal reads back with its value, cast exactly when the value is at least 0x80. */
  lemma ReadDelimiterLiteral(v: int)
    ensures '\n' !in DelimiterLiteral(v)
    ensures ReadLiteral(DelimiterLiteral(v)) == Some((v, DelimiterNotation(v)))
  {
    ReadHexLiteral(v);
    if v >= 0x80 {
      ReadCastLiteral(Hex04(v));
    }
  }

  /** `(byte) ` in front of a hex literal reads back as a cast literal of the same value. */
  lemma ReadCastLiteral(h: string)
    requires ParseHex(h).Some? && '\n' !in h
    ensures '\n' !in ByteCast + h
    ensures ReadLiteral(ByteCast + h) == Some((ParseHex(h).value, ByteCastHexLiteral))
  {
    var r := ByteCast + h;
    assert r[..|ByteCast|] == ByteCast && r[|ByteCast|..] == h;
  }

  /** `str(v)` reads back as a decimal literal of value `v`. */
  lemma ReadDecimalLiteral(v: int)
    ensures '\n' !in Decimal(v)
    ensures ReadLiteral(Decimal(v)) == Some((v, DecimalLiteral))
  {
    var r := Decimal(v);
    DecimalIsNotHex(v);
    forall i | 0 <= i < |r| ensures r[i] == '-' || '0' <= r[i] <= '9' {
      if v < 0 && i > 0 { assert r[i] == r[1..][i - 1]; }
    }
    if |r| >= |ByteCast| {
      assert r[..|ByteCast|] != ByteCast by { assert r[..|ByteCast|][0] != '('; }
    }
  }

  lemma HexHasNoNewline(r: string)
    requires ParseHex(r).Some?
    ensures '\n' !in r && (r[0] == '0' || r[0] == '-')
  {
    if |r| >= 3 && r[..2] == "0x" && IsNumeral(16, r[2..]) {
      forall i | 0 <= i < |r| ensures r[i] != '\n' {
        if i < 2 { assert r[i] == r[..2][i]; } else { assert r[i] == r[2..][i - 2]; }
      }
      assert r[0] == r[..2][0];
    } else {
      forall i | 0 <= i < |r| ensures r[i] != '\n' {
        if i < 3 { assert r[i] == r[..3][i]; } else { assert r[i] == r[3..][i - 3]; }
      }
      assert r[0] == r[..3][0];
    }
  }

  // The prose lines are checked a few at a time: showing that a literal holds
  // no newline costs the verifier work in proportion to its length.

  lemma ClassCommentInert()
    ensures AllInert(ClassCommentLines())
  {
    var C := ClassCommentLines();
    ClassCommentInertUpTo5();
    ClassCommentInertFrom5();
    forall k | 0 <= k < |C| ensures Inert(C[k]) {
      if k < 5 { } else { }
    }
  }

  lemma ClassCommentInertUpTo5()
    ensures forall k :: 0 <= k < 5 ==> Inert(ClassCommentLines()[k])
  {
    var C := ClassCommentLines();
    ClassCommentInert1();
    assert Inert(C[0]);
    assert Inert(C[2]);
    assert Inert(C[3]);
    assert Inert(C[4]);
    forall k | 0 <= k < 5 ensures Inert(C[k]) {
      assert k == 0 || k == 1 || k == 2 || k == 3 || k == 4;
    }
  }

  lemma ClassCommentInertFrom5()
    ensures forall k :: 5 <= k < 11 ==> Inert(ClassCommentLines()[k])
  {
    var C := ClassCommentLines();
    ClassCommentInert5To8();
    assert Inert(C[9]);
    assert Inert(C[10]);
    forall k | 5 <= k < 11 ensures Inert(C[k]) {
      assert k < 9 || k == 9 || k == 10;
    }
  }

  lemma ClassCommentInert5To8()
    ensures forall k :: 5 <= k < 9 ==> Inert(ClassCommentLines()[k])
  {
    var C := ClassCommentLines();
    ClassCommentInert6();
    ClassCommentInert7();
    assert Inert(C[5]);
    assert Inert(C[8]);
    forall k | 5 <= k < 9 ensures Inert(C[k]) {
      assert k == 5 || k == 6 || k == 7 || k == 8;
    }
  }

  lemma ClassCommentInert1()
    ensures Inert(ClassCommentLines()[1])
  {
  }

  lemma ClassCommentInert6()
    ensures Inert(ClassCommentLines()[6])
  {
  }

  lemma ClassCommentInert7()
    ensures Inert(ClassCommentLines()[7])
  {
  }

  lemma ClassOpeningInert()
    ensures AllInert(ClassOpeningLines())
  {
    var O := ClassOpeningLines();
    ClassOpeningInertUpTo3();
    ClassOpeningInert4();
    assert Inert(O[3]);
    assert Inert(O[5]);
    assert Inert(O[6]);
    forall k | 0 <= k < |O| ensures Inert(O[k]) {
      assert k < 3 || k == 3 || k == 4 || k == 5 || k == 6;
    }
  }

  lemma ClassOpeningInertUpTo3()
    ensures forall k :: 0 <= k < 3 ==> Inert(ClassOpeningLines()[k])
  {
    var O := ClassOpeningLines();
    LineCommentInert("Private constructor " + "prevents instantiation " + "(utility class)");
    ClassOpeningInert0();
    assert Inert(O[1]);
    assert Inert(O[2]);
    forall k | 0 <= k < 3 ensures Inert(O[k]) {
      assert k == 0 || k == 1 || k == 2;
    }
  }

  lemma ClassOpeningInert0()
    ensures Inert(ClassOpeningLines()[0])
  {
  }

  lemma ClassOpeningInert4()
    ensures Inert(ClassOpeningLines()[4])
  {
  }

  lemma BannerInert(title: string)
    requires '\n' !in title
    ensures AllInert(Banner(title))
  {
    var rule := Repeat('=', 76);
    assert '\n' !in rule;
    LineCommentInert(rule);
    LineCommentInert(title);
  }

  lemma LineCommentInert(text: string)
    requires '\n' !in text
    ensures Inert(LineComment(text))
  {
    assert LineComment(text)[4] == '/';
  }

  lemma DocCommentInert(text: string)
    requires '\n' !in text
    ensures Inert(DocComment(text))
  {
    assert DocComment(text)[4] == '/';
  }

  // ---------------------------------------------------------------------------
  // Lines that declare nothing
  // ---------------------------------------------------------------------------

  /**
   * A cheap sufficient test that a line is no declaration: too short, not
   * ending in `;`, or differing from the declaration prefix in one of its
   * first six characters.
   */
  predicate CannotDeclare(line: string)
  {
    || |line| <= |DeclarationPrefix|
    || line[|line| - 1] != ';'
    || line[0] != ' ' || line[1] != ' ' || line[4] != 'p' || line[5] != 'u'
  }

  /** A line that holds no newline and declares nothing. */
  predicate Inert(line: string)
  {
    '\n' !in line && CannotDeclare(line)
  }

  predicate AllInert(lines: seq<string>)
  {
    forall k :: 0 <= k < |lines| ==> Inert(lines[k])
  }

  lemma AllInertAppend(a: seq<string>, b: seq<string>)
    requires AllInert(a) && AllInert(b)
    ensures AllInert(a + b)
  {
    forall k | 0 <= k < |a + b| ensures Inert((a + b)[k]) {
      if k < |a| { assert (a + b)[k] == a[k]; } else { assert (a + b)[k] == b[k - |a|]; }
    }
  }

  lemma NewlineFreeAppend(a: seq<string>, b: seq<string>)
    requires NewlineFree(a) && NewlineFree(b)
    ensures NewlineFree(a + b)
  {
    forall k | 0 <= k < |a + b| ensures '\n' !in (a + b)[k] {
      if k < |a| { assert (a + b)[k] == a[k]; } else { assert (a + b)[k] == b[k - |a|]; }
    }
  }

  lemma InertLines(lines: seq<string>, read: string -> LineReading)
    requires IsLineReader(read) && AllInert(lines)
    ensures NewlineFree(lines) && Gather(lines, read) == Some([])
  {
    NoDeclarationsIn(lines, read);
  }

  /** A line that fails the cheap test is no declaration. */
  lemma NotADeclaration(line: string)
    requires CannotDeclare(line)
    ensures ParseDeclaration(line) == None
  {
    var n := |DeclarationPrefix|;
    if |line| > n && line[|line| - 1] == ';' {
      var p := line[..n];
      if line[0] != ' ' { assert p[0] != DeclarationPrefix[0]; }
      else if line[1] != ' ' { assert p[1] != DeclarationPrefix[1]; }
      else if line[4] != 'p' { assert p[4] != DeclarationPrefix[4]; }
      else { assert p[5] != DeclarationPrefix[5]; }
    }
  }

  lemma {:induction false} NoDeclarationsIn(lines: seq<string>, read: string -> LineReading)
    requires IsLineReader(read)
    requires forall k :: 0 <= k < |lines| ==> CannotDeclare(lines[k])
    ensures Gather(lines, read) == Some([])
    decreases |lines|
  {
    if |lines| > 0 {
      NoDeclarationsIn(lines[1..], read);
    }
  }

  // ---------------------------------------------------------------------------
  // Reading a list of lines in parts
  // ---------------------------------------------------------------------------

  /** Both readings, concatenated; `None` when either failed. */
  function Both(x: Option<seq<Constant>>, y: Option<seq<Constant>>): Option<seq<Constant>>
  {
    if x.Some? && y.Some? then Some(x.value + y.value) else None
  }

  lemma {:induction false} GatherAppend(a: seq<string>, b: seq<string>, read: string -> LineReading)
    ensures Gather(a + b, read) == Both(Gather(a, read), Gather(b, read))
    decreases |a|
  {
    if |a| == 0 {
      assert a + b == b;
      if Gather(b, read).Some? { assert [] + Gather(b, read).value == Gather(b, read).value; }
    } else {
      var ab := a + b;
      assert ab[0] == a[0] && ab[1..] == a[1..] + b;
      GatherAppend(a[1..], b, read);
      var x, y := Gather(a[1..], read), Gather(b, read);
      match read(a[0])
      case NoDeclaration =>
      case Unreadable =>
      case Declares(c) =>
        if x.Some? && y.Some? {
          assert [c] + (x.value + y.value) == ([c] + x.value) + y.value;
        }
    }
  }
}
