/**
 * Properties of the text of `ProtocolConstants.java` beyond the constants it
 * declares: where the header and the footer sit, what an empty or missing
 * section turns into, when a delimiter gets its `(byte)` cast, how
 * `format(n, '#04x')` writes a few familiar values, and what the example
 * configurations declare.
 */
module ConstantsProperties {
  import opened Wrappers
  import opened PyText
  import opened JavaConstants
  import opened ConstantsReadBack
  import SysExConversion

  // ---------------------------------------------------------------------------
  // Header and footer
  // ---------------------------------------------------------------------------

  /** The first line of the file is the package clause, whatever the configuration. */
  lemma PackageClauseFirst(config: ProtocolConfig, package: string)
    requires '\n' !in package
    ensures Lines(GenerateConstantsJava(config, package))[0] == "package " + package + ";"
  {
    GeneratedText(config, package);
    ReadLineIsLineReader();
    FileLinesReadBack(config, package, ReadLine);
    LinesOfJoin(FileLines(config, package));
  }

  /**
   * The header depends on the package only: the files generated for two
   * configurations agree up to the end of the header, which opens both.
   */
  lemma HeaderIndependentOfConfig(config: ProtocolConfig, other: ProtocolConfig, package: string)
    ensures var h := Header(package);
      && |GenerateConstantsJava(config, package)| >= |h| && |GenerateConstantsJava(other, package)| >= |h|
      && GenerateConstantsJava(config, package)[..|h|] == GenerateConstantsJava(other, package)[..|h|] == h
  {
    OpensWithHeader(config, package);
    OpensWithHeader(other, package);
  }

  lemma OpensWithHeader(config: ProtocolConfig, package: string)
    ensures var h := Header(package);
      |GenerateConstantsJava(config, package)| >= |h| && GenerateConstantsJava(config, package)[..|h|] == h
  {
    var s, l := SysExConstants(config.sysex.GetOr(NoSysEx)), Limits(config.limits.GetOr(NoLimits));
    OpensWith(Header(package), "\n", s, "\n", l, "\n", Footer());
  }

  /** `h + a + b + c + d + e + f` starts with `h`. */
  lemma OpensWith(h: string, a: string, b: string, c: string, d: string, e: string, f: string)
    ensures var g := h + a + b + c + d + e + f; |g| >= |h| && g[..|h|] == h
  {
    var g := h + a + b + c + d + e + f;
    assert g == h + (a + b + c + d + e + f);
  }

  // ---------------------------------------------------------------------------
  // Empty and missing sections
  // ---------------------------------------------------------------------------

  /** `sep.join(pieces)` starts with the first piece. */
  lemma JoinStartsWithFirst(pieces: seq<string>, sep: char)
    requires |pieces| >= 1
    ensures |Join(pieces, sep)| >= |pieces[0]| && Join(pieces, sep)[..|pieces[0]|] == pieces[0]
  {
  }

  /**
   * The SysEx section is the fixed "no config" comment exactly when the
   * section is missing or is the empty dictionary.
   */
  lemma EmptySysExSection(config: ProtocolConfig)
    ensures SysExConstants(config.sysex.GetOr(NoSysEx)) == "    // No SysEx config found\n"
      <==> config.sysex.None? || config.sysex.value == NoSysEx
  {
    var c := config.sysex.GetOr(NoSysEx);
    if c != NoSysEx {
      SysExTextSixth(c);
      NoSysExCommentSixth();
    } else {
      NoSysExText();
    }
  }

  lemma NoSysExText()
    ensures SysExConstants(NoSysEx) == "    // No SysEx config found\n"
  {
  }

  /** A non-empty SysEx section opens with the doc comment of SYSEX_START, so its sixth character is `*`. */
  lemma SysExTextSixth(c: SysExConfig)
    requires c != NoSysEx
    ensures |SysExConstants(c)| > 5 && SysExConstants(c)[5] == '*'
  {
    var lines := SysExLines(c);
    SysExLinesFirst(c);
    JoinStartsWithFirst(lines, '\n');
    DocCommentSixth("SysEx start byte");
    assert JoinLines(lines)[5] == lines[0][5];
  }

  lemma SysExLinesFirst(c: SysExConfig)
    ensures |SysExLines(c)| >= 1 && SysExLines(c)[0] == DocComment("SysEx start byte")
  {
    var start, end := c.start.GetOr(DefaultStart), c.end.GetOr(DefaultEnd);
    var d := DelimiterLines(start, end);
    var i := IdentifierLines(c.manufacturerId.GetOr(DefaultManufacturerId), c.deviceId.GetOr(DefaultDeviceId));
    var s := StructureLines(c.minMessageLength.GetOr(DefaultMinMessageLength), c.messageTypeOffset.GetOr(DefaultMessageTypeOffset),
                            c.fromHostOffset.GetOr(DefaultFromHostOffset), c.payloadOffset.GetOr(DefaultPayloadOffset));
    var first := Documented("SysEx start byte", "byte", "SYSEX_START", DelimiterLiteral(start));
    FirstOfParts(first, [""], Documented("SysEx end byte", "byte", "SYSEX_END", DelimiterLiteral(end)), [], []);
    FirstOfParts(d, [""], i, [""], s);
  }

  /** A concatenation whose first part is not empty starts with that part's first line. */
  lemma FirstOfParts(a: seq<string>, b: seq<string>, c: seq<string>, d: seq<string>, e: seq<string>)
    requires |a| >= 1
    ensures |a + b + c + d + e| >= 1 && (a + b + c + d + e)[0] == a[0]
    ensures (a + b + c)[0] == a[0]
  {
  }

  lemma DocCommentSixth(text: string)
    ensures |DocComment(text)| > 5 && DocComment(text)[5] == '*'
  {
  }

  lemma NoSysExCommentSixth()
    ensures var t := "    // No SysEx config found\n"; |t| > 5 && t[5] == '/'
  {
  }

  /** The limits section is the empty text exactly when the section is missing or is the empty dictionary. */
  lemma EmptyLimitsSection(config: ProtocolConfig)
    ensures Limits(config.limits.GetOr(NoLimits)) == "" <==> config.limits.None? || config.limits.value == NoLimits
  {
    var c := config.limits.GetOr(NoLimits);
    if c != NoLimits {
      var lines := LimitsLines(c);
      assert |lines| >= 2;
      assert JoinLines(lines) == lines[0] + ['\n'] + Join(lines[1..], '\n');
    }
  }

  /**
   * A file without configuration: the header, the "no config" comment, an
   * empty limits section and the footer, and no constants at all.
   */
  lemma UnconfiguredFile(config: ProtocolConfig, package: string)
    requires config.sysex.None? || config.sysex.value == NoSysEx
    requires config.limits.None? || config.limits.value == NoLimits
    requires '\n' !in package
    ensures ReadConstants(Lines(GenerateConstantsJava(config, package))) == Some([])
  {
    GeneratedConstantsReadBack(config, package);
    NothingExpected(config);
  }

  lemma NothingExpected(config: ProtocolConfig)
    requires config.sysex.None? || config.sysex.value == NoSysEx
    requires config.limits.None? || config.limits.value == NoLimits
    ensures ExpectedConstants(config) == []
  {
    assert config.sysex.GetOr(NoSysEx) == NoSysEx;
    assert config.limits.GetOr(NoLimits) == NoLimits;
  }

  // ---------------------------------------------------------------------------
  // The (byte) cast
  // ---------------------------------------------------------------------------

  predicate StartsWithCast(literal: string)
  {
    |literal| >= |ByteCast| && literal[..|ByteCast|] == ByteCast
  }

  /** `format(n, '#04x')` never starts with a cast: it starts with `0` or `-`. */
  lemma HexIsNeverCast(n: int)
    ensures !StartsWithCast(Hex04(n))
  {
    var r := Hex04(n);
    if n >= 0 {
      assert r[..2][0] == r[0] == '0';
    } else {
      assert r[..3][0] == r[0] == '-';
    }
    assert ByteCast[0] == '(';
  }

  /**
   * A delimiter is written with the `(byte) ` cast exactly when its value is
   * at least 0x80, and the rest of the literal is its hexadecimal text.
   */
  lemma DelimiterCastRule(value: int)
    ensures StartsWithCast(DelimiterLiteral(value)) <==> value >= 0x80
    ensures var lit := DelimiterLiteral(value);
      lit == Hex04(value) || (StartsWithCast(lit) && lit[|ByteCast|..] == Hex04(value))
  {
    HexIsNeverCast(value);
    var lit := DelimiterLiteral(value);
    if value >= 0x80 {
      assert lit == ByteCast + Hex04(value);
      assert lit[..|ByteCast|] == ByteCast;
      assert lit[|ByteCast|..] == Hex04(value);
    }
  }

  /** The manufacturer and device IDs are never cast, whatever their value. */
  lemma IdentifiersNeverCast(manufacturerId: int, deviceId: int)
    ensures var lines := IdentifierLines(manufacturerId, deviceId);
      && lines[1] == DeclarationLine("byte", "MANUFACTURER_ID", Hex04(manufacturerId))
      && lines[4] == DeclarationLine("byte", "DEVICE_ID", Hex04(deviceId))
      && !StartsWithCast(Hex04(manufacturerId)) && !StartsWithCast(Hex04(deviceId))
  {
    HexIsNeverCast(manufacturerId);
    HexIsNeverCast(deviceId);
  }

  // ---------------------------------------------------------------------------
  // format(n, '#04x') on familiar values
  // ---------------------------------------------------------------------------

  /** One-digit values are zero-padded; letters are lower case. */
  lemma HexExamples()
    ensures Hex04(5) == "0x05"
    ensures Hex04(0xF0) == "0xf0"
    ensures Hex04(0x7D) == "0x7d"
  {
  }

  // ---------------------------------------------------------------------------
  // The example configurations
  // ---------------------------------------------------------------------------

  /**
   * The sensor-network example (manufacturer 0x7D, device 0x42, messages of
   * at most 512 bytes) declares those values, the IDs without a cast; the
   * text of the file reads back as these constants by
   * `SysExConversion.ConvertedConstantsReadBack`.
   */
  lemma SensorNetworkConstants(c: SysExConversion.SysExConfig)
    requires c.framing.manufacturerId == 0x7D && c.framing.deviceId == 0x42 && c.limits.maxMessageSize == 512
    ensures var cs := SysExConversion.ConfiguredConstants(c);
      && |cs| == 12
      && cs[2] == Constant("byte", "MANUFACTURER_ID", 0x7D, HexLiteral)
      && cs[3] == Constant("byte", "DEVICE_ID", 0x42, HexLiteral)
      && cs[11] == Constant("int", "MAX_MESSAGE_SIZE", 512, DecimalLiteral)
  {
  }

  /** The built-in framing, start 0xF0 and end 0xF7, declares both delimiters with the cast. */
  lemma BuiltinDelimiterConstants(c: SysExConversion.SysExConfig)
    requires c.framing.start == 0xF0 && c.framing.end == 0xF7
    ensures var cs := SysExConversion.ConfiguredConstants(c);
      && |cs| == 12
      && cs[0] == Constant("byte", "SYSEX_START", 0xF0, ByteCastHexLiteral)
      && cs[1] == Constant("byte", "SYSEX_END", 0xF7, ByteCastHexLiteral)
  {
  }
}
