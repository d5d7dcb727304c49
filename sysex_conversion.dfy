/**
 * The conversion of the loaded SysEx configuration object into the
 * dictionaries the C++ and Java generators take.  Both conversions copy the
 * four framing values, the four structure offsets and the four limits
 * verbatim, and both fix the roles (C++ is the controller, Java the host); the
 * Java one also fixes the message-ID ranges of the three directions.
 *
 * The dictionaries' `sysex` and `limits` sections have the keys of the
 * constants generator's records, so they reuse `JavaConstants.SysExConfig`
 * and `JavaConstants.LimitsConfig` (here with every key present).
 */
module SysExConversion {
  import opened Wrappers
  import opened PyText
  import JavaConstants
  import ConstantsReadBack

  // ---------------------------------------------------------------------------
  // The loaded configuration object (every field present)
  // ---------------------------------------------------------------------------

  datatype Framing = Framing(start: int, end: int, manufacturerId: int, deviceId: int)

  datatype Structure = Structure(minMessageLength: int, messageTypeOffset: int, fromHostOffset: int, payloadOffset: int)

  datatype Limits = Limits(stringMaxLength: int, arrayMaxItems: int, maxPayloadSize: int, maxMessageSize: int)

  datatype SysExConfig = SysExConfig(framing: Framing, structure: Structure, limits: Limits)

  // ---------------------------------------------------------------------------
  // The generator dictionaries
  // ---------------------------------------------------------------------------

  /** Which side of the link each generated language plays. */
  datatype Roles = Roles(cpp: string, java: string)

  /** An inclusive range of message IDs. */
  datatype IdRange = IdRange(start: int, end: int)

  datatype MessageIdRanges = MessageIdRanges(controllerToHost: IdRange, hostToController: IdRange, bidirectional: IdRange)

  datatype CppProtocolConfig = CppProtocolConfig(
    sysex: JavaConstants.SysExConfig,
    limits: JavaConstants.LimitsConfig,
    roles: Roles)

  datatype JavaProtocolConfig = JavaProtocolConfig(
    sysex: JavaConstants.SysExConfig,
    limits: JavaConstants.LimitsConfig,
    roles: Roles,
    messageIdRanges: MessageIdRanges)

  const GeneratorRoles := Roles("controller", "host")

  const JavaIdRanges := MessageIdRanges(IdRange(0, 63), IdRange(64, 191), IdRange(192, 255))

  /** The `sysex` section: the framing values, then the structure offsets, each under its key. */
  function SysExSection(c: SysExConfig): JavaConstants.SysExConfig
  {
    JavaConstants.SysExConfig(
      Some(c.framing.start), Some(c.framing.end), Some(c.framing.manufacturerId), Some(c.framing.deviceId),
      Some(c.structure.minMessageLength), Some(c.structure.messageTypeOffset),
      Some(c.structure.fromHostOffset), Some(c.structure.payloadOffset))
  }

  /** The `limits` section: the four limits, each under its key. */
  function LimitsSection(c: SysExConfig): JavaConstants.LimitsConfig
  {
    JavaConstants.LimitsConfig(
      Some(c.limits.stringMaxLength), Some(c.limits.arrayMaxItems),
      Some(c.limits.maxPayloadSize), Some(c.limits.maxMessageSize))
  }

  /** The dictionary for the C++ generators. */
  function ToCppProtocolConfig(c: SysExConfig): CppProtocolConfig
  {
    CppProtocolConfig(SysExSection(c), LimitsSection(c), GeneratorRoles)
  }

  /** The dictionary for the Java generators. */
  function ToJavaProtocolConfig(c: SysExConfig): JavaProtocolConfig
  {
    JavaProtocolConfig(SysExSection(c), LimitsSection(c), GeneratorRoles, JavaIdRanges)
  }

  /** The part of the Java dictionary the constants generator reads: its `sysex` and `limits` keys. */
  function ConstantsInput(d: JavaProtocolConfig): JavaConstants.ProtocolConfig
  {
    JavaConstants.ProtocolConfig(Some(d.sysex), Some(d.limits))
  }

  // ---------------------------------------------------------------------------
  // Reading the configuration back out of the sections
  // ---------------------------------------------------------------------------

  /** The configuration object two sections describe; `None` when a key is missing. */
  function FromSections(s: JavaConstants.SysExConfig, l: JavaConstants.LimitsConfig): Option<SysExConfig>
  {
    if s.start.Some? && s.end.Some? && s.manufacturerId.Some? && s.deviceId.Some?
       && s.minMessageLength.Some? && s.messageTypeOffset.Some? && s.fromHostOffset.Some? && s.payloadOffset.Some?
       && l.stringMaxLength.Some? && l.arrayMaxItems.Some? && l.maxPayloadSize.Some? && l.maxMessageSize.Some?
    then
      Some(SysExConfig(
        Framing(s.start.value, s.end.value, s.manufacturerId.value, s.deviceId.value),
        Structure(s.minMessageLength.value, s.messageTypeOffset.value, s.fromHostOffset.value, s.payloadOffset.value),
        Limits(l.stringMaxLength.value, l.arrayMaxItems.value, l.maxPayloadSize.value, l.maxMessageSize.value)))
    else None
  }

  /** Both conversions copy every value verbatim: the sections give the configuration back. */
  lemma ConversionsAreVerbatim(c: SysExConfig)
    ensures FromSections(ToCppProtocolConfig(c).sysex, ToCppProtocolConfig(c).limits) == Some(c)
    ensures FromSections(ToJavaProtocolConfig(c).sysex, ToJavaProtocolConfig(c).limits) == Some(c)
  {
  }

  /** Sections that describe a configuration are exactly that configuration's sections. */
  lemma FromSectionsIsExact(s: JavaConstants.SysExConfig, l: JavaConstants.LimitsConfig, c: SysExConfig)
    ensures FromSections(s, l) == Some(c) <==> SysExSection(c) == s && LimitsSection(c) == l
  {
  }

  /** The two dictionaries agree on everything they share, and the roles are fixed. */
  lemma ConversionsAgree(c: SysExConfig)
    ensures ToCppProtocolConfig(c).sysex == ToJavaProtocolConfig(c).sysex
    ensures ToCppProtocolConfig(c).limits == ToJavaProtocolConfig(c).limits
    ensures ToCppProtocolConfig(c).roles == ToJavaProtocolConfig(c).roles == Roles("controller", "host")
  {
  }

  // ---------------------------------------------------------------------------
  // The message-ID ranges
  // ---------------------------------------------------------------------------

  predicate Contains(r: IdRange, id: int)
  {
    r.start <= id <= r.end
  }

  /** The ranges in direction order: controller to host, host to controller, bidirectional. */
  function InOrder(r: MessageIdRanges): seq<IdRange>
  {
    [r.controllerToHost, r.hostToController, r.bidirectional]
  }

  /** Some range of `rs` holds `id`. */
  predicate Covered(rs: seq<IdRange>, id: int)
  {
    exists k :: 0 <= k < |rs| && Contains(rs[k], id)
  }

  /** `rs` are non-empty ranges laid end to end from `lo` up to and including `hi`. */
  predicate Tiles(rs: seq<IdRange>, lo: int, hi: int)
    decreases |rs|
  {
    if |rs| == 0 then lo == hi + 1
    else rs[0].start == lo && rs[0].start <= rs[0].end && Tiles(rs[1..], rs[0].end + 1, hi)
  }

  /**
   * Ranges laid end to end are ascending and pairwise disjoint, and an ID lies
   * in one of them exactly when it lies between the ends.
   */
  lemma {:induction false} TilesPartition(rs: seq<IdRange>, lo: int, hi: int)
    requires Tiles(rs, lo, hi)
    ensures forall k, j :: 0 <= k < j < |rs| ==> rs[k].end < rs[j].start
    ensures forall id :: lo <= id <= hi <==> Covered(rs, id)
    ensures forall k :: 0 <= k < |rs| ==> lo <= rs[k].start <= rs[k].end <= hi
    decreases |rs|
  {
    if |rs| > 0 {
      var rest := rs[1..];
      TilesPartition(rest, rs[0].end + 1, hi);
      assert forall k :: 1 <= k < |rs| ==> rs[k] == rest[k - 1];
      forall id | lo <= id <= hi
        ensures Covered(rs, id)
      {
        if id > rs[0].end {
          assert Covered(rest, id);
          var k :| 0 <= k < |rest| && Contains(rest[k], id);
          assert Contains(rs[k + 1], id);
        } else {
          assert Contains(rs[0], id);
        }
      }
      forall id | Covered(rs, id)
        ensures lo <= id <= hi
      {
        var k :| 0 <= k < |rs| && Contains(rs[k], id);
        if k > 0 {
          assert Contains(rest[k - 1], id);
          assert Covered(rest, id);
        }
      }
    }
  }

  /** The Java message-ID ranges are ascending, disjoint and together cover exactly the IDs 0 to 255. */
  lemma JavaIdRangesPartition()
    ensures var rs := InOrder(JavaIdRanges);
      && (forall k, j :: 0 <= k < j < |rs| ==> rs[k].end < rs[j].start)
      && (forall id :: 0 <= id <= 255 <==> Covered(rs, id))
      && (forall k :: 0 <= k < |rs| - 1 ==> rs[k + 1].start == rs[k].end + 1)
  {
    var rs := InOrder(JavaIdRanges);
    assert rs[1..] == [IdRange(64, 191), IdRange(192, 255)];
    assert rs[1..][1..] == [IdRange(192, 255)];
    assert Tiles(rs, 0, 255);
    TilesPartition(rs, 0, 255);
  }

  // ---------------------------------------------------------------------------
  // What the Java constants generator makes of the converted configuration
  // ---------------------------------------------------------------------------

  /** The twelve constants of a configuration, each with its configured value. */
  function ConfiguredConstants(c: SysExConfig): seq<JavaConstants.Constant>
  {
    ConstantsReadBack.DelimiterConstants(c.framing.start, c.framing.end)
    + ConstantsReadBack.IdentifierConstants(c.framing.manufacturerId, c.framing.deviceId)
    + ConstantsReadBack.StructureConstants(c.structure.minMessageLength, c.structure.messageTypeOffset,
                                           c.structure.fromHostOffset, c.structure.payloadOffset)
    + [ JavaConstants.Constant("int", "STRING_MAX_LENGTH", c.limits.stringMaxLength, JavaConstants.DecimalLiteral),
        JavaConstants.Constant("int", "ARRAY_MAX_ITEMS", c.limits.arrayMaxItems, JavaConstants.DecimalLiteral) ]
    + ConstantsReadBack.PayloadLimitConstants(c.limits.maxPayloadSize, c.limits.maxMessageSize)
  }

  /**
   * The constants file generated from the converted configuration declares all
   * twelve constants with the configured values: no default is ever used.
   */
  lemma ConvertedConstantsReadBack(c: SysExConfig, package: string)
    requires '\n' !in package
    ensures JavaConstants.ReadConstants(Lines(JavaConstants.GenerateConstantsJava(ConstantsInput(ToJavaProtocolConfig(c)), package)))
      == Some(ConfiguredConstants(c))
  {
    ConstantsReadBack.GeneratedConstantsReadBack(ConstantsInput(ToJavaProtocolConfig(c)), package);
    ConvertedExpectedConstants(c);
  }

  /** A converted configuration calls for all twelve constants, with the configured values. */
  lemma ConvertedExpectedConstants(c: SysExConfig)
    ensures ConstantsReadBack.ExpectedConstants(ConstantsInput(ToJavaProtocolConfig(c))) == ConfiguredConstants(c)
  {
    var s, l := SysExSection(c), LimitsSection(c);
    assert s != JavaConstants.NoSysEx && l != JavaConstants.NoLimits;
    var d := ConstantsReadBack.DelimiterConstants(c.framing.start, c.framing.end);
    var i := ConstantsReadBack.IdentifierConstants(c.framing.manufacturerId, c.framing.deviceId);
    var t := ConstantsReadBack.StructureConstants(c.structure.minMessageLength, c.structure.messageTypeOffset,
                                                  c.structure.fromHostOffset, c.structure.payloadOffset);
    var a := [ JavaConstants.Constant("int", "STRING_MAX_LENGTH", c.limits.stringMaxLength, JavaConstants.DecimalLiteral),
               JavaConstants.Constant("int", "ARRAY_MAX_ITEMS", c.limits.arrayMaxItems, JavaConstants.DecimalLiteral) ];
    var p := ConstantsReadBack.PayloadLimitConstants(c.limits.maxPayloadSize, c.limits.maxMessageSize);
    assert ConstantsReadBack.ExpectedSysExConstants(s) == d + i + t;
    assert ConstantsReadBack.ExpectedLimitConstants(l) == a + p;
    assert (d + i + t) + (a + p) == d + i + t + a + p;
  }
}
