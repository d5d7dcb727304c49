# protocol-codegen SysEx core, modelled in Dafny

This project models two parts of the `protocol_codegen` SysEx code generator and proves properties about them.

- **The Java protocol-constants renderer** (`generate_constants_java`). It is a pure function from a partial configuration and a Java package name to the text of `ProtocolConstants.java`. The configuration holds SysEx framing bytes, message-structure offsets and encoding limits, and any key may be missing. The model keeps every line the source writes. Missing keys take their defaults, a missing or empty section becomes its fixed fallback text, and the two delimiters get a `(byte)` cast when their value is at least 0x80 (a negative delimiter gets none).
  - The main theorem reads the generated text back. `ReadConstants` splits the file into lines and parses every `public static final` declaration. The theorem proves that this recovers exactly the constants the configuration calls for: names, types, values, and how each literal is written (hexadecimal, cast hexadecimal, decimal).
- **The SysEx pipeline in `methods/sysex/generator.py`.** This covers:
  - the two conversions from the validated configuration record to the generators' dictionaries;
  - the fixed message-ID ranges;
  - the PascalCase struct and class names derived from message names;
  - the step sequence of `generate_sysex_protocol`, including the abort on validation errors;
  - the per-message struct loops of the C++ and Java steps, with their `allocations[message.name]` lookup.

  The pipeline is an imperative method. It builds the trace of steps taken and runs the struct loops as `while` loops. It is proved equal to a specification function, and the pipeline's promises are proved as lemmas about that function.

Python behaviour is written out explicitly:

- `format(n, '#04x')` becomes `PyText.Hex04`, and `str(n)` becomes `PyText.Decimal`. Each is paired with a parser and a round-trip guarantee.
- `"\n".join` and `str.split` become `PyText.Join` and `PyText.Split`, with both round trips.
- `dict.get(key, default)` becomes `Option.GetOr`.
- `if not d` on a dictionary is a comparison with the all-`None` record.
- `str.capitalize` is modelled on ASCII letters.

Modules:

| file | module | models |
|---|---|---|
| wrappers.dfy | Wrappers | `Option` |
| pytext.dfy | PyText | Python integer formatting, `join`/`split` |
| java_constants.dfy | JavaConstants | `constants_generator.py`: records, defaults, generator, and a reader for its output |
| constants_read_back.dfy | ConstantsReadBack | what the generated file declares; the read-back theorem |
| constants_properties.dfy | ConstantsProperties | header, empty sections, cast rule, hex examples, example configurations |
| struct_names.dfy | StructNames | the struct/class name derivation and its inverse |
| sysex_conversion.dfy | SysExConversion | the two config conversions, the ID ranges, the constants they lead to |
| sysex_pipeline.dfy | SysExPipeline | `generate_sysex_protocol`, `_generate_cpp` and `_generate_java` as a step trace and struct loops |

## Model

| member | source | states |
|---|---|---|
| PyText.Hex04 | src/protocol_codegen/generators/java/constants_generator.py:123-124 | `format(n, '#04x')` parses back to `n`. It is at least four characters wide. It is exactly four characters, without a sign, iff `0 <= n < 256`. It starts with `0x` (or `-0x` for a negative `n`) and has no superfluous leading zero. |
| PyText.Decimal | src/protocol_codegen/generators/java/constants_generator.py:151 | `str(n)` parses back to `n`. It starts with `-` iff `n < 0`. It is decimal digits with no leading zero. |
| PyText.DecimalIsNotHex | src/protocol_codegen/generators/java/constants_generator.py:138-160 | A decimal literal is never read as a hexadecimal one, so the two notations cannot be confused. |
| PyText.SplitJoin | src/protocol_codegen/generators/java/constants_generator.py:162 | Splitting the `"\n".join` of newline-free lines on the newline gives the lines back. |
| PyText.JoinSplit | src/protocol_codegen/methods/sysex/generator.py:265 | Joining the pieces of `s.split(sep)` with `sep` gives `s` back. |
| PyText.JoinAppend | src/protocol_codegen/generators/java/constants_generator.py:79 | Joining two non-empty lists of lines equals joining each and putting one separator between them. |
| JavaConstants.Repeat | src/protocol_codegen/generators/java/constants_generator.py:105-107 | The banner rule is exactly `n` copies of the character. |
| JavaConstants.GenerateConstantsJava | src/protocol_codegen/generators/java/constants_generator.py:57-80 | The file is the header, the SysEx section, the limits section and the footer, one newline between each (`GeneratedText`). Its lines read back as exactly the constants the configuration calls for (`GeneratedConstantsReadBack`). |
| JavaConstants.HeaderLines | src/protocol_codegen/generators/java/constants_generator.py:83-108 | The package clause, the class comment, the class opening with its private constructor, and the SYSEX FRAMING banner. The first line is `package <package>;` (`PackageClauseFirst`) and no line declares a constant (`HeaderFacts`). |
| JavaConstants.Header | src/protocol_codegen/generators/java/constants_generator.py:83-85 | The header text is its lines joined, and every generated file starts with it whatever the configuration (`HeaderIndependentOfConfig`). |
| JavaConstants.SysExConstants | src/protocol_codegen/generators/java/constants_generator.py:111-114 | The fixed "no config" comment iff the section is empty (`EmptySysExSection`), otherwise its lines joined (`SysExSectionText`). |
| JavaConstants.SysExLines | src/protocol_codegen/generators/java/constants_generator.py:116-162 | The eight SysEx constants, each documented, in source order, with their defaults and the cast rule (`SysExSectionFacts`). |
| JavaConstants.Limits | src/protocol_codegen/generators/java/constants_generator.py:165-168 | The empty text iff the section is empty (`EmptyLimitsSection`), otherwise its lines joined. |
| JavaConstants.LimitsLines | src/protocol_codegen/generators/java/constants_generator.py:170-199 | The ENCODING LIMITS banner, then the four limits in source order with their defaults (`LimitsSectionFacts`). |
| JavaConstants.Footer | src/protocol_codegen/generators/java/constants_generator.py:202-207 | The closing brace of the class between blank lines; it declares nothing (`FooterFacts`). |
| JavaConstants.DelimiterLiteral | src/protocol_codegen/generators/java/constants_generator.py:123-124 | `(byte) ` in front of the `#04x` text iff the value is at least 0x80 (`DelimiterCastRule`), and it reads back with its value (`ReadDelimiterLiteral`). |
| ConstantsReadBack.GeneratedConstantsReadBack | src/protocol_codegen/generators/java/constants_generator.py:57-207 | For every configuration and every newline-free package, the generated file's lines read back as exactly the expected constants, in order. When the section is not empty, these are SYSEX_START, SYSEX_END, MANUFACTURER_ID, DEVICE_ID, MIN_MESSAGE_LENGTH, MESSAGE_TYPE_OFFSET, FROM_HOST_OFFSET and PAYLOAD_OFFSET. Then, likewise, STRING_MAX_LENGTH, ARRAY_MAX_ITEMS, MAX_PAYLOAD_SIZE and MAX_MESSAGE_SIZE. Each has its Java type. Each has the key's value when present and otherwise the default (0xF0, 0xF7, 0x7F, 0x01, 6, 3, 4, 5, 16, 8, 256, 261). The delimiters carry the `(byte)` cast iff they are at least 0x80. The IDs are plain hexadecimal and the rest decimal. An empty or missing section declares nothing. |
| ConstantsReadBack.GeneratedText | src/protocol_codegen/generators/java/constants_generator.py:74-80 | The file is the newline-join of header lines, SysEx section lines, limits section lines and footer lines, in that order. |
| ConstantsReadBack.FileLinesReadBack | src/protocol_codegen/generators/java/constants_generator.py:74-80 | No line of the file contains a newline. Reading those lines yields the expected constants, for any reader that ignores non-declarations. |
| ConstantsReadBack.SysExSectionText | src/protocol_codegen/generators/java/constants_generator.py:113-114 | The SysEx section's text is the join of its lines. For the empty dictionary, those lines are the fallback comment and an empty line, because the text ends with a newline. |
| ConstantsReadBack.SysExSectionFacts | src/protocol_codegen/generators/java/constants_generator.py:111-162 | The SysEx section's lines are newline-free. They declare the eight SysEx constants in order, or nothing for the empty dictionary. |
| ConstantsReadBack.LimitsSectionFacts | src/protocol_codegen/generators/java/constants_generator.py:165-199 | The limits section's lines are newline-free. They declare the four limit constants in order, or nothing for the empty dictionary. |
| ConstantsReadBack.HeaderFacts | src/protocol_codegen/generators/java/constants_generator.py:83-108 | The header's lines are newline-free and declare no constant. |
| ConstantsReadBack.FooterFacts | src/protocol_codegen/generators/java/constants_generator.py:202-207 | The footer's lines are newline-free and declare no constant. |
| ConstantsReadBack.DelimiterLinesReadBack | src/protocol_codegen/generators/java/constants_generator.py:119-130 | The delimiter lines declare SYSEX_START and SYSEX_END with their values. Each is cast iff it is at least 0x80. |
| ConstantsReadBack.IdentifierLinesReadBack | src/protocol_codegen/generators/java/constants_generator.py:134-141 | The identifier lines declare MANUFACTURER_ID and DEVICE_ID as uncast hexadecimal bytes. |
| ConstantsReadBack.StructureLinesReadBack | src/protocol_codegen/generators/java/constants_generator.py:145-160 | The structure lines declare MIN_MESSAGE_LENGTH and the three offsets as decimal `int`s, in order. |
| ConstantsReadBack.LimitGroupsReadBack | src/protocol_codegen/generators/java/constants_generator.py:170-197 | The limits banner and constant lines declare the four limits as decimal `int`s, in order. |
| ConstantsReadBack.ReadDelimiterLiteral | src/protocol_codegen/generators/java/constants_generator.py:123-124 | A delimiter literal reads back as its value, marked cast iff the value is at least 0x80. |
| ConstantsReadBack.ReadHexLiteral | src/protocol_codegen/generators/java/constants_generator.py:138 | A `#04x` literal reads back as its value in hexadecimal notation. |
| ConstantsReadBack.ReadDecimalLiteral | src/protocol_codegen/generators/java/constants_generator.py:151 | A decimal literal reads back as its value in decimal notation. |
| ConstantsReadBack.ReadDeclarationLine | src/protocol_codegen/generators/java/constants_generator.py:126-127 | A declaration line parses back into its type, name and literal. |
| ConstantsReadBack.GatherAppend | src/protocol_codegen/generators/java/constants_generator.py:77-80 | Reading the lines of two concatenated texts gives the constants of the first, then those of the second. |
| ConstantsProperties.PackageClauseFirst | src/protocol_codegen/generators/java/constants_generator.py:83-85 | The first line of the file is `package <package>;`, whatever the configuration. |
| ConstantsProperties.HeaderIndependentOfConfig | src/protocol_codegen/generators/java/constants_generator.py:74-85 | Files generated from any two configurations agree up to the end of the header, and both start with it. |
| ConstantsProperties.EmptySysExSection | src/protocol_codegen/generators/java/constants_generator.py:113-114 | The SysEx section is exactly `"    // No SysEx config found\n"` iff the section is missing or empty. |
| ConstantsProperties.EmptyLimitsSection | src/protocol_codegen/generators/java/constants_generator.py:167-168 | The limits section is the empty text iff the section is missing or empty. |
| ConstantsProperties.UnconfiguredFile | src/protocol_codegen/generators/java/constants_generator.py:74-80 | With both sections missing or empty, the file declares no constant at all. |
| ConstantsProperties.DelimiterCastRule | src/protocol_codegen/generators/java/constants_generator.py:123-124 | A delimiter literal starts with `(byte) ` iff its value is at least 0x80. The rest of the literal is the `#04x` text. |
| ConstantsProperties.HexIsNeverCast | src/protocol_codegen/generators/java/constants_generator.py:138-141 | A `#04x` literal never starts with the cast. |
| ConstantsProperties.IdentifiersNeverCast | src/protocol_codegen/generators/java/constants_generator.py:134-141 | The MANUFACTURER_ID and DEVICE_ID lines hold the plain `#04x` text, never a cast, whatever the value. |
| ConstantsProperties.HexExamples | src/protocol_codegen/generators/java/constants_generator.py:123-124 | `#04x` writes 5 as `0x05`, 0xF0 as `0xf0` and 0x7D as `0x7d`. |
| ConstantsProperties.SensorNetworkConstants | examples/simple-sensor-network/protocol_config.py:10-19 | The example configuration (manufacturer 0x7D, device 0x42, max message size 512) declares MANUFACTURER_ID 0x7D and DEVICE_ID 0x42 uncast, and MAX_MESSAGE_SIZE 512. |
| ConstantsProperties.BuiltinDelimiterConstants | src/protocol_codegen/methods/sysex/builtin_config.py:14-16 | The built-in framing declares SYSEX_START 0xF0 and SYSEX_END 0xF7, both cast. |
| SysExConversion.ToCppProtocolConfig | src/protocol_codegen/methods/sysex/generator.py:47-70 | The C++ dictionary: copies the record's framing, structure and limits verbatim (`ConversionsAreVerbatim`), with roles cpp "controller" and java "host" (`ConversionsAgree`). |
| SysExConversion.ToJavaProtocolConfig | src/protocol_codegen/methods/sysex/generator.py:73-101 | The Java dictionary: the same `sysex`, `limits` and `roles` as the C++ one (`ConversionsAgree`), plus the message-ID ranges 0–63, 64–191, 192–255 (`JavaIdRangesPartition`). |
| SysExConversion.ConversionsAreVerbatim | src/protocol_codegen/methods/sysex/generator.py:47-91 | Both conversions copy the four framing values, the four structure offsets and the four limits verbatim. Reading the `sysex` and `limits` dictionaries back gives the original record. |
| SysExConversion.FromSectionsIsExact | src/protocol_codegen/methods/sysex/generator.py:50-65 | The reading-back function recovers a record iff the dictionaries are exactly that record's conversion. |
| SysExConversion.ConversionsAgree | src/protocol_codegen/methods/sysex/generator.py:47-101 | The C++ and Java conversions give identical `sysex`, `limits` and `roles`, with cpp as "controller" and java as "host". |
| SysExConversion.TilesPartition | src/protocol_codegen/methods/sysex/generator.py:96-100 | Ranges that tile `lo..hi` one after another are ascending, pairwise disjoint and inside `lo..hi`. An ID is in `lo..hi` iff some range covers it. |
| SysExConversion.JavaIdRangesPartition | src/protocol_codegen/methods/sysex/generator.py:96-100 | The ranges controller_to_host 0–63, host_to_controller 64–191 and bidirectional 192–255 are ascending, disjoint and contiguous. Together they cover exactly 0..255. |
| SysExConversion.ConvertedConstantsReadBack | src/protocol_codegen/methods/sysex/generator.py:73-91 | The constants file generated from the Java conversion declares all twelve constants with the configured values. No default is ever used. |
| StructNames.Capitalize | src/protocol_codegen/methods/sysex/generator.py:265 | Python's `str.capitalize` on ASCII: the first character upper-cased, the rest lower-cased (`SensorReadingSingleName` shows it on the example words). |
| StructNames.PascalCase | src/protocol_codegen/methods/sysex/generator.py:265 | The capitalised words run together; it distributes over concatenation (`PascalAppend`) and is undone by `SnakeCase` on upper-case words (`UnderscoredPascal`). |
| StructNames.StructName | src/protocol_codegen/methods/sysex/generator.py:265-266 | The name split on `_`, capitalised, joined, then `Message` (`StructNameOfWords`); injective on UPPER_SNAKE names (`StructNameRoundTrip`, `StructNameInjective`) and not beyond them (`DoubledUnderscoreCollides`). |
| StructNames.StructNameRoundTrip | src/protocol_codegen/methods/sysex/generator.py:265-266 | For an UPPER_SNAKE message name, stripping `Message` from the struct name and converting PascalCase back to snake case gives the message name. |
| StructNames.StructNameInjective | src/protocol_codegen/methods/sysex/generator.py:265-266 | Distinct UPPER_SNAKE message names get distinct struct/class names, so no two generated files collide. |
| StructNames.UnderscoredPascal | src/protocol_codegen/methods/sysex/generator.py:265 | Putting `_` before every capital of the PascalCase of upper-case words, and upper-casing the rest, gives `_` followed by the words joined with `_`. |
| StructNames.StructNameOfWords | src/protocol_codegen/methods/sysex/generator.py:265-266 | The struct name of `w1_w2_..._wn` is the concatenation of the capitalised words, followed by `Message`. |
| StructNames.SnakeJoin | src/protocol_codegen/methods/sysex/generator.py:265 | Splitting `w1_..._wn` on `_` gives the words back, and the joined name is UPPER_SNAKE. |
| StructNames.SensorReadingSingleName | src/protocol_codegen/methods/sysex/generator.py:265-266 | `SENSOR_READING_SINGLE` becomes `SensorReadingSingleMessage`. |
| StructNames.PascalAppend | src/protocol_codegen/methods/sysex/generator.py:265 | The PascalCase of two lists of words is the concatenation of their PascalCases. |
| StructNames.DoubledUnderscoreCollides | src/protocol_codegen/methods/sysex/generator.py:265-266 | `A_B` and `A__B` get the same struct name, because the empty piece capitalises to nothing, and `A__B` is not UPPER_SNAKE. Injectivity therefore needs the UPPER_SNAKE restriction. |
| SysExPipeline.StructRequests | src/protocol_codegen/methods/sysex/generator.py:264-273 | The struct loop: one request per message in order iff every name has an ID (`EmittedIffAllAllocated`, `EmittedRequests`), otherwise the `KeyError` of the first message without one (`MissingKeyIsFirst`). |
| SysExPipeline.ValidationReport | src/protocol_codegen/methods/sysex/generator.py:181 | The text `Protocol validation failed with <n> error(s)`, which reads back as the count (`ReportStatesCount`). |
| SysExPipeline.Run | src/protocol_codegen/methods/sysex/generator.py:104-212 | The trace of steps and the outcome of the pipeline, with the Java step's constants call given its package; its promises are `ValidationGate`, `StepsRunInOrder`, `MissingAllocationStopsCpp` and `GeneratedStructs`. |
| SysExPipeline.RunAsWritten | src/protocol_codegen/methods/sysex/generator.py:313-316 | The pipeline with the Java step's constants call as written, without `package`: the Java step raises for the missing argument. |
| SysExPipeline.AsWrittenNeverGenerates | src/protocol_codegen/methods/sysex/generator.py:313-316 | As written, no run generates code: exactly the runs `Run` completes end in the Java step with the missing `package` argument, after the same steps, and every other run is unchanged. |
| SysExPipeline.EmitStructs | src/protocol_codegen/methods/sysex/generator.py:264-273 | The struct loop (the C++ one, and the Java one at lines 330-343) equals `StructRequests`: one request per message in order, or the `KeyError` of the first message without an ID. |
| SysExPipeline.EmittedIffAllAllocated | src/protocol_codegen/methods/sysex/generator.py:268 | The struct loop completes iff every message's name has an allocated ID. |
| SysExPipeline.EmittedRequests | src/protocol_codegen/methods/sysex/generator.py:264-272 | A completed loop makes exactly one request per message, in order. Each request has the message, `allocations[message.name]` as its ID, the struct name plus extension as its file, and the configured string limit. |
| SysExPipeline.MissingKeyIsFirst | src/protocol_codegen/methods/sysex/generator.py:268 | A failed loop names the first message whose name has no ID. Every earlier message has one. |
| SysExPipeline.SameLookups | src/protocol_codegen/methods/sysex/generator.py:330-334 | The Java loop looks up the same `allocations[message.name]` as the C++ loop at line 268, so the two fail or succeed together. |
| SysExPipeline.MissingKeyStops | src/protocol_codegen/methods/sysex/generator.py:268 | Once the loop has raised at a message, later messages change nothing. |
| SysExPipeline.ReportStatesCount | src/protocol_codegen/methods/sysex/generator.py:181 | The validation error message reads back as the number of errors found. |
| SysExPipeline.GenerateSysExProtocol | src/protocol_codegen/methods/sysex/generator.py:104-212 | The pipeline method's steps and outcome are exactly those of the specification function `Run`. |
| SysExPipeline.ValidationGate | src/protocol_codegen/methods/sysex/generator.py:172-188 | The run fails validation iff the validator returns errors. Then the steps are exactly load types, load config, import messages, validate: no allocation and no generation. The report states the error count. Otherwise allocation and the C++ step run. |
| SysExPipeline.StepsRunInOrder | src/protocol_codegen/methods/sysex/generator.py:127-212 | The steps taken are always a prefix of load types, load config, import messages, validate, allocate, C++, Java. Code is generated iff all seven steps ran. That happens iff validation found nothing and every message has an ID. |
| SysExPipeline.MissingAllocationStopsCpp | src/protocol_codegen/methods/sysex/generator.py:190-212 | A `KeyError` happens in the C++ step and names the first message without an ID. The Java step never starts. |
| SysExPipeline.GeneratedStructs | src/protocol_codegen/methods/sysex/generator.py:215-348 | A successful run gives each step its converted configuration and one struct per message, in order. C++ and Java agree on the message, its ID `allocations[message.name]` and the string limit. The C++ file is `<StructName>.hpp` and the Java file is `<StructName>.java`. |

## Left out

- **The type registry, validator, ID allocator and field model** (`protocol_codegen.core`) are not part of this model. Their sources are not among the modelled files. The validator and the allocator are parameters of the pipeline (`validate`, `allocate`). Loading the type registry is only a step in the trace.
- **The C++ and Java file generators** are not part of this model. This covers the encoder, decoder, logger, `MessageID`, `ProtocolConstants.hpp` and struct generators. Each struct file is represented by what the loop hands to the generator (message, ID, file name, string limit). The base files each step writes before its struct loop are not represented.
- **The Java step's `ProtocolConstants.java` call at src/protocol_codegen/methods/sysex/generator.py:315** passes two arguments to a function of three (src/protocol_codegen/generators/java/constants_generator.py:57), so as written it raises `TypeError` for the missing `package` in step 7, before the Java struct loop. No run of the program as written generates code (`RunAsWritten`, `AsWrittenNeverGenerates`). `Run`, `GenerateSysExProtocol` and the lemmas about their `Generated` outcome (`StepsRunInOrder`, `GeneratedStructs`) describe the pipeline with that call completed; what it writes is not modelled, since the package it would pass is not in the source. `generate_constants_java` itself is modelled as defined, with its three parameters. Its `output_path` parameter is never read, so the model's generator takes only the configuration and the package.
- **I/O and process plumbing** is left out: dynamic loading of `protocol_config.py`, `plugin_paths.py` and the `message` module (including the `ImportError`/`ValueError` raised there), `sys.path` changes, directory creation, file writes, console output and verbose logging. The configuration and the message list are parameters of the pipeline.
- **Extra dictionary keys**: the TypedDicts are `total=False`, and the model represents a dictionary by its eight (or four) known keys. A dictionary holding only unknown keys is truthy in Python but equal to the empty record here.
- **Message definitions** are reduced to their names; the pipeline reads nothing else from them.
- **Python's dynamic typing**: every configuration value is an unbounded integer, and no non-`int` value is modelled.
- StructNames.Capitalize: models `str.capitalize` on ASCII only. Non-ASCII letters are left unchanged, whereas Python would change their case.
- **The Pydantic defaults of `SysExFraming`/`SysExStructure`/`SysExLimits`** live in a configuration module that is not part of this model. The example-configuration lemmas therefore constrain only the fields the examples set.
- **The CLI and entry points** (`cli.py`, `__main__.py`) are left out.

## Findings

| source | as written | input that shows it | evidently intended | confidence | as-written member | corrected member |
|---|---|---|---|---|---|---|
| src/protocol_codegen/methods/sysex/generator.py:315 | `generate_constants_java(protocol_config_dict, java_constants_path)` leaves out the required `package` argument, so step 7 raises `TypeError` | any configuration and messages that pass validation and whose names all have IDs | the call passes a Java package, and step 7 goes on to the struct loop | high; not executed | SysExPipeline.AsWrittenNeverGenerates | SysExPipeline.StepsRunInOrder |
