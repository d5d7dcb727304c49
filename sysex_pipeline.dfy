/**
 * The SysEx generation pipeline as a sequence of steps: load the type
 * registry, load the configuration, import the messages, validate them,
 * allocate message IDs, generate the C++ code, generate the Java code.  A
 * non-empty list of validation errors stops the pipeline with an error that
 * reports their number, before any allocation or generation.
 *
 * The registry, the validator, the allocator and the file generators are not
 * part of this model: the validator and the allocator are parameters, and each
 * generation step is represented by what it hands to the struct generator for
 * every message (the message, its allocated ID, the file name derived from the
 * message name, the string length limit) and by the converted configuration.
 */
module SysExPipeline {
  import opened Wrappers
  import opened PyText
  import opened StructNames
  import opened SysExConversion

  /** The steps of the pipeline. */
  datatype Step = LoadTypes | LoadConfig | ImportMessages | Validate | Allocate | GenerateCpp | GenerateJava

  /** The order the steps run in. */
  const StepOrder := [LoadTypes, LoadConfig, ImportMessages, Validate, Allocate, GenerateCpp, GenerateJava]

  /** A message definition; the pipeline itself reads only its name. */
  datatype Message = Message(name: string)

  /** What one turn of a struct loop hands to the struct generator, and the file it writes. */
  datatype StructRequest = StructRequest(message: Message, messageId: int, fileName: string, stringMaxLength: int)

  /** A whole struct loop: a request per message, or the `KeyError` of the first message without an ID. */
  datatype Emission = Emitted(requests: seq<StructRequest>) | MissingKey(name: string)

  datatype Outcome =
    | Generated(cppConfig: CppProtocolConfig, cppStructs: seq<StructRequest>,
                javaConfig: JavaProtocolConfig, javaStructs: seq<StructRequest>)
    | ValidationFailed(report: string)
    | KeyError(name: string)
    | MissingArgument(parameter: string)

  // ---------------------------------------------------------------------------
  // The struct loops
  // ---------------------------------------------------------------------------

  /** The request for one message whose name has an allocated ID. */
  function Request(m: Message, allocations: map<string, int>, extension: string, stringMax: int): StructRequest
    requires m.name in allocations
  {
    StructRequest(m, allocations[m.name], StructName(m.name) + extension, stringMax)
  }

  /** The struct loop over `messages`, in order, stopping at the first name without an ID. */
  function StructRequests(messages: seq<Message>, allocations: map<string, int>, extension: string, stringMax: int): Emission
    decreases |messages|
  {
    if |messages| == 0 then Emitted([])
    else
      var last := messages[|messages| - 1];
      match StructRequests(messages[..|messages| - 1], allocations, extension, stringMax)
      case MissingKey(n) => MissingKey(n)
      case Emitted(rs) =>
        if last.name in allocations then Emitted(rs + [Request(last, allocations, extension, stringMax)])
        else MissingKey(last.name)
  }

  /** `i` is the first message whose name has no allocated ID. */
  predicate FirstMissing(messages: seq<Message>, allocations: map<string, int>, i: int)
  {
    0 <= i < |messages| && messages[i].name !in allocations
    && forall j :: 0 <= j < i ==> messages[j].name in allocations
  }

  /** The struct loop succeeds exactly when every message has an allocated ID. */
  lemma {:induction false} EmittedIffAllAllocated(messages: seq<Message>, allocations: map<string, int>,
                                                  extension: string, stringMax: int)
    ensures StructRequests(messages, allocations, extension, stringMax).Emitted?
      <==> forall i :: 0 <= i < |messages| ==> messages[i].name in allocations
    decreases |messages|
  {
    if |messages| > 0 {
      var front, last := messages[..|messages| - 1], messages[|messages| - 1];
      EmittedIffAllAllocated(front, allocations, extension, stringMax);
      assert StructRequests(messages, allocations, extension, stringMax).Emitted?
        <==> StructRequests(front, allocations, extension, stringMax).Emitted? && last.name in allocations;
      AllAllocatedSplit(messages, allocations);
    }
  }

  /** Every message has an ID exactly when every message but the last has one and the last has one. */
  lemma AllAllocatedSplit(messages: seq<Message>, allocations: map<string, int>)
    requires |messages| > 0
    ensures var front := messages[..|messages| - 1];
      (forall i :: 0 <= i < |messages| ==> messages[i].name in allocations)
      <==> (forall i :: 0 <= i < |front| ==> front[i].name in allocations) && messages[|messages| - 1].name in allocations
  {
    var front := messages[..|messages| - 1];
    assert forall i :: 0 <= i < |front| ==> front[i] == messages[i];
  }

  /**
   * A successful struct loop makes one request per message, in order, with the
   * message's allocated ID, its struct name as the file name and the string limit.
   */
  lemma {:induction false} EmittedRequests(messages: seq<Message>, allocations: map<string, int>,
                                           extension: string, stringMax: int)
    ensures match StructRequests(messages, allocations, extension, stringMax)
      case Emitted(rs) =>
        |rs| == |messages|
        && forall i :: 0 <= i < |rs| ==>
             messages[i].name in allocations && rs[i] == Request(messages[i], allocations, extension, stringMax)
      case MissingKey(_) => true
    decreases |messages|
  {
    if |messages| > 0 {
      var front := messages[..|messages| - 1];
      var last := messages[|messages| - 1];
      EmittedRequests(front, allocations, extension, stringMax);
      match StructRequests(front, allocations, extension, stringMax)
      case MissingKey(_) =>
      case Emitted(rs) =>
        if last.name in allocations {
          var rs' := rs + [Request(last, allocations, extension, stringMax)];
          assert StructRequests(messages, allocations, extension, stringMax) == Emitted(rs');
          assert messages == front + [last];
          RequestsExtend(front, last, rs, allocations, extension, stringMax);
        }
    }
  }

  /** One more allocated message adds its request at the end and keeps the earlier ones. */
  lemma RequestsExtend(front: seq<Message>, last: Message, rs: seq<StructRequest>, allocations: map<string, int>,
                       extension: string, stringMax: int)
    requires |rs| == |front| && last.name in allocations
    requires forall i :: 0 <= i < |rs| ==>
      front[i].name in allocations && rs[i] == Request(front[i], allocations, extension, stringMax)
    ensures var messages, rs' := front + [last], rs + [Request(last, allocations, extension, stringMax)];
      |rs'| == |messages|
      && forall i :: 0 <= i < |rs'| ==>
           messages[i].name in allocations && rs'[i] == Request(messages[i], allocations, extension, stringMax)
  {
    var messages, rs' := front + [last], rs + [Request(last, allocations, extension, stringMax)];
    forall i | 0 <= i < |rs'|
      ensures messages[i].name in allocations && rs'[i] == Request(messages[i], allocations, extension, stringMax)
    {
      if i < |rs| {
        assert rs'[i] == rs[i] && messages[i] == front[i];
      } else {
        assert messages[i] == last;
      }
    }
  }

  /** A failed struct loop names the first message that has no allocated ID. */
  lemma {:induction false} MissingKeyIsFirst(messages: seq<Message>, allocations: map<string, int>,
                                             extension: string, stringMax: int)
    ensures match StructRequests(messages, allocations, extension, stringMax)
      case Emitted(_) => true
      case MissingKey(n) => exists i :: FirstMissing(messages, allocations, i) && messages[i].name == n
    decreases |messages|
  {
    if |messages| > 0 {
      var front := messages[..|messages| - 1];
      var last := messages[|messages| - 1];
      MissingKeyIsFirst(front, allocations, extension, stringMax);
      EmittedIffAllAllocated(front, allocations, extension, stringMax);
      assert forall i :: 0 <= i < |front| ==> front[i] == messages[i];
      match StructRequests(front, allocations, extension, stringMax)
      case MissingKey(n) => {
        var i :| FirstMissing(front, allocations, i) && front[i].name == n;
        assert FirstMissing(messages, allocations, i);
      }
      case Emitted(rs) => {
        if last.name !in allocations {
          assert FirstMissing(messages, allocations, |messages| - 1);
        }
      }
    }
  }

  /** The C++ and the Java loop stop at the same message: the file extension plays no part in the lookup. */
  lemma SameLookups(messages: seq<Message>, allocations: map<string, int>, cppExtension: string, javaExtension: string,
                    stringMax: int)
    ensures StructRequests(messages, allocations, cppExtension, stringMax).Emitted?
      == StructRequests(messages, allocations, javaExtension, stringMax).Emitted?
  {
    EmittedIffAllAllocated(messages, allocations, cppExtension, stringMax);
    EmittedIffAllAllocated(messages, allocations, javaExtension, stringMax);
  }

  /** The struct loop of one generation step. */
  method EmitStructs(messages: seq<Message>, allocations: map<string, int>, extension: string, stringMax: int)
    returns (e: Emission)
    ensures e == StructRequests(messages, allocations, extension, stringMax)
  {
    var requests := [];
    var i := 0;
    while i < |messages|
      invariant 0 <= i <= |messages|
      invariant StructRequests(messages[..i], allocations, extension, stringMax) == Emitted(requests)
    {
      var message := messages[i];
      assert messages[..i + 1][..i] == messages[..i];
      if message.name !in allocations {
        assert StructRequests(messages[..i + 1], allocations, extension, stringMax) == MissingKey(message.name);
        MissingKeyStops(messages, allocations, extension, stringMax, i + 1);
        return MissingKey(message.name);
      }
      var structName := StructName(message.name);
      requests := requests + [StructRequest(message, allocations[message.name], structName + extension, stringMax)];
      i := i + 1;
    }
    assert messages[..i] == messages;
    return Emitted(requests);
  }

  /** Once the loop has stopped at a message, the messages after it change nothing. */
  lemma {:induction false} MissingKeyStops(messages: seq<Message>, allocations: map<string, int>, extension: string,
                                           stringMax: int, k: nat)
    requires k <= |messages|
    requires StructRequests(messages[..k], allocations, extension, stringMax).MissingKey?
    ensures StructRequests(messages, allocations, extension, stringMax) == StructRequests(messages[..k], allocations, extension, stringMax)
    decreases |messages| - k
  {
    if k < |messages| {
      assert messages[..k + 1][..k] == messages[..k];
      MissingKeyStops(messages, allocations, extension, stringMax, k + 1);
    } else {
      assert messages[..k] == messages;
    }
  }

  // ---------------------------------------------------------------------------
  // The validation error
  // ---------------------------------------------------------------------------

  const ReportPrefix := "Protocol validation " + "failed with "
  const ReportSuffix := " error(s)"

  /** The message of the error raised when validation finds `count` errors. */
  function ValidationReport(count: nat): string
  {
    ReportPrefix + Decimal(count) + ReportSuffix
  }

  /** The error count a validation report states; `None` for any other text. */
  function ReportedCount(report: string): Option<int>
  {
    var n, m := |ReportPrefix|, |ReportSuffix|;
    if |report| >= n + m && report[..n] == ReportPrefix && report[|report| - m..] == ReportSuffix
    then ParseDecimal(report[n..|report| - m])
    else None
  }

  /** The report states the number of errors found. */
  lemma ReportStatesCount(count: nat)
    ensures ReportedCount(ValidationReport(count)) == Some(count)
  {
    Between(ReportPrefix, Decimal(count), ReportSuffix);
  }

  lemma Between(prefix: string, body: string, suffix: string)
    ensures var s := prefix + body + suffix;
      s[..|prefix|] == prefix && s[|s| - |suffix|..] == suffix && s[|prefix|..|s| - |suffix|] == body
  {
    var s := prefix + body + suffix;
    assert s[..|prefix|] == prefix;
    assert s[|s| - |suffix|..] == suffix;
    assert s[|prefix|..|s| - |suffix|] == body;
  }

  // ---------------------------------------------------------------------------
  // The pipeline
  // ---------------------------------------------------------------------------

  /** The steps a run took and how it ended. */
  datatype Trace = Trace(steps: seq<Step>, outcome: Outcome)

  /** The steps taken and the outcome of the pipeline. */
  function Run(config: SysExConfig, messages: seq<Message>,
               validate: seq<Message> -> seq<string>, allocate: seq<Message> -> map<string, int>): Trace
  {
    var errors := validate(messages);
    if |errors| > 0 then Trace(StepOrder[..4], ValidationFailed(ValidationReport(|errors|)))
    else
      var allocations := allocate(messages);
      var stringMax := config.limits.stringMaxLength;
      match StructRequests(messages, allocations, ".hpp", stringMax)
      case MissingKey(n) => Trace(StepOrder[..6], KeyError(n))
      case Emitted(cpp) =>
        match StructRequests(messages, allocations, ".java", stringMax)
        case MissingKey(n) => Trace(StepOrder, KeyError(n))
        case Emitted(java) =>
          Trace(StepOrder, Generated(ToCppProtocolConfig(config), cpp, ToJavaProtocolConfig(config), java))
  }

  /**
   * The pipeline as the Java step is written: it calls the constants
   * generator with the configuration and the output path but no package, so
   * the step raises a `TypeError` for the missing argument before its struct
   * loop.  `Run` is the pipeline with that call given its package.
   */
  function RunAsWritten(config: SysExConfig, messages: seq<Message>,
                        validate: seq<Message> -> seq<string>, allocate: seq<Message> -> map<string, int>): Trace
  {
    var errors := validate(messages);
    if |errors| > 0 then Trace(StepOrder[..4], ValidationFailed(ValidationReport(|errors|)))
    else
      match StructRequests(messages, allocate(messages), ".hpp", config.limits.stringMaxLength)
      case MissingKey(n) => Trace(StepOrder[..6], KeyError(n))
      case Emitted(_) => Trace(StepOrder, MissingArgument("package"))
  }

  /**
   * As written, the pipeline never generates code: every run that `Run`
   * completes fails instead in the Java step for want of `package`, and every
   * other run takes the same steps to the same outcome.
   */
  lemma AsWrittenNeverGenerates(config: SysExConfig, messages: seq<Message>,
                                validate: seq<Message> -> seq<string>, allocate: seq<Message> -> map<string, int>)
    ensures var w, t := RunAsWritten(config, messages, validate, allocate), Run(config, messages, validate, allocate);
      && !w.outcome.Generated?
      && w.steps == t.steps
      && (w.outcome == MissingArgument("package") <==> t.outcome.Generated?)
      && (!t.outcome.Generated? ==> w == t)
  {
    var allocations := allocate(messages);
    SameLookups(messages, allocations, ".hpp", ".java", config.limits.stringMaxLength);
  }

  /** The pipeline, step by step. */
  method GenerateSysExProtocol(config: SysExConfig, messages: seq<Message>,
                               validate: seq<Message> -> seq<string>, allocate: seq<Message> -> map<string, int>)
    returns (steps: seq<Step>, outcome: Outcome)
    ensures Trace(steps, outcome) == Run(config, messages, validate, allocate)
  {
    steps := [LoadTypes];
    steps := steps + [LoadConfig];
    steps := steps + [ImportMessages];
    steps := steps + [Validate];
    assert steps == StepOrder[..4];
    var errors := validate(messages);
    if |errors| > 0 {
      return steps, ValidationFailed(ValidationReport(|errors|));
    }
    steps := steps + [Allocate];
    var allocations := allocate(messages);
    steps := steps + [GenerateCpp];
    assert steps == StepOrder[..6];
    var cppConfig := ToCppProtocolConfig(config);
    var cpp := EmitStructs(messages, allocations, ".hpp", config.limits.stringMaxLength);
    if cpp.MissingKey? {
      return steps, KeyError(cpp.name);
    }
    steps := steps + [GenerateJava];
    assert steps == StepOrder;
    var javaConfig := ToJavaProtocolConfig(config);
    var java := EmitStructs(messages, allocations, ".java", config.limits.stringMaxLength);
    if java.MissingKey? {
      return steps, KeyError(java.name);
    }
    outcome := Generated(cppConfig, cpp.requests, javaConfig, java.requests);
  }

  // ---------------------------------------------------------------------------
  // What the pipeline promises
  // ---------------------------------------------------------------------------

  /**
   * Validation errors stop the pipeline right after validation, with a report
   * of their number: no ID is allocated and no code is generated.  Without
   * errors, allocation and the C++ step always run.
   */
  lemma ValidationGate(config: SysExConfig, messages: seq<Message>,
                       validate: seq<Message> -> seq<string>, allocate: seq<Message> -> map<string, int>)
    ensures var t := Run(config, messages, validate, allocate);
      && (|validate(messages)| > 0 <==> t.outcome.ValidationFailed?)
      && (t.outcome.ValidationFailed? ==>
            && t.steps == [LoadTypes, LoadConfig, ImportMessages, Validate]
            && ReportedCount(t.outcome.report) == Some(|validate(messages)|))
      && (!t.outcome.ValidationFailed? ==> Allocate in t.steps && GenerateCpp in t.steps)
  {
    var t := Run(config, messages, validate, allocate);
    if |validate(messages)| > 0 {
      ReportStatesCount(|validate(messages)|);
      assert t.steps == [LoadTypes, LoadConfig, ImportMessages, Validate];
    } else {
      assert StepOrder[..6][4] == Allocate && StepOrder[..6][5] == GenerateCpp;
      assert StepOrder[4] == Allocate && StepOrder[5] == GenerateCpp;
    }
  }

  /**
   * The steps taken are always the first steps of `StepOrder`; all of them
   * run, and code is generated, exactly when validation finds no error and
   * every message has an allocated ID.
   */
  lemma StepsRunInOrder(config: SysExConfig, messages: seq<Message>,
                        validate: seq<Message> -> seq<string>, allocate: seq<Message> -> map<string, int>)
    ensures var t := Run(config, messages, validate, allocate);
      && |t.steps| <= |StepOrder| && t.steps == StepOrder[..|t.steps|]
      && (t.outcome.Generated? <==> t.steps == StepOrder)
      && (t.outcome.Generated? <==>
            |validate(messages)| == 0 && forall i :: 0 <= i < |messages| ==> messages[i].name in allocate(messages))
  {
    var allocations := allocate(messages);
    var stringMax := config.limits.stringMaxLength;
    EmittedIffAllAllocated(messages, allocations, ".hpp", stringMax);
    SameLookups(messages, allocations, ".hpp", ".java", stringMax);
  }

  /**
   * A message missing from the allocations stops the pipeline in the C++ step
   * with a `KeyError` naming the first such message; the Java step never starts.
   */
  lemma MissingAllocationStopsCpp(config: SysExConfig, messages: seq<Message>,
                                  validate: seq<Message> -> seq<string>, allocate: seq<Message> -> map<string, int>)
    ensures var t := Run(config, messages, validate, allocate);
      t.outcome.KeyError? ==>
        && t.steps == StepOrder[..6] && GenerateJava !in t.steps
        && exists i :: FirstMissing(messages, allocate(messages), i) && messages[i].name == t.outcome.name
  {
    var allocations := allocate(messages);
    var stringMax := config.limits.stringMaxLength;
    MissingKeyIsFirst(messages, allocations, ".hpp", stringMax);
    SameLookups(messages, allocations, ".hpp", ".java", stringMax);
  }

  /**
   * When code is generated, both steps make one struct per message, in order:
   * each with the ID allocated to its name, the struct name derived from that
   * name (`.hpp` for C++, `.java` for Java) and the configured string limit,
   * and each step gets its converted configuration.
   */
  lemma GeneratedStructs(config: SysExConfig, messages: seq<Message>,
                         validate: seq<Message> -> seq<string>, allocate: seq<Message> -> map<string, int>)
    ensures var o := Run(config, messages, validate, allocate).outcome;
      o.Generated? ==>
        && o.cppConfig == ToCppProtocolConfig(config)
        && o.javaConfig == ToJavaProtocolConfig(config)
        && |o.cppStructs| == |o.javaStructs| == |messages|
        && forall i :: 0 <= i < |messages| ==>
             && messages[i].name in allocate(messages)
             && o.cppStructs[i].message == o.javaStructs[i].message == messages[i]
             && o.cppStructs[i].messageId == o.javaStructs[i].messageId == allocate(messages)[messages[i].name]
             && o.cppStructs[i].fileName == StructName(messages[i].name) + ".hpp"
             && o.javaStructs[i].fileName == StructName(messages[i].name) + ".java"
             && o.cppStructs[i].stringMaxLength == o.javaStructs[i].stringMaxLength == config.limits.stringMaxLength
  {
    var allocations := allocate(messages);
    var stringMax := config.limits.stringMaxLength;
    EmittedIffAllAllocated(messages, allocations, ".hpp", stringMax);
    EmittedRequests(messages, allocations, ".hpp", stringMax);
    EmittedRequests(messages, allocations, ".java", stringMax);
  }
}
