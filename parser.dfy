/** The signatures-file language: comment and blank lines, the directives
    @includeBundled, @defaultMessage, @ignoreUnresolvable and
    @ignoreMissingClasses, and signature lines with an optional `@ message`.
    These functions state what parsing does to the rule store; the methods of
    the Signatures class are proved to do exactly that. */
module Parser {
  import opened Base
  import opened Text
  import opened Keys
  import opened Versions
  import opened Resolver
  import opened RuleStore

  const BundledPrefix: string := "@includeBundled "
  const DefaultMessagePrefix: string := "@defaultMessage "
  const IgnoreUnresolvableLine: string := "@ignoreUnresolvable"
  const IgnoreMissingClassesLine: string := "@ignoreMissingClasses"

  /** The bundled name that switches on the non-portable-runtime heuristics
      instead of naming a resource (BS_JDK_NONPORTABLE). */
  const NonPortableName: string := "jdk-non-portable"

  /** What one line of a signatures file is. */
  datatype LineKind =
    | Skip
    | Include(name: string)
    | DefaultMessage(message: Option<string>)
    | IgnoreUnresolvable
    | IgnoreMissingClasses
    | UnknownDirective(line: string)
    | SignatureLine(line: string)

  /** The classification of a line after trimming. */
  function ClassifyLine(raw: string, isBundled: bool): (k: LineKind)
    ensures var t := Trim(raw); k == Skip <==> t == [] || t[0] == '#'
    ensures var t := Trim(raw); k.SignatureLine? <==> t != [] && t[0] != '#' && t[0] != '@'
    ensures k.SignatureLine? ==> k.line == Trim(raw) && k.line != []
    ensures k.Include? ==> isBundled
  {
    var line := Trim(raw);
    if line == [] then Skip
    else
      StartsWithChar(line, '#');
      StartsWithChar(line, '@');
      if StartsWith(line, "#") then Skip
      else if StartsWith(line, "@") then Directive(line, isBundled)
      else SignatureLine(line)
  }

  /** A line starting with '@'. @includeBundled is a directive of bundled
      files only; in other input it is an unknown directive. */
  function Directive(line: string, isBundled: bool): (k: LineKind)
    requires line != [] && line[0] == '@'
    ensures k != Skip && !k.SignatureLine?
    ensures k.Include? ==> isBundled
  {
    if isBundled && StartsWith(line, BundledPrefix) then Include(Trim(line[|BundledPrefix|..]))
    else if StartsWith(line, DefaultMessagePrefix) then
      var message := Trim(line[|DefaultMessagePrefix|..]);
      DefaultMessage(if |message| == 0 then None else Some(message))
    else if line == IgnoreUnresolvableLine then IgnoreUnresolvable
    else if line == IgnoreMissingClassesLine then IgnoreMissingClasses
    else UnknownDirective(line)
  }

  /** The per-file settings: the default message, the reporting mode for
      unresolvable signatures and the local ignore-missing-classes flag. */
  datatype FileContext = FileContext(defaultMessage: Option<string>, reporter: Reporting, localIgnore: bool)

  function InitialContext(cfg: Config): FileContext {
    FileContext(None, if cfg.failOnUnresolvableSignatures then FAIL else Reporting.WARNING, false)
  }

  /** The settings after one line: directives change them, other lines do not. */
  function NextContext(ctx: FileContext, kind: LineKind, isBundled: bool): FileContext {
    match kind
    case DefaultMessage(message) => ctx.(defaultMessage := message)
    case IgnoreUnresolvable => ctx.(reporter := if isBundled then SILENT else Reporting.WARNING)
    case IgnoreMissingClasses => ctx.(localIgnore := true)
    case _ => ctx
  }

  /** The settings in force when line i of a file is read. */
  function ContextAt(cfg: Config, kinds: seq<LineKind>, i: nat, isBundled: bool): FileContext
    requires i <= |kinds|
  {
    if i == 0 then InitialContext(cfg)
    else NextContext(ContextAt(cfg, kinds, i - 1, isBundled), kinds[i - 1], isBundled)
  }

  /** The kind of every line of a file. */
  function Classify(lines: seq<string>, isBundled: bool): (kinds: seq<LineKind>)
    ensures |kinds| == |lines|
    ensures forall i {:trigger ClassifyLine(lines[i], isBundled)} :: 0 <= i < |lines| ==> kinds[i] == ClassifyLine(lines[i], isBundled)
    ensures !isBundled ==> forall i :: 0 <= i < |kinds| ==> !kinds[i].Include?
  {
    if lines == [] then [] else [ClassifyLine(lines[0], isBundled)] + Classify(lines[1..], isBundled)
  }

  /** The signature and the message of a signature line: the text before the
      first '@' and the text after it, both trimmed; with no '@', the whole
      line and the default message. */
  function SplitMessage(line: string, defaultMessage: Option<string>): (r: (string, Option<string>))
    ensures '@' !in line ==> r == (line, defaultMessage)
    ensures '@' in line ==> '@' !in r.0 && r.1.Some?
  {
    var p := IndexOf(line, '@');
    if p >= 0 then (Trim(line[..p]), Some(Trim(line[p + 1..]))) else (line, defaultMessage)
  }

  /** The message stored with a line's rules: an empty message is none. */
  function LineMessage(line: string, defaultMessage: Option<string>): (r: Option<string>)
    ensures r.Some? ==> r.value != []
  {
    var message := SplitMessage(line, defaultMessage).1;
    if message == Some("") then None else message
  }

  /** The text stored for an exact key. */
  function Printout(signature: string, message: Option<string>): string {
    if message.Some? then signature + " [" + message.value + "]" else signature
  }

  /** Normal or exceptional completion together with the state it leaves:
      the store and the missing-classes set. */
  datatype Step = Step(outcome: Outcome, store: Store, missing: set<string>)

  /** What reading input may do: the store is extended, the missing-classes
      set only grows and the class patterns stay free of duplicates. */
  predicate Grows(s: Store, missing: set<string>, r: Step) {
    Extends(s, r.store) && missing <= r.missing && (Valid(s) ==> Valid(r.store))
  }

  /** addSignature. An exception leaves store and missing classes as they were. */
  function AddSignatureSpec(cfg: Config, s: Store, missing: set<string>, line: string,
                            defaultMessage: Option<string>, report: Reporting, localIgnore: bool): (r: Step)
    ensures Grows(s, missing, r)
    ensures r.store.numberOfFiles == s.numberOfFiles
    ensures r.store.forbidNonPortableRuntime == s.forbidNonPortableRuntime
    ensures r.outcome.Fail? ==> r.store == s && r.missing == missing
  {
    var signature := SplitMessage(line, defaultMessage).0;
    if line == [] then Step(Fail(ParseError(EmptySignature, line)), s, missing)
    else
      var message := LineMessage(line, defaultMessage);
      match Resolve(cfg, report, localIgnore, missing, signature)
      case Err(e) => Step(Fail(e), s, missing)
      case Ok(res) =>
        Step(Pass, AddResolved(s, res, Printout(signature, message), message), res.missing)
  }

  /** What a resolved signature line does to the store: the warning is
      logged and every key gets the printout and the message. */
  function AddResolved(s: Store, res: Resolution, printout: string, message: Option<string>): (r: Store)
    ensures Extends(s, r) && (Valid(s) ==> Valid(r))
    ensures r.numberOfFiles == s.numberOfFiles && r.forbidNonPortableRuntime == s.forbidNonPortableRuntime
  {
    var logged := Log(s, res.warning);
    if res.keys.None? then logged else StoreKeys(logged, res.keys.value, 0, printout, message)
  }

  /** setSignatureSeverity: the signature is resolved silently and without a
      local ignore flag, and every key it stands for gets the severity. */
  function SetSeveritySpec(cfg: Config, s: Store, signature: string, severity: Severity): (r: (Outcome, Store))
    ensures r.0.Fail? ==> r.0.error.ParseError? && r.1 == s
    ensures SameRules(s, r.1) && s.severityPerClassPattern <= r.1.severityPerClassPattern
  {
    match Resolve(cfg, SILENT, false, {}, signature)
    case Err(e) => (Fail(e), s)
    case Ok(res) => if res.keys.None? then (Pass, s) else (Pass, SeverityKeys(s, res.keys.value, 0, severity))
  }

  /** setSignaturesSeverity: each signature from position i on in turn, up
      to the first exception. */
  function SetSeveritiesSpec(cfg: Config, s: Store, signatures: seq<string>, i: nat, severity: Severity): (r: (Outcome, Store))
    requires i <= |signatures|
    decreases |signatures| - i
    ensures r.0.Fail? ==> r.0.error.ParseError?
    ensures SameRules(s, r.1) && s.severityPerClassPattern <= r.1.severityPerClassPattern
  {
    if i == |signatures| then (Pass, s)
    else
      var r := SetSeveritySpec(cfg, s, signatures[i], severity);
      if r.0.Fail? then r else SetSeveritiesSpec(cfg, r.1, signatures, i + 1, severity)
  }

  predicate IsBundledNameChar(c: char) {
    'A' <= c <= 'Z' || 'a' <= c <= 'z' || '0' <= c <= '9' || c == '-' || c == '.'
  }

  /** The whole name matches `[A-Za-z0-9\-\.]+`. */
  predicate IsBundledName(name: string) {
    name != [] && forall i :: 0 <= i < |name| ==> IsBundledNameChar(name[i])
  }

  /** A "jdk-" name without a version number that was not found is tried
      again with the target version, when there is one. */
  predicate RetriesWithTarget(fixed: string, jdkTargetVersion: Option<string>) {
    jdkTargetVersion.Some? && StartsWith(fixed, "jdk-") && !EndsWithVersionNumber(fixed)
  }

  /** The bundled resource a name stands for, with the name it was found
      under. The name is normalised first; a "jdk-" name without a version
      that is not found is tried once more with the target version appended. */
  function FindBundled(cfg: Config, name: string, jdkTargetVersion: Option<string>): (r: Result<(string, seq<string>)>)
    ensures r.Ok? ==> r.value.0 in cfg.bundled && r.value.1 == cfg.bundled[r.value.0]
    ensures r.Err? ==> r.error.ParseError? || r.error.ResourceNotFound?
    ensures FixTargetVersion(name).Err? ==> r == Err(FixTargetVersion(name).error)
    ensures FixTargetVersion(name).Ok? && FixTargetVersion(name).value in cfg.bundled ==>
      r == Ok((FixTargetVersion(name).value, cfg.bundled[FixTargetVersion(name).value]))
  {
    match FixTargetVersion(name)
    case Err(e) => Err(e)
    case Ok(fixed) =>
      if fixed in cfg.bundled then Ok((fixed, cfg.bundled[fixed]))
      else if RetriesWithTarget(fixed, jdkTargetVersion) then
        match FixTargetVersion(fixed + "-" + jdkTargetVersion.value)
        case Err(e) => Err(e)
        case Ok(expanded) =>
          if expanded in cfg.bundled then Ok((expanded, cfg.bundled[expanded]))
          else Err(ResourceNotFound(expanded))
      else Err(ResourceNotFound(fixed))
  }

  /** parseSignaturesFile: the counter goes up, then the lines are read. */
  function ParseFileSpec(cfg: Config, fuel: nat, s: Store, missing: set<string>, lines: seq<string>, isBundled: bool): Step
    decreases fuel, 3, 0
  {
    LinesSpec(cfg, fuel, s.(numberOfFiles := s.numberOfFiles + 1), missing, Classify(lines, isBundled), 0, isBundled)
  }

  /** The lines from i on, each read with the settings in force at it, up to
      the first exception. */
  function LinesSpec(cfg: Config, fuel: nat, s: Store, missing: set<string>, kinds: seq<LineKind>, i: nat, isBundled: bool): Step
    requires i <= |kinds|
    decreases fuel, 2, |kinds| - i
  {
    if i == |kinds| then Step(Pass, s, missing)
    else
      var r := LineSpec(cfg, fuel, s, missing, kinds[i], ContextAt(cfg, kinds, i, isBundled), isBundled);
      if r.outcome.Fail? then r else LinesSpec(cfg, fuel, r.store, r.missing, kinds, i + 1, isBundled)
  }

  /** What one line does to the store and the missing classes, given the
      settings in force at it. Directives that only change the settings leave
      both as they are. */
  function LineSpec(cfg: Config, fuel: nat, s: Store, missing: set<string>, kind: LineKind, ctx: FileContext, isBundled: bool): Step
    decreases fuel, 1, 0
  {
    match kind
    case Include(name) => IncludeSpec(cfg, fuel, s, missing, name, None)
    case IgnoreUnresolvable =>
      Step(Pass, if isBundled then s else Log(s, Some(IgnoreUnresolvableDeprecated)), missing)
    case UnknownDirective(line) => Step(Fail(ParseError(InvalidLine, line)), s, missing)
    case SignatureLine(line) => AddSignatureSpec(cfg, s, missing, line, ctx.defaultMessage, ctx.reporter, ctx.localIgnore)
    case _ => Step(Pass, s, missing)
  }

  /** The private addBundledSignatures. An invalid name is refused before
      anything changes; the non-portable name only counts a file and sets the
      flag; any other name is read as a bundled resource. */
  function IncludeSpec(cfg: Config, fuel: nat, s: Store, missing: set<string>, name: string, jdkTargetVersion: Option<string>): Step
    decreases fuel, 0, 1
  {
    if !IsBundledName(name) then Step(Fail(ParseError(InvalidBundledName, name)), s, missing)
    else if name == NonPortableName then
      Step(Pass, s.(numberOfFiles := s.numberOfFiles + 1, forbidNonPortableRuntime := true), missing)
    else ReadBundledSpec(cfg, fuel, s, missing, FindBundled(cfg, name, jdkTargetVersion))
  }

  /** The rest of addBundledSignatures, given the outcome of looking the
      resource up under the normalised name: a resource that was found is
      parsed as a bundled file. */
  function ReadBundledSpec(cfg: Config, fuel: nat, s: Store, missing: set<string>, found: Result<(string, seq<string>)>): Step
    decreases fuel, 0, 0
  {
    match found
    case Err(e) => Step(Fail(e), s, missing)
    case Ok(found) =>
      if fuel == 0 then Step(Fail(IncludeTooDeep(found.0)), s, missing)
      else ParseFileSpec(cfg, fuel - 1, s, missing, found.1, true)
  }

  /** reportMissingSignatureClasses: two warnings when classes were missing. */
  function ReportMissing(cfg: Config, s: Store, missing: set<string>): (r: Store)
    ensures missing == {} ==> r == s
    ensures missing != {} ==> r.warnings == s.warnings + [MissingClassesHeader, MissingClassesList(cfg.formatClassesAbbreviated(missing))]
    ensures r == s.(warnings := r.warnings)
  {
    if missing == {} then s
    else s.(warnings := s.warnings + [MissingClassesHeader, MissingClassesList(cfg.formatClassesAbbreviated(missing))])
  }

  /** The public addBundledSignatures: a fresh missing-classes set, reported
      after a normal completion. */
  function AddBundledSignaturesSpec(cfg: Config, s: Store, name: string, jdkTargetVersion: Option<string>): (Outcome, Store)
  {
    var step := IncludeSpec(cfg, cfg.includeDepth, s, {}, name, jdkTargetVersion);
    if step.outcome.Fail? then (step.outcome, step.store) else (Pass, ReportMissing(cfg, step.store, step.missing))
  }

  /** parseSignaturesStream and parseSignaturesString: user input, which
      cannot include bundled files. */
  function ParseSignaturesSpec(cfg: Config, s: Store, lines: seq<string>): (Outcome, Store)
  {
    var step := ParseFileSpec(cfg, cfg.includeDepth, s, {}, lines, false);
    if step.outcome.Fail? then (step.outcome, step.store) else (Pass, ReportMissing(cfg, step.store, step.missing))
  }
}
