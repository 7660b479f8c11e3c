/** The signature database as an object: the rule store lives in fields that
    its methods update in place, as parsing and severity adjustment go along.
    Every method is proved to leave exactly the state the functions of the
    Parser and Queries modules describe. */
module SignatureDatabase {
  import opened Base
  import opened Text
  import opened Keys
  import opened Resolver
  import opened RuleStore
  import opened Parser
  import opened Queries
  import ParseFacts

  class Signatures {
    /** The class lookup, the bundled resources and the options, fixed at
        construction. */
    const cfg: Config

    var signatures: map<string, string>
    var classPatterns: seq<ClassPatternRule>
    var severityPerSignature: map<string, Severity>
    var severityPerClassPattern: seq<(string, Severity)>
    var forbidNonPortableRuntime: bool
    var numberOfFiles: nat
    /** The warnings handed to the logger, in order. */
    var warnings: seq<LogLine>

    /** The fields as one store value. */
    function State(): Store
      reads this
    {
      Store(signatures, classPatterns, severityPerSignature, severityPerClassPattern,
            forbidNonPortableRuntime, numberOfFiles, warnings)
    }

    constructor (cfg: Config)
      ensures this.cfg == cfg && State() == EmptyStore
    {
      this.cfg := cfg;
      signatures := map[];
      classPatterns := [];
      severityPerSignature := map[];
      severityPerClassPattern := [];
      forbidNonPortableRuntime := false;
      numberOfFiles := 0;
      warnings := [];
    }

    /** getKeys: resolves one signature against the class lookup. */
    method GetKeys(report: Reporting, localIgnore: bool, missing: set<string>, signature: string)
      returns (r: Result<Resolution>)
      ensures r == Resolve(cfg, report, localIgnore, missing, signature)
    {
      var parsed := ParseSignature(signature);
      if parsed.Err? {
        return Err(parsed.error);
      }
      var ref := parsed.value;
      if cfg.isGlob(ref.clazz) {
        if !ref.member.NoMember? {
          return Err(ParseError(GlobWithMember, signature));
        }
        return Ok(Resolution(Some([ref.clazz]), missing, None));
      }
      if ref.clazz !in cfg.lookup {
        if cfg.ignoreSignaturesOfMissingClasses || localIgnore {
          return Ok(Resolution(None, missing, None));
        }
        if ReportsClassNotFound(report) {
          return ParseFailed(report, ClassNotFound(ref.clazz), signature, missing);
        }
        return Ok(Resolution(None, missing + {ref.clazz}, None));
      }
      var c := cfg.lookup[ref.clazz];
      match ref.member
      case MethodMember(request) =>
        var keys := MatchingMethods(c, request);
        if keys == [] {
          return ParseFailed(report, MethodNotFound, signature, missing);
        }
        return Ok(Resolution(Some(keys), missing, None));
      case FieldMember(field) =>
        if field !in c.fields {
          return ParseFailed(report, FieldNotFound, signature, missing);
        }
        return Ok(Resolution(Some([FieldKey(c.className, field)]), missing, None));
      case NoMember =>
        return Ok(Resolution(Some([ClassKey(c.className)]), missing, None));
    }

    /** The loop of getKeys over the declared methods; it does not stop at
        the first match. */
    method MatchingMethods(c: ClassMetadata, request: MethodRequest) returns (keys: seq<string>)
      ensures keys == MatchingMethodKeys(c.className, c.methods, request)
    {
      keys := [];
      var i := 0;
      while i < |c.methods|
        invariant 0 <= i <= |c.methods|
        invariant keys == MatchingMethodKeys(c.className, c.methods[..i], request)
      {
        assert c.methods[..i + 1][..i] == c.methods[..i];
        if MethodMatches(c.methods[i], request) {
          keys := keys + [MethodKey(c.className, c.methods[i])];
        }
        i := i + 1;
      }
      assert c.methods[..i] == c.methods;
    }

    /** addSignature */
    method AddSignature(line: string, defaultMessage: Option<string>, report: Reporting, localIgnore: bool, missing: set<string>)
      returns (outcome: Outcome, missing': set<string>)
      modifies this
      ensures Step(outcome, State(), missing') == AddSignatureSpec(cfg, old(State()), missing, line, defaultMessage, report, localIgnore)
    {
      if line == [] {
        return Fail(ParseError(EmptySignature, line)), missing;
      }
      var signature := SplitMessage(line, defaultMessage).0;
      var message := LineMessage(line, defaultMessage);
      var printout := Printout(signature, message);
      var resolved := GetKeys(report, localIgnore, missing, signature);
      if resolved.Err? {
        return Fail(resolved.error), missing;
      }
      var res := resolved.value;
      ghost var logged := Log(State(), res.warning);
      ghost var spec := AddSignatureSpec(cfg, State(), missing, line, defaultMessage, report, localIgnore);
      assert spec == if res.keys.None? then Step(Pass, logged, res.missing)
        else Step(Pass, StoreKeys(logged, res.keys.value, 0, printout, message), res.missing);
      if res.warning.Some? {
        warnings := warnings + [res.warning.value];
      }
      assert State() == logged;
      if res.keys.Some? {
        StoreKeysInPlace(res.keys.value, printout, message);
      }
      return Pass, res.missing;
    }

    /** The loop of addSignature over the keys: exact keys go to the map,
        anything else to the class pattern rules. */
    method StoreKeysInPlace(keys: seq<string>, printout: string, message: Option<string>)
      modifies this
      ensures State() == StoreKeys(old(State()), keys, 0, printout, message)
    {
      var i := 0;
      while i < |keys|
        invariant 0 <= i <= |keys|
        invariant StoreKeys(State(), keys, i, printout, message) == StoreKeys(old(State()), keys, 0, printout, message)
      {
        StoreKeyInPlace(keys[i], printout, message);
        i := i + 1;
      }
    }

    /** One key of addSignature: an exact key goes to the map, anything else
        becomes a class pattern rule unless that rule is already there. */
    method StoreKeyInPlace(key: string, printout: string, message: Option<string>)
      modifies this
      ensures State() == StoreKey(old(State()), key, printout, message)
    {
      if IsExactKey(key) {
        signatures := signatures[key := printout];
      } else {
        var rule := ClassPatternRule(key, message);
        if rule !in classPatterns {
          classPatterns := classPatterns + [rule];
        }
      }
    }

    /** setSignatureSeverity */
    method SetSignatureSeverity(signature: string, severity: Severity) returns (outcome: Outcome)
      modifies this
      ensures (outcome, State()) == SetSeveritySpec(cfg, old(State()), signature, severity)
    {
      var resolved := GetKeys(SILENT, false, {}, signature);
      if resolved.Err? {
        return Fail(resolved.error);
      }
      var keys := resolved.value.keys;
      assert SetSeveritySpec(cfg, State(), signature, severity) ==
        if keys.None? then (Pass, State()) else (Pass, SeverityKeys(State(), keys.value, 0, severity));
      if keys.Some? {
        SeverityKeysInPlace(keys.value, severity);
      }
      return Pass;
    }

    /** The loop of setSignatureSeverity over the keys. */
    method SeverityKeysInPlace(keys: seq<string>, severity: Severity)
      modifies this
      ensures State() == SeverityKeys(old(State()), keys, 0, severity)
    {
      var i := 0;
      while i < |keys|
        invariant 0 <= i <= |keys|
        invariant SeverityKeys(State(), keys, i, severity) == SeverityKeys(old(State()), keys, 0, severity)
      {
        SeverityKeyInPlace(keys[i], severity);
        i := i + 1;
      }
    }

    /** One key of setSignatureSeverity: an exact key gets its own override,
        a glob adds a pattern entry. */
    method SeverityKeyInPlace(key: string, severity: Severity)
      modifies this
      ensures State() == SeverityKey(old(State()), key, severity)
    {
      if IsExactKey(key) {
        severityPerSignature := severityPerSignature[key := severity];
      } else {
        severityPerClassPattern := severityPerClassPattern + [(key, severity)];
      }
    }

    /** setSignaturesSeverity: one signature after the other, up to the
        first exception. */
    method SetSignaturesSeverity(signatures: seq<string>, severity: Severity) returns (outcome: Outcome)
      modifies this
      ensures (outcome, State()) == SetSeveritiesSpec(cfg, old(State()), signatures, 0, severity)
    {
      var i := 0;
      while i < |signatures|
        invariant 0 <= i <= |signatures|
        invariant SetSeveritiesSpec(cfg, State(), signatures, i, severity) == SetSeveritiesSpec(cfg, old(State()), signatures, 0, severity)
      {
        outcome := SetSignatureSeverity(signatures[i], severity);
        if outcome.Fail? {
          return;
        }
        i := i + 1;
      }
      return Pass;
    }

    /** parseSignaturesFile: counts the file, then reads it line by line
        with the settings the directives leave in force. */
    method ParseSignaturesFile(fuel: nat, lines: seq<string>, isBundled: bool, missing: set<string>)
      returns (outcome: Outcome, missing': set<string>)
      modifies this
      decreases fuel, 3, 0
      ensures Step(outcome, State(), missing') == ParseFileSpec(cfg, fuel, old(State()), missing, lines, isBundled)
    {
      numberOfFiles := numberOfFiles + 1;
      outcome, missing' := ReadLines(fuel, Classify(lines, isBundled), isBundled, missing);
    }

    /** The loop of parseSignaturesFile over the classified lines, up to
        the first exception. */
    method ReadLines(fuel: nat, kinds: seq<LineKind>, isBundled: bool, missing: set<string>)
      returns (outcome: Outcome, missing': set<string>)
      modifies this
      decreases fuel, 2, 0
      ensures Step(outcome, State(), missing') == LinesSpec(cfg, fuel, old(State()), missing, kinds, 0, isBundled)
    {
      var ctx := InitialContext(cfg);
      missing' := missing;
      var i := 0;
      while i < |kinds|
        invariant 0 <= i <= |kinds|
        invariant ctx == ContextAt(cfg, kinds, i, isBundled)
        invariant LinesSpec(cfg, fuel, State(), missing', kinds, i, isBundled) == LinesSpec(cfg, fuel, old(State()), missing, kinds, 0, isBundled)
      {
        ParseFacts.LinesStep(cfg, fuel, State(), missing', kinds, i, isBundled);
        outcome, missing' := ReadLine(fuel, kinds[i], ctx, isBundled, missing');
        if outcome.Fail? {
          return;
        }
        ctx := NextContext(ctx, kinds[i], isBundled);
        i := i + 1;
      }
      outcome := Pass;
    }

    /** One line of a signatures file. */
    method ReadLine(fuel: nat, kind: LineKind, ctx: FileContext, isBundled: bool, missing: set<string>)
      returns (outcome: Outcome, missing': set<string>)
      modifies this
      decreases fuel, 1, 0
      ensures Step(outcome, State(), missing') == LineSpec(cfg, fuel, old(State()), missing, kind, ctx, isBundled)
    {
      match kind
      case Include(name) =>
        outcome, missing' := IncludeBundled(fuel, name, None, missing);
      case IgnoreUnresolvable =>
        if !isBundled {
          warnings := warnings + [IgnoreUnresolvableDeprecated];
        }
        outcome, missing' := Pass, missing;
      case UnknownDirective(line) =>
        outcome, missing' := Fail(ParseError(InvalidLine, line)), missing;
      case SignatureLine(line) =>
        outcome, missing' := AddSignature(line, ctx.defaultMessage, ctx.reporter, ctx.localIgnore, missing);
      case _ =>
        outcome, missing' := Pass, missing;
    }

    /** The private addBundledSignatures. */
    method IncludeBundled(fuel: nat, name: string, jdkTargetVersion: Option<string>, missing: set<string>)
      returns (outcome: Outcome, missing': set<string>)
      modifies this
      decreases fuel, 0, 1
      ensures Step(outcome, State(), missing') == IncludeSpec(cfg, fuel, old(State()), missing, name, jdkTargetVersion)
    {
      if !IsBundledName(name) {
        return Fail(ParseError(InvalidBundledName, name)), missing;
      }
      if name == NonPortableName {
        numberOfFiles := numberOfFiles + 1;
        forbidNonPortableRuntime := true;
        return Pass, missing;
      }
      var found := FindBundled(cfg, name, jdkTargetVersion);
      outcome, missing' := ReadBundled(fuel, found, missing);
    }

    /** The part of addBundledSignatures that parses the resource, given the
        outcome of looking it up. */
    method ReadBundled(fuel: nat, found: Result<(string, seq<string>)>, missing: set<string>)
      returns (outcome: Outcome, missing': set<string>)
      modifies this
      decreases fuel, 0, 0
      ensures Step(outcome, State(), missing') == ReadBundledSpec(cfg, fuel, old(State()), missing, found)
    {
      if found.Err? {
        return Fail(found.error), missing;
      }
      if fuel == 0 {
        return Fail(IncludeTooDeep(found.value.0)), missing;
      }
      outcome, missing' := ParseSignaturesFile(fuel - 1, found.value.1, true, missing);
    }

    /** reportMissingSignatureClasses */
    method ReportMissingSignatureClasses(missing: set<string>)
      modifies this
      ensures State() == ReportMissing(cfg, old(State()), missing)
    {
      if missing != {} {
        warnings := warnings + [MissingClassesHeader, MissingClassesList(cfg.formatClassesAbbreviated(missing))];
      }
    }

    /** The public addBundledSignatures. A name that was read, or the
        non-portable name, counts as a signatures file. */
    method AddBundledSignatures(name: string, jdkTargetVersion: Option<string>) returns (outcome: Outcome)
      modifies this
      ensures (outcome, State()) == AddBundledSignaturesSpec(cfg, old(State()), name, jdkTargetVersion)
      ensures outcome.Pass? ==> !NoSignaturesFilesParsed()
    {
      ParseFacts.AddBundledCounts(cfg, State(), name, jdkTargetVersion);
      var missing;
      outcome, missing := IncludeBundled(cfg.includeDepth, name, jdkTargetVersion, {});
      if outcome.Pass? {
        ReportMissingSignatureClasses(missing);
      }
    }

    /** parseSignaturesStream and parseSignaturesString, given the lines the
        reader yields. */
    method ParseSignatures(lines: seq<string>) returns (outcome: Outcome)
      modifies this
      ensures (outcome, State()) == ParseSignaturesSpec(cfg, old(State()), lines)
      ensures !NoSignaturesFilesParsed()
    {
      ParseFacts.ParseSignaturesCountsOnce(cfg, State(), lines);
      var missing;
      outcome, missing := ParseSignaturesFile(cfg.includeDepth, lines, false, {});
      if outcome.Pass? {
        ReportMissingSignatureClasses(missing);
      }
    }

    /** hasNoSignatures */
    function HasNoSignatures(): (r: bool)
      reads this
      ensures r <==> signatures == map[] && classPatterns == [] && !forbidNonPortableRuntime
    {
      |signatures| + |classPatterns| + (if forbidNonPortableRuntime then 1 else 0) == 0
    }

    /** noSignaturesFilesParsed */
    function NoSignaturesFilesParsed(): (r: bool)
      reads this
      ensures r <==> numberOfFiles == 0
    {
      numberOfFiles == 0
    }

    /** isNonPortableRuntimeForbidden */
    function IsNonPortableRuntimeForbidden(): (r: bool)
      reads this
      ensures r <==> State().forbidNonPortableRuntime
    {
      forbidNonPortableRuntime
    }

    /** getSeverityForKey */
    function GetSeverityForKey(key: string): (r: Severity)
      reads this
      ensures r == SeverityForKey(cfg, State(), key)
    {
      if key in severityPerSignature then severityPerSignature[key]
      else if cfg.failOnViolation then ERROR else Severity.WARNING
    }

    /** checkMethod */
    function CheckMethod(internalClassName: string, m: Method): (r: Option<ViolationResult>)
      reads this
      ensures r == CheckMethodSpec(cfg, State(), internalClassName, m)
    {
      var key := MethodKey(internalClassName, m);
      if key in signatures then Some(ViolationResult(MethodPrefix + signatures[key], GetSeverityForKey(key))) else None
    }

    /** checkField */
    function CheckField(internalClassName: string, field: string): (r: Option<ViolationResult>)
      reads this
      ensures r == CheckFieldSpec(cfg, State(), internalClassName, field)
    {
      var key := FieldKey(internalClassName, field);
      if key in signatures then Some(ViolationResult(FieldPrefix + signatures[key], GetSeverityForKey(key))) else None
    }

    /** getSeverityForClassName: the severity of a pattern entry that
        matches, or the default. */
    method GetSeverityForClassName(className: string) returns (severity: Severity)
      ensures IsSeverityForClassName(cfg, severityPerClassPattern, className, severity)
    {
      var i := 0;
      while i < |severityPerClassPattern|
        invariant 0 <= i <= |severityPerClassPattern|
        invariant forall j :: 0 <= j < i ==> !cfg.globMatches(severityPerClassPattern[j].0, className)
      {
        if cfg.globMatches(severityPerClassPattern[i].0, className) {
          return severityPerClassPattern[i].1;
        }
        i := i + 1;
      }
      return if cfg.failOnViolation then ERROR else Severity.WARNING;
    }

    /** checkType: the exact class key first, then the first class pattern
        rule, in insertion order, that matches the binary class name. */
    method CheckType(t: JavaType, what: string) returns (r: Option<ViolationResult>)
      ensures r.None? <==> TypeMessage(cfg, State(), t, what).None?
      ensures r.Some? ==> r.value.message == TypeMessage(cfg, State(), t, what).value
      ensures r.Some? && ClassKey(t.internalName) in signatures ==>
        r.value.severity == SeverityForKey(cfg, State(), ClassKey(t.internalName))
      ensures r.Some? && ClassKey(t.internalName) !in signatures ==>
        IsSeverityForClassName(cfg, severityPerClassPattern, BinaryName(t.internalName), r.value.severity)
    {
      if t.OtherType? {
        return None;
      }
      var key := ClassKey(t.internalName);
      if key in signatures {
        return Some(ViolationResult(FormatTypePrintout(signatures[key], what), GetSeverityForKey(key)));
      }
      var className := BinaryName(t.internalName);
      var i := 0;
      while i < |classPatterns|
        invariant 0 <= i <= |classPatterns|
        invariant forall j :: 0 <= j < i ==> !cfg.globMatches(classPatterns[j].glob, className)
      {
        var rule := classPatterns[i];
        if cfg.globMatches(rule.glob, className) {
          assert FirstMatchingRule(cfg, classPatterns, className) == Some(i);
          var severity := GetSeverityForClassName(className);
          return Some(ViolationResult(FormatTypePrintout(Printout(className, rule.message), what), severity));
        }
        i := i + 1;
      }
      return None;
    }
  }
}
