/** Properties of the queries and of severity adjustment: which lookups the
    checks make, which rule wins for a type, and how an override set by
    setSignatureSeverity takes precedence over the default severity. */
module QueryFacts {
  import opened Base
  import opened Keys
  import opened Resolver
  import opened RuleStore
  import opened Parser
  import opened Queries
  import ParseFacts
  import ResolveFacts

  /** setSignatureSeverity throws only for a signature that does not parse
      or a glob with a member: a class, field or method that cannot be found
      is never an error, since the signature is resolved silently. */
  lemma {:induction false} SetSeverityFailsOnlyOnSyntax(cfg: Config, s: Store, signature: string, severity: Severity)
    ensures SetSeveritySpec(cfg, s, signature, severity).0.Fail? <==>
      || ParseSignature(signature).Err?
      || (cfg.isGlob(ParseSignature(signature).value.clazz) && !ParseSignature(signature).value.member.NoMember?)
  {
    var r := Resolve(cfg, SILENT, false, {}, signature);
    if ParseSignature(signature).Ok? && !cfg.isGlob(ParseSignature(signature).value.clazz) {
      assert r.Ok?;
    }
  }

  /** A class the lookup does not know leaves the severities as they are. */
  lemma SetSeverityMissingClass(cfg: Config, s: Store, signature: string, severity: Severity)
    requires ParseSignature(signature).Ok?
    requires var clazz := ParseSignature(signature).value.clazz; !cfg.isGlob(clazz) && clazz !in cfg.lookup
    ensures SetSeveritySpec(cfg, s, signature, severity) == (Pass, s)
  {
  }

  /** After setSignatureSeverity, every exact key the signature stands for
      has the new severity, whatever failOnViolation says. */
  lemma SetSeverityOverrides(cfg: Config, s: Store, signature: string, severity: Severity, key: string)
    requires var r := Resolve(cfg, SILENT, false, {}, signature);
      r.Ok? && r.value.keys.Some? && key in r.value.keys.value && IsExactKey(key)
    ensures var r := SetSeveritySpec(cfg, s, signature, severity);
      r.0 == Pass && SeverityForKey(cfg, r.1, key) == severity
  {
    var keys := Resolve(cfg, SILENT, false, {}, signature).value.keys.value;
    SeverityKeysSignatures(s, keys, 0, severity);
  }

  /** After setSignatureSeverity on a class glob, the new severity is one
      getSeverityForClassName may report for every class the glob matches. */
  lemma SetSeverityGlob(cfg: Config, s: Store, glob: string, severity: Severity, className: string)
    requires '#' !in glob && cfg.isGlob(glob) && !IsExactKey(glob)
    requires cfg.globMatches(glob, className)
    ensures var r := SetSeveritySpec(cfg, s, glob, severity);
      r.0 == Pass && IsSeverityForClassName(cfg, r.1.severityPerClassPattern, className, severity)
  {
    ResolveFacts.ResolveGlob(cfg, SILENT, false, {}, glob);
    var r := SetSeveritySpec(cfg, s, glob, severity);
    var n := |s.severityPerClassPattern|;
    assert r == (Pass, SeverityKeys(s, [glob], 0, severity));
    assert SeverityKeys(s, [glob], 0, severity) == SeverityKey(s, glob, severity);
    assert r.1.severityPerClassPattern[n] == (glob, severity);
  }

  /** checkMethod and checkField look at exact keys only: the class pattern
      rules never make a method or a field forbidden. */
  lemma MemberChecksIgnorePatterns(cfg: Config, s: Store, rules: seq<ClassPatternRule>, internalClassName: string, m: Method, field: string)
    ensures CheckMethodSpec(cfg, s.(classPatterns := rules), internalClassName, m) == CheckMethodSpec(cfg, s, internalClassName, m)
    ensures CheckFieldSpec(cfg, s.(classPatterns := rules), internalClassName, field) == CheckFieldSpec(cfg, s, internalClassName, field)
  {
  }

  /** Without an exact class key, the first class pattern rule that matches
      the binary class name, in insertion order, gives the message. */
  lemma TypeMessageFirstRule(cfg: Config, s: Store, internalName: string, what: string, j: nat)
    requires ClassKey(internalName) !in s.signatures
    requires j < |s.classPatterns| && cfg.globMatches(s.classPatterns[j].glob, BinaryName(internalName))
    requires forall k :: 0 <= k < j ==> !cfg.globMatches(s.classPatterns[k].glob, BinaryName(internalName))
    ensures TypeMessage(cfg, s, ObjectType(internalName), what) ==
      Some(FormatTypePrintout(Printout(BinaryName(internalName), s.classPatterns[j].message), what))
  {
    var r := FirstMatchingRule(cfg, s.classPatterns, BinaryName(internalName));
    assert r.Some? && r.value == j;
  }

  /** A signature line that resolves to a method key makes checkMethod
      report that method with the line's printout. */
  lemma ParsedMethodIsReported(cfg: Config, s: Store, missing: set<string>, line: string, defaultMessage: Option<string>,
                               report: Reporting, localIgnore: bool, internalClassName: string, m: Method)
    requires line != []
    requires var res := Resolve(cfg, report, localIgnore, missing, SplitMessage(line, defaultMessage).0);
      res.Ok? && res.value.keys.Some? && MethodKey(internalClassName, m) in res.value.keys.value
    ensures var r := AddSignatureSpec(cfg, s, missing, line, defaultMessage, report, localIgnore);
      var key := MethodKey(internalClassName, m);
      CheckMethodSpec(cfg, r.store, internalClassName, m) ==
        Some(ViolationResult(MethodPrefix + Printout(SplitMessage(line, defaultMessage).0, LineMessage(line, defaultMessage)),
                             SeverityForKey(cfg, r.store, key)))
  {
    var res := Resolve(cfg, report, localIgnore, missing, SplitMessage(line, defaultMessage).0);
    ParseFacts.AddSignatureStores(cfg, s, missing, line, defaultMessage, report, localIgnore, res.value);
  }
}
