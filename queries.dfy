/** The query side of the signature database: what checkType, checkMethod
    and checkField report for a type, a method or a field, and with which
    severity. None of them changes the store. */
module Queries {
  import opened Base
  import opened Keys
  import opened Resolver
  import opened RuleStore
  import opened Parser

  /** ViolationResult: the message of a violation and its severity. */
  datatype ViolationResult = ViolationResult(message: string, severity: Severity)

  /** An ASM Type: an object type with its internal name, or any other sort
      (primitive, array, method). */
  datatype JavaType = ObjectType(internalName: string) | OtherType

  /** Type.getClassName() of an object type: the internal name with every
      '/' replaced by '.'. */
  function BinaryName(internalName: string): (r: string)
    ensures |r| == |internalName|
    ensures forall i :: 0 <= i < |r| ==> r[i] == if internalName[i] == '/' then '.' else internalName[i]
  {
    if internalName == [] then []
    else [if internalName[0] == '/' then '.' else internalName[0]] + BinaryName(internalName[1..])
  }

  /** The severity of a violation without an override: ERROR when violations
      fail the build, WARNING otherwise. */
  function DefaultSeverity(cfg: Config): (r: Severity)
    ensures r == ERROR <==> cfg.failOnViolation
  {
    if cfg.failOnViolation then ERROR else Severity.WARNING
  }

  /** getSeverityForKey: the override for the key, or the default. */
  function SeverityForKey(cfg: Config, s: Store, key: string): (r: Severity)
    ensures key in s.severityPerSignature ==> r == s.severityPerSignature[key]
    ensures key !in s.severityPerSignature ==> (r == ERROR <==> cfg.failOnViolation)
  {
    if key in s.severityPerSignature then s.severityPerSignature[key] else DefaultSeverity(cfg)
  }

  /** What getSeverityForClassName may return: the severity of some pattern
      entry that matches the class name (the map has no defined order), or
      the default when no entry matches. */
  predicate IsSeverityForClassName(cfg: Config, entries: seq<(string, Severity)>, className: string, severity: Severity) {
    || (exists i :: 0 <= i < |entries| && cfg.globMatches(entries[i].0, className) && entries[i].1 == severity)
    || ((forall i :: 0 <= i < |entries| ==> !cfg.globMatches(entries[i].0, className)) && severity == DefaultSeverity(cfg))
  }

  /** The position of the first class pattern rule, in insertion order, that
      matches the class name. */
  function FirstMatchingRule(cfg: Config, rules: seq<ClassPatternRule>, className: string): (r: Option<nat>)
    ensures r.Some? ==> r.value < |rules| && cfg.globMatches(rules[r.value].glob, className)
    ensures r.Some? ==> forall j :: 0 <= j < r.value ==> !cfg.globMatches(rules[j].glob, className)
    ensures r.None? <==> forall j :: 0 <= j < |rules| ==> !cfg.globMatches(rules[j].glob, className)
  {
    if rules == [] then None
    else if cfg.globMatches(rules[0].glob, className) then Some(0)
    else
      var r := FirstMatchingRule(cfg, rules[1..], className);
      if r.None? then None else Some(r.value + 1)
  }

  /** formatTypePrintout */
  function FormatTypePrintout(printout: string, what: string): string {
    "Forbidden " + what + " use: " + printout
  }

  /** The message checkType reports: the exact class key first, then the
      first matching class pattern rule with the binary class name. */
  function TypeMessage(cfg: Config, s: Store, t: JavaType, what: string): (r: Option<string>)
    ensures t.OtherType? ==> r.None?
    ensures t.ObjectType? && ClassKey(t.internalName) in s.signatures ==>
      r == Some(FormatTypePrintout(s.signatures[ClassKey(t.internalName)], what))
    ensures t.ObjectType? && ClassKey(t.internalName) !in s.signatures ==>
      (r.None? <==> forall j :: 0 <= j < |s.classPatterns| ==> !cfg.globMatches(s.classPatterns[j].glob, BinaryName(t.internalName)))
  {
    match t
    case OtherType => None
    case ObjectType(internalName) =>
      var key := ClassKey(internalName);
      if key in s.signatures then Some(FormatTypePrintout(s.signatures[key], what))
      else
        var className := BinaryName(internalName);
        match FirstMatchingRule(cfg, s.classPatterns, className)
        case None => None
        case Some(j) => Some(FormatTypePrintout(Printout(className, s.classPatterns[j].message), what))
  }

  /** checkMethod and checkField: an exact-key lookup and nothing else. */
  function CheckKey(cfg: Config, s: Store, key: string, prefix: string): (r: Option<ViolationResult>)
    ensures r.Some? <==> key in s.signatures
    ensures r.Some? ==> r.value == ViolationResult(prefix + s.signatures[key], SeverityForKey(cfg, s, key))
  {
    if key in s.signatures then Some(ViolationResult(prefix + s.signatures[key], SeverityForKey(cfg, s, key))) else None
  }

  const MethodPrefix: string := "Forbidden method invocation: "
  const FieldPrefix: string := "Forbidden field access: "

  /** checkMethod */
  function CheckMethodSpec(cfg: Config, s: Store, internalClassName: string, m: Method): Option<ViolationResult> {
    CheckKey(cfg, s, MethodKey(internalClassName, m), MethodPrefix)
  }

  /** checkField */
  function CheckFieldSpec(cfg: Config, s: Store, internalClassName: string, field: string): Option<ViolationResult> {
    CheckKey(cfg, s, FieldKey(internalClassName, field), FieldPrefix)
  }
}
