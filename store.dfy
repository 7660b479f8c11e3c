/** The rule store: the exact-key map, the ordered class-pattern set, the two
    severity maps, the non-portable-runtime flag, the file counter and the
    log, as one value. The Signatures class holds the same state in fields. */
module RuleStore {
  import opened Base
  import opened Text
  import opened Keys

  /** ViolationSeverity. */
  datatype Severity = ERROR | WARNING

  /** ClassPatternRule: a class glob with the message of its signature line.
      Two rules are the same set element when glob and message agree. */
  datatype ClassPatternRule = ClassPatternRule(glob: string, message: Option<string>)

  /** The fields of a signature database. severityPerClassPattern is keyed by
      compiled Pattern objects, which compare by identity: every put adds an
      entry, so it is a list of (glob, severity) pairs. */
  datatype Store = Store(
    signatures: map<string, string>,
    classPatterns: seq<ClassPatternRule>,
    severityPerSignature: map<string, Severity>,
    severityPerClassPattern: seq<(string, Severity)>,
    forbidNonPortableRuntime: bool,
    numberOfFiles: nat,
    warnings: seq<LogLine>)

  const EmptyStore := Store(map[], [], map[], [], false, 0, [])

  predicate NoDuplicates<T(==)>(s: seq<T>) {
    forall i, j :: 0 <= i < j < |s| ==> s[i] != s[j]
  }

  /** classPatterns is a set: no rule occurs twice. */
  predicate Valid(s: Store) {
    NoDuplicates(s.classPatterns)
  }

  /** What parsing may do to a store: keys and rules are only added, the
      severity maps stay as they are, the counter and the log only grow and
      the flag is only ever set. */
  predicate Extends(s: Store, t: Store) {
    && s.signatures.Keys <= t.signatures.Keys
    && s.classPatterns <= t.classPatterns
    && t.severityPerSignature == s.severityPerSignature
    && t.severityPerClassPattern == s.severityPerClassPattern
    && (s.forbidNonPortableRuntime ==> t.forbidNonPortableRuntime)
    && s.numberOfFiles <= t.numberOfFiles
    && s.warnings <= t.warnings
  }

  /** Everything but the two severity maps is the same in s and t. */
  predicate SameRules(s: Store, t: Store) {
    && t.signatures == s.signatures
    && t.classPatterns == s.classPatterns
    && t.forbidNonPortableRuntime == s.forbidNonPortableRuntime
    && t.numberOfFiles == s.numberOfFiles
    && t.warnings == s.warnings
  }

  /** LinkedHashSet.add: a rule that is not there yet goes to the end. */
  function AddRule(rules: seq<ClassPatternRule>, rule: ClassPatternRule): (r: seq<ClassPatternRule>)
    ensures rules <= r
    ensures forall x :: x in r <==> x in rules || x == rule
    ensures NoDuplicates(rules) ==> NoDuplicates(r)
  {
    if rule in rules then rules else rules + [rule]
  }

  /** One key of addSignature: keys with a class, field or method tag go to
      the exact-key map, anything else becomes a class pattern rule. */
  function StoreKey(s: Store, key: string, printout: string, message: Option<string>): Store {
    if IsExactKey(key) then s.(signatures := s.signatures[key := printout])
    else s.(classPatterns := AddRule(s.classPatterns, ClassPatternRule(key, message)))
  }

  /** The loop of addSignature over the resolved keys from position i on:
      the store only grows and nothing but the exact-key map and the rules
      changes. What it stores is stated by StoreKeysSignatures and
      StoreKeysRules. */
  function StoreKeys(s: Store, keys: seq<string>, i: nat, printout: string, message: Option<string>): (r: Store)
    requires i <= |keys|
    decreases |keys| - i
    ensures s.signatures.Keys <= r.signatures.Keys
    ensures s.classPatterns <= r.classPatterns
    ensures Valid(s) ==> Valid(r)
    ensures r == s.(signatures := r.signatures, classPatterns := r.classPatterns)
  {
    if i == |keys| then s
    else StoreKeys(StoreKey(s, keys[i], printout, message), keys, i + 1, printout, message)
  }

  /** What addSignature puts in the exact-key map: the printout under every
      exact key, and nothing else changes there. */
  lemma {:induction false} StoreKeysSignatures(s: Store, keys: seq<string>, i: nat, printout: string, message: Option<string>)
    requires i <= |keys|
    decreases |keys| - i
    ensures var r := StoreKeys(s, keys, i, printout, message);
      forall k :: k in r.signatures <==> k in s.signatures || (k in keys[i..] && IsExactKey(k))
    ensures var r := StoreKeys(s, keys, i, printout, message);
      forall k :: k in keys[i..] && IsExactKey(k) ==> k in r.signatures && r.signatures[k] == printout
    ensures var r := StoreKeys(s, keys, i, printout, message);
      forall k :: k in s.signatures && k !in keys[i..] ==> r.signatures[k] == s.signatures[k]
  {
    if i < |keys| {
      assert forall k :: k in keys[i..] <==> k == keys[i] || k in keys[i + 1..];
      StoreKeysSignatures(StoreKey(s, keys[i], printout, message), keys, i + 1, printout, message);
    }
  }

  /** What addSignature adds to the class pattern rules: a rule with the
      message for every key that is not exact, and nothing else. */
  lemma {:induction false} StoreKeysRules(s: Store, keys: seq<string>, i: nat, printout: string, message: Option<string>)
    requires i <= |keys|
    decreases |keys| - i
    ensures var r := StoreKeys(s, keys, i, printout, message);
      forall rule :: rule in r.classPatterns <==>
        rule in s.classPatterns || (rule.glob in keys[i..] && !IsExactKey(rule.glob) && rule.message == message)
  {
    if i < |keys| {
      assert forall k :: k in keys[i..] <==> k == keys[i] || k in keys[i + 1..];
      StoreKeysRules(StoreKey(s, keys[i], printout, message), keys, i + 1, printout, message);
    }
  }

  /** One key of setSignatureSeverity: an exact key gets its own override, a
      glob adds a pattern entry. */
  function SeverityKey(s: Store, key: string, severity: Severity): Store {
    if IsExactKey(key) then s.(severityPerSignature := s.severityPerSignature[key := severity])
    else s.(severityPerClassPattern := s.severityPerClassPattern + [(key, severity)])
  }

  /** The loop of setSignatureSeverity over the resolved keys from position
      i on: only the severities change, and pattern entries are only added.
      What it sets is stated by SeverityKeysSignatures and
      SeverityKeysPatterns. */
  function SeverityKeys(s: Store, keys: seq<string>, i: nat, severity: Severity): (r: Store)
    requires i <= |keys|
    decreases |keys| - i
    ensures s.severityPerClassPattern <= r.severityPerClassPattern
    ensures SameRules(s, r)
  {
    if i == |keys| then s
    else SeverityKeys(SeverityKey(s, keys[i], severity), keys, i + 1, severity)
  }

  /** What setSignatureSeverity puts in the exact-key severities: the
      severity for every exact key, and nothing else changes there. */
  lemma {:induction false} SeverityKeysSignatures(s: Store, keys: seq<string>, i: nat, severity: Severity)
    requires i <= |keys|
    decreases |keys| - i
    ensures var r := SeverityKeys(s, keys, i, severity);
      forall k :: k in r.severityPerSignature <==> k in s.severityPerSignature || (k in keys[i..] && IsExactKey(k))
    ensures var r := SeverityKeys(s, keys, i, severity);
      forall k :: k in keys[i..] && IsExactKey(k) ==> k in r.severityPerSignature && r.severityPerSignature[k] == severity
    ensures var r := SeverityKeys(s, keys, i, severity);
      forall k :: k in s.severityPerSignature && k !in keys[i..] ==> r.severityPerSignature[k] == s.severityPerSignature[k]
  {
    if i < |keys| {
      assert forall k :: k in keys[i..] <==> k == keys[i] || k in keys[i + 1..];
      SeverityKeysSignatures(SeverityKey(s, keys[i], severity), keys, i + 1, severity);
    }
  }

  /** What setSignatureSeverity adds to the pattern severities: an entry
      with the severity for every key that is not exact, and nothing else. */
  lemma {:induction false} SeverityKeysPatterns(s: Store, keys: seq<string>, i: nat, severity: Severity)
    requires i <= |keys|
    decreases |keys| - i
    ensures var r := SeverityKeys(s, keys, i, severity);
      forall e :: e in r.severityPerClassPattern <==>
        e in s.severityPerClassPattern || (e.0 in keys[i..] && !IsExactKey(e.0) && e.1 == severity)
  {
    if i < |keys| {
      assert forall k :: k in keys[i..] <==> k == keys[i] || k in keys[i + 1..];
      SeverityKeysPatterns(SeverityKey(s, keys[i], severity), keys, i + 1, severity);
    }
  }

  /** A warning for the logger, when there is one. */
  function Log(s: Store, warning: Option<LogLine>): (r: Store)
    ensures r.warnings == s.warnings + (if warning.Some? then [warning.value] else [])
    ensures r == s.(warnings := r.warnings)
  {
    if warning.Some? then s.(warnings := s.warnings + [warning.value]) else s
  }

  /** Extends is a preorder. */
  lemma ExtendsTransitive(a: Store, b: Store, c: Store)
    requires Extends(a, b) && Extends(b, c)
    ensures Extends(a, c)
  {
  }
}
