/** Properties of reading signatures files: what a file may do to the rule
    store, how the directives set the per-file settings, and what one
    signature line stores. */
module ParseFacts {
  import opened Base
  import opened Text
  import opened Keys
  import opened Resolver
  import opened RuleStore
  import opened Versions
  import opened Parser
  import ResolveFacts

  /** Growth composes over two steps. */
  lemma GrowsTransitive(s: Store, missing: set<string>, r1: Step, r2: Step)
    requires Grows(s, missing, r1) && Grows(r1.store, r1.missing, r2)
    ensures Grows(s, missing, r2)
  {
    ExtendsTransitive(s, r1.store, r2.store);
  }

  /** A file, read to the end or up to an exception, only adds to the store
      and counts itself. */
  lemma {:induction false} ParseFileGrows(cfg: Config, fuel: nat, s: Store, missing: set<string>, lines: seq<string>, isBundled: bool)
    decreases fuel, 3, 0
    ensures Grows(s, missing, ParseFileSpec(cfg, fuel, s, missing, lines, isBundled))
    ensures ParseFileSpec(cfg, fuel, s, missing, lines, isBundled).store.numberOfFiles > s.numberOfFiles
  {
    var s1 := s.(numberOfFiles := s.numberOfFiles + 1);
    var r := LinesSpec(cfg, fuel, s1, missing, Classify(lines, isBundled), 0, isBundled);
    ParseFileIsLines(cfg, fuel, s, missing, lines, isBundled);
    LinesGrows(cfg, fuel, s1, missing, Classify(lines, isBundled), 0, isBundled);
    GrowsTransitive(s, missing, Step(Pass, s1, missing), r);
  }

  lemma {:induction false} LinesGrows(cfg: Config, fuel: nat, s: Store, missing: set<string>, kinds: seq<LineKind>, i: nat, isBundled: bool)
    requires i <= |kinds|
    decreases fuel, 2, |kinds| - i
    ensures Grows(s, missing, LinesSpec(cfg, fuel, s, missing, kinds, i, isBundled))
  {
    if i < |kinds| {
      var ctx := ContextAt(cfg, kinds, i, isBundled);
      var r := LineSpec(cfg, fuel, s, missing, kinds[i], ctx, isBundled);
      LineGrows(cfg, fuel, s, missing, kinds[i], ctx, isBundled);
      if r.outcome.Pass? {
        LinesGrows(cfg, fuel, r.store, r.missing, kinds, i + 1, isBundled);
        GrowsTransitive(s, missing, r, LinesSpec(cfg, fuel, r.store, r.missing, kinds, i + 1, isBundled));
      }
    }
  }

  /** One step of reading a file: line i is read with the settings in force
      at it, and the rest follows unless it raised an exception. */
  lemma LinesStep(cfg: Config, fuel: nat, s: Store, missing: set<string>, kinds: seq<LineKind>, i: nat, isBundled: bool)
    requires i < |kinds|
    ensures var r := LineSpec(cfg, fuel, s, missing, kinds[i], ContextAt(cfg, kinds, i, isBundled), isBundled);
      LinesSpec(cfg, fuel, s, missing, kinds, i, isBundled) ==
        if r.outcome.Fail? then r else LinesSpec(cfg, fuel, r.store, r.missing, kinds, i + 1, isBundled)
  {
  }

  lemma {:induction false} LineGrows(cfg: Config, fuel: nat, s: Store, missing: set<string>, kind: LineKind, ctx: FileContext, isBundled: bool)
    decreases fuel, 1, 0
    ensures Grows(s, missing, LineSpec(cfg, fuel, s, missing, kind, ctx, isBundled))
  {
    if kind.Include? {
      IncludeGrows(cfg, fuel, s, missing, kind.name, None);
    }
  }

  lemma {:induction false} IncludeGrows(cfg: Config, fuel: nat, s: Store, missing: set<string>, name: string, jdkTargetVersion: Option<string>)
    decreases fuel, 0, 1
    ensures Grows(s, missing, IncludeSpec(cfg, fuel, s, missing, name, jdkTargetVersion))
  {
    var r := IncludeSpec(cfg, fuel, s, missing, name, jdkTargetVersion);
    if !IsBundledName(name) {
      assert r.store == s && r.missing == missing;
    } else if name == NonPortableName {
      assert r.store == s.(numberOfFiles := s.numberOfFiles + 1, forbidNonPortableRuntime := true) && r.missing == missing;
    } else {
      var found := FindBundled(cfg, name, jdkTargetVersion);
      assert r == ReadBundledSpec(cfg, fuel, s, missing, found);
      ReadBundledGrows(cfg, fuel, s, missing, found);
    }
  }

  lemma {:induction false} ReadBundledGrows(cfg: Config, fuel: nat, s: Store, missing: set<string>, found: Result<(string, seq<string>)>)
    decreases fuel, 0, 0
    ensures Grows(s, missing, ReadBundledSpec(cfg, fuel, s, missing, found))
  {
    ReadBundledCases(cfg, fuel, s, missing, found);
    if found.Ok? && fuel > 0 {
      ParseFileGrows(cfg, fuel - 1, s, missing, found.value.1, true);
    }
  }

  /** User input cannot include bundled files, so it counts as exactly one
      file and never sets the non-portable-runtime flag. */
  lemma {:induction false} UserInputCountsOnce(cfg: Config, fuel: nat, s: Store, missing: set<string>, lines: seq<string>)
    ensures ParseFileSpec(cfg, fuel, s, missing, lines, false).store.numberOfFiles == s.numberOfFiles + 1
    ensures ParseFileSpec(cfg, fuel, s, missing, lines, false).store.forbidNonPortableRuntime == s.forbidNonPortableRuntime
  {
    var s1 := s.(numberOfFiles := s.numberOfFiles + 1);
    var kinds := Classify(lines, false);
    assert ParseFileSpec(cfg, fuel, s, missing, lines, false) == LinesSpec(cfg, fuel, s1, missing, kinds, 0, false);
    NoIncludeKeepsCounters(cfg, fuel, s1, missing, kinds, 0);
  }

  lemma {:induction false} NoIncludeKeepsCounters(cfg: Config, fuel: nat, s: Store, missing: set<string>, kinds: seq<LineKind>, i: nat)
    requires i <= |kinds|
    requires forall j :: 0 <= j < |kinds| ==> !kinds[j].Include?
    decreases |kinds| - i
    ensures LinesSpec(cfg, fuel, s, missing, kinds, i, false).store.numberOfFiles == s.numberOfFiles
    ensures LinesSpec(cfg, fuel, s, missing, kinds, i, false).store.forbidNonPortableRuntime == s.forbidNonPortableRuntime
  {
    if i < |kinds| {
      var r := LineSpec(cfg, fuel, s, missing, kinds[i], ContextAt(cfg, kinds, i, false), false);
      if r.outcome.Pass? {
        NoIncludeKeepsCounters(cfg, fuel, r.store, r.missing, kinds, i + 1);
      }
    }
  }

  /** "jdk-non-portable" is a well-formed bundled name. */
  lemma NonPortableNameIsBundledName()
    ensures IsBundledName(NonPortableName)
  {
    assert forall i :: 0 <= i < |NonPortableName| ==> NonPortableName[i] in "jdk-nonportable";
  }

  /** The non-portable name counts a file and sets the flag, and nothing else. */
  lemma {:induction false} IncludeNonPortable(cfg: Config, fuel: nat, s: Store, missing: set<string>, jdkTargetVersion: Option<string>)
    ensures IncludeSpec(cfg, fuel, s, missing, NonPortableName, jdkTargetVersion)
      == Step(Pass, s.(numberOfFiles := s.numberOfFiles + 1, forbidNonPortableRuntime := true), missing)
  {
    NonPortableNameIsBundledName();
  }

  /** A name outside `[A-Za-z0-9\-\.]+` is refused before anything changes. */
  lemma IncludeInvalidName(cfg: Config, fuel: nat, s: Store, missing: set<string>, name: string, jdkTargetVersion: Option<string>)
    requires !IsBundledName(name)
    ensures IncludeSpec(cfg, fuel, s, missing, name, jdkTargetVersion) == Step(Fail(ParseError(InvalidBundledName, name)), s, missing)
  {
  }

  /** A bundled resource that cannot be found is an exception, and the store
      is left as it was. */
  lemma IncludeNotFound(cfg: Config, fuel: nat, s: Store, missing: set<string>, name: string, jdkTargetVersion: Option<string>)
    requires IsBundledName(name) && name != NonPortableName
    requires FindBundled(cfg, name, jdkTargetVersion).Err?
    ensures IncludeSpec(cfg, fuel, s, missing, name, jdkTargetVersion).outcome.Fail?
    ensures IncludeSpec(cfg, fuel, s, missing, name, jdkTargetVersion).store == s
  {
    assert IncludeSpec(cfg, fuel, s, missing, name, jdkTargetVersion) == ReadBundledSpec(cfg, fuel, s, missing, FindBundled(cfg, name, jdkTargetVersion));
  }

  /** The second attempt of the lookup: a "jdk-" name without a version
      number that is not found is normalised again with the target version
      appended, and that name decides the result. */
  lemma {:induction false} FindBundledRetry(cfg: Config, name: string, jdkTargetVersion: Option<string>)
    requires FixTargetVersion(name).Ok?
    requires var fixed := FixTargetVersion(name).value; fixed !in cfg.bundled && RetriesWithTarget(fixed, jdkTargetVersion)
    ensures var expanded := FixTargetVersion(FixTargetVersion(name).value + "-" + jdkTargetVersion.value);
      var r := FindBundled(cfg, name, jdkTargetVersion);
      && (expanded.Err? ==> r == Err(expanded.error))
      && (expanded.Ok? && expanded.value in cfg.bundled ==> r == Ok((expanded.value, cfg.bundled[expanded.value])))
      && (expanded.Ok? && expanded.value !in cfg.bundled ==> r == Err(ResourceNotFound(expanded.value)))
  {
  }

  /** The lookup reports a missing resource exactly when the normalised name
      is not there and, where a second attempt is made, the name with the
      target version is not there either. Without a second attempt the
      normalised name is reported. */
  lemma {:induction false} FindBundledNotFound(cfg: Config, name: string, jdkTargetVersion: Option<string>)
    ensures var r := FindBundled(cfg, name, jdkTargetVersion);
      r.Err? && r.error.ResourceNotFound? <==>
        && FixTargetVersion(name).Ok? && FixTargetVersion(name).value !in cfg.bundled
        && (RetriesWithTarget(FixTargetVersion(name).value, jdkTargetVersion) ==>
              var expanded := FixTargetVersion(FixTargetVersion(name).value + "-" + jdkTargetVersion.value);
              expanded.Ok? && expanded.value !in cfg.bundled)
    ensures var fixed := FixTargetVersion(name);
      fixed.Ok? && fixed.value !in cfg.bundled && !RetriesWithTarget(fixed.value, jdkTargetVersion) ==>
        FindBundled(cfg, name, jdkTargetVersion) == Err(ResourceNotFound(fixed.value))
  {
    var fixed := FixTargetVersion(name);
    if fixed.Ok? && fixed.value !in cfg.bundled && RetriesWithTarget(fixed.value, jdkTargetVersion) {
      FindBundledRetry(cfg, name, jdkTargetVersion);
    }
  }

  /** An `@` line is an invalid line exactly when it is none of the
      directives; `@includeBundled` is one only in bundled files. */
  lemma {:induction false} UnknownDirectiveKind(line: string, isBundled: bool)
    requires line != [] && line[0] == '@'
    ensures Directive(line, isBundled).UnknownDirective? <==>
      && !(isBundled && StartsWith(line, BundledPrefix))
      && !StartsWith(line, DefaultMessagePrefix)
      && line != IgnoreUnresolvableLine && line != IgnoreMissingClassesLine
    ensures Directive(line, isBundled).UnknownDirective? ==> Directive(line, isBundled).line == line
  {
  }

  /** In user input, an `@includeBundled` line is an invalid line. */
  lemma {:induction false} IncludeIsUnknownInUserInput(raw: string)
    requires StartsWith(Trim(raw), BundledPrefix)
    ensures ClassifyLine(raw, false) == UnknownDirective(Trim(raw))
  {
    var line := Trim(raw);
    BundledPrefixIsNoOtherDirective(line);
    assert !StartsWith(line, "#");
    assert Directive(line, false) == UnknownDirective(line);
  }

  /** A line with the "@includeBundled " prefix starts with '@' and has
      none of the other directives. */
  lemma {:induction false} BundledPrefixIsNoOtherDirective(line: string)
    requires StartsWith(line, BundledPrefix)
    ensures line[0] == '@' && line[0] != '#'
    ensures !StartsWith(line, DefaultMessagePrefix)
    ensures line != IgnoreUnresolvableLine && line != IgnoreMissingClassesLine
  {
    var head := line[..|BundledPrefix|];
    assert head == BundledPrefix;
    assert line[0] == head[0] && line[1] == head[1] && line[2] == head[2];
  }

  /** Reading an invalid line throws a ParseException that changes nothing. */
  lemma {:induction false} InvalidLineFails(cfg: Config, fuel: nat, s: Store, missing: set<string>, line: string, ctx: FileContext, isBundled: bool)
    ensures LineSpec(cfg, fuel, s, missing, UnknownDirective(line), ctx, isBundled) ==
      Step(Fail(ParseError(InvalidLine, line)), s, missing)
  {
  }

  /** A file with an invalid line never completes: reading it throws at that
      line or before. */
  lemma {:induction false} InvalidLineStops(cfg: Config, fuel: nat, s: Store, missing: set<string>, kinds: seq<LineKind>,
                                            i: nat, j: nat, isBundled: bool)
    requires i <= j < |kinds| && kinds[j].UnknownDirective?
    decreases j - i
    ensures LinesSpec(cfg, fuel, s, missing, kinds, i, isBundled).outcome.Fail?
  {
    var r := LineSpec(cfg, fuel, s, missing, kinds[i], ContextAt(cfg, kinds, i, isBundled), isBundled);
    LinesStep(cfg, fuel, s, missing, kinds, i, isBundled);
    if r.outcome.Pass? {
      InvalidLineStops(cfg, fuel, r.store, r.missing, kinds, i + 1, j, isBundled);
    }
  }

  /** A file with an invalid line throws. */
  lemma {:induction false} ParseFileStops(cfg: Config, fuel: nat, s: Store, missing: set<string>, lines: seq<string>, isBundled: bool, j: nat)
    requires j < |lines| && Classify(lines, isBundled)[j].UnknownDirective?
    ensures ParseFileSpec(cfg, fuel, s, missing, lines, isBundled).outcome.Fail?
  {
    ParseFileIsLines(cfg, fuel, s, missing, lines, isBundled);
    InvalidLineStops(cfg, fuel, s.(numberOfFiles := s.numberOfFiles + 1), missing, Classify(lines, isBundled), 0, j, isBundled);
  }

  /** User input with an `@includeBundled` line throws. */
  lemma {:induction false} IncludeInUserInputFails(cfg: Config, s: Store, lines: seq<string>, j: nat)
    requires j < |lines| && StartsWith(Trim(lines[j]), BundledPrefix)
    ensures ParseSignaturesSpec(cfg, s, lines).0.Fail?
  {
    IncludeIsUnknownInUserInput(lines[j]);
    assert Classify(lines, false)[j] == ClassifyLine(lines[j], false);
    ParseFileStops(cfg, cfg.includeDepth, s, {}, lines, false, j);
  }

  /** The @defaultMessage line never resets the default message to none: a
      trimmed line that starts with "@defaultMessage " ends in a non-blank
      character after the prefix, so the trimmed rest is never empty. */
  lemma DefaultMessageNeverReset(raw: string, isBundled: bool)
    requires ClassifyLine(raw, isBundled).DefaultMessage?
    ensures ClassifyLine(raw, isBundled).message.Some?
  {
    var line := Trim(raw);
    DirectiveMessage(line, isBundled);
  }

  /** A line that trims to a bare "@defaultMessage" does not start with the
      directive's prefix, whose last character is a blank, and is no other
      directive: it is an invalid line, not a reset of the default message. */
  lemma BareDefaultMessageIsInvalid(raw: string, isBundled: bool)
    requires Trim(raw) == "@defaultMessage"
    ensures ClassifyLine(raw, isBundled) == UnknownDirective("@defaultMessage")
  {
    var line := Trim(raw);
    assert !StartsWith(line, "#") && StartsWith(line, "@");
    assert !StartsWith(line, BundledPrefix) && !StartsWith(line, DefaultMessagePrefix);
    assert line != IgnoreUnresolvableLine && line != IgnoreMissingClassesLine;
  }

  lemma DirectiveMessage(line: string, isBundled: bool)
    requires line != [] && line[0] == '@' && !IsBlank(line[|line| - 1])
    ensures Directive(line, isBundled).DefaultMessage? ==> Directive(line, isBundled).message.Some?
  {
    if StartsWith(line, DefaultMessagePrefix) {
      PrefixRestNotBlank(line);
    }
  }

  /** After the "@defaultMessage " prefix, whose last character is a blank,
      a line that does not end in a blank trims to a non-empty message. */
  lemma PrefixRestNotBlank(line: string)
    requires StartsWith(line, DefaultMessagePrefix) && !IsBlank(line[|line| - 1])
    ensures Trim(line[|DefaultMessagePrefix|..]) != []
  {
    assert line[|DefaultMessagePrefix| - 1] == DefaultMessagePrefix[|DefaultMessagePrefix| - 1] == ' ';
    var rest := line[|DefaultMessagePrefix|..];
    assert rest != [] && rest[|rest| - 1] == line[|line| - 1];
  }

  /** The local ignore-missing-classes flag is on at line i exactly when an
      @ignoreMissingClasses line came before it. */
  lemma {:induction false} LocalIgnoreAt(cfg: Config, kinds: seq<LineKind>, i: nat, isBundled: bool)
    requires i <= |kinds|
    ensures ContextAt(cfg, kinds, i, isBundled).localIgnore <==>
      exists j :: 0 <= j < i && kinds[j] == IgnoreMissingClasses
  {
    if i > 0 {
      LocalIgnoreAt(cfg, kinds, i - 1, isBundled);
      if kinds[i - 1] == IgnoreMissingClasses {
        assert ContextAt(cfg, kinds, i, isBundled).localIgnore;
      }
    }
  }

  /** The reporting mode at line i: the configured one until the first
      @ignoreUnresolvable line, after it SILENT in bundled files and WARNING
      in user input. */
  lemma {:induction false} ReporterAt(cfg: Config, kinds: seq<LineKind>, i: nat, isBundled: bool)
    requires i <= |kinds|
    ensures (exists j :: 0 <= j < i && kinds[j] == IgnoreUnresolvable) ==>
      ContextAt(cfg, kinds, i, isBundled).reporter == (if isBundled then SILENT else Reporting.WARNING)
    ensures (forall j :: 0 <= j < i ==> kinds[j] != IgnoreUnresolvable) ==>
      ContextAt(cfg, kinds, i, isBundled).reporter == InitialContext(cfg).reporter
  {
    if i > 0 {
      ReporterAt(cfg, kinds, i - 1, isBundled);
      if kinds[i - 1] != IgnoreUnresolvable {
        assert forall j :: 0 <= j < i && kinds[j] == IgnoreUnresolvable ==> j < i - 1;
      }
    }
  }

  /** The default message at line i is the message of the last
      @defaultMessage line before it; there is none before the first. */
  lemma {:induction false} DefaultMessageAt(cfg: Config, kinds: seq<LineKind>, i: nat, j: nat, isBundled: bool)
    requires j < i <= |kinds|
    requires kinds[j].DefaultMessage?
    requires forall k :: j < k < i ==> !kinds[k].DefaultMessage?
    ensures ContextAt(cfg, kinds, i, isBundled).defaultMessage == kinds[j].message
  {
    if j < i - 1 {
      DefaultMessageAt(cfg, kinds, i - 1, j, isBundled);
    }
  }

  lemma {:induction false} NoDefaultMessageAt(cfg: Config, kinds: seq<LineKind>, i: nat, isBundled: bool)
    requires i <= |kinds|
    requires forall k :: 0 <= k < i ==> !kinds[k].DefaultMessage?
    ensures ContextAt(cfg, kinds, i, isBundled).defaultMessage.None?
  {
    if i > 0 {
      NoDefaultMessageAt(cfg, kinds, i - 1, isBundled);
    }
  }

  /** A line with '@' is split at the first '@': the signature is the
      trimmed text before it and the message the trimmed text after it. */
  lemma SplitAtFirstAt(line: string, defaultMessage: Option<string>)
    requires '@' in line
    ensures var p := IndexOf(line, '@');
      SplitMessage(line, defaultMessage) == (Trim(line[..p]), Some(Trim(line[p + 1..])))
  {
  }

  /** A line with '@' carries its own message, the trimmed text after the
      first '@'; an empty one means no message, whatever the default. */
  lemma LineMessageOfExplicit(line: string, defaultMessage: Option<string>)
    requires '@' in line
    ensures var p := IndexOf(line, '@');
      LineMessage(line, defaultMessage) == (if Trim(line[p + 1..]) == [] then None else Some(Trim(line[p + 1..])))
  {
    SplitAtFirstAt(line, defaultMessage);
  }

  /** A signature line whose keys resolve stores its printout under every
      exact key and a rule with its message for a glob. */
  lemma AddSignatureStores(cfg: Config, s: Store, missing: set<string>, line: string,
                           defaultMessage: Option<string>, report: Reporting, localIgnore: bool, res: Resolution)
    requires line != []
    requires Resolve(cfg, report, localIgnore, missing, SplitMessage(line, defaultMessage).0) == Ok(res)
    requires res.keys.Some?
    ensures var r := AddSignatureSpec(cfg, s, missing, line, defaultMessage, report, localIgnore);
      var message := LineMessage(line, defaultMessage);
      && r.outcome.Pass?
      && (forall k :: k in res.keys.value && IsExactKey(k) ==>
            k in r.store.signatures && r.store.signatures[k] == Printout(SplitMessage(line, defaultMessage).0, message))
      && (forall k :: k in res.keys.value && !IsExactKey(k) ==> ClassPatternRule(k, message) in r.store.classPatterns)
  {
    var logged := Log(s, res.warning);
    var message := LineMessage(line, defaultMessage);
    var printout := Printout(SplitMessage(line, defaultMessage).0, message);
    var keys := res.keys.value;
    assert AddSignatureSpec(cfg, s, missing, line, defaultMessage, report, localIgnore)
      == Step(Pass, StoreKeys(logged, keys, 0, printout, message), res.missing);
    assert keys[0..] == keys;
    StoreKeysSignatures(logged, keys, 0, printout, message);
    StoreKeysRules(logged, keys, 0, printout, message);
  }

  /** A signature line that resolves to nothing stores no rule; it may log a
      warning or record a missing class. */
  lemma AddSignatureUnresolved(cfg: Config, s: Store, missing: set<string>, line: string,
                               defaultMessage: Option<string>, report: Reporting, localIgnore: bool, res: Resolution)
    requires line != []
    requires Resolve(cfg, report, localIgnore, missing, SplitMessage(line, defaultMessage).0) == Ok(res)
    requires res.keys.None?
    ensures var r := AddSignatureSpec(cfg, s, missing, line, defaultMessage, report, localIgnore);
      && r.outcome.Pass?
      && r.store.signatures == s.signatures && r.store.classPatterns == s.classPatterns
      && r.missing == res.missing
      && r.store.warnings == s.warnings + (if res.warning.Some? then [res.warning.value] else [])
  {
  }

  /** The printout a signature line stores under its exact keys. */
  function LinePrintout(line: string, defaultMessage: Option<string>): string {
    Printout(SplitMessage(line, defaultMessage).0, LineMessage(line, defaultMessage))
  }

  /** A line that, read with the given settings, resolves to the key. */
  predicate Writes(cfg: Config, kind: LineKind, ctx: FileContext, key: string) {
    && kind.SignatureLine? && kind.line != []
    && var res := Resolve(cfg, ctx.reporter, ctx.localIgnore, {}, SplitMessage(kind.line, ctx.defaultMessage).0);
    && res.Ok? && res.value.keys.Some? && key in res.value.keys.value
  }

  /** No line from i on includes a file or resolves to the key. */
  predicate QuietFrom(cfg: Config, kinds: seq<LineKind>, i: nat, isBundled: bool, key: string)
    requires i <= |kinds|
  {
    forall k :: i <= k < |kinds| ==> !kinds[k].Include? && !Writes(cfg, kinds[k], ContextAt(cfg, kinds, k, isBundled), key)
  }

  /** Line j resolves to the key, and no line after it includes a file or
      resolves to the key. */
  predicate LastWriter(cfg: Config, kinds: seq<LineKind>, j: nat, isBundled: bool, key: string)
    requires j < |kinds|
  {
    Writes(cfg, kinds[j], ContextAt(cfg, kinds, j, isBundled), key) && QuietFrom(cfg, kinds, j + 1, isBundled, key)
  }

  /** A line that is no include and does not resolve to the key leaves the
      key's printout as it is, whether it completes or throws. */
  lemma {:induction false} LineKeepsKey(cfg: Config, fuel: nat, s: Store, missing: set<string>, kind: LineKind, ctx: FileContext, isBundled: bool, key: string)
    requires !kind.Include? && !Writes(cfg, kind, ctx, key) && key in s.signatures
    ensures var r := LineSpec(cfg, fuel, s, missing, kind, ctx, isBundled);
      key in r.store.signatures && r.store.signatures[key] == s.signatures[key]
  {
    if kind.SignatureLine? && kind.line != [] {
      var line := kind.line;
      var signature := SplitMessage(line, ctx.defaultMessage).0;
      var message := LineMessage(line, ctx.defaultMessage);
      var resolved := Resolve(cfg, ctx.reporter, ctx.localIgnore, missing, signature);
      ResolveFacts.ResolveIgnoresMissing(cfg, ctx.reporter, ctx.localIgnore, missing, signature);
      if resolved.Ok? && resolved.value.keys.Some? {
        var keys := resolved.value.keys.value;
        var logged := Log(s, resolved.value.warning);
        assert LineSpec(cfg, fuel, s, missing, kind, ctx, isBundled) ==
          Step(Pass, StoreKeys(logged, keys, 0, Printout(signature, message), message), resolved.value.missing);
        assert keys[0..] == keys;
        StoreKeysSignatures(logged, keys, 0, Printout(signature, message), message);
      }
    }
  }

  /** A line that resolves to an exact key stores its printout there. */
  lemma {:induction false} LineWritesKey(cfg: Config, fuel: nat, s: Store, missing: set<string>, kind: LineKind, ctx: FileContext, isBundled: bool, key: string)
    requires Writes(cfg, kind, ctx, key) && IsExactKey(key)
    ensures var r := LineSpec(cfg, fuel, s, missing, kind, ctx, isBundled);
      && r.outcome.Pass?
      && key in r.store.signatures && r.store.signatures[key] == LinePrintout(kind.line, ctx.defaultMessage)
  {
    var line := kind.line;
    var signature := SplitMessage(line, ctx.defaultMessage).0;
    ResolveFacts.ResolveIgnoresMissing(cfg, ctx.reporter, ctx.localIgnore, missing, signature);
    var res := Resolve(cfg, ctx.reporter, ctx.localIgnore, missing, signature).value;
    AddSignatureStores(cfg, s, missing, line, ctx.defaultMessage, ctx.reporter, ctx.localIgnore, res);
    assert LineSpec(cfg, fuel, s, missing, kind, ctx, isBundled) ==
      AddSignatureSpec(cfg, s, missing, line, ctx.defaultMessage, ctx.reporter, ctx.localIgnore);
  }

  /** Lines from i on that include nothing and do not resolve to the key
      leave its printout as it is. */
  lemma {:induction false} LinesKeepKey(cfg: Config, fuel: nat, s: Store, missing: set<string>, kinds: seq<LineKind>, i: nat, isBundled: bool, key: string)
    requires i <= |kinds| && key in s.signatures
    requires QuietFrom(cfg, kinds, i, isBundled, key)
    decreases |kinds| - i
    ensures var r := LinesSpec(cfg, fuel, s, missing, kinds, i, isBundled);
      key in r.store.signatures && r.store.signatures[key] == s.signatures[key]
  {
    if i < |kinds| {
      var ctx := ContextAt(cfg, kinds, i, isBundled);
      var r := LineSpec(cfg, fuel, s, missing, kinds[i], ctx, isBundled);
      LinesStep(cfg, fuel, s, missing, kinds, i, isBundled);
      LineKeepsKey(cfg, fuel, s, missing, kinds[i], ctx, isBundled, key);
      if r.outcome.Pass? {
        LinesKeepKey(cfg, fuel, r.store, r.missing, kinds, i + 1, isBundled, key);
      }
    }
  }

  /** The last line of a file that resolves to an exact key decides its
      printout, when no include follows it: a file read from line i to the
      end stores the printout of that line under the key. */
  lemma {:induction false} LastWriteWins(cfg: Config, fuel: nat, s: Store, missing: set<string>, kinds: seq<LineKind>,
                                         i: nat, j: nat, isBundled: bool, key: string)
    requires i <= j < |kinds| && IsExactKey(key)
    requires LastWriter(cfg, kinds, j, isBundled, key)
    decreases j - i
    ensures var r := LinesSpec(cfg, fuel, s, missing, kinds, i, isBundled);
      r.outcome.Pass? ==>
        key in r.store.signatures && r.store.signatures[key] == LinePrintout(kinds[j].line, ContextAt(cfg, kinds, j, isBundled).defaultMessage)
  {
    var ctx := ContextAt(cfg, kinds, i, isBundled);
    var r := LineSpec(cfg, fuel, s, missing, kinds[i], ctx, isBundled);
    LinesStep(cfg, fuel, s, missing, kinds, i, isBundled);
    if r.outcome.Pass? {
      if i < j {
        LastWriteWins(cfg, fuel, r.store, r.missing, kinds, i + 1, j, isBundled, key);
      } else {
        LineWritesKey(cfg, fuel, s, missing, kinds[i], ctx, isBundled, key);
        LinesKeepKey(cfg, fuel, r.store, r.missing, kinds, i + 1, isBundled, key);
      }
    }
  }

  /** parseSignaturesFile counts the file, then reads its lines. */
  lemma {:induction false} ParseFileIsLines(cfg: Config, fuel: nat, s: Store, missing: set<string>, lines: seq<string>, isBundled: bool)
    ensures ParseFileSpec(cfg, fuel, s, missing, lines, isBundled) ==
      LinesSpec(cfg, fuel, s.(numberOfFiles := s.numberOfFiles + 1), missing, Classify(lines, isBundled), 0, isBundled)
  {
    var s1 := s.(numberOfFiles := s.numberOfFiles + 1);
    var r := LinesSpec(cfg, fuel, s1, missing, Classify(lines, isBundled), 0, isBundled);
    assert ParseFileSpec(cfg, fuel, s, missing, lines, isBundled) == r;
  }

  /** The same for a whole file, counted and read from its first line. */
  lemma {:induction false} ParseFileLastWrite(cfg: Config, fuel: nat, s: Store, missing: set<string>, lines: seq<string>, isBundled: bool,
                           j: nat, key: string)
    requires j < |lines| && IsExactKey(key)
    requires LastWriter(cfg, Classify(lines, isBundled), j, isBundled, key)
    ensures var r := ParseFileSpec(cfg, fuel, s, missing, lines, isBundled);
      var kinds := Classify(lines, isBundled);
      r.outcome.Pass? ==>
        key in r.store.signatures && r.store.signatures[key] == LinePrintout(kinds[j].line, ContextAt(cfg, kinds, j, isBundled).defaultMessage)
  {
    ParseFileIsLines(cfg, fuel, s, missing, lines, isBundled);
    LastWriteWins(cfg, fuel, s.(numberOfFiles := s.numberOfFiles + 1), missing, Classify(lines, isBundled), 0, j, isBundled, key);
  }

  /** User input holds no includes, so its last line that resolves to an
      exact key decides the key's printout once the input is read. */
  lemma {:induction false} LastWriteWinsInInput(cfg: Config, s: Store, lines: seq<string>, j: nat, key: string)
    requires j < |lines| && IsExactKey(key)
    requires var kinds := Classify(lines, false);
      && Writes(cfg, kinds[j], ContextAt(cfg, kinds, j, false), key)
      && forall k :: j < k < |kinds| ==> !Writes(cfg, kinds[k], ContextAt(cfg, kinds, k, false), key)
    ensures var r := ParseSignaturesSpec(cfg, s, lines);
      r.0.Pass? ==>
        && key in r.1.signatures
        && r.1.signatures[key] == LinePrintout(Trim(lines[j]), ContextAt(cfg, Classify(lines, false), j, false).defaultMessage)
  {
    var kinds := Classify(lines, false);
    assert kinds[j] == ClassifyLine(lines[j], false);
    assert LastWriter(cfg, kinds, j, false, key);
    var step := ParseFileSpec(cfg, cfg.includeDepth, s, {}, lines, false);
    ParseFileLastWrite(cfg, cfg.includeDepth, s, {}, lines, false, j, key);
    assert ParseSignaturesSpec(cfg, s, lines) ==
      if step.outcome.Fail? then (step.outcome, step.store) else (Pass, ReportMissing(cfg, step.store, step.missing));
  }

  /** parseSignaturesStream and parseSignaturesString: user input counts as
      exactly one file, never sets the non-portable flag, and only adds to
      the store; the severities are left as they are. */
  lemma ParseSignaturesCountsOnce(cfg: Config, s: Store, lines: seq<string>)
    ensures var r := ParseSignaturesSpec(cfg, s, lines);
      && r.1.numberOfFiles == s.numberOfFiles + 1
      && r.1.forbidNonPortableRuntime == s.forbidNonPortableRuntime
      && Extends(s, r.1) && (Valid(s) ==> Valid(r.1))
  {
    UserInputCountsOnce(cfg, cfg.includeDepth, s, {}, lines);
    ParseFileGrows(cfg, cfg.includeDepth, s, {}, lines, false);
  }

  /** The public addBundledSignatures: an invalid name changes nothing, the
      non-portable name sets the flag, a normal completion has counted at
      least one more file, and in every case the store only grows. */
  lemma {:induction false} AddBundledCounts(cfg: Config, s: Store, name: string, jdkTargetVersion: Option<string>)
    ensures var r := AddBundledSignaturesSpec(cfg, s, name, jdkTargetVersion);
      && Extends(s, r.1) && (Valid(s) ==> Valid(r.1))
      && (r.0.Pass? ==> r.1.numberOfFiles > s.numberOfFiles)
      && (!IsBundledName(name) ==> r == (Fail(ParseError(InvalidBundledName, name)), s))
      && (name == NonPortableName ==> r.0 == Pass && r.1.forbidNonPortableRuntime)
  {
    IncludeGrows(cfg, cfg.includeDepth, s, {}, name, jdkTargetVersion);
    IncludePassCounts(cfg, cfg.includeDepth, s, {}, name, jdkTargetVersion);
    if !IsBundledName(name) {
      IncludeInvalidName(cfg, cfg.includeDepth, s, {}, name, jdkTargetVersion);
    } else if name == NonPortableName {
      IncludeNonPortable(cfg, cfg.includeDepth, s, {}, jdkTargetVersion);
    }
  }

  /** An include that completes normally has counted at least one file. */
  lemma {:induction false} IncludePassCounts(cfg: Config, fuel: nat, s: Store, missing: set<string>, name: string, jdkTargetVersion: Option<string>)
    ensures var r := IncludeSpec(cfg, fuel, s, missing, name, jdkTargetVersion);
      r.outcome.Pass? ==> r.store.numberOfFiles > s.numberOfFiles
  {
    var r := IncludeSpec(cfg, fuel, s, missing, name, jdkTargetVersion);
    if !IsBundledName(name) {
      assert r.outcome.Fail?;
    } else if name == NonPortableName {
      assert r.store.numberOfFiles == s.numberOfFiles + 1;
    } else {
      var found := FindBundled(cfg, name, jdkTargetVersion);
      assert r == ReadBundledSpec(cfg, fuel, s, missing, found);
      ReadBundledPassCounts(cfg, fuel, s, missing, found);
    }
  }

  /** Reading a bundled resource that completes has counted it. */
  lemma {:induction false} ReadBundledPassCounts(cfg: Config, fuel: nat, s: Store, missing: set<string>, found: Result<(string, seq<string>)>)
    ensures var r := ReadBundledSpec(cfg, fuel, s, missing, found);
      r.outcome.Pass? ==> r.store.numberOfFiles > s.numberOfFiles
  {
    ReadBundledCases(cfg, fuel, s, missing, found);
    if found.Ok? && fuel > 0 {
      var r := ParseFileSpec(cfg, fuel - 1, s, missing, found.value.1, true);
      ParseFileGrows(cfg, fuel - 1, s, missing, found.value.1, true);
      assert r.store.numberOfFiles > s.numberOfFiles;
    }
  }

  /** A bundled resource that was found is parsed while the include depth
      allows; a lookup failure or an exhausted depth throws and changes
      nothing. */
  lemma {:induction false} ReadBundledCases(cfg: Config, fuel: nat, s: Store, missing: set<string>, found: Result<(string, seq<string>)>)
    ensures var r := ReadBundledSpec(cfg, fuel, s, missing, found);
      if found.Ok? && fuel > 0 then r == ParseFileSpec(cfg, fuel - 1, s, missing, found.value.1, true)
      else r.outcome.Fail? && r.store == s && r.missing == missing
  {
    var r := ReadBundledSpec(cfg, fuel, s, missing, found);
    match found
    case Err(e) =>
      assert r == Step(Fail(e), s, missing);
    case Ok(resource) =>
      if fuel == 0 {
        assert r == Step(Fail(IncludeTooDeep(resource.0)), s, missing);
      } else {
        assert r == ParseFileSpec(cfg, fuel - 1, s, missing, resource.1, true);
      }
  }
}
