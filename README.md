# The forbidden-apis signature database, in Dafny

forbidden-apis checks compiled Java code against lists of forbidden
signatures. The signatures file format has one class, field or method per
line, with an optional message. It also has directives: `@defaultMessage`,
`@ignoreUnresolvable`, `@ignoreMissingClasses` and, in bundled files only,
`@includeBundled`.

`Signatures` is the database behind the checks. It works in two phases:

- **Filling.** It reads signatures files and bundled signature sets,
  resolves every signature against the class path, and files the results in
  a rule store:
  - exact class, field and method keys go to a map, with their printout;
  - class globs become an ordered set of class pattern rules;
  - a counter records the files read;
  - a flag switches on the non-portable-runtime heuristics.
- **Querying.** It answers `checkType`, `checkMethod` and `checkField`, and
  picks the severity of each violation, with the overrides that
  `setSignatureSeverity` records.

The model follows the source file by file.

Pure functions, one module each:

- `Keys`: the key codec `getKey`.
- `Versions`: `fixTargetVersion` and the JDK signature pattern.
- `Resolver`: `getKeys`, which parses one signature and resolves it.
- `RuleStore`: the store as one value, and the updates `addSignature` and
  `setSignatureSeverity` make.
- `Parser`: functions that say what reading a file, one line or one include
  does to the store.
- `Queries`: the answers of the checks.

The imperative part:

- `SignatureDatabase.Signatures` is a class with the fields of the Java
  class. Its methods update those fields in place.
- Each method is proved to leave exactly the state that the matching
  function of `Parser` or `Queries` describes. Reading a file is a loop over
  its lines. That loop keeps the per-file settings (default message,
  reporting mode, local ignore flag) in a context that each directive
  updates.

Lemmas relate these functions to what the source promises:

- **Key tags:**
  - the three tags keep the kinds apart;
  - exact keys go to the map, globs to the pattern rules.
- **Parsing:**
  - parsing only adds to the store;
  - user input counts as one file;
  - the directives set the per-file settings as described above;
  - a later signature line overrides an earlier one for the same key, and
    the last one in a file decides, when no include follows it;
  - an invalid line, such as `@includeBundled` in user input, stops the
    file with an exception.
- **Resolution:**
  - every reporting mode handles a missing class, method or field as the
    source does;
  - a known class gives exactly the keys of its member;
  - each malformed method signature gives its own ParseException.
- **Bundled lookup:** the second attempt with the target version, and when
  a resource counts as missing.
- **Severity:** an override takes precedence over the default severity.
- **Versions:** version normalisation spells a release as "1.x" up to
  Java 8 and by its plain number from Java 9 on, keeps the release and is
  idempotent.

The reset of the default message in `parseSignaturesFile` can never happen.
The reset is for an empty message, but lines are trimmed before they are
classified, and the directive prefix ends in a blank. So a line that trims to
a bare `@defaultMessage` does not carry the prefix. It is rejected as an
invalid line, which `BareDefaultMessageIsInvalid` states. Every
`@defaultMessage` line that is accepted has a non-empty message, which
`DefaultMessageNeverReset` states. The model keeps the branch, as the source
does.

Collaborators are parameters of the model, in a `Config` value:

- the class lookup: a map from class names to their metadata;
- the bundled signature resources: a map from names to their lines;
- glob recognition and matching;
- the abbreviated class-list format;
- the options.

The logger's warnings are a sequence of values in the store.

## Model

| member | source | states |
|---|---|---|
| Keys.ClassKey | src/main/java/de/thetaphi/forbiddenapis/Signatures.java:130-132 | a class key has the class tag, and decoding gives back the class name |
| Keys.FieldKey | src/main/java/de/thetaphi/forbiddenapis/Signatures.java:134-136 | a field key has the field tag |
| Keys.MethodKey | src/main/java/de/thetaphi/forbiddenapis/Signatures.java:138-140 | a method key has the method tag |
| Keys.KindOf | src/main/java/de/thetaphi/forbiddenapis/Signatures.java:166 | a key has a kind exactly when it passes the store's exact-key test, and each kind exactly when it starts with that kind's tag |
| Keys.KindsKeepKeysApart | src/main/java/de/thetaphi/forbiddenapis/Signatures.java:130-140 | class, field and method keys never coincide |
| Keys.MemberKeyRoundTrip | src/main/java/de/thetaphi/forbiddenapis/Signatures.java:134-140 | a member key of a NUL-free class name decodes back to the class name and the member text |
| Keys.FieldKeyInjective | src/main/java/de/thetaphi/forbiddenapis/Signatures.java:134-136 | equal field keys mean the same class and the same field |
| Keys.MethodKeyInjective | src/main/java/de/thetaphi/forbiddenapis/Signatures.java:138-140 | equal method keys mean the same class and the same method text |
| Versions.MatchJdkPattern | src/main/java/de/thetaphi/forbiddenapis/Signatures.java:464-465 | a match yields well-formed groups that put back together give the name |
| Versions.MatchOfRender | src/main/java/de/thetaphi/forbiddenapis/Signatures.java:464-465 | well-formed groups, put together, match back to themselves |
| Versions.Canonical | src/main/java/de/thetaphi/forbiddenapis/Signatures.java:466-484 | canonical groups exist exactly when the suffix names a release; they keep the prefix and carry no `.*`. Which groups they are is stated by CanonicalSpelling |
| Versions.ReleaseSuffix | src/main/java/de/thetaphi/forbiddenapis/Signatures.java:470-484 | the spelling of a release in bundled names, "1.f" up to release 8, "f" or "f.u" from 9 on, is never empty and holds no dash |
| Versions.CanonicalSpelling | src/main/java/de/thetaphi/forbiddenapis/Signatures.java:470-484 | stated from the release the suffix names: releases up to 8 are spelled "1" and "." and the release, later ones by the release, with ".update" only for a non-zero update |
| Versions.RenderSpelled | src/main/java/de/thetaphi/forbiddenapis/Signatures.java:472-483 | those groups render as the prefix followed by the release's spelling |
| Versions.CanonicalKeepsRelease | src/main/java/de/thetaphi/forbiddenapis/Signatures.java:470-482 | the canonical groups name the same Java release as the original ones |
| Versions.CanonicalIdempotent | src/main/java/de/thetaphi/forbiddenapis/Signatures.java:470-482 | canonical groups are their own canonical form |
| Versions.FixTargetVersion | src/main/java/de/thetaphi/forbiddenapis/Signatures.java:463-487 | a name outside the JDK pattern is returned unchanged; a JDK name fails exactly when its suffix names no release; failures are ParseExceptions. The name returned is stated by FixTargetVersionSpelling |
| Versions.FixTargetVersionSpelling | src/main/java/de/thetaphi/forbiddenapis/Signatures.java:470-484 | for a suffix that names a release, the result is the prefix followed by the release's spelling in bundled names |
| Versions.FixTargetVersionOfSeven | src/main/java/de/thetaphi/forbiddenapis/Signatures.java:474-477 | "jdk-deprecated-7" becomes "jdk-deprecated-1.7" |
| Versions.SevenMatches | src/main/java/de/thetaphi/forbiddenapis/Signatures.java:464-469 | "jdk-deprecated-7" matches the pattern with prefix "jdk-deprecated-" and names release 7 |
| Versions.FixTargetVersionKeepsRelease | src/main/java/de/thetaphi/forbiddenapis/Signatures.java:463-487 | the normalised name keeps the prefix and the release, without `.*` |
| Versions.FixTargetVersionIdempotent | src/main/java/de/thetaphi/forbiddenapis/Signatures.java:463-487 | normalising a normalised name changes nothing |
| Versions.EndsWithVersionNumber | src/main/java/de/thetaphi/forbiddenapis/Signatures.java:289 | the name ends in `-` and a dotted version number (the pattern `.*?\-\d+(\.\d+)*`); its properties are used by the FindBundled lemmas |
| Resolver.ParseSignature | src/main/java/de/thetaphi/forbiddenapis/Signatures.java:182-211 | failures are ParseExceptions; a signature without `#` is a class; the class part never holds `#`. When each error happens is stated by the ParseSignature* lemmas of ResolveFacts |
| Resolver.IsWildcardArgs | src/main/java/de/thetaphi/forbiddenapis/Signatures.java:58-59 | the text from `(` on matches `\(\s*\*\*\s*\)` as a whole |
| Resolver.ParseMethodRequest | src/main/java/de/thetaphi/forbiddenapis/Signatures.java:196-200 | a method with arguments parses exactly when a `)` follows the `(`; the name is the trimmed text before `(` |
| Resolver.MatchingMethodKeys | src/main/java/de/thetaphi/forbiddenapis/Signatures.java:238-246 | the keys are exactly those of the declared methods that match by name and by argument types or the wildcard; no key is produced exactly when no method matches |
| Resolver.ParseFailed | src/main/java/de/thetaphi/forbiddenapis/Signatures.java:61-87 | FAIL throws, WARNING logs a warning, SILENT keeps quiet; getKeys then returns null |
| Resolver.Resolve | src/main/java/de/thetaphi/forbiddenapis/Signatures.java:176-265 | failures are ParseExceptions; the missing-classes set only grows; resolved keys are never empty; an unresolvable signature is an exception only under FAIL. The keys for each case are stated by the lemmas of ResolveFacts |
| ResolveFacts.ParseSignatureSplit | src/main/java/de/thetaphi/forbiddenapis/Signatures.java:183-206 | after the first `#`, a member without `(` is a field, and a member starting with `(` is a ParseException for the missing method name |
| ResolveFacts.ParseSignatureWildcard | src/main/java/de/thetaphi/forbiddenapis/Signatures.java:191-193 | a method with the `**` wildcard in parentheses stands for any arguments, with its trimmed name |
| ResolveFacts.ParseSignatureUnclosed | src/main/java/de/thetaphi/forbiddenapis/Signatures.java:195-200 | a method whose argument list has no `)` is an invalid method signature |
| ResolveFacts.ParseSignatureWithArgs | src/main/java/de/thetaphi/forbiddenapis/Signatures.java:195-200 | otherwise the method has its trimmed name and the argument types before the first `)`; text after the `)` is ignored (see Resolver.ParseMethodRequest under Left out) |
| ResolveFacts.MemberKeys | src/main/java/de/thetaphi/forbiddenapis/Signatures.java:235-262 | the keys of a member of a known class are exact keys of the member's kind; there are none exactly when the field is not declared or no declared method matches; a class always has its key |
| ResolveFacts.ResolveKnownClass | src/main/java/de/thetaphi/forbiddenapis/Signatures.java:235-262 | for a known class, getKeys gives exactly the member's keys, or, when there are none, the mode's report of "Method not found" or "Field not found" and no keys (an exception under FAIL, a warning under WARNING, nothing under SILENT) |
| ResolveFacts.ResolveIgnoresMissing | src/main/java/de/thetaphi/forbiddenapis/Signatures.java:176-265 | whether getKeys throws, and the keys it gives, do not depend on the classes recorded as missing so far |
| ResolveFacts.ResolveGlob | src/main/java/de/thetaphi/forbiddenapis/Signatures.java:214-218 | a class glob stands for itself alone |
| ResolveFacts.ResolveGlobWithMember | src/main/java/de/thetaphi/forbiddenapis/Signatures.java:214-217 | a glob with a field or a method is a ParseException, in every mode |
| ResolveFacts.ResolveMissingClass | src/main/java/de/thetaphi/forbiddenapis/Signatures.java:222-234 | a missing class is ignored under either ignore flag; otherwise it is an exception under FAIL, nothing under SILENT and a new entry of the missing-classes set under WARNING |
| ResolveFacts.ResolveExactKeys | src/main/java/de/thetaphi/forbiddenapis/Signatures.java:235-262 | apart from globs, every key is an exact key of the member's kind |
| ResolveFacts.ResolveMissingIdempotent | src/main/java/de/thetaphi/forbiddenapis/Signatures.java:231 | resolving again with the updated missing-classes set changes neither the set nor the keys |
| ResolveFacts.ResolveMethod | src/main/java/de/thetaphi/forbiddenapis/Signatures.java:239-246 | every matching declared method is among the keys, not only the first |
| RuleStore.AddRule | src/main/java/de/thetaphi/forbiddenapis/Signatures.java:100 | adding a rule appends it only when it is new, so the rules stay free of duplicates |
| RuleStore.StoreKeys | src/main/java/de/thetaphi/forbiddenapis/Signatures.java:164-172 | the store only grows: existing keys and rules stay, the rules stay free of duplicates, and only the exact-key map and the rules change |
| RuleStore.StoreKeysSignatures | src/main/java/de/thetaphi/forbiddenapis/Signatures.java:164-172 | exact keys map to the printout, the other keys keep their values, and no other key is added |
| RuleStore.StoreKeysRules | src/main/java/de/thetaphi/forbiddenapis/Signatures.java:164-172 | the rules are the old ones plus a rule with the message for each key that is not exact, and no others |
| RuleStore.SeverityKeys | src/main/java/de/thetaphi/forbiddenapis/Signatures.java:386-393 | only the severities change, and pattern entries are only added |
| RuleStore.SeverityKeysSignatures | src/main/java/de/thetaphi/forbiddenapis/Signatures.java:386-393 | exact keys get the severity, the other keys keep their override, and no other key gets one |
| RuleStore.SeverityKeysPatterns | src/main/java/de/thetaphi/forbiddenapis/Signatures.java:386-393 | the pattern entries are the old ones plus one with the severity for each key that is not exact, and no others |
| Parser.ClassifyLine | src/main/java/de/thetaphi/forbiddenapis/Signatures.java:312-337 | blank and `#` lines are skipped; a non-directive line is a signature line holding the trimmed text; includes occur only in bundled files |
| Parser.Directive | src/main/java/de/thetaphi/forbiddenapis/Signatures.java:315-334 | an `@` line is never skipped or taken as a signature; `@includeBundled` counts only in bundled files |
| Parser.Printout | src/main/java/de/thetaphi/forbiddenapis/Signatures.java:161-162 | the printout of a signature: the signature, with the message in brackets when there is one; stated through AddSignatureStores and LastWriteWins |
| Parser.Classify | src/main/java/de/thetaphi/forbiddenapis/Signatures.java:311-313 | each line is classified on its own; user input holds no include |
| Parser.SplitMessage | src/main/java/de/thetaphi/forbiddenapis/Signatures.java:145-154 | without `@`, the line is the signature and the default message applies; with `@`, the signature has no `@` and an own message is present |
| Parser.LineMessage | src/main/java/de/thetaphi/forbiddenapis/Signatures.java:158-160 | a stored message is never empty |
| Parser.AddSignatureSpec | src/main/java/de/thetaphi/forbiddenapis/Signatures.java:143-174 | a signature line only adds to the store and leaves the counter and the flag alone; an exception leaves store and missing classes as they were |
| Parser.AddResolved | src/main/java/de/thetaphi/forbiddenapis/Signatures.java:162-172 | logging the warning and storing the keys only extends the store, keeps the rules duplicate-free and leaves the counter and the flag alone |
| Parser.SetSeveritySpec | src/main/java/de/thetaphi/forbiddenapis/Signatures.java:384-395 | failures are ParseExceptions that change nothing; only the severities change, and pattern entries are only added |
| Parser.SetSeveritiesSpec | src/main/java/de/thetaphi/forbiddenapis/Signatures.java:377-382 | the same, over a list of signatures |
| Parser.FindBundled | src/main/java/de/thetaphi/forbiddenapis/Signatures.java:285-296 | the resource found is the one stored under the name it was found under; an invalid version is an error; a normalised name that exists is taken first. The second attempt and the missing resource are stated by FindBundledRetry and FindBundledNotFound |
| Parser.IsBundledName | src/main/java/de/thetaphi/forbiddenapis/Signatures.java:276 | the whole name matches `[A-Za-z0-9\-\.]+`; used by IncludeInvalidName and NonPortableNameIsBundledName |
| Parser.ReportMissing | src/main/java/de/thetaphi/forbiddenapis/Signatures.java:267-273 | no missing classes, no warning; otherwise a header and the class list are logged |
| Parser.ParseFileSpec | src/main/java/de/thetaphi/forbiddenapis/Signatures.java:305-340 | parseSignaturesFile as a function: counts the file, then reads its lines; properties in ParseFileGrows, UserInputCountsOnce and ParseFileStops |
| Parser.LinesSpec | src/main/java/de/thetaphi/forbiddenapis/Signatures.java:311-338 | the line loop, each line with the settings in force at it, up to the first exception; properties in LinesGrows, LastWriteWins and InvalidLineStops |
| Parser.LineSpec | src/main/java/de/thetaphi/forbiddenapis/Signatures.java:312-337 | one line: an include, a directive, an invalid line or a signature; properties in LineGrows, InvalidLineFails and LineKeepsKey |
| Parser.IncludeSpec | src/main/java/de/thetaphi/forbiddenapis/Signatures.java:275-299 | the private addBundledSignatures; properties in IncludeGrows, IncludeNonPortable, IncludeInvalidName, IncludeNotFound and IncludePassCounts |
| Parser.ReadBundledSpec | src/main/java/de/thetaphi/forbiddenapis/Signatures.java:285-298 | parsing the resource that was looked up as a bundled file; properties in ReadBundledGrows and ReadBundledPassCounts |
| Parser.AddBundledSignaturesSpec | src/main/java/de/thetaphi/forbiddenapis/Signatures.java:342-347 | the public addBundledSignatures; properties in AddBundledCounts |
| Parser.ParseSignaturesSpec | src/main/java/de/thetaphi/forbiddenapis/Signatures.java:349-363 | parseSignaturesStream and parseSignaturesString; properties in ParseSignaturesCountsOnce, LastWriteWinsInInput and IncludeInUserInputFails |
| ParseFacts.ParseFileGrows | src/main/java/de/thetaphi/forbiddenapis/Signatures.java:305-340 | parsing a file, completed or broken off, only extends the store, keeps the rules duplicate-free and raises the counter |
| ParseFacts.LinesGrows | src/main/java/de/thetaphi/forbiddenapis/Signatures.java:311-338 | the same for the lines from any position on |
| ParseFacts.LineGrows | src/main/java/de/thetaphi/forbiddenapis/Signatures.java:312-337 | the same for one line |
| ParseFacts.IncludeGrows | src/main/java/de/thetaphi/forbiddenapis/Signatures.java:275-299 | the same for one include |
| ParseFacts.ReadBundledGrows | src/main/java/de/thetaphi/forbiddenapis/Signatures.java:285-298 | the same for parsing a resource that was looked up |
| ParseFacts.ReadBundledCases | src/main/java/de/thetaphi/forbiddenapis/Signatures.java:285-298 | a resource that was found is parsed as a bundled file while the depth allows; a lookup failure or an exhausted depth throws and changes neither store nor missing classes |
| ParseFacts.UserInputCountsOnce | src/main/java/de/thetaphi/forbiddenapis/Signatures.java:306 | user input raises the counter by exactly one and never sets the flag |
| ParseFacts.NoIncludeKeepsCounters | src/main/java/de/thetaphi/forbiddenapis/Signatures.java:311-338 | lines without includes leave the counter and the flag alone |
| ParseFacts.NonPortableNameIsBundledName | src/main/java/de/thetaphi/forbiddenapis/Signatures.java:276-279 | the non-portable name passes the name check |
| ParseFacts.IncludeNonPortable | src/main/java/de/thetaphi/forbiddenapis/Signatures.java:279-284 | the non-portable name counts one file and sets the flag, and changes nothing else |
| ParseFacts.IncludeInvalidName | src/main/java/de/thetaphi/forbiddenapis/Signatures.java:276-278 | an invalid name throws before anything changes |
| ParseFacts.IncludeNotFound | src/main/java/de/thetaphi/forbiddenapis/Signatures.java:294-296 | a resource that is not found fails without changing the store |
| ParseFacts.FindBundledRetry | src/main/java/de/thetaphi/forbiddenapis/Signatures.java:288-293 | a `jdk-` name without a version number that is not found is normalised again with the target version appended, and that name decides the result |
| ParseFacts.FindBundledNotFound | src/main/java/de/thetaphi/forbiddenapis/Signatures.java:288-296 | the resource is missing exactly when the normalised name is absent and so is the name with the target version, where that is tried; without a second attempt the normalised name is reported |
| ParseFacts.IncludePassCounts | src/main/java/de/thetaphi/forbiddenapis/Signatures.java:275-299 | an include that completes has counted at least one file |
| ParseFacts.ReadBundledPassCounts | src/main/java/de/thetaphi/forbiddenapis/Signatures.java:285-298 | parsing a resource that completes has counted at least one file |
| ParseFacts.DefaultMessageNeverReset | src/main/java/de/thetaphi/forbiddenapis/Signatures.java:319-321 | every accepted `@defaultMessage` line carries a message |
| ParseFacts.BareDefaultMessageIsInvalid | src/main/java/de/thetaphi/forbiddenapis/Signatures.java:319-333 | a line that trims to `@defaultMessage` is an invalid line |
| ParseFacts.UnknownDirectiveKind | src/main/java/de/thetaphi/forbiddenapis/Signatures.java:315-334 | an `@` line is an invalid line exactly when it is none of the directives, and `@includeBundled` is a directive only in bundled files |
| ParseFacts.BundledPrefixIsNoOtherDirective | src/main/java/de/thetaphi/forbiddenapis/Signatures.java:316-331 | a line with the `@includeBundled ` prefix is an `@` line that is neither `@defaultMessage` nor either ignore directive |
| ParseFacts.IncludeIsUnknownInUserInput | src/main/java/de/thetaphi/forbiddenapis/Signatures.java:316-334 | in user input an `@includeBundled` line is an invalid line |
| ParseFacts.InvalidLineFails | src/main/java/de/thetaphi/forbiddenapis/Signatures.java:332-334 | an invalid line throws a ParseException and changes nothing |
| ParseFacts.InvalidLineStops | src/main/java/de/thetaphi/forbiddenapis/Signatures.java:311-338 | a file with an invalid line never completes |
| ParseFacts.ParseFileStops | src/main/java/de/thetaphi/forbiddenapis/Signatures.java:305-340 | the same for parseSignaturesFile |
| ParseFacts.IncludeInUserInputFails | src/main/java/de/thetaphi/forbiddenapis/Signatures.java:356-362 | user input with an `@includeBundled` line throws |
| ParseFacts.DirectiveMessage | src/main/java/de/thetaphi/forbiddenapis/Signatures.java:319-321 | a trimmed directive gives no empty default message |
| ParseFacts.PrefixRestNotBlank | src/main/java/de/thetaphi/forbiddenapis/Signatures.java:319-321 | after the `@defaultMessage ` prefix, a trimmed line leaves a non-empty message |
| ParseFacts.LocalIgnoreAt | src/main/java/de/thetaphi/forbiddenapis/Signatures.java:330-331 | the local ignore flag is on exactly after an `@ignoreMissingClasses` line, for the rest of the file |
| ParseFacts.ReporterAt | src/main/java/de/thetaphi/forbiddenapis/Signatures.java:309-329 | after `@ignoreUnresolvable`, bundled files report SILENTly and other input with WARNING; before it, FAIL or WARNING as configured |
| ParseFacts.DefaultMessageAt | src/main/java/de/thetaphi/forbiddenapis/Signatures.java:319-321 | the last `@defaultMessage` line before a line gives its default message |
| ParseFacts.NoDefaultMessageAt | src/main/java/de/thetaphi/forbiddenapis/Signatures.java:308 | before any `@defaultMessage` line there is no default message |
| ParseFacts.SplitAtFirstAt | src/main/java/de/thetaphi/forbiddenapis/Signatures.java:145-154 | a line with `@` splits at the first `@` into the trimmed signature before it and the trimmed message after it |
| ParseFacts.LineMessageOfExplicit | src/main/java/de/thetaphi/forbiddenapis/Signatures.java:147-160 | an own message is the trimmed text after the first `@`, or none when empty, whatever the default |
| ParseFacts.AddSignatureStores | src/main/java/de/thetaphi/forbiddenapis/Signatures.java:162-172 | a resolved line stores its printout under every exact key, and a rule with its message for a glob |
| ParseFacts.AddSignatureUnresolved | src/main/java/de/thetaphi/forbiddenapis/Signatures.java:163-164 | an unresolved line stores no rule and logs at most the warning of the reporting mode |
| ParseFacts.LastWriteWins | src/main/java/de/thetaphi/forbiddenapis/Signatures.java:311-338 | when no include follows it, the last line of a file that resolves to an exact key decides that key's printout once the file is read |
| ParseFacts.LineWritesKey | src/main/java/de/thetaphi/forbiddenapis/Signatures.java:143-172 | a signature line that resolves to an exact key completes and leaves that key with the line's printout, whatever classes were missing before |
| ParseFacts.ParseFileIsLines | src/main/java/de/thetaphi/forbiddenapis/Signatures.java:305-340 | parsing a file counts it and then reads its classified lines with the store that has the new count |
| ParseFacts.ParseFileLastWrite | src/main/java/de/thetaphi/forbiddenapis/Signatures.java:305-340 | LastWriteWins for a whole file: when the file is read to the end, the last line that resolves to an exact key decides that key's printout |
| ParseFacts.LineKeepsKey | src/main/java/de/thetaphi/forbiddenapis/Signatures.java:312-337 | a line that is no include and does not resolve to the key leaves its printout as it is, even when it throws |
| ParseFacts.LinesKeepKey | src/main/java/de/thetaphi/forbiddenapis/Signatures.java:311-338 | the same for the rest of a file |
| ParseFacts.LastWriteWinsInInput | src/main/java/de/thetaphi/forbiddenapis/Signatures.java:349-363 | in user input, which has no includes, the last line that resolves to an exact key decides its printout |
| ParseFacts.ParseSignaturesCountsOnce | src/main/java/de/thetaphi/forbiddenapis/Signatures.java:357-363 | inline or stream input counts one file, never sets the flag and only extends the store |
| ParseFacts.AddBundledCounts | src/main/java/de/thetaphi/forbiddenapis/Signatures.java:342-347 | an invalid name changes nothing; the non-portable name sets the flag; a completed include has counted a file; the store only grows |
| Queries.BinaryName | src/main/java/de/thetaphi/forbiddenapis/Signatures.java:429 | the binary class name is the internal name with every `/` replaced by `.` |
| Queries.DefaultSeverity | src/main/java/de/thetaphi/forbiddenapis/Signatures.java:115-116 | the default severity is ERROR exactly when violations fail the build |
| Queries.SeverityForKey | src/main/java/de/thetaphi/forbiddenapis/Signatures.java:450-452 | the override for a key wins; without one, the severity is ERROR exactly when violations fail the build |
| Queries.FirstMatchingRule | src/main/java/de/thetaphi/forbiddenapis/Signatures.java:430-434 | the rule found is the first one in insertion order that matches; none is found exactly when none matches |
| Queries.TypeMessage | src/main/java/de/thetaphi/forbiddenapis/Signatures.java:420-436 | non-object types pass; the exact class key wins over every pattern; otherwise a message exists exactly when a rule matches |
| Queries.CheckKey | src/main/java/de/thetaphi/forbiddenapis/Signatures.java:438-448 | a violation is reported exactly when the key is in the map, with its printout and its severity |
| Queries.CheckMethodSpec | src/main/java/de/thetaphi/forbiddenapis/Signatures.java:438-442 | checkMethod looks up the method key with the prefix "Forbidden method invocation: "; stated by CheckKey and MemberChecksIgnorePatterns |
| Queries.CheckFieldSpec | src/main/java/de/thetaphi/forbiddenapis/Signatures.java:444-448 | checkField looks up the field key with the prefix "Forbidden field access: "; stated by CheckKey and MemberChecksIgnorePatterns |
| QueryFacts.SetSeverityFailsOnlyOnSyntax | src/main/java/de/thetaphi/forbiddenapis/Signatures.java:384-385 | setting a severity throws exactly for malformed syntax or a glob with a member, never for a missing class, method or field |
| QueryFacts.SetSeverityMissingClass | src/main/java/de/thetaphi/forbiddenapis/Signatures.java:385-386 | a class the lookup does not know leaves the store unchanged |
| QueryFacts.SetSeverityOverrides | src/main/java/de/thetaphi/forbiddenapis/Signatures.java:384-389 | afterwards every exact key of the signature reports the new severity |
| QueryFacts.SetSeverityGlob | src/main/java/de/thetaphi/forbiddenapis/Signatures.java:384-391 | after setting a glob's severity, that severity is a permitted answer for every class the glob matches |
| QueryFacts.MemberChecksIgnorePatterns | src/main/java/de/thetaphi/forbiddenapis/Signatures.java:438-448 | method and field checks do not depend on the class pattern rules |
| QueryFacts.TypeMessageFirstRule | src/main/java/de/thetaphi/forbiddenapis/Signatures.java:429-434 | without an exact key, the first matching rule gives the message, with the binary class name |
| QueryFacts.ParsedMethodIsReported | src/main/java/de/thetaphi/forbiddenapis/Signatures.java:162-167 | a line that resolves to a method makes checkMethod report it with the line's printout |
| SignatureDatabase.Signatures.constructor | src/main/java/de/thetaphi/forbiddenapis/Signatures.java:122-128 | a new database has no rules, no overrides, no files and no warnings |
| SignatureDatabase.Signatures.GetKeys | src/main/java/de/thetaphi/forbiddenapis/Signatures.java:176-265 | returns exactly what Resolve gives, so ResolveKnownClass, ResolveMissingClass, ResolveGlob, ResolveGlobWithMember and the ParseSignature* lemmas hold of its result |
| SignatureDatabase.Signatures.MatchingMethods | src/main/java/de/thetaphi/forbiddenapis/Signatures.java:238-246 | the loop over the declared methods collects exactly MatchingMethodKeys |
| SignatureDatabase.Signatures.AddSignature | src/main/java/de/thetaphi/forbiddenapis/Signatures.java:143-174 | the new state and missing classes are those of AddSignatureSpec |
| SignatureDatabase.Signatures.StoreKeysInPlace | src/main/java/de/thetaphi/forbiddenapis/Signatures.java:164-172 | the fields end as StoreKeys of the old state |
| SignatureDatabase.Signatures.StoreKeyInPlace | src/main/java/de/thetaphi/forbiddenapis/Signatures.java:165-171 | one key ends in the exact-key map or the rules as StoreKey says |
| SignatureDatabase.Signatures.SetSignatureSeverity | src/main/java/de/thetaphi/forbiddenapis/Signatures.java:384-395 | outcome and new state are those of SetSeveritySpec |
| SignatureDatabase.Signatures.SeverityKeysInPlace | src/main/java/de/thetaphi/forbiddenapis/Signatures.java:386-393 | the fields end as SeverityKeys of the old state |
| SignatureDatabase.Signatures.SeverityKeyInPlace | src/main/java/de/thetaphi/forbiddenapis/Signatures.java:387-392 | one key ends in the exact-key severities or the pattern entries as SeverityKey says |
| SignatureDatabase.Signatures.SetSignaturesSeverity | src/main/java/de/thetaphi/forbiddenapis/Signatures.java:377-382 | outcome and new state are those of SetSeveritiesSpec |
| SignatureDatabase.Signatures.ParseSignaturesFile | src/main/java/de/thetaphi/forbiddenapis/Signatures.java:305-340 | counts the file, then leaves the state of ParseFileSpec |
| SignatureDatabase.Signatures.ReadLines | src/main/java/de/thetaphi/forbiddenapis/Signatures.java:311-338 | the line loop, up to the first exception, leaves the state of LinesSpec |
| SignatureDatabase.Signatures.ReadLine | src/main/java/de/thetaphi/forbiddenapis/Signatures.java:315-337 | one line leaves the state of LineSpec |
| SignatureDatabase.Signatures.IncludeBundled | src/main/java/de/thetaphi/forbiddenapis/Signatures.java:275-284 | an include leaves the state of IncludeSpec |
| SignatureDatabase.Signatures.ReadBundled | src/main/java/de/thetaphi/forbiddenapis/Signatures.java:285-298 | parsing the resource that was looked up leaves the state of ReadBundledSpec |
| SignatureDatabase.Signatures.ReportMissingSignatureClasses | src/main/java/de/thetaphi/forbiddenapis/Signatures.java:267-273 | the log grows as ReportMissing says |
| SignatureDatabase.Signatures.AddBundledSignatures | src/main/java/de/thetaphi/forbiddenapis/Signatures.java:342-347 | the state of AddBundledSignaturesSpec; after a normal completion, files have been parsed |
| SignatureDatabase.Signatures.ParseSignatures | src/main/java/de/thetaphi/forbiddenapis/Signatures.java:349-363 | the state of ParseSignaturesSpec; afterwards, files have been parsed |
| SignatureDatabase.Signatures.HasNoSignatures | src/main/java/de/thetaphi/forbiddenapis/Signatures.java:365-370 | true exactly when there is no exact key, no pattern rule and the flag is off |
| SignatureDatabase.Signatures.NoSignaturesFilesParsed | src/main/java/de/thetaphi/forbiddenapis/Signatures.java:373-375 | true exactly when no file has been counted |
| SignatureDatabase.Signatures.IsNonPortableRuntimeForbidden | src/main/java/de/thetaphi/forbiddenapis/Signatures.java:398-400 | the non-portable flag |
| SignatureDatabase.Signatures.GetSeverityForKey | src/main/java/de/thetaphi/forbiddenapis/Signatures.java:450-452 | agrees with SeverityForKey |
| SignatureDatabase.Signatures.CheckMethod | src/main/java/de/thetaphi/forbiddenapis/Signatures.java:438-442 | agrees with CheckMethodSpec: only the exact method key is looked up |
| SignatureDatabase.Signatures.CheckField | src/main/java/de/thetaphi/forbiddenapis/Signatures.java:444-448 | agrees with CheckFieldSpec: only the exact field key is looked up |
| SignatureDatabase.Signatures.GetSeverityForClassName | src/main/java/de/thetaphi/forbiddenapis/Signatures.java:454-461 | the severity of some matching pattern entry, or the default when none matches |
| SignatureDatabase.Signatures.CheckType | src/main/java/de/thetaphi/forbiddenapis/Signatures.java:420-436 | reports exactly when TypeMessage has a message, with that message. The severity is the key's for an exact hit and a class-name severity otherwise. Changes nothing |

## Left out

- AsmUtils.java, ClassPatternRule.java, Constants.java, Checker.java and the ASM library are not part of this model:
  - glob recognition, glob-to-pattern conversion and matching are parameters (`Config.isGlob`, `Config.globMatches`);
  - the abbreviated class list is a parameter (`Config.formatClassesAbbreviated`);
  - the JDK signature pattern is taken as `(jdk\-.*?\-)(\d+)(\.\d+)?(\.\*)?`;
  - in that pattern and in `.*?\-\d+(\.\d+)*`, `.` is taken to match every character, where Java's `.` does not match line terminators. Within this model a name holding a line terminator reaches these patterns only through the target version, since bundled names are checked against `[A-Za-z0-9\-\.]+` first;
  - a class pattern rule's printout is taken as the class name with the rule's message in brackets.
- The class lookup is a map. A class that is not in it stands for a ClassNotFoundException, and its name stands for the exception's message.
- Readers and streams: input is given as the sequence of lines `readLine` yields, and closing and I/O errors are not modelled. Bundled resources are a map from names to their lines.
- Logging:
  - info messages are not modelled;
  - warnings are kept as values in the store, not as formatted text, and the deprecation warning for `@ignoreUnresolvable` is kept as one value.
- The lines of a file are classified (blank, comment, directive or signature) before the loop reads them, rather than one by one inside it. Classifying a line depends on nothing but the line, so the order does not matter.
- Method.getMethod: argument types are kept as text. They are split at commas, trimmed, and empty pieces are dropped, without conversion to descriptors.
- Resolver.ParseMethodRequest: text after the closing parenthesis is ignored. When a comma follows that parenthesis, ASM's `Method.getMethod` throws an unchecked StringIndexOutOfBoundsException instead, which is no ParseException and escapes `parseSignaturesFile`; the model reads such a signature as the method with the arguments before the `)`, and ResolveFacts.ParseSignatureWithArgs states that reading.
- Versions.FixTargetVersion: does not model `Integer.parseInt` overflow. Version numbers are unbounded naturals, so a version number above 2147483647 is never a NumberFormatException.
- SignatureDatabase.Signatures.IncludeBundled: nested includes are bounded by `Config.includeDepth`. Deeper nesting fails with IncludeTooDeep, an error the source does not have; the source has no bound.
- SignatureDatabase.Signatures.GetSeverityForClassName: the pattern severities are a sequence of entries, because a HashMap keyed by compiled patterns adds one entry per call. The contract admits the severity of any matching entry, since the order of a HashMap is unspecified.
