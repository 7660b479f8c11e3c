/** Properties of getKeys: globs, missing classes under each reporting mode,
    the kind of the keys produced, and what SILENT mode guarantees. */
module ResolveFacts {
  import opened Base
  import opened Text
  import opened Keys
  import opened Resolver

  /** The key kind a member of a signature resolves to. */
  function MemberKind(member: Member): KeyKind {
    match member
    case NoMember => ClassKind
    case FieldMember(_) => FieldKind
    case MethodMember(_) => MethodKind
  }

  /** The keys a member of a known class stands for: the class key, the
      field key when the class declares the field, or the keys of every
      declared method that matches. Empty when the field or method is not
      there. */
  function MemberKeys(c: ClassMetadata, member: Member): (r: seq<string>)
    ensures forall k :: k in r ==> IsExactKey(k) && KindOf(k) == Some(MemberKind(member))
    ensures member.NoMember? ==> r != []
    ensures member.FieldMember? ==> (r == [] <==> member.field !in c.fields)
    ensures member.MethodMember? ==>
      (r == [] <==> forall i :: 0 <= i < |c.methods| ==> !MethodMatches(c.methods[i], member.request))
  {
    match member
    case NoMember => [ClassKey(c.className)]
    case FieldMember(field) => if field in c.fields then [FieldKey(c.className, field)] else []
    case MethodMember(request) =>
      var keys := MatchingMethodKeys(c.className, c.methods, request);
      forall k | k in keys
        ensures IsExactKey(k) && KindOf(k) == Some(MethodKind)
      {
        var i :| 0 <= i < |c.methods| && MethodMatches(c.methods[i], request) && k == MethodKey(c.className, c.methods[i]);
      }
      keys
  }

  /** The problem reported for a member that the class does not have. */
  function MemberNotFound(member: Member): Problem {
    if member.MethodMember? then MethodNotFound else FieldNotFound
  }

  /** A signature whose member part has no '(' names a field, and one whose
      member part starts with '(' has no method name. */
  lemma {:induction false} ParseSignatureSplit(clazz: string, member: string)
    requires '#' !in clazz
    ensures var signature := clazz + "#" + member;
      && ('(' !in member ==> ParseSignature(signature) == Ok(SignatureRef(clazz, FieldMember(member))))
      && (member != [] && member[0] == '(' ==> ParseSignature(signature) == Err(ParseError(MethodNameMissing, signature)))
  {
    SplitAtHash(clazz, member);
  }

  /** A method signature `clazz#name(args` with the `**` wildcard takes
      any arguments. */
  lemma {:induction false} ParseSignatureWildcard(clazz: string, name: string, args: string)
    requires '#' !in clazz && name != [] && '(' !in name
    requires IsWildcardArgs("(" + args)
    ensures ParseSignature(clazz + "#" + name + "(" + args) == Ok(SignatureRef(clazz, MethodMember(AnyArgs(Trim(name)))))
  {
    SplitMethod(clazz, name, args);
  }

  /** A method signature whose argument list is not closed by a ')' is
      invalid. */
  lemma {:induction false} ParseSignatureUnclosed(clazz: string, name: string, args: string)
    requires '#' !in clazz && name != [] && '(' !in name
    requires ')' !in args
    ensures var signature := clazz + "#" + name + "(" + args;
      ParseSignature(signature) == Err(ParseError(InvalidMethodSignature, signature))
  {
    SplitMethod(clazz, name, args);
    if args != [] {
      assert ("(" + args)[|args|] == args[|args| - 1];
    }
    assert !IsWildcardArgs("(" + args);
  }

  /** A method signature with argument types: the types are the pieces
      before the first ')'. */
  lemma {:induction false} ParseSignatureWithArgs(clazz: string, name: string, args: string)
    requires '#' !in clazz && name != [] && '(' !in name
    requires !IsWildcardArgs("(" + args) && ')' in args
    ensures ParseSignature(clazz + "#" + name + "(" + args) ==
      Ok(SignatureRef(clazz, MethodMember(WithArgs(Trim(name), ArgTypes(args[..IndexOf(args, ')')])))))
  {
    SplitMethod(clazz, name, args);
  }

  /** How `clazz#name(args` is cut up: the class before the '#', the name
      before the first '(' and the arguments after it. */
  lemma {:induction false} SplitMethod(clazz: string, name: string, args: string)
    requires '#' !in clazz && name != [] && '(' !in name
    ensures var signature := clazz + "#" + name + "(" + args;
      var member := name + "(" + args;
      && IndexOf(signature, '#') == |clazz|
      && signature[..|clazz|] == clazz && signature[|clazz| + 1..] == member
      && IndexOf(member, '(') == |name|
      && member[..|name|] == name && member[|name|..] == "(" + args && member[|name| + 1..] == args
  {
    var member := name + "(" + args;
    assert clazz + "#" + name + "(" + args == clazz + "#" + member;
    SplitAtHash(clazz, member);
    SplitAtParen(name, args);
  }

  /** The first '(' of `name(args` is the one after the name. */
  lemma {:induction false} SplitAtParen(name: string, args: string)
    requires '(' !in name
    ensures var member := name + "(" + args;
      && IndexOf(member, '(') == |name|
      && member[..|name|] == name && member[|name|..] == "(" + args && member[|name| + 1..] == args
  {
    var member := name + "(" + args;
    assert member[..|name|] == name;
    IndexOfAt(member, '(', |name|);
    assert member[|name|..] == "(" + args;
    assert member[|name| + 1..] == args;
  }

  /** The first '#' of `clazz#member` is the one after the class. */
  lemma {:induction false} SplitAtHash(clazz: string, member: string)
    requires '#' !in clazz
    ensures var signature := clazz + "#" + member;
      && IndexOf(signature, '#') == |clazz|
      && signature[..|clazz|] == clazz && signature[|clazz| + 1..] == member
  {
    var signature := clazz + "#" + member;
    assert signature[..|clazz|] == clazz;
    IndexOfAt(signature, '#', |clazz|);
    assert signature[|clazz| + 1..] == member;
  }

  /** getKeys on a class the lookup knows: the keys of the member, or, when
      the class has no such field or method, the mode's report of "Method
      not found" or "Field not found" and no keys. */
  lemma {:induction false} ResolveKnownClass(cfg: Config, report: Reporting, localIgnore: bool, missing: set<string>, signature: string)
    requires ParseSignature(signature).Ok?
    requires var clazz := ParseSignature(signature).value.clazz; !cfg.isGlob(clazz) && clazz in cfg.lookup
    ensures var ref := ParseSignature(signature).value;
      var keys := MemberKeys(cfg.lookup[ref.clazz], ref.member);
      Resolve(cfg, report, localIgnore, missing, signature) ==
        if keys == [] then ParseFailed(report, MemberNotFound(ref.member), signature, missing)
        else Ok(Resolution(Some(keys), missing, None))
  {
  }

  /** The keys of a signature, and whether it throws, do not depend on the
      classes recorded as missing so far. */
  lemma {:induction false} ResolveIgnoresMissing(cfg: Config, report: Reporting, localIgnore: bool, missing: set<string>, signature: string)
    ensures var r := Resolve(cfg, report, localIgnore, missing, signature);
      var r0 := Resolve(cfg, report, localIgnore, {}, signature);
      && (r.Ok? <==> r0.Ok?)
      && (r.Err? ==> r == r0)
      && (r.Ok? ==> r.value.keys == r0.value.keys)
  {
    match ParseSignature(signature)
    case Err(e) =>
    case Ok(ref) =>
      if !cfg.isGlob(ref.clazz) {
        if ref.clazz !in cfg.lookup {
          if !(cfg.ignoreSignaturesOfMissingClasses || localIgnore) && ReportsClassNotFound(report) {
            var p := ClassNotFound(ref.clazz);
            assert ParseFailed(report, p, signature, missing).Ok? <==> ParseFailed(report, p, signature, {}).Ok?;
          }
        } else {
          var c := cfg.lookup[ref.clazz];
          var keys := MemberKeys(c, ref.member);
          ResolveKnownClass(cfg, report, localIgnore, missing, signature);
          ResolveKnownClass(cfg, report, localIgnore, {}, signature);
          if keys == [] {
            var p := MemberNotFound(ref.member);
            assert ParseFailed(report, p, signature, missing).Ok? <==> ParseFailed(report, p, signature, {}).Ok?;
          }
        }
      }
  }

  /** A glob without a member stands for itself, unresolved. */
  lemma ResolveGlob(cfg: Config, report: Reporting, localIgnore: bool, missing: set<string>, signature: string)
    requires '#' !in signature && cfg.isGlob(signature)
    ensures Resolve(cfg, report, localIgnore, missing, signature) == Ok(Resolution(Some([signature]), missing, None))
  {
  }

  /** A glob with a field or a method is a ParseException, in every mode. */
  lemma ResolveGlobWithMember(cfg: Config, report: Reporting, localIgnore: bool, missing: set<string>, signature: string)
    requires ParseSignature(signature).Ok?
    requires cfg.isGlob(ParseSignature(signature).value.clazz)
    requires !ParseSignature(signature).value.member.NoMember?
    ensures Resolve(cfg, report, localIgnore, missing, signature) == Err(ParseError(GlobWithMember, signature))
  {
  }

  /** A class the lookup does not know: ignored when either ignore flag is
      set, otherwise an exception in FAIL mode, nothing in SILENT mode, and a
      new entry of the missing-classes set in WARNING mode. */
  lemma {:induction false} ResolveMissingClass(cfg: Config, report: Reporting, localIgnore: bool, missing: set<string>, signature: string)
    requires ParseSignature(signature).Ok?
    requires var clazz := ParseSignature(signature).value.clazz; !cfg.isGlob(clazz) && clazz !in cfg.lookup
    ensures var clazz := ParseSignature(signature).value.clazz;
      var r := Resolve(cfg, report, localIgnore, missing, signature);
      && ((cfg.ignoreSignaturesOfMissingClasses || localIgnore) ==> r == Ok(Resolution(None, missing, None)))
      && (!(cfg.ignoreSignaturesOfMissingClasses || localIgnore) ==>
          match report
          case FAIL => r == Err(ParseError(Unresolvable(ClassNotFound(clazz)), signature))
          case SILENT => r == Ok(Resolution(None, missing, None))
          case WARNING => r == Ok(Resolution(None, missing + {clazz}, None)))
  {
    var ref := ParseSignature(signature).value;
    assert Resolve(cfg, report, localIgnore, missing, signature) ==
      if cfg.ignoreSignaturesOfMissingClasses || localIgnore then Ok(Resolution(None, missing, None))
      else if ReportsClassNotFound(report) then ParseFailed(report, ClassNotFound(ref.clazz), signature, missing)
      else Ok(Resolution(None, missing + {ref.clazz}, None));
  }

  /** Outside the glob case every key is an exact key of the member's kind:
      a class key for a class, field keys for a field, method keys for a
      method. */
  lemma {:induction false} ResolveExactKeys(cfg: Config, report: Reporting, localIgnore: bool, missing: set<string>, signature: string)
    requires ParseSignature(signature).Ok?
    requires !cfg.isGlob(ParseSignature(signature).value.clazz)
    requires Resolve(cfg, report, localIgnore, missing, signature).Ok?
    ensures var keys := Resolve(cfg, report, localIgnore, missing, signature).value.keys;
      keys.Some? ==> forall k :: k in keys.value ==>
        IsExactKey(k) && KindOf(k) == Some(MemberKind(ParseSignature(signature).value.member))
  {
    var ref := ParseSignature(signature).value;
    var res := Resolve(cfg, report, localIgnore, missing, signature).value;
    if res.keys.Some? {
      var c := cfg.lookup[ref.clazz];
      match ref.member
      case MethodMember(request) =>
        assert res.keys.value == MatchingMethodKeys(c.className, c.methods, request);
        forall k | k in res.keys.value
          ensures KindOf(k) == Some(MethodKind)
        {
          var i :| 0 <= i < |c.methods| && MethodMatches(c.methods[i], request) && k == MethodKey(c.className, c.methods[i]);
        }
      case FieldMember(field) =>
        assert res.keys.value == [FieldKey(c.className, field)];
      case NoMember =>
        assert res.keys.value == [ClassKey(c.className)];
    }
  }

  /** A class recorded as missing is recorded once: resolving the same
      signature again with the missing-classes set of the first call leaves
      that set as it is and gives the same keys. */
  lemma {:induction false} ResolveMissingIdempotent(cfg: Config, report: Reporting, localIgnore: bool, missing: set<string>, signature: string)
    requires Resolve(cfg, report, localIgnore, missing, signature).Ok?
    ensures var res := Resolve(cfg, report, localIgnore, missing, signature).value;
      var again := Resolve(cfg, report, localIgnore, res.missing, signature);
      again.Ok? && again.value.missing == res.missing && again.value.keys == res.keys
  {
    var res := Resolve(cfg, report, localIgnore, missing, signature).value;
    var ref := ParseSignature(signature).value;
    if !cfg.isGlob(ref.clazz) && ref.clazz !in cfg.lookup {
      ResolveMissingClass(cfg, report, localIgnore, missing, signature);
      ResolveMissingClass(cfg, report, localIgnore, res.missing, signature);
    } else {
      assert res.missing == missing;
    }
  }

  /** A method signature matches every declared method with that name and
      those argument types (every one of them with the `**` wildcard), not
      just the first: covariant overrides are all forbidden. */
  lemma ResolveMethod(cfg: Config, report: Reporting, localIgnore: bool, missing: set<string>, signature: string, m: Method)
    requires ParseSignature(signature).Ok?
    requires var ref := ParseSignature(signature).value;
      !cfg.isGlob(ref.clazz) && ref.clazz in cfg.lookup && ref.member.MethodMember?
    requires var ref := ParseSignature(signature).value;
      m in cfg.lookup[ref.clazz].methods && MethodMatches(m, ref.member.request)
    ensures var r := Resolve(cfg, report, localIgnore, missing, signature);
      var c := cfg.lookup[ParseSignature(signature).value.clazz];
      r.Ok? && r.value.keys.Some? && MethodKey(c.className, m) in r.value.keys.value
  {
    var ref := ParseSignature(signature).value;
    var c := cfg.lookup[ref.clazz];
    var i :| 0 <= i < |c.methods| && c.methods[i] == m;
    assert MethodKey(c.className, m) in MatchingMethodKeys(c.className, c.methods, ref.member.request);
  }
}
