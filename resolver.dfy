/** The resolver (getKeys): one signature line is parsed into a class, an
    optional field or method, and resolved against the class metadata into
    exact keys, or left as a single class glob. A class, method or field that
    cannot be resolved is handled by one of three reporting modes. */
module Resolver {
  import opened Base
  import opened Text
  import opened Keys

  /** UnresolvableReporting. FAIL and SILENT report a missing class through
      the mode itself; WARNING collects it in the missing-classes set. */
  datatype Reporting = FAIL | WARNING | SILENT

  /** The reportClassNotFound flag of each mode. */
  predicate ReportsClassNotFound(report: Reporting) {
    report != WARNING
  }

  /** What the class lookup knows about a class: its internal name, its
      declared methods and the names of its fields. */
  datatype ClassMetadata = ClassMetadata(className: string, methods: seq<Method>, fields: set<string>)

  /** The collaborators and options of a signature database. The class lookup
      answers getClassFromClassLoader (a name it does not hold is a
      ClassNotFoundException); the bundled map holds the lines of each
      bundled signatures resource. Glob recognition and matching and the
      abbreviated class-list format are taken as given. includeDepth bounds
      the nesting of bundled includes. */
  datatype Config = Config(
    lookup: map<string, ClassMetadata>,
    bundled: map<string, seq<string>>,
    isGlob: string -> bool,
    globMatches: (string, string) -> bool,
    formatClassesAbbreviated: set<string> -> string,
    ignoreSignaturesOfMissingClasses: bool,
    failOnUnresolvableSignatures: bool,
    failOnViolation: bool,
    includeDepth: nat)

  /** The method part of a signature: a name with the `**` wildcard for its
      arguments, or a name with its argument types. */
  datatype MethodRequest = AnyArgs(name: string) | WithArgs(name: string, argTypes: seq<string>)

  datatype Member = NoMember | FieldMember(field: string) | MethodMember(request: MethodRequest)

  /** A parsed signature line: `class`, `class#field` or `class#method(args)`. */
  datatype SignatureRef = SignatureRef(clazz: string, member: Member)

  /** The characters of the regular expression class `\s`. */
  predicate IsRegexSpace(c: char) {
    c == ' ' || 9 <= c as int <= 13
  }

  function SkipRegexSpaces(s: string): (r: string)
    ensures |r| <= |s| && r == s[|s| - |r|..]
    ensures r == [] || !IsRegexSpace(r[0])
  {
    if |s| > 0 && IsRegexSpace(s[0]) then SkipRegexSpaces(s[1..]) else s
  }

  /** The whole of t matches `\(\s*\*\*\s*\)`. */
  predicate IsWildcardArgs(t: string) {
    && |t| >= 2 && t[0] == '(' && t[|t| - 1] == ')'
    && var inner := SkipRegexSpaces(t[1..|t| - 1]);
    && |inner| >= 2 && inner[..2] == "**"
    && forall i :: 2 <= i < |inner| ==> IsRegexSpace(inner[i])
  }

  /** The argument types between the parentheses: the comma-separated
      pieces, trimmed, with empty pieces dropped. */
  function ArgTypes(text: string): (r: seq<string>)
    ensures forall i :: 0 <= i < |r| ==> r[i] != [] && ',' !in r[i]
  {
    NonEmptyTrimmed(Split(text, ','))
  }

  function NonEmptyTrimmed(parts: seq<string>): (r: seq<string>)
    requires forall i :: 0 <= i < |parts| ==> ',' !in parts[i]
    ensures forall i :: 0 <= i < |r| ==> r[i] != [] && ',' !in r[i]
  {
    if parts == [] then []
    else
      var t := Trim(parts[0]);
      if t == [] then NonEmptyTrimmed(parts[1..]) else [t] + NonEmptyTrimmed(parts[1..])
  }

  /** Method.getMethod("void " + member): the name before the first '(',
      trimmed, and the argument types up to the first ')' after it; None
      where there is no ')' (an IllegalArgumentException). */
  function ParseMethodRequest(member: string, open: nat): (r: Option<MethodRequest>)
    requires open < |member| && member[open] == '('
    ensures r.Some? <==> ')' in member[open + 1..]
    ensures r.Some? ==> r.value.WithArgs? && r.value.name == Trim(member[..open])
  {
    var rest := member[open + 1..];
    var close := IndexOf(rest, ')');
    if close < 0 then None else Some(WithArgs(Trim(member[..open]), ArgTypes(rest[..close])))
  }

  /** The parse of a signature line. The class is the text before the first
      '#'; the member after it is a method when it holds a '(' and a field
      otherwise. A method without a name, or whose arguments have no closing
      parenthesis, is a ParseException. */
  function ParseSignature(signature: string): (r: Result<SignatureRef>)
    ensures r.Err? ==> r.error.ParseError?
    ensures r.Ok? ==> '#' !in r.value.clazz
    ensures r.Ok? && r.value.member.NoMember? ==> r.value.clazz == signature
    ensures '#' !in signature ==> r == Ok(SignatureRef(signature, NoMember))
  {
    var p := IndexOf(signature, '#');
    if p < 0 then Ok(SignatureRef(signature, NoMember))
    else
      var clazz := signature[..p];
      var member := signature[p + 1..];
      var open := IndexOf(member, '(');
      if open < 0 then Ok(SignatureRef(clazz, FieldMember(member)))
      else if open == 0 then Err(ParseError(MethodNameMissing, signature))
      else if IsWildcardArgs(member[open..]) then Ok(SignatureRef(clazz, MethodMember(AnyArgs(Trim(member[..open])))))
      else
        match ParseMethodRequest(member, open)
        case None => Err(ParseError(InvalidMethodSignature, signature))
        case Some(request) => Ok(SignatureRef(clazz, MethodMember(request)))
  }

  /** A declared method answers a request when the names are equal and the
      request has the wildcard or the same argument types. */
  predicate MethodMatches(m: Method, request: MethodRequest) {
    m.name == request.name && (request.AnyArgs? || m.argTypes == request.argTypes)
  }

  /** The keys of every declared method that answers the request, in
      declaration order: the search goes on after the first match. */
  function MatchingMethodKeys(className: string, methods: seq<Method>, request: MethodRequest): (r: seq<string>)
    ensures |r| <= |methods|
    ensures forall k :: k in r <==>
      exists i :: 0 <= i < |methods| && MethodMatches(methods[i], request) && k == MethodKey(className, methods[i])
    ensures r == [] <==> forall i :: 0 <= i < |methods| ==> !MethodMatches(methods[i], request)
  {
    if methods == [] then []
    else
      var init := methods[..|methods| - 1];
      var last := methods[|methods| - 1];
      var keys := MatchingMethodKeys(className, init, request);
      assert forall i :: 0 <= i < |init| ==> init[i] == methods[i];
      if MethodMatches(last, request) then keys + [MethodKey(className, last)] else keys
  }

  /** The outcome of getKeys that is not an exception: the keys (None for
      null), the missing-classes set after the call, and the warning logged. */
  datatype Resolution = Resolution(keys: Option<seq<string>>, missing: set<string>, warning: Option<LogLine>)

  /** UnresolvableReporting.parseFailed followed by `return null`. */
  function ParseFailed(report: Reporting, problem: Problem, signature: string, missing: set<string>): (r: Result<Resolution>)
    ensures r.Err? <==> report == FAIL
    ensures r.Err? ==> r.error == ParseError(Unresolvable(problem), signature)
    ensures r.Ok? ==> r.value.keys.None? && r.value.missing == missing
    ensures r.Ok? ==> (r.value.warning.Some? <==> report == WARNING)
  {
    match report
    case FAIL => Err(ParseError(Unresolvable(problem), signature))
    case WARNING => Ok(Resolution(None, missing, Some(SignatureIgnored(problem, signature))))
    case SILENT => Ok(Resolution(None, missing, None))
  }

  /** getKeys: the keys a signature line stands for. */
  function Resolve(cfg: Config, report: Reporting, localIgnore: bool, missing: set<string>, signature: string): (r: Result<Resolution>)
    ensures r.Err? ==> r.error.ParseError?
    ensures r.Ok? ==> missing <= r.value.missing
    ensures r.Ok? && r.value.keys.Some? ==>
      r.value.keys.value != [] && r.value.missing == missing && r.value.warning.None?
    ensures r.Ok? && r.value.warning.Some? ==> report == WARNING && r.value.missing == missing
    ensures r.Ok? && report != WARNING ==> r.value.missing == missing
    ensures r.Err? && r.error.reason.Unresolvable? ==> report == FAIL
  {
    match ParseSignature(signature)
    case Err(e) => Err(e)
    case Ok(ref) =>
      if cfg.isGlob(ref.clazz) then
        if !ref.member.NoMember? then
          Err(ParseError(GlobWithMember, signature))
        else Ok(Resolution(Some([ref.clazz]), missing, None))
      else if ref.clazz !in cfg.lookup then
        if cfg.ignoreSignaturesOfMissingClasses || localIgnore then Ok(Resolution(None, missing, None))
        else if ReportsClassNotFound(report) then
          ParseFailed(report, ClassNotFound(ref.clazz), signature, missing)
        else Ok(Resolution(None, missing + {ref.clazz}, None))
      else
        var c := cfg.lookup[ref.clazz];
        match ref.member
        case MethodMember(request) =>
          var keys := MatchingMethodKeys(c.className, c.methods, request);
          if keys == [] then ParseFailed(report, MethodNotFound, signature, missing)
          else Ok(Resolution(Some(keys), missing, None))
        case FieldMember(field) =>
          if field !in c.fields then ParseFailed(report, FieldNotFound, signature, missing)
          else Ok(Resolution(Some([FieldKey(c.className, field)]), missing, None))
        case NoMember => Ok(Resolution(Some([ClassKey(c.className)]), missing, None))
  }
}
