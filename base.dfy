/** Failure-compatible wrappers, and the exceptions and log lines of the
    signature database as structured values. Each carries what its text is
    made of; ErrorMessage and LogText give the exact text. */
module Base {

  datatype Option<+T> = None | Some(value: T)

  /** Why a signature could not be resolved against the class lookup. */
  datatype Problem = ClassNotFound(clazz: string) | MethodNotFound | FieldNotFound

  /** The reasons for a ParseException; subject is the text quoted at the
      end of the message (a signature, a line or a bundled name). */
  datatype ParseReason =
    | MethodNameMissing
    | InvalidMethodSignature
    | GlobWithMember
    | Unresolvable(problem: Problem)
    | EmptySignature
    | InvalidLine
    | InvalidBundledName
    | InvalidJdkVersion

  /** The exceptions the signature database raises: ParseException, and the
      FileNotFoundException of a missing bundled resource. IncludeTooDeep
      stands for running out of the include depth bound of this model. */
  datatype Error =
    | ParseError(reason: ParseReason, subject: string)
    | ResourceNotFound(name: string)
    | IncludeTooDeep(name: string)

  datatype Result<+T> = Ok(value: T) | Err(error: Error)

  /** Normal completion or an exception, for operations that only change state. */
  datatype Outcome = Pass | Fail(error: Error)

  /** The lines the signature database logs as warnings. */
  datatype LogLine =
    | SignatureIgnored(problem: Problem, signature: string)
    | IgnoreUnresolvableDeprecated
    | MissingClassesHeader
    | MissingClassesList(text: string)

  function ProblemText(p: Problem): string {
    match p
    case ClassNotFound(clazz) => "Class '" + clazz + "' not found on classpath"
    case MethodNotFound => "Method not found"
    case FieldNotFound => "Field not found"
  }

  /** The message of each exception. */
  function ErrorMessage(e: Error): string {
    match e
    case ParseError(reason, subject) =>
      (match reason
      case MethodNameMissing => "Invalid method signature (method name missing): " + subject
      case InvalidMethodSignature => "Invalid method signature: " + subject
      case GlobWithMember => "Class level glob pattern cannot be combined with methods/fields: " + subject
      case Unresolvable(problem) => ProblemText(problem) + " while parsing signature: " + subject
      case EmptySignature => "Empty signature"
      case InvalidLine => "Invalid line in signature file: " + subject
      case InvalidBundledName => "Invalid bundled signature reference: " + subject
      case InvalidJdkVersion => "Invalid bundled signature reference (JDK version is invalid): " + subject)
    case ResourceNotFound(name) => "Bundled signatures resource not found: " + name
    case IncludeTooDeep(name) => "Bundled signatures nested too deeply: " + name
  }

  /** The text of each warning. */
  function LogText(l: LogLine): string {
    match l
    case SignatureIgnored(problem, signature) =>
      ProblemText(problem) + " while parsing signature: " + signature + " [signature ignored]"
    case IgnoreUnresolvableDeprecated =>
      "'@ignoreUnresolvable' inside signatures files is deprecated, prefer using '@ignoreMissingClasses' to ignore signatures where the class is missing."
    case MissingClassesHeader =>
      "Some signatures were ignored because the following classes were not found on classpath:"
    case MissingClassesList(text) => text
  }
}
