/** The key codec: the lookup keys under which the rule store files classes,
    fields and methods. Every key starts with a one-letter tag and a NUL
    character; member keys separate the class name from the member by another NUL. */
module Keys {
  import opened Base
  import opened Text

  const NUL: char := '\0'
  const ClassTag: string := "c\0"
  const FieldTag: string := "f\0"
  const MethodTag: string := "m\0"

  /** A method as the bytecode sees it: its name, its argument types and its
      return type (the ASM Method descriptor, with types kept as text). */
  datatype Method = Method(name: string, argTypes: seq<string>, returnType: string)

  /** Method.toString(): the name followed by the descriptor. */
  function MethodString(m: Method): string {
    m.name + "(" + Join(m.argTypes, ",") + ")" + m.returnType
  }

  datatype KeyKind = ClassKind | FieldKind | MethodKind

  /** Which of the three tags a key starts with, if any. */
  function KindOf(key: string): (r: Option<KeyKind>)
    ensures r.Some? <==> IsExactKey(key)
    ensures r == Some(ClassKind) <==> StartsWith(key, ClassTag)
    ensures r == Some(FieldKind) <==> StartsWith(key, FieldTag)
    ensures r == Some(MethodKind) <==> StartsWith(key, MethodTag)
  {
    if |key| < 2 || key[1] != NUL then None
    else if key[0] == 'c' then Some(ClassKind)
    else if key[0] == 'f' then Some(FieldKind)
    else if key[0] == 'm' then Some(MethodKind)
    else None
  }

  /** The test the store applies to tell exact keys from class globs. */
  predicate IsExactKey(key: string) {
    StartsWith(key, ClassTag) || StartsWith(key, FieldTag) || StartsWith(key, MethodTag)
  }

  /** getKey(internalClassName) */
  function ClassKey(internalClassName: string): (key: string)
    ensures KindOf(key) == Some(ClassKind)
    ensures DecodeClassKey(key) == Some(internalClassName)
  {
    assert (ClassTag + internalClassName)[..2] == ClassTag;
    ClassTag + internalClassName
  }

  /** getKey(internalClassName, field) */
  function FieldKey(internalClassName: string, field: string): (key: string)
    ensures KindOf(key) == Some(FieldKind)
  {
    var key := FieldTag + internalClassName + [NUL] + field;
    assert key[..2] == FieldTag;
    key
  }

  /** getKey(internalClassName, method) */
  function MethodKey(internalClassName: string, m: Method): (key: string)
    ensures KindOf(key) == Some(MethodKind)
  {
    var key := MethodTag + internalClassName + [NUL] + MethodString(m);
    assert key[..2] == MethodTag;
    key
  }

  /** The tags keep the kinds apart: a class key is never a field or a
      method key, and a field key is never a method key. */
  lemma KindsKeepKeysApart(c1: string, c2: string, field: string, m: Method)
    ensures ClassKey(c1) != FieldKey(c2, field)
    ensures ClassKey(c1) != MethodKey(c2, m)
    ensures FieldKey(c1, field) != MethodKey(c2, m)
  {
  }

  /** The class name inside a class key. */
  function DecodeClassKey(key: string): Option<string> {
    if StartsWith(key, ClassTag) then Some(key[2..]) else None
  }

  /** The class name and the member text inside a field or method key: the
      class name ends at the first NUL after the tag. */
  function DecodeMemberKey(key: string): Option<(string, string)> {
    if |key| < 2 then None
    else
      var body := key[2..];
      var p := IndexOf(body, NUL);
      if p < 0 then None else Some((body[..p], body[p + 1..]))
  }

  /** A member key whose class name has no NUL decodes back to its parts. */
  lemma MemberKeyRoundTrip(tag: string, internalClassName: string, member: string)
    requires |tag| == 2
    requires NUL !in internalClassName
    ensures DecodeMemberKey(tag + internalClassName + [NUL] + member) == Some((internalClassName, member))
  {
    var key := tag + internalClassName + [NUL] + member;
    var body := key[2..];
    assert body == internalClassName + [NUL] + member;
    assert body[|internalClassName|] == NUL;
    assert body[..|internalClassName|] == internalClassName;
  }

  /** Field keys of NUL-free class names identify class and field. */
  lemma FieldKeyInjective(c1: string, f1: string, c2: string, f2: string)
    requires NUL !in c1 && NUL !in c2
    requires FieldKey(c1, f1) == FieldKey(c2, f2)
    ensures c1 == c2 && f1 == f2
  {
    MemberKeyRoundTrip(FieldTag, c1, f1);
    MemberKeyRoundTrip(FieldTag, c2, f2);
  }

  /** Method keys of NUL-free class names identify the class and the method text. */
  lemma MethodKeyInjective(c1: string, m1: Method, c2: string, m2: Method)
    requires NUL !in c1 && NUL !in c2
    requires MethodKey(c1, m1) == MethodKey(c2, m2)
    ensures c1 == c2 && MethodString(m1) == MethodString(m2)
  {
    MemberKeyRoundTrip(MethodTag, c1, MethodString(m1));
    MemberKeyRoundTrip(MethodTag, c2, MethodString(m2));
  }
}
