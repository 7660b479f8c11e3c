/** The version normaliser for bundled signature names (fixTargetVersion):
    JDK version suffixes are rewritten to the names the bundled files carry,
    "1.x" up to Java 8 and the plain major number from Java 9 on. */
module Versions {
  import opened Base
  import opened Text

  /** The groups of a match of the JDK signature pattern
      `(jdk\-.*?\-)(\d+)(\.\d+)?(\.\*)?`: the prefix up to and including the
      dash before the version, the major digits, the minor digits (group 3
      without its dot) and whether the `.*` of group 4 is present. */
  datatype JdkRef = JdkRef(prefix: string, major: string, minor: Option<string>, star: bool)

  predicate WellFormed(ref: JdkRef) {
    && StartsWith(ref.prefix, "jdk-") && |ref.prefix| >= 5 && ref.prefix[|ref.prefix| - 1] == '-'
    && ref.major != [] && AllDigits(ref.major)
    && (ref.minor.Some? ==> ref.minor.value != [] && AllDigits(ref.minor.value))
  }

  function RenderTail(major: string, minor: Option<string>, star: bool): string {
    major + (if minor.Some? then "." + minor.value else "") + (if star then ".*" else "")
  }

  /** The name a match was read from: the groups put back together. */
  function Render(ref: JdkRef): string {
    ref.prefix + RenderTail(ref.major, ref.minor, ref.star)
  }

  /** Reads `(\d+)(\.\d+)?(\.\*)?` from the whole of t. */
  function MatchVersionTail(t: string): (r: Option<(string, Option<string>, bool)>)
    ensures r.Some? ==> r.value.0 != [] && AllDigits(r.value.0)
    ensures r.Some? && r.value.1.Some? ==> r.value.1.value != [] && AllDigits(r.value.1.value)
    ensures r.Some? ==> RenderTail(r.value.0, r.value.1, r.value.2) == t
  {
    var major := LeadingDigits(t);
    var rest := t[|major|..];
    assert t == major + rest;
    if major == [] then None
    else if rest == [] then Some((major, None, false))
    else if rest == ".*" then Some((major, None, true))
    else if rest[0] != '.' then None
    else
      var minor := LeadingDigits(rest[1..]);
      var rest2 := rest[1 + |minor|..];
      assert rest == "." + minor + rest2;
      if minor == [] then None
      else if rest2 == [] then Some((major, Some(minor), false))
      else if rest2 == ".*" then Some((major, Some(minor), true))
      else None
  }

  /** The match of the JDK signature pattern against the whole name. The text
      after the version prefix holds no dash, so the prefix ends at the last
      dash, and it must hold a dash after the leading "jdk-". */
  function MatchJdkPattern(name: string): (r: Option<JdkRef>)
    ensures r.Some? ==> WellFormed(r.value) && Render(r.value) == name
  {
    if !StartsWith(name, "jdk-") then None
    else
      var j := LastIndexOf(name, '-');
      if j < 4 then None
      else
        var r := MatchAfter(name, j);
        if r.Some? then MatchAtDash(name, j, r.value.major, r.value.minor, r.value.star); r
        else r
  }

  /** The groups of a name whose version prefix ends at position j. */
  function MatchAfter(name: string, j: nat): (r: Option<JdkRef>)
    requires j < |name|
    ensures r.Some? ==> (r.value.prefix == name[..j + 1]
      && r.value.major != [] && AllDigits(r.value.major)
      && (r.value.minor.Some? ==> r.value.minor.value != [] && AllDigits(r.value.minor.value))
      && RenderTail(r.value.major, r.value.minor, r.value.star) == name[j + 1..])
  {
    var tail := MatchVersionTail(name[j + 1..]);
    if tail.None? then None
    else Some(JdkRef(name[..j + 1], tail.value.0, tail.value.1, tail.value.2))
  }

  /** Cutting a "jdk-" name after a later dash, followed by a version tail,
      gives well-formed groups that render back to the name. */
  lemma MatchAtDash(name: string, j: int, major: string, minor: Option<string>, star: bool)
    requires StartsWith(name, "jdk-") && 4 <= j < |name| && name[j] == '-'
    requires major != [] && AllDigits(major)
    requires minor.Some? ==> minor.value != [] && AllDigits(minor.value)
    requires RenderTail(major, minor, star) == name[j + 1..]
    ensures var ref := JdkRef(name[..j + 1], major, minor, star);
      WellFormed(ref) && Render(ref) == name
  {
    var prefix := name[..j + 1];
    assert prefix[..4] == name[..4];
    assert prefix + name[j + 1..] == name;
  }

  function MajorValue(ref: JdkRef): nat
    requires WellFormed(ref)
  {
    DigitsValue(ref.major)
  }

  function MinorValue(ref: JdkRef): nat
    requires WellFormed(ref)
  {
    if ref.minor.Some? then DigitsValue(ref.minor.value) else 0
  }

  /** The Java release a version suffix names, as (feature, update) numbers:
      1.1 to 1.8 and 2 to 8 are the releases 1 to 8, from 9 on the numbers
      stand for themselves. None for a suffix that names no release. */
  function Release(major: nat, minor: nat): Option<(nat, nat)> {
    if major == 1 && 1 <= minor < 9 then Some((minor, 0))
    else if 1 < major < 9 && minor == 0 then Some((major, 0))
    else if major >= 9 then Some((major, minor))
    else None
  }

  function ReleaseOf(ref: JdkRef): Option<(nat, nat)>
    requires WellFormed(ref)
  {
    if ref.star then None else Release(MajorValue(ref), MinorValue(ref))
  }

  /** The canonical groups for a version suffix: "1.<minor>" for 1.1 to 1.8,
      "1.<major>" for 2 to 8, "<major>.<minor>" or "<major>" from 9 on. None
      for a suffix that names no release or carries group 4. */
  function Canonical(ref: JdkRef): (r: Option<JdkRef>)
    requires WellFormed(ref)
    ensures r.None? <==> ReleaseOf(ref).None?
    ensures r.Some? ==> WellFormed(r.value) && r.value.prefix == ref.prefix && !r.value.star
  {
    var major := MajorValue(ref);
    var minor := MinorValue(ref);
    if ref.star then None
    else if major == 1 && 1 <= minor < 9 then Some(JdkRef(ref.prefix, "1", Some(DecimalString(minor)), false))
    else if 1 < major < 9 then
      if minor == 0 then Some(JdkRef(ref.prefix, "1", Some(DecimalString(major)), false)) else None
    else if major >= 9 && minor > 0 then Some(JdkRef(ref.prefix, DecimalString(major), Some(DecimalString(minor)), false))
    else if major >= 9 && minor == 0 then Some(JdkRef(ref.prefix, DecimalString(major), None, false))
    else None
  }

  /** The canonical groups name the same release as the groups they replace. */
  lemma CanonicalKeepsRelease(ref: JdkRef)
    requires WellFormed(ref) && Canonical(ref).Some?
    ensures ReleaseOf(Canonical(ref).value) == ReleaseOf(ref)
  {
    var major, minor := MajorValue(ref), MinorValue(ref);
    assert DigitsValue("1") == 1;
    DigitsValueOfDecimal(major);
    DigitsValueOfDecimal(minor);
  }

  /** Canonical groups are their own canonical form. */
  lemma CanonicalIdempotent(ref: JdkRef)
    requires WellFormed(ref) && Canonical(ref).Some?
    ensures Canonical(Canonical(ref).value) == Canonical(ref)
  {
    var major, minor := MajorValue(ref), MinorValue(ref);
    assert DigitsValue("1") == 1;
    DigitsValueOfDecimal(major);
    DigitsValueOfDecimal(minor);
  }

  /** The spelling of a release in bundled names: "1.<f>" up to release 8,
      then "<f>", or "<f>.<u>" for an update. */
  function ReleaseSuffix(release: (nat, nat)): (r: string)
    ensures r != [] && '-' !in r
  {
    var (f, u) := release;
    if f <= 8 then "1." + DecimalString(f)
    else DecimalString(f) + (if u == 0 then "" else "." + DecimalString(u))
  }

  /** The canonical groups spell the release the suffix names: 1.1 to 1.8 and
      2 to 8 become "1.<release>", and from 9 on the release and its update
      stand alone, without a zero update. */
  lemma {:induction false} CanonicalSpelling(ref: JdkRef)
    requires WellFormed(ref) && ReleaseOf(ref).Some?
    ensures var (f, u) := ReleaseOf(ref).value;
      Canonical(ref) == Some(
        if f <= 8 then JdkRef(ref.prefix, "1", Some(DecimalString(f)), false)
        else JdkRef(ref.prefix, DecimalString(f), if u == 0 then None else Some(DecimalString(u)), false))
  {
  }

  /** fixTargetVersion: names outside the JDK pattern pass unchanged; a JDK
      version suffix is rewritten to its canonical form, and one that names no
      release (or carries group 4) is a ParseException. */
  function FixTargetVersion(name: string): (r: Result<string>)
    ensures MatchJdkPattern(name).None? ==> r == Ok(name)
    ensures MatchJdkPattern(name).Some? ==> (r.Err? <==> ReleaseOf(MatchJdkPattern(name).value).None?)
    ensures r.Err? ==> r.error.ParseError?
  {
    match MatchJdkPattern(name)
    case None => Ok(name)
    case Some(ref) =>
      match Canonical(ref)
      case None => Err(ParseError(InvalidJdkVersion, name))
      case Some(c) => Ok(Render(c))
  }

  /** The suffix test of the retry with the compiler version: the name ends in
      a dash followed by `\d+(\.\d+)*`. */
  predicate EndsWithVersionNumber(name: string) {
    var j := LastIndexOf(name, '-');
    j >= 0 && DottedDigits(name[j + 1..])
  }

  predicate DottedDigits(t: string)
    decreases |t|
  {
    var d := LeadingDigits(t);
    d != [] && (|d| == |t| || (t[|d|] == '.' && DottedDigits(t[|d| + 1..])))
  }

  lemma LastDashBeforeTail(prefix: string, tail: string)
    requires prefix != [] && prefix[|prefix| - 1] == '-'
    requires '-' !in tail
    ensures LastIndexOf(prefix + tail, '-') == |prefix| - 1
  {
    var s := prefix + tail;
    assert s[|prefix| - 1] == '-';
    assert s[|prefix|..] == tail;
  }

  lemma TailHasNoDash(major: string, minor: Option<string>, star: bool)
    requires AllDigits(major)
    requires minor.Some? ==> AllDigits(minor.value)
    ensures '-' !in RenderTail(major, minor, star)
  {
    var minorPart := if minor.Some? then "." + minor.value else "";
    var starPart := if star then ".*" else "";
    assert '-' !in major;
    assert '-' !in minorPart;
    assert '-' !in starPart;
    assert RenderTail(major, minor, star) == major + minorPart + starPart;
  }

  lemma MatchVersionTailOfRender(major: string, minor: Option<string>, star: bool)
    requires major != [] && AllDigits(major)
    requires minor.Some? ==> minor.value != [] && AllDigits(minor.value)
    ensures MatchVersionTail(RenderTail(major, minor, star)) == Some((major, minor, star))
  {
    var starPart := if star then ".*" else "";
    var minorPart := if minor.Some? then "." + minor.value else "";
    var rest := minorPart + starPart;
    var tail := RenderTail(major, minor, star);
    assert tail == major + rest;
    LeadingDigitsOfConcat(major, rest);
    assert tail[|major|..] == rest;
    if minor.Some? {
      MinorPartOfRest(minor.value, starPart);
    }
  }

  lemma MinorPartOfRest(minor: string, starPart: string)
    requires minor != [] && AllDigits(minor)
    requires starPart == [] || starPart == ".*"
    ensures var rest := "." + minor + starPart;
      rest[0] == '.' && LeadingDigits(rest[1..]) == minor && rest[1 + |minor|..] == starPart
  {
    var rest := "." + minor + starPart;
    assert rest[1..] == minor + starPart;
    LeadingDigitsOfConcat(minor, starPart);
    assert rest[1 + |minor|..] == starPart;
  }

  /** Every well-formed match renders to a name that matches back to it: the
      converse of the postcondition of MatchJdkPattern. */
  lemma MatchOfRender(ref: JdkRef)
    requires WellFormed(ref)
    ensures MatchJdkPattern(Render(ref)) == Some(ref)
  {
    var tail := RenderTail(ref.major, ref.minor, ref.star);
    var name := Render(ref);
    var j := |ref.prefix| - 1;
    assert StartsWith(name, "jdk-") by {
      assert name == ref.prefix + tail;
      assert name[..4] == ref.prefix[..4];
    }
    assert LastIndexOf(name, '-') == j by {
      assert name == ref.prefix + tail;
      TailHasNoDash(ref.major, ref.minor, ref.star);
      LastDashBeforeTail(ref.prefix, tail);
    }
    assert MatchVersionTail(name[j + 1..]) == Some((ref.major, ref.minor, ref.star)) by {
      assert name == ref.prefix + tail;
      assert name[j + 1..] == tail;
      MatchVersionTailOfRender(ref.major, ref.minor, ref.star);
    }
    assert name[..j + 1] == ref.prefix;
    MatchJdkPatternAt(name, j, (ref.major, ref.minor, ref.star));
  }

  /** The match of a name is read off its last dash and the version tail after it. */
  lemma MatchJdkPatternAt(name: string, j: int, t: (string, Option<string>, bool))
    requires StartsWith(name, "jdk-") && LastIndexOf(name, '-') == j && j >= 4
    requires MatchVersionTail(name[j + 1..]) == Some(t)
    ensures MatchJdkPattern(name) == Some(JdkRef(name[..j + 1], t.0, t.1, t.2))
  {
  }

  /** The name FixTargetVersion gives for a valid suffix, read back by the pattern. */
  lemma MatchOfFixed(name: string)
    requires MatchJdkPattern(name).Some? && FixTargetVersion(name).Ok?
    ensures var ref := MatchJdkPattern(name).value;
      Canonical(ref).Some? && MatchJdkPattern(FixTargetVersion(name).value) == Canonical(ref)
  {
    var ref := MatchJdkPattern(name).value;
    var c := Canonical(ref).value;
    assert FixTargetVersion(name) == Ok(Render(c));
    MatchOfRender(c);
  }

  /** Normalising keeps the prefix and the Java release the suffix names. */
  lemma FixTargetVersionKeepsRelease(name: string)
    requires MatchJdkPattern(name).Some? && FixTargetVersion(name).Ok?
    ensures var before := MatchJdkPattern(name).value;
      var after := MatchJdkPattern(FixTargetVersion(name).value);
      && after.Some? && after.value.prefix == before.prefix && !after.value.star
      && ReleaseOf(after.value) == ReleaseOf(before)
  {
    MatchOfFixed(name);
    CanonicalKeepsRelease(MatchJdkPattern(name).value);
  }

  /** Every name FixTargetVersion returns is a fixed point of it. */
  lemma FixTargetVersionIdempotent(name: string)
    requires FixTargetVersion(name).Ok?
    ensures FixTargetVersion(FixTargetVersion(name).value) == FixTargetVersion(name)
  {
    if MatchJdkPattern(name).Some? {
      var ref := MatchJdkPattern(name).value;
      MatchOfFixed(name);
      CanonicalIdempotent(ref);
    }
  }

  /** The name fixTargetVersion returns for a suffix that names a release:
      the prefix followed by the release's spelling in bundled names. */
  lemma {:induction false} FixTargetVersionSpelling(name: string)
    requires MatchJdkPattern(name).Some? && ReleaseOf(MatchJdkPattern(name).value).Some?
    ensures var ref := MatchJdkPattern(name).value;
      FixTargetVersion(name) == Ok(ref.prefix + ReleaseSuffix(ReleaseOf(ref).value))
  {
    var ref := MatchJdkPattern(name).value;
    var (f, u) := ReleaseOf(ref).value;
    CanonicalSpelling(ref);
    RenderSpelled(ref.prefix, f, u);
    assert FixTargetVersion(name) == Ok(Render(Canonical(ref).value));
  }

  /** The groups CanonicalSpelling gives render as the prefix and the spelling. */
  lemma {:induction false} RenderSpelled(prefix: string, f: nat, u: nat)
    ensures Render(if f <= 8 then JdkRef(prefix, "1", Some(DecimalString(f)), false)
                   else JdkRef(prefix, DecimalString(f), if u == 0 then None else Some(DecimalString(u)), false))
      == prefix + ReleaseSuffix((f, u))
  {
    if f <= 8 {
      assert RenderTail("1", Some(DecimalString(f)), false) == "1." + DecimalString(f);
    } else if u == 0 {
      assert RenderTail(DecimalString(f), None, false) == DecimalString(f);
    } else {
      assert RenderTail(DecimalString(f), Some(DecimalString(u)), false) == DecimalString(f) + "." + DecimalString(u);
    }
  }

  /** An example: "jdk-deprecated-7" is normalised to "jdk-deprecated-1.7". */
  lemma {:induction false} FixTargetVersionOfSeven()
    ensures FixTargetVersion("jdk-deprecated-7") == Ok("jdk-deprecated-1.7")
  {
    SevenMatches();
    FixTargetVersionSpelling("jdk-deprecated-7");
    assert DecimalString(7) == "7";
    assert ReleaseSuffix((7, 0)) == "1.7";
    assert "jdk-deprecated-" + "1.7" == "jdk-deprecated-1.7";
  }

  /** "jdk-deprecated-7" matches the pattern with the suffix 7, release 7. */
  lemma {:induction false} SevenMatches()
    ensures var ref := JdkRef("jdk-deprecated-", "7", None, false);
      MatchJdkPattern("jdk-deprecated-7") == Some(ref) && ReleaseOf(ref) == Some((7, 0))
  {
    var ref := JdkRef("jdk-deprecated-", "7", None, false);
    assert StartsWith(ref.prefix, "jdk-") by {
      assert ref.prefix[..4] == "jdk-";
    }
    assert AllDigits("7");
    assert Render(ref) == "jdk-deprecated-7";
    MatchOfRender(ref);
    assert DigitsValue("7") == 7;
  }
}
