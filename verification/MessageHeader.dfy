/** Header values: tokens, field values, the protocol version, and the field map. */
module MessageHeader {
  import opened Text
  import opened Numbers

  // ---- Character classes ----

  predicate IsDelimiter(c: char) {
    c == '"' || c == '(' || c == ')' || c == ',' || c == '/' || c == ':' || c == ';' || c == '<' || c == '=' ||
    c == '>' || c == '?' || c == '@' || c == '[' || c == '\\' || c == ']' || c == '{' || c == '}'
  }

  predicate IsNotPrintable(c: char) {
    c <= ' ' || c as int == 127
  }

  predicate IsTokenChar(c: char) {
    (c as int) < 128 && !IsDelimiter(c) && !IsNotPrintable(c)
  }

  predicate IsToken(s: string) {
    s != [] && forall i :: 0 <= i < |s| ==> IsTokenChar(s[i])
  }

  /** What `uri::create` accepts. */
  predicate IsTarget(s: string) {
    s != [] && forall i :: 0 <= i < |s| ==> !IsNotPrintable(s[i])
  }

  /** What `field_value::create` accepts. */
  predicate IsFieldValue(s: string) {
    s == [] ||
    (!IsNotPrintable(s[0]) && !IsNotPrintable(s[|s| - 1]) &&
     forall i :: 0 <= i < |s| ==> IsNotPrintable(s[i]) ==> IsStrictWhitespace(s[i]))
  }

  // ---- Case-insensitive comparison ----

  function ToUpper(c: char): char {
    if 'a' <= c <= 'z' then (c as int - 32) as char else c
  }

  function Upper(s: string): string {
    seq(|s|, i requires 0 <= i < |s| => ToUpper(s[i]))
  }

  /** -1, 0 or 1, as `a` stands before, with or after `b` once both are put in upper case. */
  function StriCmp(a: string, b: string): int {
    if a == [] then (if b == [] then 0 else -1)
    else if b == [] then 1
    else if ToUpper(a[0]) < ToUpper(b[0]) then -1
    else if ToUpper(b[0]) < ToUpper(a[0]) then 1
    else StriCmp(a[1..], b[1..])
  }

  predicate SameName(a: string, b: string) {
    StriCmp(a, b) == 0
  }

  lemma {:induction false} StriCmpZero(a: string, b: string)
    ensures StriCmp(a, b) == 0 <==> Upper(a) == Upper(b)
  {
    if a == [] || b == [] {
      assert |Upper(a)| == |a| && |Upper(b)| == |b|;
    } else {
      StriCmpZero(a[1..], b[1..]);
      assert Upper(a) == [ToUpper(a[0])] + Upper(a[1..]) && Upper(a)[1..] == Upper(a[1..]);
      assert Upper(b) == [ToUpper(b[0])] + Upper(b[1..]) && Upper(b)[1..] == Upper(b[1..]);
      assert ToUpper(a[0]) == Upper(a)[0] && ToUpper(b[0]) == Upper(b)[0];
    }
  }

  lemma {:induction false} StriCmpAntisymmetric(a: string, b: string)
    ensures StriCmp(a, b) == -StriCmp(b, a)
    ensures -1 <= StriCmp(a, b) <= 1
  {
    if a != [] && b != [] {
      StriCmpAntisymmetric(a[1..], b[1..]);
    }
  }

  lemma {:induction false} StriCmpTransitive(a: string, b: string, c: string)
    requires StriCmp(a, b) <= 0 && StriCmp(b, c) <= 0
    ensures StriCmp(a, c) <= 0
    ensures StriCmp(a, c) == 0 ==> StriCmp(a, b) == 0 && StriCmp(b, c) == 0
  {
    if a != [] && b != [] && c != [] && ToUpper(a[0]) == ToUpper(b[0]) == ToUpper(c[0]) {
      StriCmpTransitive(a[1..], b[1..], c[1..]);
    }
  }

  // ---- Protocol version ----

  /** Two 32-bit numbers packed into 64 bits, the major one on top. */
  datatype Version = Version(packed: nat) {
    function Major(): nat { packed / TWO_32 % TWO_32 }

    function Minor(): nat { packed % TWO_32 }

    function WithMajor(v: nat): Version {
      Version(packed % TWO_32 + v * TWO_32)
    }

    function WithMinor(v: nat): Version {
      Version(packed - packed % TWO_32 + v)
    }
  }

  function MakeVersion(major: nat, minor: nat): Version {
    Version(major * TWO_32 + minor)
  }

  const HTTP_1_1: Version := MakeVersion(1, 1)

  function VersionText(v: Version): string {
    Decimal(v.Major()) + "." + Decimal(v.Minor())
  }

  /** Each setter changes its own half only, and the two halves determine the version. */
  lemma VersionHalves(v: Version, major: nat, minor: nat)
    requires v.packed < TWO_64 && major < TWO_32 && minor < TWO_32
    ensures v.WithMajor(major).Major() == major && v.WithMajor(major).Minor() == v.Minor()
    ensures v.WithMinor(minor).Minor() == minor && v.WithMinor(minor).Major() == v.Major()
    ensures v.WithMajor(major).WithMinor(minor) == MakeVersion(major, minor)
    ensures MakeVersion(v.Major(), v.Minor()) == v
    ensures v.WithMajor(major).packed < TWO_64 && v.WithMinor(minor).packed < TWO_64
  {
    assert (v.packed % TWO_32 + major * TWO_32) % TWO_32 == v.packed % TWO_32;
    assert v.packed - v.packed % TWO_32 == v.packed / TWO_32 * TWO_32;
  }

  // ---- Field map ----

  datatype Field = Field(name: string, value: string)

  /** The contents of a `std::map` keyed by name, in the order it is iterated. */
  type Fields = seq<Field>

  ghost predicate Sorted(fields: Fields) {
    forall i, j :: 0 <= i < j < |fields| ==> StriCmp(fields[i].name, fields[j].name) < 0
  }

  ghost predicate ValidFields(fields: Fields) {
    Sorted(fields) &&
    forall i :: 0 <= i < |fields| ==> IsToken(fields[i].name) && IsFieldValue(fields[i].value)
  }

  /** A value met again under a known name: joined with a comma and a blank, unless empty. */
  function Combine(old_value: string, value: string): string {
    if value == [] then old_value else old_value + ", " + value
  }

  function Append(fields: Fields, name: string, value: string): Fields {
    if fields == [] || StriCmp(name, fields[0].name) < 0 then [Field(name, value)] + fields
    else if SameName(name, fields[0].name) then
      [fields[0].(value := Combine(fields[0].value, value))] + fields[1..]
    else [fields[0]] + Append(fields[1..], name, value)
  }

  function Lookup(fields: Fields, name: string): Option<Field> {
    if fields == [] then None
    else if SameName(name, fields[0].name) then Some(fields[0])
    else Lookup(fields[1..], name)
  }

  /** The size of the body that a header announces; no field at all means no body. */
  function ContentLength(fields: Fields): Option<nat> {
    match Lookup(fields, "Content-Length")
    case None => Some(0)
    case Some(f) => ToNumber(f.value, TWO_64)
  }

  datatype RequestLine = RequestLine(verb: string, target: string, version: Version)

  datatype RequestHeader = RequestHeader(line: RequestLine, fields: Fields)

  const EMPTY_HEADER := RequestHeader(RequestLine("", "", Version(0)), [])

  datatype ResponseHeader = ResponseHeader(version: Version, code: nat, reason: string, fields: Fields)

  const EMPTY_RESPONSE := ResponseHeader(Version(0), 0, "", [])

  /** As the source has it: 599 does not count as an error. */
  predicate IsError(code: nat) {
    400 <= code < 599
  }
}
