/** A reader for JSON text by the grammar of RFC 8259, without insignificant whitespace, on code units. */
module JsonReader {
  import opened JsonValues
  import opened Options

  /** What was read, and what is left of the text. */
  datatype Read<T> = Read(value: T, rest: Text)

  // Numbers, section 6.

  /** No more of these can follow a number. */
  predicate IsNumberUnit(u: Unit) {
    || IsDigit(u) || u == Code('-') || u == Code('+') || u == Code('.') || u == Code('e') || u == Code('E')
  }

  function NumberLength(s: Text): (n: nat)
    ensures n <= |s|
  {
    if s == [] || !IsNumberUnit(s[0]) then 0 else 1 + NumberLength(s[1..])
  }

  // Strings, section 7.

  function HexValue(u: Unit): Option<nat> {
    if IsDigit(u) then Some(u - Code('0'))
    else if Code('a') <= u <= Code('f') then Some(u - Code('a') + 10)
    else if Code('A') <= u <= Code('F') then Some(u - Code('A') + 10)
    else None
  }

  /** The value of four hexadecimal digits. */
  function FourHex(s: Text): (value: Option<Unit>)
    ensures value.Some? ==> |s| >= 4
  {
    if |s| < 4 then None
    else
      match (HexValue(s[0]), HexValue(s[1]), HexValue(s[2]), HexValue(s[3]))
      case (Some(a), Some(b), Some(c), Some(d)) =>
        var value := 4096 * a + 256 * b + 16 * c + d;
        if value < 0x10000 then Some(value) else None
      case _ => None
  }

  /** The two-character escapes. */
  function ShortEscape(u: Unit): Option<Unit> {
    if u == Code('"') || u == Code('\\') || u == Code('/') then Some(u)
    else if u == Code('b') then Some(0x8)
    else if u == Code('f') then Some(0xc)
    else if u == Code('n') then Some(0xa)
    else if u == Code('r') then Some(0xd)
    else if u == Code('t') then Some(0x9)
    else None
  }

  /** One character of a string: the code units it stands for, two of them for a surrogate pair. */
  function ReadCharacter(s: Text): (r: Option<Read<Text>>)
    ensures r.Some? ==> |r.value.rest| < |s|
  {
    if s == [] || s[0] < 0x20 || Starts(s, '"') then None
    else if Starts(s, '\\') then
      if Starts(s[1..], 'u') then
        match FourHex(s[2..])
        case Some(u) => Some(Read([u], s[6..]))
        case None => None
      else if |s| == 1 then None
      else
        match ShortEscape(s[1])
        case Some(u) => Some(Read([u], s[2..]))
        case None => None
    else if IsHigh(s[0]) && |s| > 1 && IsLow(s[1]) then Some(Read(s[..2], s[2..]))
    else if IsHigh(s[0]) || IsLow(s[0]) then None
    else Some(Read(s[..1], s[1..]))
  }

  /** The characters up to the closing quote. */
  function ReadCharacters(s: Text): (r: Option<Read<Text>>)
    ensures r.Some? ==> |r.value.rest| < |s|
    decreases |s|
  {
    if Starts(s, '"') then Some(Read([], s[1..]))
    else
      match ReadCharacter(s)
      case None => None
      case Some(first) =>
        match ReadCharacters(first.rest)
        case None => None
        case Some(more) => Some(Read(first.value + more.value, more.rest))
  }

  // Values, sections 3 to 5.

  function ReadWord(s: Text, word: string, value: Json): (r: Option<Read<Json>>)
    requires word != "" && forall i :: 0 <= i < |word| ==> word[i] as int < 0x10000
    ensures r.Some? ==> |r.value.rest| < |s|
  {
    if |s| >= |word| && forall i :: 0 <= i < |word| ==> s[i] == Code(word[i]) then Some(Read(value, s[|word|..]))
    else None
  }

  function ReadNumber(s: Text): (r: Option<Read<Json>>)
    ensures r.Some? ==> |r.value.rest| < |s|
  {
    var n := NumberLength(s);
    if n > 0 && IsNumber(s[..n]) then Some(Read(Number(s[..n]), s[n..])) else None
  }

  function ReadValue(s: Text): (r: Option<Read<Json>>)
    ensures r.Some? ==> |r.value.rest| < |s|
    decreases |s|, 1
  {
    if Starts(s, '"') then
      match ReadCharacters(s[1..])
      case Some(t) => Some(Read(String(t.value), t.rest))
      case None => None
    else if Starts(s, '[') then
      if Starts(s[1..], ']') then Some(Read(Array([]), s[2..]))
      else
        match ReadItems(s[1..])
        case Some(items) => Some(Read(Array(items.value), items.rest))
        case None => None
    else if Starts(s, '{') then
      if Starts(s[1..], '}') then Some(Read(Object([]), s[2..]))
      else
        match ReadMembers(s[1..])
        case Some(members) => Some(Read(Object(members.value), members.rest))
        case None => None
    else if Starts(s, 'n') then ReadWord(s, "null", Null)
    else if Starts(s, 't') then ReadWord(s, "true", Bool(true))
    else if Starts(s, 'f') then ReadWord(s, "false", Bool(false))
    else ReadNumber(s)
  }

  /** One item or more, up to the closing bracket. */
  function ReadItems(s: Text): (r: Option<Read<seq<Json>>>)
    ensures r.Some? ==> |r.value.rest| < |s|
    decreases |s|, 2
  {
    match ReadValue(s)
    case None => None
    case Some(first) =>
      if Starts(first.rest, ']') then Some(Read([first.value], first.rest[1..]))
      else if Starts(first.rest, ',') then
        match ReadItems(first.rest[1..])
        case Some(more) => Some(Read([first.value] + more.value, more.rest))
        case None => None
      else None
  }

  function ReadMember(s: Text): (r: Option<Read<Member>>)
    ensures r.Some? ==> |r.value.rest| < |s|
    decreases |s|, 2
  {
    if !Starts(s, '"') then None
    else
      match ReadCharacters(s[1..])
      case None => None
      case Some(key) =>
        if !Starts(key.rest, ':') then None
        else
          match ReadValue(key.rest[1..])
          case Some(v) => Some(Read(Member(key.value, v.value), v.rest))
          case None => None
  }

  /** One member or more, up to the closing brace. */
  function ReadMembers(s: Text): (r: Option<Read<seq<Member>>>)
    ensures r.Some? ==> |r.value.rest| < |s|
    decreases |s|, 3
  {
    match ReadMember(s)
    case None => None
    case Some(first) =>
      if Starts(first.rest, '}') then Some(Read([first.value], first.rest[1..]))
      else if Starts(first.rest, ',') then
        match ReadMembers(first.rest[1..])
        case Some(more) => Some(Read([first.value] + more.value, more.rest))
        case None => None
      else None
  }

  /** a and b agree on k units; then a ends or has the smaller unit. */
  predicate Common(a: Text, b: Text, k: nat) {
    k <= |a| && k < |b| && a[..k] == b[..k] && (k < |a| ==> a[k] < b[k])
  }

  /** The order of code units, said without recursion. */
  ghost predicate Before(a: Text, b: Text) { exists k: nat :: Common(a, b, k) }

  /** A value as read back: keys in ascending order at every level, so none is there twice. */
  ghost predicate Ascending(v: Json) {
    match v
    case Array(items) => forall i :: 0 <= i < |items| ==> Ascending(items[i])
    case Object(members) =>
      && (forall i, j :: 0 <= i < j < |members| ==> Before(members[i].key, members[j].key))
      && (forall i :: 0 <= i < |members| ==> Ascending(members[i].value))
    case _ => true
  }
}
