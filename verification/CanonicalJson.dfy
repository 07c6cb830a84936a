/** The canonical text that content addresses are computed from. */
module CanonicalJson {
  import opened Arithmetic
  import opened JsonValues

  const QUOTE: Unit := 0x22
  const BACKSLASH: Unit := 0x5c
  const COMMA: Unit := 0x2c
  const COLON: Unit := 0x3a
  const OPEN_BRACKET: Unit := 0x5b
  const CLOSE_BRACKET: Unit := 0x5d
  const OPEN_BRACE: Unit := 0x7b
  const CLOSE_BRACE: Unit := 0x7d
  const NULL_TEXT: Text := [0x6e, 0x75, 0x6c, 0x6c]
  const TRUE_TEXT: Text := [0x74, 0x72, 0x75, 0x65]
  const FALSE_TEXT: Text := [0x66, 0x61, 0x6c, 0x73, 0x65]

  // JSON.stringify on strings.

  function HexDigit(d: nat): Unit
    requires d < 16
  {
    if d < 10 then 0x30 + d else 0x61 + d - 10
  }

  /** Backslash, u and four lower-case hexadecimal digits. */
  function UnicodeEscape(u: Unit): Text {
    [BACKSLASH, 0x75, HexDigit(u / 4096), HexDigit(u / 256 % 16), HexDigit(u / 16 % 16), HexDigit(u % 16)]
  }

  function EscapeUnit(u: Unit): Text {
    if u == QUOTE || u == BACKSLASH then [BACKSLASH, u]
    else if u == 0x08 then [BACKSLASH, 0x62]
    else if u == 0x0c then [BACKSLASH, 0x66]
    else if u == 0x0a then [BACKSLASH, 0x6e]
    else if u == 0x0d then [BACKSLASH, 0x72]
    else if u == 0x09 then [BACKSLASH, 0x74]
    else if u < 0x20 || IsHigh(u) || IsLow(u) then UnicodeEscape(u)
    else [u]
  }

  /** A surrogate pair stays as it is, an unpaired surrogate is escaped. */
  function Escape(t: Text): Text {
    if t == [] then []
    else if |t| > 1 && IsHigh(t[0]) && IsLow(t[1]) then t[..2] + Escape(t[2..])
    else EscapeUnit(t[0]) + Escape(t[1..])
  }

  function Quote(t: Text): Text { [QUOTE] + Escape(t) + [QUOTE] }

  // Members in key order, undefined ones dropped.

  /** The order of JavaScript's < on strings. */
  predicate Less(a: Text, b: Text) {
    b != [] && (a == [] || a[0] < b[0] || (a[0] == b[0] && Less(a[1..], b[1..])))
  }

  function Defined(members: seq<Member>): (r: seq<Member>)
    ensures forall m :: m in r <==> m in members && !m.value.Undefined?
  {
    if members == [] then []
    else if members[0].value.Undefined? then Defined(members[1..])
    else [members[0]] + Defined(members[1..])
  }

  function Insert(m: Member, sorted: seq<Member>): (r: seq<Member>)
    ensures forall n :: n in r <==> n == m || n in sorted
  {
    if sorted == [] then [m]
    else if Less(m.key, sorted[0].key) then [m] + sorted
    else [sorted[0]] + Insert(m, sorted[1..])
  }

  function Sort(members: seq<Member>): (r: seq<Member>)
    ensures forall n :: n in r <==> n in members
  {
    if members == [] then [] else Insert(members[0], Sort(members[1..]))
  }

  // How deep a value nests, which bounds the recursion through the sorted members.

  function Height(v: Json): (h: nat)
    decreases v, 0
  {
    match v
    case Array(items) => 1 + ItemsHeight(items)
    case Object(members) => 1 + MembersHeight(members)
    case _ => 0
  }

  function ItemsHeight(items: seq<Json>): (h: nat)
    ensures forall i :: 0 <= i < |items| ==> Height(items[i]) <= h
    decreases items, 0
  {
    if items == [] then 0 else Max(Height(items[0]), ItemsHeight(items[1..]))
  }

  function MembersHeight(members: seq<Member>): (h: nat)
    ensures forall m :: m in members ==> Height(m.value) <= h
    decreases members, 0
  {
    if members == [] then 0 else Max(Height(members[0].value), MembersHeight(members[1..]))
  }

  lemma {:induction false} SubsetHeight(some: seq<Member>, h: nat)
    requires forall m :: m in some ==> Height(m.value) <= h
    ensures MembersHeight(some) <= h
  {
    if some != [] {
      SubsetHeight(some[1..], h);
    }
  }

  // canonicalJson

  function SortedMembers(members: seq<Member>): (r: seq<Member>)
    ensures MembersHeight(r) <= MembersHeight(members)
  {
    SubsetHeight(Sort(Defined(members)), MembersHeight(members));
    Sort(Defined(members))
  }

  function Canonical(v: Json): Text
    decreases Height(v), 0, 0
  {
    match v
    case Undefined => NULL_TEXT
    case Null => NULL_TEXT
    case NonFinite => NULL_TEXT
    case Bool(b) => if b then TRUE_TEXT else FALSE_TEXT
    case Number(t) => t
    case String(t) => Quote(t)
    case Array(items) => [OPEN_BRACKET] + ItemsText(items) + [CLOSE_BRACKET]
    case Object(members) => [OPEN_BRACE] + MembersText(SortedMembers(members)) + [CLOSE_BRACE]
  }

  /** The items' texts, joined by commas. */
  function ItemsText(items: seq<Json>): Text
    decreases ItemsHeight(items), 1, |items|
  {
    if items == [] then [] else Canonical(items[0]) + MoreItems(items[1..])
  }

  function MoreItems(items: seq<Json>): Text
    decreases ItemsHeight(items), 1, |items|
  {
    if items == [] then [] else [COMMA] + Canonical(items[0]) + MoreItems(items[1..])
  }

  function MemberText(m: Member): Text
    decreases Height(m.value), 1, 0
  {
    Quote(m.key) + [COLON] + Canonical(m.value)
  }

  function MembersText(members: seq<Member>): Text
    decreases MembersHeight(members), 1, |members|
  {
    if members == [] then [] else MemberText(members[0]) + MoreMembers(members[1..])
  }

  function MoreMembers(members: seq<Member>): Text
    decreases MembersHeight(members), 1, |members|
  {
    if members == [] then [] else [COMMA] + MemberText(members[0]) + MoreMembers(members[1..])
  }
}
