/** JSON values as the caller holds them, on UTF-16 code units as JavaScript strings are, and what they mean. */
module JsonValues {
  type Unit = u: int | 0 <= u < 0x10000
  type Text = seq<Unit>

  function Code(c: char): (u: Unit)
    requires c as int < 0x10000
  {
    c as int
  }

  predicate Starts(s: Text, c: char)
    requires c as int < 0x10000
  {
    s != [] && s[0] == Code(c)
  }

  // Surrogates, so that unpaired ones are covered.

  predicate IsHigh(u: Unit) { 0xd800 <= u <= 0xdbff }
  predicate IsLow(u: Unit) { 0xdc00 <= u <= 0xdfff }

  // How a finite number may be spelled: section 6 of RFC 8259.

  predicate IsDigit(u: Unit) { Code('0') <= u <= Code('9') }

  function Digits(s: Text): (n: nat)
    ensures n <= |s| && forall i :: 0 <= i < n ==> IsDigit(s[i])
  {
    if s == [] || !IsDigit(s[0]) then 0 else 1 + Digits(s[1..])
  }

  predicate IsExponent(s: Text) {
    || s == []
    || ((Starts(s, 'e') || Starts(s, 'E'))
        && var digits := s[(if Starts(s[1..], '+') || Starts(s[1..], '-') then 2 else 1)..];
           digits != [] && Digits(digits) == |digits|)
  }

  predicate IsFraction(s: Text) {
    if Starts(s, '.') then Digits(s[1..]) > 0 && IsExponent(s[1 + Digits(s[1..])..]) else IsExponent(s)
  }

  predicate IsUnsigned(s: Text) {
    Digits(s) > 0 && (Starts(s, '0') ==> Digits(s) == 1) && IsFraction(s[Digits(s)..])
  }

  predicate IsNumber(s: Text) { IsUnsigned(if Starts(s, '-') then s[1..] else s) }

  // Values.

  /** A finite number is given by the text JSON.stringify spells it with. */
  type Spelling = t: Text | IsNumber(t) witness [0x30]

  datatype Json =
    | Undefined
    | Null
    | Bool(b: bool)
    | NonFinite
    | Number(spelling: Spelling)
    | String(text: Text)
    | Array(items: seq<Json>)
    | Object(members: seq<Member>)

  datatype Member = Member(key: Text, value: Json)

  predicate DistinctKeys(members: seq<Member>) {
    forall i, j :: 0 <= i < j < |members| ==> members[i].key != members[j].key
  }

  /** Property names are unique at every level, as in every JavaScript object. */
  predicate Valid(v: Json) {
    match v
    case Array(items) => forall i :: 0 <= i < |items| ==> Valid(items[i])
    case Object(members) => DistinctKeys(members) && forall i :: 0 <= i < |members| ==> Valid(members[i].value)
    case _ => true
  }

  /** A value up to key order, members that are undefined, and undefined or non-finite as null. */
  datatype Meaning =
    | MNull
    | MBool(b: bool)
    | MNumber(spelling: Text)
    | MString(text: Text)
    | MArray(items: seq<Meaning>)
    | MObject(fields: map<Text, Meaning>)

  function MeaningOf(v: Json): Meaning
    decreases v, 0
  {
    match v
    case Undefined => MNull
    case Null => MNull
    case NonFinite => MNull
    case Bool(b) => MBool(b)
    case Number(t) => MNumber(t)
    case String(t) => MString(t)
    case Array(items) => MArray(MeaningOfItems(items))
    case Object(members) => MObject(MeaningOfMembers(members))
  }

  function MeaningOfItems(items: seq<Json>): (r: seq<Meaning>)
    decreases items, 0
  {
    if items == [] then [] else [MeaningOf(items[0])] + MeaningOfItems(items[1..])
  }

  function MeaningOfMembers(members: seq<Member>): map<Text, Meaning>
    decreases members, 0
  {
    if members == [] then map[]
    else
      var rest := MeaningOfMembers(members[1..]);
      if members[0].value.Undefined? then rest else rest[members[0].key := MeaningOf(members[0].value)]
  }
}
