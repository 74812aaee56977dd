/**
  A grammar of JSON texts that does not mention a parser: what a text is made
  of, how that is spelled, and what it stands for. `Loose` says which texts
  parse_value takes, and `Strict` which of them conform to RFC 8259.
 */
module Syntax {
  import opened Bytes
  import opened Utf
  import opened Literals
  import opened Values
  import opened Grammar

  /** Inside a literal: a byte, a backslash and a byte, or a backslash, a `u` and hexadecimal digits. */
  datatype Mark = Raw(b: byte) | Short(b: byte) | Code(digits: seq<byte>)

  /** `lead` are the blanks in an empty array or object. */
  datatype Phrase =
    | NullWord
    | FalseWord
    | TrueWord
    | Numeral(minus: bool, zero: bool, digits: seq<byte>)
    | Quoted(marks: seq<Mark>)
    | Listed(lead: seq<byte>, items: seq<Item>)
    | Braced(lead: seq<byte>, fields: seq<Field>)

  /** A value with the blanks around it. */
  datatype Item = Item(before: seq<byte>, phrase: Phrase, after: seq<byte>)

  /** A key with the blanks around it, and a value. */
  datatype Field = Field(before: seq<byte>, key: seq<Mark>, mid: seq<byte>, item: Item)

  // ----- How it is spelled

  function SpellMark(m: Mark): (s: seq<byte>)
    ensures |s| >= 1
  {
    match m
    case Raw(b) => [b]
    case Short(b) => [BACKSLASH, b]
    case Code(digits) => [BACKSLASH, LOWER_U] + digits
  }

  function SpellMarks(ms: seq<Mark>): seq<byte> {
    if ms == [] then [] else SpellMark(ms[0]) + SpellMarks(ms[1..])
  }

  function SpellQuoted(ms: seq<Mark>): (s: seq<byte>)
    ensures |s| >= 2 && s[0] == QUOTE
  {
    [QUOTE] + (SpellMarks(ms) + [QUOTE])
  }

  function Spell(p: Phrase): seq<byte>
    decreases p, 1
  {
    match p
    case NullWord => NULL_TEXT
    case FalseWord => FALSE_TEXT
    case TrueWord => TRUE_TEXT
    case Numeral(minus, zero, digits) => (if minus then [MINUS] else []) + ((if zero then [ZERO] else []) + digits)
    case Quoted(marks) => SpellQuoted(marks)
    case Listed(lead, items) => [LBRACKET] + (lead + (SpellItems(items) + [RBRACKET]))
    case Braced(lead, fields) => [LBRACE] + (lead + (SpellFields(fields) + [RBRACE]))
  }

  function SpellItem(i: Item): seq<byte>
    decreases i, 2
  {
    i.before + (Spell(i.phrase) + i.after)
  }

  function SpellItems(s: seq<Item>): seq<byte>
    decreases s, 0
  {
    if s == [] then [] else SpellItem(s[0]) + (if |s| == 1 then [] else [COMMA] + SpellItems(s[1..]))
  }

  function SpellField(f: Field): seq<byte>
    decreases f, 3
  {
    f.before + (SpellQuoted(f.key) + (f.mid + ([COLON] + SpellItem(f.item))))
  }

  function SpellFields(s: seq<Field>): seq<byte>
    decreases s, 0
  {
    if s == [] then [] else SpellField(s[0]) + (if |s| == 1 then [] else [COMMA] + SpellFields(s[1..]))
  }

  // ----- Which texts are taken

  predicate Blanks(s: seq<byte>) {
    forall i :: 0 <= i < |s| ==> IsBlank(s[i])
  }

  predicate LooseMark(m: Mark) {
    match m
    case Raw(b) => b !in {NUL, QUOTE, BACKSLASH}
    case Short(b) => b !in {NUL, LOWER_U}
    case Code(digits) => |digits| == 4 && HasHex4(digits, 0)
  }

  predicate LooseMarks(ms: seq<Mark>) {
    forall i :: 0 <= i < |ms| ==> LooseMark(ms[i])
  }

  function NumberOf(minus: bool, digits: seq<byte>): int
    requires AllDigits(digits)
  {
    if minus then -(Magnitude(digits) as int) else Magnitude(digits)
  }

  /** A sign, one zero, and digits that do not start with a zero; something has to be there. */
  predicate Numeric(minus: bool, zero: bool, digits: seq<byte>) {
    (minus || zero || digits != []) && AllDigits(digits) && (digits != [] ==> digits[0] != ZERO)
  }

  /** Integers of 32 bits only: texts with other numbers are not part of this grammar. */
  predicate Loose(p: Phrase)
    decreases p, 1
  {
    match p
    case Numeral(minus, zero, digits) => Numeric(minus, zero, digits) && IsInt32(NumberOf(minus, digits))
    case Quoted(marks) => LooseMarks(marks)
    case Listed(lead, items) => Blanks(lead) && (items == [] || lead == []) && LooseItems(items)
    case Braced(lead, fields) => Blanks(lead) && (fields == [] || lead == []) && LooseFields(fields)
    case _ => true
  }

  predicate LooseItem(i: Item)
    decreases i, 2
  {
    Blanks(i.before) && Loose(i.phrase) && Blanks(i.after)
  }

  predicate LooseItems(s: seq<Item>)
    decreases s, 0
  {
    s == [] || (LooseItem(s[0]) && LooseItems(s[1..]))
  }

  predicate LooseField(f: Field)
    decreases f, 3
  {
    Blanks(f.before) && LooseMarks(f.key) && Blanks(f.mid) && LooseItem(f.item)
  }

  predicate LooseFields(s: seq<Field>)
    decreases s, 0
  {
    s == [] || (LooseField(s[0]) && LooseFields(s[1..]))
  }

  // ----- What it stands for

  function TokenOf(m: Mark): Token
    requires LooseMark(m)
  {
    match m
    case Raw(b) => Plain(b)
    case Short(b) => Plain(Named(b))
    case Code(digits) => Unit16(Unit(digits, 0))
  }

  function TokensOf(ms: seq<Mark>): (k: seq<Token>)
    requires LooseMarks(ms)
    ensures |k| == |ms|
    ensures forall i :: 0 <= i < |k| && k[i].Unit16? ==> k[i].u < 0x10000
  {
    if ms == [] then [] else [TokenOf(ms[0])] + TokensOf(ms[1..])
  }

  function StringOf(ms: seq<Mark>): seq<byte>
    requires LooseMarks(ms)
  {
    Meaning(TokensOf(ms))
  }

  function ValueOf(p: Phrase): Json
    requires Loose(p)
    decreases p, 1
  {
    match p
    case NullWord => Null
    case FalseWord => False
    case TrueWord => True
    case Numeral(minus, zero, digits) => Number(NumberOf(minus, digits))
    case Quoted(marks) => String(StringOf(marks))
    case Listed(_, items) => Array(ValuesOf(items))
    case Braced(_, fields) => Object(MembersOf(fields))
  }

  function ValuesOf(s: seq<Item>): (r: seq<Json>)
    requires LooseItems(s)
    ensures |r| == |s|
    decreases s, 0
  {
    if s == [] then []
    else
      assert LooseItem(s[0]);
      [ValueOf(s[0].phrase)] + ValuesOf(s[1..])
  }

  function MemberOf(f: Field): Member
    requires LooseField(f)
    decreases f, 3
  {
    assert LooseItem(f.item);
    Member(StringOf(f.key), ValueOf(f.item.phrase))
  }

  function MembersOf(s: seq<Field>): (r: seq<Member>)
    requires LooseFields(s)
    ensures |r| == |s|
    decreases s, 0
  {
    if s == [] then [] else [MemberOf(s[0])] + MembersOf(s[1..])
  }

  // ----- Which texts conform to RFC 8259

  /** Section 2 of RFC 8259: insignificant white space. */
  predicate Spaces(s: seq<byte>) {
    forall i :: 0 <= i < |s| ==> s[i] in {SPACE, TAB, LF, CR}
  }

  /** Section 7 of RFC 8259: no control character stands for itself, and eight characters can be escaped. */
  predicate StrictMark(m: Mark) {
    match m
    case Raw(b) => b >= SPACE && b !in {QUOTE, BACKSLASH}
    case Short(b) => b in {QUOTE, BACKSLASH, SLASH, LOWER_B, LOWER_F, LOWER_N, LOWER_R, LOWER_T}
    case Code(digits) => |digits| == 4 && HasHex4(digits, 0)
  }

  /** A sequence of characters in UTF-8. */
  ghost predicate Utf8(s: seq<byte>)
    decreases |s|
  {
    s == [] || exists n :: 1 <= n <= |s| && WellFormed(s[..n]) && Utf8(s[n..])
  }

  ghost predicate StrictMarks(ms: seq<Mark>) {
    (forall i :: 0 <= i < |ms| ==> StrictMark(ms[i])) && Utf8(SpellMarks(ms))
  }

  /** Sections 3 to 6 of RFC 8259, for integers of 32 bits. A number is a zero or has no leading zero. */
  ghost predicate Strict(p: Phrase)
    decreases p, 1
  {
    match p
    case Numeral(minus, zero, digits) =>
      && (zero <==> digits == []) && AllDigits(digits) && (digits != [] ==> digits[0] != ZERO)
      && IsInt32(NumberOf(minus, digits))
    case Quoted(marks) => StrictMarks(marks)
    case Listed(lead, items) => Spaces(lead) && (items == [] || lead == []) && StrictItems(items)
    case Braced(lead, fields) => Spaces(lead) && (fields == [] || lead == []) && StrictFields(fields)
    case _ => true
  }

  ghost predicate StrictItem(i: Item)
    decreases i, 2
  {
    Spaces(i.before) && Strict(i.phrase) && Spaces(i.after)
  }

  ghost predicate StrictItems(s: seq<Item>)
    decreases s, 0
  {
    s == [] || (StrictItem(s[0]) && StrictItems(s[1..]))
  }

  ghost predicate StrictField(f: Field)
    decreases f, 3
  {
    Spaces(f.before) && StrictMarks(f.key) && Spaces(f.mid) && StrictItem(f.item)
  }

  ghost predicate StrictFields(s: seq<Field>)
    decreases s, 0
  {
    s == [] || (StrictField(s[0]) && StrictFields(s[1..]))
  }

  lemma {:induction false} StrictIsLoose(p: Phrase)
    requires Strict(p)
    ensures Loose(p)
    decreases p, 1
  {
    match p
    case Listed(_, items) => StrictItemsAreLoose(items);
    case Braced(_, fields) => StrictFieldsAreLoose(fields);
    case _ =>
  }

  lemma {:induction false} StrictItemsAreLoose(s: seq<Item>)
    requires StrictItems(s)
    ensures LooseItems(s)
    decreases s, 0
  {
    if s != [] {
      assert StrictItem(s[0]);
      StrictIsLoose(s[0].phrase);
      StrictItemsAreLoose(s[1..]);
    }
  }

  lemma {:induction false} StrictFieldsAreLoose(s: seq<Field>)
    requires StrictFields(s)
    ensures LooseFields(s)
    decreases s, 0
  {
    if s != [] {
      assert StrictField(s[0]) && StrictItem(s[0].item);
      StrictIsLoose(s[0].item.phrase);
      StrictFieldsAreLoose(s[1..]);
    }
  }
}
