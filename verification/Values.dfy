/**
  JSON values and the text printed for them: what print_value and the printers
  below it return, as a function of the value, the depth and the layout.
 */
module Values {
  import opened Bytes
  import opened Literals

  datatype Json =
    | Null
    | False
    | True
    | Number(n: int)
    | String(s: seq<byte>)
    | Array(items: seq<Json>)
    | Object(members: seq<Member>)

  datatype Member = Member(key: seq<byte>, value: Json)

  predicate IsInt32(n: int) { -0x8000_0000 <= n < 0x8000_0000 }

  /** A value the C structure can hold: 32-bit numbers, NUL-free strings and keys. */
  predicate Valid(v: Json) {
    match v
    case Number(n) => IsInt32(n)
    case String(s) => NulFree(s)
    case Array(items) => ValidItems(items)
    case Object(members) => ValidMembers(members)
    case _ => true
  }

  predicate ValidItems(s: seq<Json>) {
    s == [] || (Valid(s[0]) && ValidItems(s[1..]))
  }

  predicate ValidMembers(s: seq<Member>) {
    s == [] || (NulFree(s[0].key) && Valid(s[0].value) && ValidMembers(s[1..]))
  }

  const NULL_TEXT: seq<byte> := [LOWER_N, LOWER_U, LOWER_L, LOWER_L]
  const FALSE_TEXT: seq<byte> := [LOWER_F, LOWER_A, LOWER_L, LOWER_S, LOWER_E]
  const TRUE_TEXT: seq<byte> := [LOWER_T, LOWER_R, LOWER_U, LOWER_E]

  /** Decimal digits, most significant first. */
  function Digits(n: nat): (s: seq<byte>)
    ensures |s| >= 1 && (n >= 1 ==> s[0] != ZERO)
    ensures forall i :: 0 <= i < |s| ==> ZERO <= s[i] <= NINE
  {
    if n < 10 then [ZERO + n] else Digits(n / 10) + [ZERO + n % 10]
  }

  /** The `%d` conversion. */
  function Decimal(n: int): (s: seq<byte>) {
    if n < 0 then [MINUS] + Digits(-n) else Digits(n)
  }

  /** Tabs, in the formatted layout only. */
  function Indent(n: int, fmt: bool): (s: seq<byte>)
    ensures |s| == if n < 0 || !fmt then 0 else n
    ensures forall i :: 0 <= i < |s| ==> s[i] == TAB
  {
    seq(if n < 0 || !fmt then 0 else n, _ => TAB)
  }

  function LineFeed(fmt: bool): (s: seq<byte>) {
    if fmt then [LF] else []
  }

  /** What separates the entries of an array. */
  function Separator(fmt: bool): seq<byte> {
    if fmt then [COMMA, SPACE] else [COMMA]
  }

  /** The text of a value printed at `depth`, formatted when `fmt`. */
  function Render(v: Json, depth: nat, fmt: bool): (r: seq<byte>)
    decreases v, 1
  {
    match v
    case Null => NULL_TEXT
    case False => FALSE_TEXT
    case True => TRUE_TEXT
    case Number(n) => Decimal(n)
    case String(s) => Quote(s)
    case Array(items) => [LBRACKET] + (RenderItems(items, depth + 1, fmt) + [RBRACKET])
    case Object(members) =>
      [LBRACE] + (LineFeed(fmt) + (RenderMembers(members, depth + 1, fmt)
      + (Indent(if members == [] then depth - 1 else depth, fmt) + [RBRACE])))
  }

  function RenderItems(s: seq<Json>, depth: nat, fmt: bool): (r: seq<byte>)
    decreases s, 0
  {
    if s == [] then []
    else if |s| == 1 then Render(s[0], depth, fmt)
    else Render(s[0], depth, fmt) + (Separator(fmt) + RenderItems(s[1..], depth, fmt))
  }

  /** One entry of an object, up to its comma. */
  function RenderMember(m: Member, depth: nat, fmt: bool): (r: seq<byte>)
    decreases m, 2
  {
    Indent(depth, fmt) + (Quote(m.key) + ([COLON] + (Indent(1, fmt) + Render(m.value, depth, fmt))))
  }

  function RenderMembers(s: seq<Member>, depth: nat, fmt: bool): (r: seq<byte>)
    decreases s, 0
  {
    if s == [] then []
    else
      RenderMember(s[0], depth, fmt)
      + ((if |s| > 1 then [COMMA] else []) + (LineFeed(fmt) + RenderMembers(s[1..], depth, fmt)))
  }
}
