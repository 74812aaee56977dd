/**
  What the parser accepts: for every text and start index, the value read and
  the index behind it, or the index of the error. This is the specification
  that the parsing methods of `Parser` are proved against.
 */
module Grammar {
  import opened Bytes
  import opened Literals
  import opened Values

  /** `Outside`: the text leaves the modelled fragment. A number has a fraction or an exponent or is no
      32-bit integer, or a string literal is not closed or has a malformed escape. */
  datatype Outcome<T> = Parsed(value: T, end: nat) | Failed(at: nat) | Outside

  predicate IsBlank(c: byte) { c != NUL && c <= SPACE }

  predicate IsDigit(c: byte) { ZERO <= c <= NINE }

  /** skip: the first index from `p` that holds no blank. */
  function Skip(t: seq<byte>, p: nat): (q: nat)
    requires p <= |t|
    ensures p <= q <= |t| && !IsBlank(At(t, q))
    decreases |t| - p
  {
    if IsBlank(At(t, p)) then Skip(t, p + 1) else p
  }

  /** The first index from `p` that holds no digit. */
  function DigitsEnd(t: seq<byte>, p: nat): (q: nat)
    requires p <= |t|
    ensures p <= q <= |t| && !IsDigit(At(t, q))
    ensures forall i :: p <= i < q ==> IsDigit(t[i])
    decreases |t| - p
  {
    if IsDigit(At(t, p)) then DigitsEnd(t, p + 1) else p
  }

  predicate AllDigits(s: seq<byte>) {
    forall i :: 0 <= i < |s| ==> IsDigit(s[i])
  }

  /** The number that a run of digits spells. */
  function Magnitude(s: seq<byte>): (n: nat)
    requires AllDigits(s)
  {
    if s == [] then 0
    else
      assert IsDigit(s[|s| - 1]);
      Magnitude(s[..|s| - 1]) * 10 + (s[|s| - 1] as int - 48)
  }

  /** Behind an optional sign and an optional zero. */
  function DigitsStart(t: seq<byte>, p: nat): (q: nat)
    requires p <= |t|
    ensures p <= q <= |t|
    ensures p < |t| && (t[p] == MINUS || t[p] == ZERO) ==> p < q
  {
    var signed := if At(t, p) == MINUS then p + 1 else p;
    if At(t, signed) == ZERO then signed + 1 else signed
  }

  /** Behind the digits that start at `p`, if they do not start with a zero. */
  function NumberEnd(t: seq<byte>, p: nat): (q: nat)
    requires p <= |t|
    ensures p <= q <= |t|
    ensures AllDigits(t[p..q])
  {
    if ONE <= At(t, p) <= NINE then DigitsEnd(t, p) else p
  }

  /** A sign, one zero, and digits that do not start with a zero, each optional. */
  function ReadNumber(t: seq<byte>, p: nat): (r: Outcome<int>)
    requires p <= |t|
    ensures r.Parsed? ==> p <= r.end <= |t| && IsInt32(r.value)
    ensures r.Parsed? && p < |t| && (t[p] == MINUS || IsDigit(t[p])) ==> p < r.end
    ensures !r.Failed?
  {
    var start := DigitsStart(t, p);
    var end := NumberEnd(t, start);
    var m: int := Magnitude(t[start..end]);
    var n := if At(t, p) == MINUS then -m else m;
    if (At(t, end) == DOT && IsDigit(At(t, end + 1))) || At(t, end) == LOWER_E || At(t, end) == UPPER_E
       || !IsInt32(n)
    then Outside
    else Parsed(n, end)
  }

  /** A literal at `p`, quotes included. */
  function ReadString(t: seq<byte>, p: nat): (r: Outcome<seq<byte>>)
    requires p <= |t|
    ensures r.Parsed? ==> p < r.end <= |t|
    ensures r.Failed? ==> r.at == p
  {
    if At(t, p) != QUOTE then Failed(p)
    else if Lex(t, p + 1).Closed? then Parsed(Text(t, p + 1), Lex(t, p + 1).end)
    else Outside
  }

  function ReadValue(t: seq<byte>, p: nat): (r: Outcome<Json>)
    requires p <= |t|
    ensures r.Parsed? ==> p < r.end <= |t|
    ensures r.Failed? ==> p <= r.at <= |t|
    decreases |t| - p, 1
  {
    if Has(t, p, NULL_TEXT) then Parsed(Null, p + 4)
    else if Has(t, p, FALSE_TEXT) then Parsed(False, p + 5)
    else if Has(t, p, TRUE_TEXT) then Parsed(True, p + 4)
    else if At(t, p) == QUOTE then
      (match ReadString(t, p)
       case Parsed(s, e) => Parsed(String(s), e)
       case Failed(at) => Failed(at)
       case Outside => Outside)
    else if At(t, p) == MINUS || IsDigit(At(t, p)) then
      (match ReadNumber(t, p)
       case Parsed(n, e) => Parsed(Number(n), e)
       case _ => Outside)
    else if At(t, p) == LBRACKET then
      var q := Skip(t, p + 1);
      if At(t, q) == RBRACKET then Parsed(Array([]), q + 1)
      else
        (match ReadItems(t, q)
         case Parsed(items, e) => Parsed(Array(items), e)
         case Failed(at) => Failed(at)
         case Outside => Outside)
    else if At(t, p) == LBRACE then
      var q := Skip(t, p + 1);
      if At(t, q) == RBRACE then Parsed(Object([]), q + 1)
      else
        (match ReadMembers(t, q)
         case Parsed(members, e) => Parsed(Object(members), e)
         case Failed(at) => Failed(at)
         case Outside => Outside)
    else Failed(p)
  }

  /** The entries of an array from `p`, behind the bracket or a comma, to the closing bracket. */
  function ReadItems(t: seq<byte>, p: nat): (r: Outcome<seq<Json>>)
    requires p <= |t|
    ensures r.Parsed? ==> p < r.end <= |t| && r.value != []
    ensures r.Failed? ==> p <= r.at <= |t|
    decreases |t| - p, 2
  {
    match ReadValue(t, Skip(t, p))
    case Failed(at) => Failed(at)
    case Outside => Outside
    case Parsed(v, e) =>
      var q := Skip(t, e);
      if At(t, q) == COMMA then
        (match ReadItems(t, q + 1)
         case Parsed(rest, end) => Parsed([v] + rest, end)
         case Failed(at) => Failed(at)
         case Outside => Outside)
      else if At(t, q) == RBRACKET then Parsed([v], q + 1)
      else Failed(q)
  }

  /** One `key : value` entry of an object, from `p`, with the blanks behind it. */
  function ReadMember(t: seq<byte>, p: nat): (r: Outcome<Member>)
    requires p <= |t|
    ensures r.Parsed? ==> p < r.end <= |t|
    ensures r.Failed? ==> p <= r.at <= |t|
    decreases |t| - p, 2
  {
    match ReadString(t, Skip(t, p))
    case Failed(at) => Failed(at)
    case Outside => Outside
    case Parsed(key, k) =>
      var q := Skip(t, k);
      if At(t, q) != COLON then Failed(q)
      else
        (match ReadValue(t, Skip(t, q + 1))
         case Parsed(v, e) => Parsed(Member(key, v), Skip(t, e))
         case Failed(at) => Failed(at)
         case Outside => Outside)
  }

  function ReadMembers(t: seq<byte>, p: nat): (r: Outcome<seq<Member>>)
    requires p <= |t|
    ensures r.Parsed? ==> p < r.end <= |t| && r.value != []
    ensures r.Failed? ==> p <= r.at <= |t|
    decreases |t| - p, 3
  {
    match ReadMember(t, p)
    case Failed(at) => Failed(at)
    case Outside => Outside
    case Parsed(m, q) =>
      if At(t, q) == COMMA then
        (match ReadMembers(t, q + 1)
         case Parsed(rest, end) => Parsed([m] + rest, end)
         case Failed(at) => Failed(at)
         case Outside => Outside)
      else if At(t, q) == RBRACE then Parsed([m], q + 1)
      else Failed(q)
  }

  /** cJSON_ParseWithOpts: leading blanks, a value, and, when `whole`, nothing but blanks behind it. */
  function ReadText(t: seq<byte>, whole: bool): (r: Outcome<Json>)
    ensures r.Parsed? ==> 0 < r.end <= |t| && (whole ==> r.end == |t|)
    ensures r.Failed? ==> r.at <= |t|
  {
    match ReadValue(t, Skip(t, 0))
    case Failed(at) => Failed(at)
    case Outside => Outside
    case Parsed(v, e) =>
      if !whole then Parsed(v, e)
      else if Skip(t, e) < |t| then Failed(Skip(t, e))
      else Parsed(v, Skip(t, e))
  }

  // ----- What is read behind an opening bracket or brace

  lemma {:induction false} ArrayValue(t: seq<byte>, p: nat)
    requires p <= |t| && At(t, p) == LBRACKET
    ensures var q := Skip(t, p + 1);
            if At(t, q) == RBRACKET then ReadValue(t, p) == Parsed(Array([]), q + 1)
            else var r := ReadItems(t, q);
              && (r.Parsed? ==> ReadValue(t, p) == Parsed(Array(r.value), r.end))
              && (r.Failed? ==> ReadValue(t, p) == Failed(r.at))
              && (r.Outside? ==> ReadValue(t, p).Outside?)
  {
    hide ReadItems, Skip, Has;
    HasNot(t, p, NULL_TEXT);
    HasNot(t, p, FALSE_TEXT);
    HasNot(t, p, TRUE_TEXT);
  }

  lemma ObjectValue(t: seq<byte>, p: nat)
    requires p <= |t| && At(t, p) == LBRACE
    ensures var q := Skip(t, p + 1);
            if At(t, q) == RBRACE then ReadValue(t, p) == Parsed(Object([]), q + 1)
            else var r := ReadMembers(t, q);
              && (r.Parsed? ==> ReadValue(t, p) == Parsed(Object(r.value), r.end))
              && (r.Failed? ==> ReadValue(t, p) == Failed(r.at))
              && (r.Outside? ==> ReadValue(t, p).Outside?)
  {
    hide ReadMembers, Skip, Has;
    HasNot(t, p, NULL_TEXT);
    HasNot(t, p, FALSE_TEXT);
    HasNot(t, p, TRUE_TEXT);
  }

  /** Everything read is a value the C structure can hold. */
  lemma {:induction false} ReadValueIsValid(t: seq<byte>, p: nat)
    requires p <= |t| && NulFree(t) && ReadValue(t, p).Parsed?
    ensures Valid(ReadValue(t, p).value)
    decreases |t| - p, 1
  {
    if Has(t, p, NULL_TEXT) || Has(t, p, FALSE_TEXT) || Has(t, p, TRUE_TEXT) {
    } else if At(t, p) == QUOTE {
      TextNulFree(t, p + 1);
    } else if At(t, p) == LBRACKET && At(t, Skip(t, p + 1)) != RBRACKET {
      ReadItemsIsValid(t, Skip(t, p + 1));
    } else if At(t, p) == LBRACE && At(t, Skip(t, p + 1)) != RBRACE {
      ReadMembersIsValid(t, Skip(t, p + 1));
    }
  }

  lemma {:induction false} ReadItemsIsValid(t: seq<byte>, p: nat)
    requires p <= |t| && NulFree(t) && ReadItems(t, p).Parsed?
    ensures ValidItems(ReadItems(t, p).value)
    decreases |t| - p, 2
  {
    hide ReadValue, Valid, Skip;
    ReadValueIsValid(t, Skip(t, p));
    var v := ReadValue(t, Skip(t, p));
    var q := Skip(t, v.end);
    if At(t, q) == COMMA {
      ReadItemsIsValid(t, q + 1);
      assert ReadItems(t, p).value[1..] == ReadItems(t, q + 1).value;
    }
  }

  lemma {:induction false} ReadMembersIsValid(t: seq<byte>, p: nat)
    requires p <= |t| && NulFree(t) && ReadMembers(t, p).Parsed?
    ensures ValidMembers(ReadMembers(t, p).value)
    decreases |t| - p, 2
  {
    hide ReadValue, Valid, Skip;
    var k := ReadString(t, Skip(t, p));
    TextNulFree(t, Skip(t, p) + 1);
    ReadValueIsValid(t, Skip(t, Skip(t, k.end) + 1));
    var m := ReadMember(t, p);
    if At(t, m.end) == COMMA {
      ReadMembersIsValid(t, m.end + 1);
      assert ReadMembers(t, p).value[1..] == ReadMembers(t, m.end + 1).value;
    }
  }
}
