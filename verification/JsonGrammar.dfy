/** The language the parser of src/jsontype/details/jsontype.cpp accepts, as functions from a text and a cursor
    to a value and a new cursor.  Reading at or past the end of the text yields the terminating NUL. */
module JsonGrammar {

  /** A double is the text that strtod converts. */
  datatype Json =
    | Null
    | Bool(b: bool)
    | Int(i: int)
    | Double(text: string)
    | Str(s: string)
    | List(items: seq<Json>)
    | Dict(entries: map<string, Json>)

  /** Fail: the source returns NULL.  Stuck: a loop of the source never ends, its cursor staying at `at`. */
  datatype Parsed<+T> = Ok(value: T, pos: nat) | Fail | Stuck(at: nat)

  function At(s: string, p: nat): char { if p < |s| then s[p] else '\0' }

  predicate IsBlank(c: char) { c == '\n' || c == '\t' || c == ' ' }

  predicate IsDigit(c: char) { '0' <= c <= '9' }

  /** IgnoreBlanks_ */
  function SkipBlanks(s: string, p: nat): (q: nat)
    requires p <= |s|
    ensures p <= q <= |s| && !IsBlank(At(s, q))
    ensures !IsBlank(At(s, p)) ==> q == p
    decreases |s| - p
  {
    if IsBlank(At(s, p)) then SkipBlanks(s, p + 1) else p
  }

  predicate Matches(s: string, p: nat, word: string) {
    p + |word| <= |s| && s[p .. p + |word|] == word
  }

  // ----- Numbers -----

  const INT_MAX: int := 0x7FFF_FFFF_FFFF_FFFF
  const INT_MIN: int := -0x8000_0000_0000_0000

  function Digit(c: char): int
    requires IsDigit(c)
  {
    c as int - '0' as int
  }

  function DigitsEnd(s: string, p: nat): (q: nat)
    requires p <= |s|
    ensures p <= q <= |s| && !IsDigit(At(s, q)) && forall i :: p <= i < q ==> IsDigit(s[i])
    decreases |s| - p
  {
    if IsDigit(At(s, p)) then DigitsEnd(s, p + 1) else p
  }

  /** The number written by a sequence of digits. */
  function DigitsValue(d: string): nat
    requires forall i :: 0 <= i < |d| ==> IsDigit(d[i])
  {
    if d == [] then 0 else DigitsValue(d[..|d| - 1]) * 10 + Digit(d[|d| - 1])
  }

  function Clamp(n: int): int { if n > INT_MAX then INT_MAX else if n < INT_MIN then INT_MIN else n }

  /** A minus sign that strtol does not take for the beginning of a number. */
  predicate LoneMinus(s: string, p: nat) { At(s, p) == '-' && !IsDigit(At(s, p + 1)) }

  /** Where strtod stops that has come to the decimal point at dot: behind the fraction, and behind the exponent
      if there is a whole one. */
  function DoubleEnd(s: string, dot: nat): (q: nat)
    requires dot < |s|
    ensures dot < q <= |s|
  {
    var e := DigitsEnd(s, dot + 1);
    if At(s, e) != 'e' && At(s, e) != 'E' then e
    else
      var digits := if At(s, e + 1) == '+' || At(s, e + 1) == '-' then e + 2 else e + 1;
      if IsDigit(At(s, digits)) then DigitsEnd(s, digits) else e
  }

  /** strtol in base 10: it saturates; with no digits it returns 0 and leaves the cursor where it is. */
  function StrToL(s: string, p: nat): (r: (int, nat))
    requires p < |s| && (IsDigit(s[p]) || s[p] == '-')
    ensures p <= r.1 <= |s| && (r.1 == p <==> LoneMinus(s, p))
  {
    if LoneMinus(s, p) then (0, p)
    else
      var start := if s[p] == '-' then p + 1 else p;
      var end := DigitsEnd(s, start);
      var n: int := DigitsValue(s[start..end]);
      (Clamp(if s[p] == '-' then -n else n), end)
  }

  /** ReadInDigits_ */
  function ReadDigits(s: string, p: nat): (r: Parsed<Json>)
    requires p < |s| && (IsDigit(s[p]) || s[p] == '-')
    ensures r.Ok? && p <= r.pos <= |s| && (r.pos == p <==> LoneMinus(s, p))
  {
    var (l, end) := StrToL(s, p);
    if At(s, end) == '.' then Ok(Double(s[p .. DoubleEnd(s, end)]), DoubleEnd(s, end)) else Ok(Int(l), end)
  }

  // ----- Strings -----

  /** The loop of ReadinStrRaw_ stops at the end of the text, or at a quote that is not behind a backslash of
      the string. */
  predicate StopsString(s: string, start: nat, i: nat)
    requires start <= i
  {
    At(s, i) == '\0' || (At(s, i) == '"' && (i == start || At(s, i - 1) != '\\'))
  }

  function StringEnd(s: string, start: nat, q: nat): (e: nat)
    requires start <= q <= |s|
    ensures q <= e <= |s| && StopsString(s, start, e)
    ensures forall i :: q <= i < e ==> !StopsString(s, start, i)
    decreases |s| - q
  {
    if StopsString(s, start, q) then q else StringEnd(s, start, q + 1)
  }

  /** ReadinStrRaw_ */
  function ReadRaw(s: string, p: nat): (r: Parsed<string>)
    requires p <= |s|
    ensures r.Ok? ==> p + 1 < r.pos <= |s|
    ensures r.Ok? || r == Fail
  {
    if At(s, p) != '"' then Fail
    else
      var e := StringEnd(s, p + 1, p + 1);
      if At(s, e) == '\0' then Fail else Ok(s[p + 1 .. e], e + 1)
  }

  // ----- Values -----

  function ParseValue(s: string, p: nat): (r: Parsed<Json>)
    requires p <= |s|
    ensures r.Ok? ==> p <= r.pos <= |s|
    decreases |s| - p, 0
  {
    var q := SkipBlanks(s, p);
    var c := At(s, q);
    if c == 'n' then if Matches(s, q, "null") then Ok(Null, q + 4) else Fail
    else if c == 't' then if Matches(s, q, "true") then Ok(Bool(true), q + 4) else Fail
    else if c == 'f' then if Matches(s, q, "false") then Ok(Bool(false), q + 5) else Fail
    else if c == '"' then
      match ReadRaw(s, q) { case Ok(str, e) => Ok(Str(str), e) case _ => Fail }
    else if c == '[' then
      var first := SkipBlanks(s, q + 1);
      if At(s, first) == '\0' then Fail else ListFrom(s, first, [])
    else if c == '{' then
      var first := SkipBlanks(s, q + 1);
      if At(s, first) == '\0' then Fail else DictFrom(s, first, map[])
    else if IsDigit(c) || c == '-' then ReadDigits(s, q)
    else Fail
  }

  /** Behind an element: blanks, and one comma if there is one. */
  function AfterElement(s: string, p: nat): (q: nat)
    requires p <= |s|
    ensures p <= q <= |s|
  {
    var e := SkipBlanks(s, p);
    if At(s, e) == ',' then e + 1 else e
  }

  /** The loop of ReadinList_, with the elements read so far. */
  function ListFrom(s: string, p: nat, items: seq<Json>): (r: Parsed<Json>)
    requires p <= |s|
    ensures r.Ok? ==> p < r.pos <= |s|
    decreases |s| - p, 1
  {
    if At(s, p) == ']' then Ok(List(items), p + 1)
    else if At(s, p) == '\0' then Fail
    else
      match ParseValue(s, SkipBlanks(s, p))
      case Fail => Fail
      case Stuck(at) => Stuck(at)
      case Ok(v, e) =>
        var next := AfterElement(s, e);
        if next == p then Stuck(p) else ListFrom(s, next, items + [v])
  }

  /** ReadDictPair_ */
  function ReadPair(s: string, p: nat): (r: Parsed<(string, Json)>)
    requires p <= |s|
    ensures r.Ok? ==> p < r.pos <= |s|
    decreases |s| - p, 0
  {
    match ReadRaw(s, p)
    case Ok(key, e) =>
      if key == "" then Fail
      else
        var colon := SkipBlanks(s, e);
        if At(s, colon) != ':' then Fail
        else
          (match ParseValue(s, SkipBlanks(s, colon + 1))
           case Fail => Fail
           case Stuck(at) => Stuck(at)
           case Ok(v, q) => Ok((key, v), q))
    case _ => Fail
  }

  /** unordered_map::insert: an entry that is there stays. */
  function InsertNew(entries: map<string, Json>, key: string, v: Json): map<string, Json> {
    if key in entries then entries else entries[key := v]
  }

  /** The loop of ReadinDict_, with the entries read so far. */
  function DictFrom(s: string, p: nat, entries: map<string, Json>): (r: Parsed<Json>)
    requires p <= |s|
    ensures r.Ok? ==> p < r.pos <= |s|
    decreases |s| - p, 1
  {
    if At(s, p) == '}' then Ok(Dict(entries), p + 1)
    else if At(s, p) == '\0' then Fail
    else
      match ReadPair(s, SkipBlanks(s, p))
      case Fail => Fail
      case Stuck(at) => Stuck(at)
      case Ok(pair, e) => DictFrom(s, AfterElement(s, e), InsertNew(entries, pair.0, pair.1))
  }
}
