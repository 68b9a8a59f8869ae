/** The texts the parser of src/jsontype/details/jsontype.cpp is to accept, written down without the parser: trees of
    tokens, blanks and commas, the text of a tree, and what it means. */
module JsonSyntax {
  import opened JsonGrammar
  import opened JsonPrinter

  /** What stands behind an element: blanks, perhaps a comma, and the blanks behind that. */
  datatype Sep = Sep(before: string, comma: bool, after: string)

  datatype Exp = NoExp | Exp(letter: char, sign: string, digits: string)

  datatype Tree =
    | TNull
    | TBool(b: bool)
    | TInt(neg: bool, digits: string)
    | TDouble(neg: bool, digits: string, fraction: string, exp: Exp)
    | TStr(s: string)
    | TList(open: string, items: seq<Item>)
    | TDict(open: string, entries: seq<Entry>)

  datatype Item = Item(tree: Tree, sep: Sep)

  datatype Entry = Entry(key: string, beforeColon: string, afterColon: string, tree: Tree, sep: Sep)

  // ----- Texts -----

  function Sign(neg: bool): string { if neg then "-" else "" }

  function ShowExp(exp: Exp): string {
    match exp
    case NoExp => ""
    case Exp(letter, sign, digits) => [letter] + sign + digits
  }

  function ShowDouble(neg: bool, digits: string, fraction: string, exp: Exp): string {
    Sign(neg) + digits + "." + fraction + ShowExp(exp)
  }

  function Comma(sep: Sep): string { if sep.comma then "," else "" }

  function ShowSep(sep: Sep): string { sep.before + Comma(sep) + sep.after }

  function Show(t: Tree): string {
    match t
    case TNull => "null"
    case TBool(b) => if b then "true" else "false"
    case TInt(neg, digits) => Sign(neg) + digits
    case TDouble(neg, digits, fraction, exp) => ShowDouble(neg, digits, fraction, exp)
    case TStr(s) => "\"" + s + "\""
    case TList(open, items) => "[" + open + ShowItems(items) + "]"
    case TDict(open, entries) => "{" + open + ShowEntries(entries) + "}"
  }

  function ShowItems(items: seq<Item>): string {
    if items == [] then "" else ShowItem(items[0]) + ShowSep(items[0].sep) + ShowItems(items[1..])
  }

  /** An element without what separates it from the next. */
  function ShowItem(i: Item): string { Show(i.tree) }

  /** An entry without what separates it from the next. */
  function ShowEntry(e: Entry): string {
    "\"" + e.key + "\"" + e.beforeColon + ":" + e.afterColon + Show(e.tree)
  }

  function ShowEntries(entries: seq<Entry>): string {
    if entries == [] then "" else ShowEntry(entries[0]) + ShowSep(entries[0].sep) + ShowEntries(entries[1..])
  }

  // ----- Which trees are in order -----

  /** The characters that count as blanks and as digits. */
  lemma CharClasses(c: char)
    ensures IsBlank(c) <==> c in "\n\t "
    ensures IsDigit(c) <==> c in "0123456789"
  {}

  predicate Blanks(b: string) { forall i :: 0 <= i < |b| ==> IsBlank(b[i]) }

  predicate Decimal(d: string) { forall i :: 0 <= i < |d| ==> IsDigit(d[i]) }

  predicate SepOk(sep: Sep) { Blanks(sep.before) && Blanks(sep.after) && (sep.comma || sep.after == "") }

  predicate ExpOk(exp: Exp) {
    match exp
    case NoExp => true
    case Exp(letter, sign, digits) =>
      && (letter == 'e' || letter == 'E') && (sign == "" || sign == "+" || sign == "-")
      && digits != "" && Decimal(digits)
  }

  predicate IsNumber(t: Tree) { t.TInt? || t.TDouble? }

  /** Written one behind the other, the two would be one number. */
  predicate Glued(t: Tree, u: Tree) { IsNumber(t) && IsNumber(u) && !u.neg }

  /** Numbers have digits before the point; strings are raw and keys not empty; numbers are kept apart; behind a comma
      that is the last, no blank stands before the closing bracket. */
  ghost predicate TreeOk(t: Tree) {
    match t
    case TNull => true
    case TBool(_) => true
    case TInt(_, digits) => digits != "" && Decimal(digits)
    case TDouble(_, digits, fraction, exp) => digits != "" && Decimal(digits) && Decimal(fraction) && ExpOk(exp)
    case TStr(s) => RawOk(s)
    case TList(open, items) => Blanks(open) && ItemsOk(items)
    case TDict(open, entries) => Blanks(open) && EntriesOk(entries)
  }

  ghost predicate ItemsOk(items: seq<Item>) {
    items != [] ==>
      && ItemOk(items[0]) && SepOk(items[0].sep) && ItemsOk(items[1..])
      && (|items| == 1 ==> items[0].sep.after == "")
      && (|items| > 1 && Glued(items[0].tree, items[1].tree) ==> ShowSep(items[0].sep) != "")
  }

  ghost predicate ItemOk(i: Item)
    decreases i, 0
  {
    TreeOk(i.tree)
  }

  ghost predicate EntriesOk(entries: seq<Entry>) {
    entries != [] ==>
      && EntryOk(entries[0]) && SepOk(entries[0].sep) && EntriesOk(entries[1..])
      && (|entries| == 1 ==> entries[0].sep.after == "")
  }

  ghost predicate EntryOk(e: Entry)
    decreases e, 0
  {
    e.key != "" && RawOk(e.key) && Blanks(e.beforeColon) && Blanks(e.afterColon) && TreeOk(e.tree)
  }

  // ----- Meanings -----

  /** The value of a digit. */
  function Ordinal(c: char): nat {
    if c == '1' then 1 else if c == '2' then 2 else if c == '3' then 3 else if c == '4' then 4 else if c == '5' then 5
    else if c == '6' then 6 else if c == '7' then 7 else if c == '8' then 8 else if c == '9' then 9 else 0
  }

  /** Reading digits from left to right. */
  function Number(d: string, n: nat): nat { if d == "" then n else Number(d[1..], n * 10 + Ordinal(d[0])) }

  /** A number that does not fit in 64 bits becomes the one farthest from zero that does. */
  function Saturated(neg: bool, n: int): int {
    if neg then if n > 9223372036854775808 then -9223372036854775808 else -n
    else if n > 9223372036854775807 then 9223372036854775807 else n
  }

  function Meaning(t: Tree): Json {
    match t
    case TNull => Null
    case TBool(b) => Bool(b)
    case TInt(neg, digits) => Int(Saturated(neg, Number(digits, 0)))
    case TDouble(neg, digits, fraction, exp) => Double(ShowDouble(neg, digits, fraction, exp))
    case TStr(s) => Str(s)
    case TList(_, items) => List(MeaningItems(items))
    case TDict(_, entries) => Dict(FirstWins(entries))
  }

  function MeaningItems(items: seq<Item>): seq<Json> {
    if items == [] then [] else [MeaningItem(items[0])] + MeaningItems(items[1..])
  }

  function MeaningItem(i: Item): Json { Meaning(i.tree) }

  /** Of equal keys the first counts. */
  function FirstWins(entries: seq<Entry>): map<string, Json> {
    if entries == [] then map[] else FirstWins(entries[1..])[entries[0].key := MeaningEntry(entries[0])]
  }

  function MeaningEntry(e: Entry): Json { Meaning(e.tree) }

  // ----- Where a tree ends -----

  predicate WholeExponent(s: string, e: nat) {
    && (At(s, e) == 'e' || At(s, e) == 'E')
    && (IsDigit(At(s, e + 1)) || ((At(s, e + 1) == '+' || At(s, e + 1) == '-') && IsDigit(At(s, e + 2))))
  }

  /** The text behind does not prolong the tree; only numbers can be prolonged. */
  predicate Ended(s: string, e: nat, t: Tree) {
    match t
    case TInt(_, _) => !IsDigit(At(s, e)) && At(s, e) != '.'
    case TDouble(_, _, _, exp) => !IsDigit(At(s, e)) && (exp.NoExp? ==> !WholeExponent(s, e))
    case _ => true
  }
}
