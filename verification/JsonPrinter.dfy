/** What DumpJson prints, and that parsing undoes it. */
module JsonPrinter {
  import opened JsonGrammar

  /** A value to be printed: a dictionary comes with the order in which it enumerates its entries. */
  datatype Doc =
    | DNull
    | DInt(i: int)
    | DStr(s: string)
    | DList(items: seq<Doc>)
    | DDict(pairs: seq<(string, Doc)>)

  /** The value a document enumerates. */
  function Value(d: Doc): Json {
    match d
    case DNull => Null
    case DInt(i) => Int(i)
    case DStr(s) => Str(s)
    case DList(items) => List(Values(items))
    case DDict(pairs) => Dict(Entries(pairs))
  }

  function Values(items: seq<Doc>): (vs: seq<Json>)
    ensures |vs| == |items|
  {
    if items == [] then [] else Values(items[..|items| - 1]) + [Value(items[|items| - 1])]
  }

  function Entries(pairs: seq<(string, Doc)>): map<string, Json> {
    if pairs == [] then map[]
    else
      var last := pairs[|pairs| - 1];
      Entries(pairs[..|pairs| - 1])[last.0 := PairValue(last)]
  }

  function PairValue(pair: (string, Doc)): Json { Value(pair.1) }

  // ----- Printing -----

  function DigitChar(n: int): char
    requires 0 <= n < 10
  {
    ('0' as int + n) as char
  }

  function Digits(n: nat): (d: string)
    ensures |d| > 0 && forall i :: 0 <= i < |d| ==> IsDigit(d[i])
  {
    if n < 10 then [DigitChar(n)] else Digits(n / 10) + [DigitChar(n % 10)]
  }

  function PrintInt(i: int): string { if i < 0 then "-" + Digits(-i) else Digits(i) }

  function Quoted(s: string): string { "\"" + s + "\"" }

  function Print(d: Doc): string {
    match d
    case DNull => "null"
    case DInt(i) => PrintInt(i)
    case DStr(s) => Quoted(s)
    case DList(items) => "[" + PrintItems(items) + "]"
    case DDict(pairs) => "{" + PrintPairs(pairs) + "}"
  }

  function PrintItems(items: seq<Doc>): string {
    if items == [] then ""
    else if |items| == 1 then Print(items[0])
    else Print(items[0]) + "," + PrintItems(items[1..])
  }

  function PrintPair(pair: (string, Doc)): string { Quoted(pair.0) + ":" + Print(pair.1) }

  function PrintPairs(pairs: seq<(string, Doc)>): string {
    if pairs == [] then ""
    else if |pairs| == 1 then PrintPair(pairs[0])
    else PrintPair(pairs[0]) + ", " + PrintPairs(pairs[1..])
  }

  // ----- Documents that survive -----

  /** No NUL, every quote behind a backslash, and no backslash at the end. */
  predicate RawOk(s: string) {
    && (forall i :: 0 <= i < |s| ==> s[i] != '\0')
    && (forall i :: 0 <= i < |s| && s[i] == '"' ==> i > 0 && s[i - 1] == '\\')
    && (|s| > 0 ==> s[|s| - 1] != '\\')
  }

  ghost predicate DocOk(d: Doc) {
    match d
    case DNull => true
    case DInt(i) => INT_MIN <= i <= INT_MAX
    case DStr(s) => RawOk(s)
    case DList(items) => forall i :: 0 <= i < |items| ==> DocOk(items[i])
    case DDict(pairs) =>
      && (forall i :: 0 <= i < |pairs| ==> RawOk(pairs[i].0) && pairs[i].0 != "" && DocOk(pairs[i].1))
      && DistinctKeys(pairs)
  }

  /** At cursor p the text continues with t. */
  predicate Here(s: string, p: nat, t: string) { p + |t| <= |s| && s[p .. p + |t|] == t }

  lemma HereSplit(s: string, p: nat, a: string, b: string)
    ensures Here(s, p, a + b) <==> Here(s, p, a) && Here(s, p + |a|, b)
  {
    if Here(s, p, a + b) {
      assert s[p .. p + |a|] == (a + b)[..|a|] == a;
      assert s[p + |a| .. p + |a| + |b|] == (a + b)[|a|..] == b;
    }
    if Here(s, p, a) && Here(s, p + |a|, b) {
      assert s[p .. p + |a| + |b|] == s[p .. p + |a|] + s[p + |a| .. p + |a| + |b|];
    }
  }

  /** At cursor p the text continues with t, character by character. */
  lemma HereChar(s: string, p: nat, t: string, k: nat)
    requires Here(s, p, t) && k < |t|
    ensures p + k < |s| && s[p + k] == t[k] == At(s, p + k)
  {
    assert s[p .. p + |t|][k] == t[k];
  }

  /** A text between two brackets. */
  lemma Enclosed(s: string, p: nat, open: string, t: string, close: string)
    requires |open| == 1 && |close| == 1 && Here(s, p, open + t + close)
    ensures p < |s| && At(s, p) == open[0] && Here(s, p + 1, t) && At(s, p + 1 + |t|) == close[0] && p + 1 + |t| < |s|
  {
    HereSplit(s, p, open + t, close);
    HereSplit(s, p, open, t);
    HereChar(s, p, open, 0);
    HereChar(s, p + 1 + |t|, close, 0);
  }

  // ----- Strings: exactly the raw ones survive -----

  lemma {:induction false} ScanTo(s: string, start: nat, q: nat, e: nat)
    requires start <= q <= e <= |s| && StopsString(s, start, e)
    requires forall i :: q <= i < e ==> !StopsString(s, start, i)
    ensures StringEnd(s, start, q) == e
    decreases e - q
  {
    if q < e {
      assert !StopsString(s, start, q);
      ScanTo(s, start, q + 1, e);
    }
  }

  /** Inside a quoted string the scan stops just where the string itself would make it stop. */
  lemma QuotedChars(s: string, p: nat, str: string)
    requires Here(s, p, Quoted(str))
    ensures At(s, p) == '"' && p + |str| + 2 <= |s| && s[p + 1 .. p + 1 + |str|] == str
    ensures forall i :: 0 <= i < |str| ==> At(s, p + 1 + i) == str[i]
    ensures At(s, p + 1 + |str|) == '"'
  {
    HereChar(s, p, Quoted(str), 0);
    HereChar(s, p, Quoted(str), |str| + 1);
    forall i | 0 <= i < |str| ensures At(s, p + 1 + i) == str[i] {
      HereChar(s, p, Quoted(str), i + 1);
    }
  }

  /** A quoted string reads back as itself, whatever follows, if and only if it is raw. */
  lemma RawIff(s: string, p: nat, str: string)
    requires Here(s, p, Quoted(str))
    ensures ReadRaw(s, p) == Ok(str, p + |str| + 2) <==> RawOk(str)
  {
    var start, e := p + 1, p + 1 + |str|;
    QuotedChars(s, p, str);
    forall i | 0 <= i < |str|
      ensures StopsString(s, start, start + i) <==> str[i] == '\0' || (str[i] == '"' && (i == 0 || str[i - 1] != '\\'))
    {
      assert At(s, start + i) == str[i];
      if i > 0 { assert At(s, start + (i - 1)) == str[i - 1]; }
    }
    if |str| > 0 { assert At(s, start + (|str| - 1)) == str[|str| - 1]; }
    assert StopsString(s, start, e) <==> (|str| > 0 ==> str[|str| - 1] != '\\');
    if RawOk(str) {
      forall i | start <= i < e ensures !StopsString(s, start, i) {
        assert i == start + (i - start);
      }
      ScanTo(s, start, start, e);
    } else if ReadRaw(s, p) == Ok(str, e + 1) {
      assert StringEnd(s, start, start) == e;
      forall i | 0 <= i < |str| ensures str[i] != '\0' && (str[i] == '"' ==> i > 0 && str[i - 1] == '\\') {
        assert !StopsString(s, start, start + i);
      }
    }
  }

  // ----- Numbers -----

  /** What stands here does not prolong a number. */
  predicate Ends(s: string, p: nat) { !IsDigit(At(s, p)) && At(s, p) != '.' }

  lemma {:induction false} DigitsBack(n: nat)
    ensures DigitsValue(Digits(n)) == n
  {
    if n < 10 {
      assert Digits(n)[..0] == [];
    } else {
      DigitsBack(n / 10);
      assert Digits(n)[..|Digits(n)| - 1] == Digits(n / 10);
    }
  }

  lemma {:induction false} DigitsStop(s: string, p: nat, q: nat)
    requires p <= q <= |s| && (forall i :: p <= i < q ==> IsDigit(s[i])) && !IsDigit(At(s, q))
    ensures DigitsEnd(s, p) == q
    decreases q - p
  {
    if p < q { DigitsStop(s, p + 1, q); }
  }

  /** The characters of a printed number. */
  lemma IntChars(s: string, p: nat, i: int)
    requires Here(s, p, PrintInt(i))
    ensures var d, start := if i < 0 then Digits(-i) else Digits(i), if i < 0 then p + 1 else p;
            && start < p + |PrintInt(i)| <= |s| && s[start .. p + |PrintInt(i)|] == d
            && (forall k :: start <= k < p + |PrintInt(i)| ==> IsDigit(s[k]))
            && (s[p] == '-' <==> i < 0)
  {
    var d := if i < 0 then Digits(-i) else Digits(i);
    HereChar(s, p, PrintInt(i), 0);
    if i < 0 {
      HereSplit(s, p, "-", d);
    }
    var start := if i < 0 then p + 1 else p;
    assert Here(s, start, d);
    forall k | start <= k < start + |d| ensures IsDigit(s[k]) { HereChar(s, start, d, k - start); }
  }

  /** Every printed integer, however large, reads back clamped to 64 bits: as itself if and only if it has 64 bits. */
  lemma IntBack(s: string, p: nat, i: int)
    requires Here(s, p, PrintInt(i)) && Ends(s, p + |PrintInt(i)|)
    ensures p < |s| && (IsDigit(s[p]) || s[p] == '-')
    ensures ReadDigits(s, p) == Ok(Int(Clamp(i)), p + |PrintInt(i)|)
    ensures ReadDigits(s, p) == Ok(Int(i), p + |PrintInt(i)|) <==> INT_MIN <= i <= INT_MAX
  {
    hide PrintInt, Digits, DigitsValue, DigitsEnd, Here, Digit;
    IntChars(s, p, i);
    var start := if i < 0 then p + 1 else p;
    DigitsStop(s, start, p + |PrintInt(i)|);
    DigitsBack(if i < 0 then -i else i);
  }

  // ----- Values -----

  /** A printed value begins with none of the characters a loop of the parser looks for. */
  lemma FirstChar(d: Doc)
    ensures |Print(d)| > 0
    ensures var c := Print(d)[0]; !IsBlank(c) && c != '\0' && c != ']' && c != '}' && c != ','
  {
    if d.DInt? && d.i >= 0 { assert IsDigit(Print(d)[0]); }
  }

  // ----- Single steps of the parser -----

  lemma OpenList(s: string, p: nat)
    requires At(s, p) == '[' && p < |s| && !IsBlank(At(s, p + 1)) && At(s, p + 1) != '\0'
    ensures ParseValue(s, p) == ListFrom(s, p + 1, [])
  {
    assert SkipBlanks(s, p) == p && SkipBlanks(s, p + 1) == p + 1;
  }

  lemma OpenDict(s: string, p: nat)
    requires At(s, p) == '{' && p < |s| && !IsBlank(At(s, p + 1)) && At(s, p + 1) != '\0'
    ensures ParseValue(s, p) == DictFrom(s, p + 1, map[])
  {
    assert SkipBlanks(s, p) == p && SkipBlanks(s, p + 1) == p + 1;
  }

  lemma StringValue(s: string, p: nat, str: string, e: nat)
    requires p < |s| && At(s, p) == '"' && ReadRaw(s, p) == Ok(str, e)
    ensures ParseValue(s, p) == Ok(Str(str), e)
  {
    assert SkipBlanks(s, p) == p;
  }

  lemma NumberValue(s: string, p: nat)
    requires p < |s| && (IsDigit(s[p]) || s[p] == '-')
    ensures ParseValue(s, p) == ReadDigits(s, p)
  {
    var c := At(s, p);
    assert c != 'n' && c != 't' && c != 'f' && c != '"' && c != '[' && c != '{';
    assert SkipBlanks(s, p) == p;
  }

  lemma ListElement(s: string, p: nat, v: Json, e: nat, acc: seq<Json>)
    requires p < e < |s| && !IsBlank(At(s, p)) && At(s, p) != ']' && At(s, p) != '\0'
    requires ParseValue(s, p) == Ok(v, e) && (At(s, e) == ',' || At(s, e) == ']')
    ensures ListFrom(s, p, acc) == ListFrom(s, if At(s, e) == ',' then e + 1 else e, acc + [v])
  {
    assert SkipBlanks(s, p) == p && SkipBlanks(s, e) == e;
  }

  lemma KeyAndValue(s: string, p: nat, key: string, colon: nat, v: Json, e: nat)
    requires p < colon < |s| && ReadRaw(s, p) == Ok(key, colon) && key != "" && At(s, colon) == ':'
    requires !IsBlank(At(s, colon + 1)) && ParseValue(s, colon + 1) == Ok(v, e)
    ensures ReadPair(s, p) == Ok((key, v), e)
  {
    assert SkipBlanks(s, colon) == colon && SkipBlanks(s, colon + 1) == colon + 1;
  }

  lemma ListEnd(s: string, p: nat, acc: seq<Json>)
    requires p < |s| && At(s, p) == ']'
    ensures ListFrom(s, p, acc) == Ok(List(acc), p + 1)
  {}

  lemma DictEnd(s: string, p: nat, acc: map<string, Json>)
    requires p < |s| && At(s, p) == '}'
    ensures DictFrom(s, p, acc) == Ok(Dict(acc), p + 1)
  {}

  lemma DictElement(s: string, q: nat, p: nat, key: string, v: Json, e: nat, acc: map<string, Json>)
    requires q <= p < e < |s| && At(s, p) == '"' && (q == p || (q + 1 == p && At(s, q) == ' '))
    requires ReadPair(s, p) == Ok((key, v), e) && (At(s, e) == ',' || At(s, e) == '}')
    ensures DictFrom(s, q, acc) == DictFrom(s, if At(s, e) == ',' then e + 1 else e, InsertNew(acc, key, v))
  {
    hide ReadPair, InsertNew;
    assert SkipBlanks(s, p) == p && SkipBlanks(s, q) == p && SkipBlanks(s, e) == e;
  }

  // ----- Parsing a printed document gives its value and leaves exactly what follows -----

  lemma {:induction false} RoundTrip(s: string, p: nat, d: Doc)
    requires DocOk(d) && Here(s, p, Print(d)) && (d.DInt? ==> Ends(s, p + |Print(d)|))
    ensures ParseValue(s, p) == Ok(Value(d), p + |Print(d)|)
    decreases d, 0
  {
    FirstChar(d);
    HereChar(s, p, Print(d), 0);
    match d
    case DNull => assert SkipBlanks(s, p) == p;
    case DInt(i) =>
      IntBack(s, p, i);
      NumberValue(s, p);
    case DStr(str) =>
      RawIff(s, p, str);
      StringValue(s, p, str, p + |str| + 2);
    case DList(items) => ListValueBack(s, p, items);
    case DDict(pairs) => DictValueBack(s, p, pairs);
  }

  lemma ListValueBack(s: string, p: nat, items: seq<Doc>)
    requires forall i :: 0 <= i < |items| ==> DocOk(items[i])
    requires Here(s, p, "[" + PrintItems(items) + "]")
    ensures ParseValue(s, p) == Ok(List(Values(items)), p + |PrintItems(items)| + 2)
    decreases items, 3
  {
    hide ListFrom, ParseValue, Print, PrintItems;
    Enclosed(s, p, "[", PrintItems(items), "]");
    ItemsStart(s, p + 1, items);
    OpenList(s, p);
    assert items[0..] == items && items[..0] == [];
    ListBack(s, p + 1, items, 0);
  }

  /** What stands behind the opening bracket of a list. */
  lemma ItemsStart(s: string, p: nat, items: seq<Doc>)
    requires Here(s, p, PrintItems(items)) && At(s, p + |PrintItems(items)|) == ']'
    ensures !IsBlank(At(s, p)) && At(s, p) != '\0'
  {
    if items != [] {
      FirstOfItems(items);
      FirstChar(items[0]);
      HereChar(s, p, PrintItems(items), 0);
    }
  }

  lemma DictValueBack(s: string, p: nat, pairs: seq<(string, Doc)>)
    requires DocOk(DDict(pairs)) && Here(s, p, "{" + PrintPairs(pairs) + "}")
    ensures ParseValue(s, p) == Ok(Dict(Entries(pairs)), p + |PrintPairs(pairs)| + 2)
    decreases pairs, 3
  {
    Enclosed(s, p, "{", PrintPairs(pairs), "}");
    if pairs != [] {
      FirstOfPairs(pairs);
      HereChar(s, p + 1, PrintPairs(pairs), 0);
    }
    OpenDict(s, p);
    assert pairs[0..] == pairs && pairs[..0] == [];
    DictBack(s, p + 1, p + 1, pairs, 0);
  }

  lemma FirstOfPairs(pairs: seq<(string, Doc)>)
    requires pairs != []
    ensures |PrintPairs(pairs)| > 0 && PrintPairs(pairs)[0] == '"'
  {
    assert PrintPair(pairs[0])[0] == '"';
  }

  lemma FirstOfItems(items: seq<Doc>)
    requires items != []
    ensures |PrintItems(items)| > 0 && PrintItems(items)[0] == Print(items[0])[0]
  {
    FirstChar(items[0]);
  }

  /** One round of the list loop. */
  lemma ListRound(s: string, p: nat, d: Doc, acc: seq<Json>)
    requires DocOk(d) && Here(s, p, Print(d))
    requires var e := p + |Print(d)|; At(s, e) == ',' || At(s, e) == ']'
    ensures var e := p + |Print(d)|;
            e < |s| && ListFrom(s, p, acc) == ListFrom(s, if At(s, e) == ',' then e + 1 else e, acc + [Value(d)])
    decreases d, 1
  {
    FirstChar(d);
    HereChar(s, p, Print(d), 0);
    RoundTrip(s, p, d);
    ListElement(s, p, Value(d), p + |Print(d)|, acc);
  }

  /** Where the parts of a printed list with more than one element are. */
  lemma ItemsSplit(s: string, p: nat, items: seq<Doc>)
    requires |items| > 1 && Here(s, p, PrintItems(items))
    ensures var e := p + |Print(items[0])|;
            && Here(s, p, Print(items[0])) && At(s, e) == ',' && Here(s, e + 1, PrintItems(items[1..]))
            && p + |PrintItems(items)| == e + 1 + |PrintItems(items[1..])|
  {
    hide Print, Here;
    HereSplit(s, p, Print(items[0]) + ",", PrintItems(items[1..]));
    HereSplit(s, p, Print(items[0]), ",");
    HereChar(s, p + |Print(items[0])|, ",", 0);
  }

  /** One round that does not read the last element. */
  lemma ListMore(s: string, p: nat, items: seq<Doc>, i: nat)
    requires i + 1 < |items| && DocOk(items[i]) && Here(s, p, PrintItems(items[i..]))
    ensures var e := p + |Print(items[i])|;
            && e + 1 <= |s| && Here(s, e + 1, PrintItems(items[i + 1..]))
            && p + |PrintItems(items[i..])| == e + 1 + |PrintItems(items[i + 1..])|
            && ListFrom(s, p, Values(items[..i])) == ListFrom(s, e + 1, Values(items[..i + 1]))
    decreases items, 1
  {
    hide ListFrom, Values, Print;
    assert items[i..][0] == items[i] && items[i..][1..] == items[i + 1..];
    ItemsSplit(s, p, items[i..]);
    ListRound(s, p, items[i], Values(items[..i]));
    ValuesPush(items, i);
  }

  lemma ValuesPush(items: seq<Doc>, i: nat)
    requires i < |items|
    ensures Values(items[..i + 1]) == Values(items[..i]) + [Value(items[i])]
  {
    assert items[..i + 1][..i] == items[..i];
  }

  /** The loop has read the first i elements. */
  lemma {:induction false} ListBack(s: string, p: nat, items: seq<Doc>, i: nat)
    requires i <= |items| && forall k :: 0 <= k < |items| ==> DocOk(items[k])
    requires Here(s, p, PrintItems(items[i..])) && At(s, p + |PrintItems(items[i..])|) == ']'
    ensures p + |PrintItems(items[i..])| < |s|
    ensures ListFrom(s, p, Values(items[..i])) == Ok(List(Values(items)), p + |PrintItems(items[i..])| + 1)
    decreases items, 2, |items| - i
  {
    hide ListFrom, Values, Print;
    if i == |items| {
      ListEnd(s, p, Values(items));
      assert items[..i] == items;
    } else if i + 1 == |items| {
      assert items[i..] == [items[i]] && items[..i + 1] == items;
      ValuesPush(items, i);
      ListEnd(s, p + |Print(items[i])|, Values(items));
      ListRound(s, p, items[i], Values(items[..i]));
    } else {
      ListMore(s, p, items, i);
      ListBack(s, p + |Print(items[i])| + 1, items, i + 1);
    }
  }

  lemma {:induction false} EntriesKeys(pairs: seq<(string, Doc)>, key: string)
    requires key in Entries(pairs)
    ensures exists i :: 0 <= i < |pairs| && pairs[i].0 == key
  {
    var n := |pairs| - 1;
    if pairs[n].0 != key {
      EntriesKeys(pairs[..n], key);
      var i :| 0 <= i < n && pairs[..n][i].0 == key;
      assert pairs[i].0 == key;
    }
  }

  lemma PairBack(s: string, p: nat, pair: (string, Doc))
    requires RawOk(pair.0) && pair.0 != "" && DocOk(pair.1)
    requires Here(s, p, PrintPair(pair)) && Ends(s, p + |PrintPair(pair)|)
    ensures ReadPair(s, p) == Ok((pair.0, Value(pair.1)), p + |PrintPair(pair)|)
    decreases pair, 1
  {
    var key, d := pair.0, pair.1;
    hide ParseValue, ReadPair, ReadRaw, Print, RawOk;
    var colon := p + |Quoted(key)|;
    HereSplit(s, p, Quoted(key) + ":", Print(d));
    HereSplit(s, p, Quoted(key), ":");
    HereChar(s, colon, ":", 0);
    RawIff(s, p, key);
    FirstChar(d);
    HereChar(s, colon + 1, Print(d), 0);
    RoundTrip(s, colon + 1, d);
    KeyAndValue(s, p, key, colon, Value(d), p + |PrintPair(pair)|);
  }

  /** One round of the dictionary loop at q, which is at p or at a blank before it. */
  lemma DictRound(s: string, q: nat, p: nat, pair: (string, Doc), acc: map<string, Json>)
    requires RawOk(pair.0) && pair.0 != "" && DocOk(pair.1) && Here(s, p, PrintPair(pair))
    requires q == p || (q + 1 == p && At(s, q) == ' ')
    requires var e := p + |PrintPair(pair)|; At(s, e) == ',' || At(s, e) == '}'
    ensures var e := p + |PrintPair(pair)|;
            e < |s| && DictFrom(s, q, acc) ==
                         DictFrom(s, if At(s, e) == ',' then e + 1 else e, InsertNew(acc, pair.0, Value(pair.1)))
    decreases pair, 2
  {
    assert PrintPair(pair)[0] == '"';
    hide DictFrom, ReadPair, PrintPair, DocOk, RawOk;
    HereChar(s, p, PrintPair(pair), 0);
    PairBack(s, p, pair);
    DictElement(s, q, p, pair.0, Value(pair.1), p + |PrintPair(pair)|, acc);
  }

  ghost predicate DistinctKeys(pairs: seq<(string, Doc)>) {
    forall i, j :: 0 <= i < j < |pairs| ==> pairs[i].0 != pairs[j].0
  }

  /** Where the parts of a printed dictionary with more than one entry are. */
  lemma PairsSplit(s: string, p: nat, pairs: seq<(string, Doc)>)
    requires |pairs| > 1 && Here(s, p, PrintPairs(pairs))
    ensures var e := p + |PrintPair(pairs[0])|;
            && Here(s, p, PrintPair(pairs[0])) && At(s, e) == ',' && At(s, e + 1) == ' '
            && Here(s, e + 2, PrintPairs(pairs[1..]))
            && p + |PrintPairs(pairs)| == e + 2 + |PrintPairs(pairs[1..])|
  {
    hide PrintPair, Here;
    var e := p + |PrintPair(pairs[0])|;
    HereSplit(s, p, PrintPair(pairs[0]) + ", ", PrintPairs(pairs[1..]));
    HereSplit(s, p, PrintPair(pairs[0]), ", ");
    HereChar(s, e, ", ", 0);
    HereChar(s, e, ", ", 1);
  }

  /** One round that does not read the last entry. */
  lemma DictMore(s: string, q: nat, p: nat, pairs: seq<(string, Doc)>, i: nat)
    requires i + 1 < |pairs| && DistinctKeys(pairs)
    requires RawOk(pairs[i].0) && pairs[i].0 != "" && DocOk(pairs[i].1)
    requires q == p || (q + 1 == p && At(s, q) == ' ')
    requires Here(s, p, PrintPairs(pairs[i..]))
    ensures var e := p + |PrintPair(pairs[i])|;
            && e + 2 <= |s| && At(s, e + 1) == ' ' && Here(s, e + 2, PrintPairs(pairs[i + 1..]))
            && p + |PrintPairs(pairs[i..])| == e + 2 + |PrintPairs(pairs[i + 1..])|
            && DictFrom(s, q, Entries(pairs[..i])) == DictFrom(s, e + 1, Entries(pairs[..i + 1]))
    decreases pairs, 1
  {
    hide DictFrom, Entries, Print, PrintPair;
    assert pairs[i..][0] == pairs[i] && pairs[i..][1..] == pairs[i + 1..];
    PairsSplit(s, p, pairs[i..]);
    DictRound(s, q, p, pairs[i], Entries(pairs[..i]));
    NextEntry(pairs, i);
  }

  /** The loop has read the first i entries; it is at p or at the blank before it. */
  lemma {:induction false} DictBack(s: string, q: nat, p: nat, pairs: seq<(string, Doc)>, i: nat)
    requires i <= |pairs| && DistinctKeys(pairs)
    requires forall k :: 0 <= k < |pairs| ==> RawOk(pairs[k].0) && pairs[k].0 != "" && DocOk(pairs[k].1)
    requires q == p || (q + 1 == p && i < |pairs| && At(s, q) == ' ')
    requires Here(s, p, PrintPairs(pairs[i..])) && At(s, p + |PrintPairs(pairs[i..])|) == '}'
    ensures p + |PrintPairs(pairs[i..])| < |s|
    ensures DictFrom(s, q, Entries(pairs[..i])) == Ok(Dict(Entries(pairs)), p + |PrintPairs(pairs[i..])| + 1)
    decreases pairs, 2, |pairs| - i
  {
    hide DictFrom, Entries, Print, PrintPair;
    if i == |pairs| {
      DictEnd(s, p, Entries(pairs));
      assert pairs[..i] == pairs;
    } else if i + 1 == |pairs| {
      assert pairs[i..] == [pairs[i]] && pairs[..i + 1] == pairs;
      NextEntry(pairs, i);
      DictEnd(s, p + |PrintPair(pairs[i])|, Entries(pairs));
      DictRound(s, q, p, pairs[i], Entries(pairs[..i]));
    } else {
      DictMore(s, q, p, pairs, i);
      var e := p + |PrintPair(pairs[i])|;
      DictBack(s, e + 1, e + 2, pairs, i + 1);
    }
  }

  /** The next key is new. */
  lemma NextEntry(pairs: seq<(string, Doc)>, i: nat)
    requires DistinctKeys(pairs) && i < |pairs|
    ensures InsertNew(Entries(pairs[..i]), pairs[i].0, Value(pairs[i].1)) == Entries(pairs[..i + 1])
  {
    assert pairs[..i + 1][..i] == pairs[..i];
    if pairs[i].0 in Entries(pairs[..i]) { EntriesKeys(pairs[..i], pairs[i].0); }
  }
}
