/** What the parser of src/jsontype/details/jsontype.cpp guarantees: it undoes the printer, it gets on, and what it
    reads depends on nothing else. */
module JsonTheorems {
  import opened JsonGrammar
  import opened JsonPrinter
  import opened JsonLocality

  // ----- What can be read at all -----

  /** What the parser can yield: every string raw, no empty key, every integer of 64 bits. */
  ghost predicate Readable(v: Json) {
    match v
    case Int(i) => INT_MIN <= i <= INT_MAX
    case Str(s) => RawOk(s)
    case List(items) => forall i :: 0 <= i < |items| ==> Readable(items[i])
    case Dict(entries) => forall k <- entries :: RawOk(k) && k != "" && Readable(entries[k])
    case _ => true
  }

  lemma RawReadable(s: string, p: nat)
    requires p <= |s| && ReadRaw(s, p).Ok?
    ensures RawOk(ReadRaw(s, p).value)
  {
    var start := p + 1;
    var e := StringEnd(s, start, start);
    var str := s[start..e];
    forall i | 0 <= i < |str| ensures str[i] != '\0' && (str[i] == '"' ==> i > 0 && str[i - 1] == '\\') {
      assert !StopsString(s, start, start + i);
    }
  }

  lemma DigitsReadable(s: string, p: nat)
    requires p < |s| && (IsDigit(s[p]) || s[p] == '-')
    ensures Readable(ReadDigits(s, p).value)
  {
    hide DigitsValue, DigitsEnd, DoubleEnd;
  }

  /** Whatever the text, a value that is read is readable. */
  lemma {:induction false} ValueReadable(s: string, p: nat)
    requires p <= |s| && ParseValue(s, p).Ok?
    ensures Readable(ParseValue(s, p).value)
    decreases |s| - p, 0
  {
    hide ParseValue, ListFrom, DictFrom, ReadDigits, ReadRaw, SkipBlanks, Matches;
    Cases(s, p);
    var q := SkipBlanks(s, p);
    var c := At(s, q);
    if c == '"' { RawReadable(s, q); }
    else if c == '[' { ListReadable(s, SkipBlanks(s, q + 1), []); }
    else if c == '{' { DictReadable(s, SkipBlanks(s, q + 1), map[]); }
    else if IsDigit(c) || c == '-' { DigitsReadable(s, q); }
  }

  lemma {:induction false} ListReadable(s: string, p: nat, items: seq<Json>)
    requires p <= |s| && ListFrom(s, p, items).Ok? && forall i :: 0 <= i < |items| ==> Readable(items[i])
    ensures Readable(ListFrom(s, p, items).value)
    decreases |s| - p, 1
  {
    hide ParseValue, ListFrom, SkipBlanks;
    ListStep(s, p, items);
    if At(s, p) != ']' {
      var v := ParseValue(s, SkipBlanks(s, p));
      ValueReadable(s, SkipBlanks(s, p));
      ListReadable(s, AfterElement(s, v.pos), items + [v.value]);
    }
  }

  lemma {:induction false} DictReadable(s: string, p: nat, entries: map<string, Json>)
    requires p <= |s| && DictFrom(s, p, entries).Ok? && Readable(Dict(entries))
    ensures Readable(DictFrom(s, p, entries).value)
    decreases |s| - p, 1
  {
    hide ReadPair, DictFrom, SkipBlanks;
    DictStep(s, p, entries);
    if At(s, p) != '}' {
      var pair := ReadPair(s, SkipBlanks(s, p));
      PairReadable(s, SkipBlanks(s, p));
      DictReadable(s, AfterElement(s, pair.pos), InsertNew(entries, pair.value.0, pair.value.1));
    }
  }

  lemma {:induction false} PairReadable(s: string, p: nat)
    requires p <= |s| && ReadPair(s, p).Ok?
    ensures var pair := ReadPair(s, p).value; RawOk(pair.0) && pair.0 != "" && Readable(pair.1)
    decreases |s| - p, 0
  {
    hide ReadRaw, ParseValue, SkipBlanks, RawOk, Readable;
    RawReadable(s, p);
    ValueReadable(s, SkipBlanks(s, SkipBlanks(s, ReadRaw(s, p).pos) + 1));
  }

  /** Every dictionary in the document enumerates each of its keys once, as a map does. */
  ghost predicate Enumerated(d: Doc) {
    match d
    case DList(items) => forall i :: 0 <= i < |items| ==> Enumerated(items[i])
    case DDict(pairs) => DistinctKeys(pairs) && forall i :: 0 <= i < |pairs| ==> Enumerated(pairs[i].1)
    case _ => true
  }

  /** The documents that survive are those whose value can be read. */
  lemma {:induction false} DocReadable(d: Doc)
    requires Enumerated(d) && Readable(Value(d))
    ensures DocOk(d)
  {
    match d
    case DNull =>
    case DInt(_) =>
    case DStr(_) =>
    case DList(items) =>
      forall i | 0 <= i < |items| ensures DocOk(items[i]) {
        ValuesAt(items, i);
        DocReadable(items[i]);
      }
    case DDict(pairs) =>
      forall i | 0 <= i < |pairs| ensures RawOk(pairs[i].0) && pairs[i].0 != "" && DocOk(pairs[i].1) {
        EntriesAt(pairs, i);
        DocReadable(pairs[i].1);
      }
  }

  lemma {:induction false} ValuesAt(items: seq<Doc>, i: nat)
    requires i < |items|
    ensures Values(items)[i] == Value(items[i])
  {
    if i < |items| - 1 { ValuesAt(items[..|items| - 1], i); }
  }

  lemma {:induction false} EntriesAt(pairs: seq<(string, Doc)>, i: nat)
    requires i < |pairs| && DistinctKeys(pairs)
    ensures pairs[i].0 in Entries(pairs) && Entries(pairs)[pairs[i].0] == Value(pairs[i].1)
  {
    if i < |pairs| - 1 { EntriesAt(pairs[..|pairs| - 1], i); }
  }

  // ----- Parse undoes print -----

  /** A printed document followed by any text parses to its value and leaves just that text if and only if its strings
      are raw, its keys not empty and its integers of 64 bits, and it is not a number that the text prolongs. */
  lemma ParseUndoesPrint(d: Doc, rest: string)
    requires Enumerated(d)
    ensures ParseValue(Print(d) + rest, 0) == Ok(Value(d), |Print(d)|) <==> DocOk(d) && (d.DInt? ==> Ends(rest, 0))
    ensures (Print(d) + rest)[|Print(d)|..] == rest
  {
    var s := Print(d) + rest;
    hide ParseValue, Value, Print, DocOk, Readable;
    assert Here(s, 0, Print(d));
    assert At(s, |Print(d)|) == At(rest, 0);
    if ParseValue(s, 0) == Ok(Value(d), |Print(d)|) {
      ValueReadable(s, 0);
      DocReadable(d);
      if d.DInt? && !Ends(rest, 0) { IntProlonged(s, d); }
    } else if DocOk(d) && (d.DInt? ==> Ends(rest, 0)) {
      RoundTrip(s, 0, d);
    }
  }

  lemma IntProlonged(s: string, d: Doc)
    requires d.DInt? && Here(s, 0, Print(d)) && !Ends(s, |Print(d)|)
    ensures ParseValue(s, 0) != Ok(Value(d), |Print(d)|)
  {
    Prolonged(s, d.i);
  }

  lemma Prolonged(s: string, i: int)
    requires Here(s, 0, PrintInt(i)) && !Ends(s, |PrintInt(i)|)
    ensures ParseValue(s, 0) != Ok(Int(i), |PrintInt(i)|)
  {
    var t := PrintInt(i);
    var start := if i < 0 then 1 else 0;
    forall k | 0 <= k < |t| ensures s[k] == t[k] { HereChar(s, 0, t, k); }
    assert forall k :: start <= k < |t| ==> IsDigit(s[k]);
    assert !LoneMinus(s, 0) by { assert IsDigit(s[start]); }
    NumberValue(s, 0);
    DigitsGoOn(s, start, |t|);
  }

  lemma {:induction false} DigitsGoOn(s: string, p: nat, q: nat)
    requires p <= q <= |s| && forall k :: p <= k < q ==> IsDigit(s[k])
    ensures DigitsEnd(s, p) >= q && DigitsEnd(s, p) == DigitsEnd(s, q)
    decreases q - p
  {
    if p < q { DigitsGoOn(s, p + 1, q); }
  }

  /** The values that print and parse without loss. */
  ghost predicate Plain(v: Json) {
    match v
    case Null => true
    case Int(i) => INT_MIN <= i <= INT_MAX
    case Str(s) => RawOk(s)
    case List(items) => forall i :: 0 <= i < |items| ==> Plain(items[i])
    case Dict(entries) => forall k <- entries :: RawOk(k) && k != "" && Plain(entries[k])
    case _ => false
  }

  predicate Distinct(keys: seq<string>) { forall i, j :: 0 <= i < j < |keys| ==> keys[i] != keys[j] }

  /** pairs gives the entries of m in the order of the keys. */
  ghost predicate Enumerates(pairs: seq<(string, Doc)>, keys: seq<string>, m: map<string, Json>) {
    && |pairs| == |keys|
    && forall i :: 0 <= i < |keys| ==>
         && keys[i] in m && pairs[i].0 == keys[i]
         && DocOk(pairs[i].1) && PairValue(pairs[i]) == m[keys[i]]
  }

  /** A dictionary prints in whatever order it enumerates its keys, and each order is a document of it. */
  lemma AnyOrder(m: map<string, Json>, keys: seq<string>) returns (pairs: seq<(string, Doc)>)
    requires Plain(Dict(m)) && Distinct(keys) && (forall k :: k in keys <==> k in m)
    ensures Enumerates(pairs, keys, m) && DocOk(DDict(pairs)) && Value(DDict(pairs)) == Dict(m)
    decreases Dict(m), 2
  {
    pairs := PairsFor(m, keys, |keys|);
    assert keys[..|keys|] == keys;
    EntriesOf(pairs, keys, m);
    forall k | k in m ensures k in Entries(pairs) {
      assert k in keys;
    }
    assert Entries(pairs) == m;
  }

  lemma {:induction false} PairsFor(m: map<string, Json>, keys: seq<string>, n: nat) returns (pairs: seq<(string, Doc)>)
    requires Plain(Dict(m)) && n <= |keys| && forall k <- keys :: k in m
    ensures Enumerates(pairs, keys[..n], m)
    decreases Dict(m), 1, n
  {
    if n == 0 { return []; }
    var init := PairsFor(m, keys, n - 1);
    assert keys[n - 1] in keys;
    var d := HasDocument(m[keys[n - 1]]);
    return init + [(keys[n - 1], d)];
  }

  lemma {:induction false} EntriesOf(pairs: seq<(string, Doc)>, keys: seq<string>, m: map<string, Json>)
    requires Enumerates(pairs, keys, m) && Distinct(keys)
    ensures forall k :: k in Entries(pairs) <==> k in keys
    ensures forall k <- keys :: Entries(pairs)[k] == m[k]
  {
    if pairs != [] {
      var n := |pairs| - 1;
      EntriesOf(pairs[..n], keys[..n], m);
      assert keys == keys[..n] + [keys[n]];
    }
  }

  lemma {:induction false} ItemsFor(items: seq<Json>, n: nat) returns (docs: seq<Doc>)
    requires n <= |items| && forall i :: 0 <= i < |items| ==> Plain(items[i])
    ensures |docs| == n && Values(docs) == items[..n] && forall i :: 0 <= i < n ==> DocOk(docs[i])
    decreases items, 1, n
  {
    if n == 0 { return []; }
    var init := ItemsFor(items, n - 1);
    var d := HasDocument(items[n - 1]);
    docs := init + [d];
    assert docs[..n - 1] == init;
  }

  /** Every plain value can be printed. */
  lemma {:induction false} HasDocument(v: Json) returns (d: Doc)
    requires Plain(v)
    ensures DocOk(d) && Value(d) == v
    decreases v, 3
  {
    match v
    case Null => d := DNull;
    case Int(i) => d := DInt(i);
    case Str(s) => d := DStr(s);
    case List(items) =>
      var docs := ItemsFor(items, |items|);
      assert items[..|items|] == items;
      d := DList(docs);
    case Dict(entries) =>
      var keys := Listing(entries.Keys);
      var pairs := AnyOrder(entries, keys);
      d := DDict(pairs);
  }

  lemma Listing(keys: set<string>) returns (list: seq<string>)
    ensures Distinct(list) && forall k :: k in list <==> k in keys
  {
    if keys == {} { return []; }
    var k :| k in keys;
    var rest := Listing(keys - {k});
    list := rest + [k];
  }
}
