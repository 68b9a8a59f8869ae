/** Whatever the parser of src/jsontype/details/jsontype.cpp reads is the text of a tree that is in order. */
module JsonComplete {
  import opened JsonGrammar
  import opened JsonPrinter
  import opened JsonTheorems
  import opened JsonLocality
  import opened JsonSyntax
  import opened JsonSound

  /** From p to e the text is that of blanks and the tree, and the tree ends there. */
  ghost predicate Spells(s: string, p: nat, lead: string, t: Tree, e: nat) {
    && Blanks(lead) && TreeOk(t) && p <= e <= |s| && s[p..e] == lead + Show(t) && Ended(s, e, t)
  }

  // ----- Pieces -----

  lemma {:induction false} SkippedBlanks(s: string, p: nat)
    requires p <= |s|
    ensures Blanks(s[p..SkipBlanks(s, p)])
    decreases |s| - p
  {
    if IsBlank(At(s, p)) {
      SkippedBlanks(s, p + 1);
      var q := SkipBlanks(s, p);
      assert s[p..q] == [s[p]] + s[p + 1..q];
    }
  }

  /** Two pieces of text, one behind the other. */
  lemma Glue(s: string, p: nat, q: nat, e: nat)
    requires p <= q <= e <= |s|
    ensures s[p..e] == s[p..q] + s[q..e]
  {}

  lemma One(s: string, p: nat)
    requires p < |s|
    ensures s[p..p + 1] == [s[p]]
  {}

  // ----- Numbers -----

  lemma DigitsTaken(s: string, p: nat)
    requires p <= |s|
    ensures Decimal(s[p..DigitsEnd(s, p)])
  {}

  /** What strtol takes: a sign and digits. */
  lemma WholeTaken(s: string, p: nat) returns (neg: bool, digits: string)
    requires p < |s| && (IsDigit(s[p]) || s[p] == '-') && !LoneMinus(s, p)
    ensures digits != "" && Decimal(digits) && s[p..StrToL(s, p).1] == Sign(neg) + digits
    ensures StrToL(s, p).0 == Saturated(neg, Number(digits, 0))
    ensures !IsDigit(At(s, StrToL(s, p).1))
  {
    hide DigitsEnd, DigitsValue, Number;
    neg := s[p] == '-';
    var start := if neg then p + 1 else p;
    var end := DigitsEnd(s, start);
    digits := s[start..end];
    DigitsTaken(s, start);
    NumberIs(digits);
    Glue(s, p, start, end);
    if neg { One(s, p); }
    FirstDigit(s, start);
  }

  lemma FirstDigit(s: string, p: nat)
    requires p <= |s|
    ensures IsDigit(At(s, p)) ==> DigitsEnd(s, p) > p
  {}

  /** Where the digits of a whole exponent begin. */
  function ExpDigits(s: string, f: nat): nat {
    if At(s, f + 1) == '+' || At(s, f + 1) == '-' then f + 2 else f + 1
  }

  lemma DoubleEndIs(s: string, dot: nat)
    requires dot < |s|
    ensures var f := DigitsEnd(s, dot + 1);
            if WholeExponent(s, f) then ExpDigits(s, f) < |s| && DoubleEnd(s, dot) == DigitsEnd(s, ExpDigits(s, f))
            else DoubleEnd(s, dot) == f
  {
    hide DigitsEnd;
  }

  /** A whole exponent: its letter, its sign and its digits. */
  lemma ExponentTaken(s: string, f: nat) returns (exp: Exp)
    requires WholeExponent(s, f) && ExpDigits(s, f) < |s|
    ensures ExpOk(exp) && exp.Exp? && s[f..DigitsEnd(s, ExpDigits(s, f))] == ShowExp(exp)
  {
    var d := ExpDigits(s, f);
    var e := DigitsEnd(s, d);
    DigitsTaken(s, d);
    FirstDigit(s, d);
    hide DigitsEnd;
    Glue(s, f, f + 1, e);
    Glue(s, f + 1, d, e);
    One(s, f);
    if d == f + 2 { One(s, f + 1); }
    exp := Exp(s[f], s[f + 1..d], s[d..e]);
    assert s[f..e] == [s[f]] + (s[f + 1..d] + s[d..e]) == ShowExp(exp);
  }

  lemma NoDigitAtEnd(s: string, p: nat)
    requires p <= |s|
    ensures p <= DigitsEnd(s, p) <= |s| && !IsDigit(At(s, DigitsEnd(s, p)))
  {}

  /** What strtod takes behind the point. */
  lemma FractionTaken(s: string, dot: nat) returns (fraction: string, exp: Exp)
    requires dot < |s|
    ensures Decimal(fraction) && ExpOk(exp) && s[dot + 1..DoubleEnd(s, dot)] == fraction + ShowExp(exp)
    ensures !IsDigit(At(s, DoubleEnd(s, dot))) && (exp.NoExp? ==> !WholeExponent(s, DoubleEnd(s, dot)))
  {
    hide *;
    var f := DigitsEnd(s, dot + 1);
    fraction := s[dot + 1..f];
    DigitsTaken(s, dot + 1);
    DoubleEndIs(s, dot);
    NoDigitAtEnd(s, dot + 1);
    if WholeExponent(s, f) {
      exp := ExponentTaken(s, f);
      NoDigitAtEnd(s, ExpDigits(s, f));
      ExpAhead(s, f);
      Glue(s, dot + 1, f, DoubleEnd(s, dot));
    } else {
      exp := NoExp;
      NothingShown();
    }
  }

  lemma ExpAhead(s: string, f: nat)
    ensures f < ExpDigits(s, f)
  {}

  lemma NothingShown()
    ensures ShowExp(NoExp) == "" && ExpOk(NoExp)
  {}

  lemma ReadDigitsIs(s: string, p: nat)
    requires p < |s| && (IsDigit(s[p]) || s[p] == '-')
    ensures var (l, end) := StrToL(s, p);
            ReadDigits(s, p) == if At(s, end) == '.' then Ok(Double(s[p..DoubleEnd(s, end)]), DoubleEnd(s, end))
                                else Ok(Int(l), end)
  {
    hide StrToL, DoubleEnd;
  }

  lemma IntSpells(s: string, p: nat, e: nat, neg: bool, digits: string)
    requires p <= e <= |s| && s[p..e] == Sign(neg) + digits && digits != "" && Decimal(digits)
    requires !IsDigit(At(s, e)) && At(s, e) != '.'
    ensures Spells(s, p, "", TInt(neg, digits), e)
    ensures Meaning(TInt(neg, digits)) == Int(Saturated(neg, Number(digits, 0)))
  {}

  lemma DoubleSpells(s: string, p: nat, dot: nat, e: nat, neg: bool, digits: string, fraction: string, exp: Exp)
    requires p <= dot < e <= |s| && s[p..dot] == Sign(neg) + digits && s[dot] == '.'
    requires s[dot + 1..e] == fraction + ShowExp(exp)
    requires digits != "" && Decimal(digits) && Decimal(fraction) && ExpOk(exp)
    requires !IsDigit(At(s, e)) && (exp.NoExp? ==> !WholeExponent(s, e))
    ensures Spells(s, p, "", TDouble(neg, digits, fraction, exp), e)
    ensures Meaning(TDouble(neg, digits, fraction, exp)) == Double(s[p..e])
  {
    hide WholeExponent, Decimal, ExpOk, ShowExp, Sign;
    Glue(s, p, dot, e);
    Glue(s, dot, dot + 1, e);
    One(s, dot);
    DoubleIs(neg, digits, fraction, exp);
    assert s[p..e] == ShowDouble(neg, digits, fraction, exp);
  }

  lemma NumberTaken(s: string, p: nat) returns (t: Tree)
    requires p < |s| && (IsDigit(s[p]) || s[p] == '-') && !LoneMinus(s, p)
    ensures Spells(s, p, "", t, ReadDigits(s, p).pos) && ReadDigits(s, p) == Ok(Meaning(t), ReadDigits(s, p).pos)
  {
    hide *;
    var neg, digits := WholeTaken(s, p);
    var end := StrToL(s, p).1;
    ReadDigitsIs(s, p);
    if At(s, end) == '.' {
      PointAt(s, end, '.');
      var fraction, exp := FractionTaken(s, end);
      t := TDouble(neg, digits, fraction, exp);
      DoubleSpells(s, p, end, DoubleEnd(s, end), neg, digits, fraction, exp);
    } else {
      t := TInt(neg, digits);
      IntSpells(s, p, end, neg, digits);
    }
  }

  // ----- Trees -----

  lemma WordTaken(s: string, p: nat, word: string, t: Tree)
    requires Matches(s, p, word) && TreeOk(t) && Show(t) == word && !IsNumber(t)
    ensures Spells(s, p, "", t, p + |word|)
  {}

  lemma StringTaken(s: string, p: nat)
    requires p <= |s| && ReadRaw(s, p).Ok?
    ensures RawOk(ReadRaw(s, p).value) && s[p..ReadRaw(s, p).pos] == Quoted(ReadRaw(s, p).value)
  {
    RawReadable(s, p);
    var e := StringEnd(s, p + 1, p + 1);
    Glue(s, p, p + 1, e + 1);
    Glue(s, p + 1, e, e + 1);
    One(s, p);
    One(s, e);
  }

  /** Every value that is read, a lone minus alone excepted, is the meaning of a tree whose text was taken. */
  lemma {:induction false} TreeTaken(s: string, p: nat) returns (lead: string, t: Tree)
    requires p <= |s| && ParseValue(s, p).Ok? && !LoneMinus(s, SkipBlanks(s, p))
    ensures Spells(s, p, lead, t, ParseValue(s, p).pos) && ParseValue(s, p).value == Meaning(t)
    ensures lead == s[p..SkipBlanks(s, p)]
    decreases |s| - p, 5
  {
    hide *;
    var q := SkipBlanks(s, p);
    lead := s[p..q];
    SkippedBlanks(s, p);
    t := TreeHere(s, p, q);
    Led(s, p, q, lead, t, ParseValue(s, p).pos);
  }

  lemma Led(s: string, p: nat, q: nat, lead: string, t: Tree, e: nat)
    requires p <= q <= |s| && lead == s[p..q] && Blanks(lead) && Spells(s, q, "", t, e)
    ensures Spells(s, p, lead, t, e)
  {
    Glue(s, p, q, e);
    assert "" + Show(t) == Show(t);
  }

  lemma {:induction false} TreeHere(s: string, p: nat, q: nat) returns (t: Tree)
    requires p <= |s| && q == SkipBlanks(s, p) && ParseValue(s, p).Ok? && !LoneMinus(s, q)
    ensures Spells(s, q, "", t, ParseValue(s, p).pos) && ParseValue(s, p).value == Meaning(t)
    decreases |s| - p, 4
  {
    hide ParseValue, ListFrom, DictFrom, ReadDigits, ReadRaw, SkipBlanks, Spells, Matches;
    Cases(s, p);
    var c := At(s, q);
    if c == 'n' {
      t := TNull;
      WordTaken(s, q, "null", t);
    } else if c == 't' {
      t := TBool(true);
      WordTaken(s, q, "true", t);
    } else if c == 'f' {
      t := TBool(false);
      WordTaken(s, q, "false", t);
    } else if c == '"' {
      t := TStr(ReadRaw(s, q).value);
      StringTaken(s, q);
      QuotedSpells(s, q, ReadRaw(s, q).value, ReadRaw(s, q).pos);
    } else if c == '[' {
      t := ListHere(s, q);
    } else if c == '{' {
      t := DictHere(s, q);
    } else {
      t := NumberTaken(s, q);
    }
  }

  lemma QuotedSpells(s: string, p: nat, str: string, e: nat)
    requires p <= e <= |s| && RawOk(str) && s[p..e] == Quoted(str)
    ensures Spells(s, p, "", TStr(str), e)
  {}

  lemma {:induction false} ListHere(s: string, q: nat) returns (t: Tree)
    requires q < |s| && s[q] == '[' && ListFrom(s, SkipBlanks(s, q + 1), []).Ok?
    ensures var r := ListFrom(s, SkipBlanks(s, q + 1), []); Spells(s, q, "", t, r.pos) && r.value == Meaning(t)
    decreases |s| - q, 3
  {
    hide *;
    var first := SkipBlanks(s, q + 1);
    var open := s[q + 1..first];
    SkippedBlanks(s, q + 1);
    var lead, items := ItemsTaken(s, first, []);
    SkipTwice(s, q + 1);
    t := TList(open, items);
    ListSpells(s, q, first, open, items, ListFrom(s, first, []).pos);
    ListMeaning(open, items);
  }

  lemma SkipTwice(s: string, p: nat)
    requires p <= |s|
    ensures SkipBlanks(s, SkipBlanks(s, p)) == SkipBlanks(s, p)
  {}

  lemma ListMeaning(open: string, items: seq<Item>)
    ensures Meaning(TList(open, items)) == List([] + MeaningItems(items))
  {
    assert [] + MeaningItems(items) == MeaningItems(items);
  }

  lemma ListSpells(s: string, q: nat, first: nat, open: string, items: seq<Item>, e: nat)
    requires q < first <= e <= |s| && s[q] == '[' && open == s[q + 1..first] && Blanks(open) && ItemsOk(items)
    requires s[first..e] == "" + ShowItems(items) + "]"
    ensures Spells(s, q, "", TList(open, items), e)
  {
    hide ItemsOk, ShowItems;
    Glue(s, q, q + 1, e);
    Glue(s, q + 1, first, e);
    One(s, q);
    assert "" + Show(TList(open, items)) == "[" + (open + ("" + ShowItems(items) + "]"));
  }

  lemma NothingSkipped(s: string, p: nat)
    requires p <= |s| && SkipBlanks(s, p) == p
    ensures s[p..SkipBlanks(s, p)] == ""
  {}

  /** What the parser has skipped behind an element, with the blanks that the next round skips. */
  lemma SepTaken(s: string, e: nat, after: string) returns (sep: Sep)
    requires e <= |s| && Blanks(after) && after == s[AfterElement(s, e)..SkipBlanks(s, AfterElement(s, e))]
    ensures SepOk(sep) && sep.after == after && s[e..AfterElement(s, e)] + after == ShowSep(sep)
    ensures ShowSep(sep) == "" ==> AfterElement(s, e) == e
  {
    hide SkipBlanks;
    var f := SkipBlanks(s, e);
    SkippedBlanks(s, e);
    SkipTwice(s, e);
    sep := Sep(s[e..f], At(s, f) == ',', after);
    if sep.comma {
      Glue(s, e, f, f + 1);
      One(s, f);
    }
  }

  lemma NoItemsTaken(s: string, p: nat, acc: seq<Json>) returns (lead: string)
    requires p <= |s| && At(s, p) == ']'
    ensures lead == "" == s[p..SkipBlanks(s, p)] && p < |s| && s[p..p + 1] == lead + ShowItems([]) + "]"
    ensures List(acc) == List(acc + MeaningItems([])) && Blanks(lead) && ItemsOk([])
  {
    lead := "";
    assert acc + [] == acc;
  }

  lemma ItemsJoined(s: string, p: nat, q: nat, e: nat, next: nat, lead: string, t: Tree, sep: Sep, rest: seq<Item>,
                    end: nat)
    requires p <= q <= e <= next <= end <= |s| && s[p..q] == lead && s[q..e] == "" + Show(t)
    requires s[e..next] + sep.after == ShowSep(sep) && s[next..end] == sep.after + ShowItems(rest) + "]"
    ensures s[p..end] == lead + ShowItems([Item(t, sep)] + rest) + "]"
  {
    Glue(s, p, q, end);
    Glue(s, q, e, end);
    Glue(s, e, next, end);
    var items := [Item(t, sep)] + rest;
    assert items[1..] == rest && ShowItem(items[0]) == Show(t);
    var shown, more := Show(t), ShowItems(rest);
    assert ShowItems(items) == shown + ShowSep(sep) + more;
    hide Show, ShowItems, ShowSep, ShowItem;
    Regroup(lead, shown, s[e..next], sep.after, more, "]");
  }

  lemma Regroup(a: string, b: string, c: string, d: string, e: string, f: string)
    ensures a + (("" + b) + (c + (d + e + f))) == a + (b + (c + d) + e) + f
  {}

  lemma ItemsInOrder(s: string, q: nat, e: nat, next: nat, t: Tree, sep: Sep, rest: seq<Item>, end: nat)
    requires q <= e <= next <= end <= |s| && Spells(s, q, "", t, e) && SepOk(sep) && ItemsOk(rest)
    requires ShowSep(sep) == "" ==> next == e
    requires s[next..end] == sep.after + ShowItems(rest) + "]" && (rest == [] ==> sep.after == "")
    ensures ItemsOk([Item(t, sep)] + rest)
  {
    var items := [Item(t, sep)] + rest;
    assert items[1..] == rest;
    if rest != [] {
      ItemsOkStep(rest);
      ShowBegins(rest[0].tree);
      if ShowSep(sep) == "" {
        assert s[next..end][0] == ShowItems(rest)[0] == Show(rest[0].tree)[0];
        NotGlued(s, e, t, rest[0].tree);
      }
    }
  }

  lemma NotGlued(s: string, e: nat, t: Tree, u: Tree)
    requires Ended(s, e, t) && TreeOk(u) && |Show(u)| > 0 && At(s, e) == Show(u)[0]
    ensures !Glued(t, u)
  {
    ShowBegins(u);
  }

  lemma SpelledText(s: string, p: nat, lead: string, t: Tree, e: nat)
    requires Spells(s, p, lead, t, e)
    ensures p <= e <= |s| && s[p..e] == lead + Show(t)
  {}

  lemma ItemsMean(acc: seq<Json>, t: Tree, sep: Sep, rest: seq<Item>)
    ensures (acc + [Meaning(t)]) + MeaningItems(rest) == acc + MeaningItems([Item(t, sep)] + rest)
  {
    var items := [Item(t, sep)] + rest;
    assert items[1..] == rest && MeaningItem(items[0]) == Meaning(t);
    Shift(acc, Meaning(t), MeaningItems(rest));
  }

  /** The list loop has taken blanks, elements and the closing bracket. */
  lemma {:induction false} ItemsTaken(s: string, p: nat, acc: seq<Json>) returns (lead: string, items: seq<Item>)
    requires p <= |s| && ListFrom(s, p, acc).Ok?
    ensures var r := ListFrom(s, p, acc);
            && p <= r.pos <= |s| && s[p..r.pos] == lead + ShowItems(items) + "]"
            && r.value == List(acc + MeaningItems(items))
    ensures Blanks(lead) && ItemsOk(items) && lead == s[p..SkipBlanks(s, p)] && (items == [] ==> lead == "")
    decreases |s| - p, 6
  {
    hide *;
    ListStep(s, p, acc);
    if At(s, p) == ']' {
      items := [];
      lead := NoItemsTaken(s, p, acc);
    } else {
      ElementInside(s, p, acc);
      var q := SkipBlanks(s, p);
      SkipTwice(s, p);
      SkippedBlanks(s, p);
      lead := s[p..q];
      var v := ParseValue(s, q);
      var none, t := TreeTaken(s, q);
      var next := AfterElement(s, v.pos);
      var after, rest := ItemsTaken(s, next, acc + [v.value]);
      var sep := SepTaken(s, v.pos, after);
      items := [Item(t, sep)] + rest;
      NothingSkipped(s, q);
      SpelledText(s, q, none, t, v.pos);
      ItemsJoined(s, p, q, v.pos, next, lead, t, sep, rest, ListFrom(s, p, acc).pos);
      ItemsInOrder(s, q, v.pos, next, t, sep, rest, ListFrom(s, p, acc).pos);
      ItemsMean(acc, t, sep, rest);
    }
  }

  // ----- Dictionaries -----

  lemma {:induction false} DictHere(s: string, q: nat) returns (t: Tree)
    requires q < |s| && s[q] == '{' && DictFrom(s, SkipBlanks(s, q + 1), map[]).Ok?
    ensures var r := DictFrom(s, SkipBlanks(s, q + 1), map[]); Spells(s, q, "", t, r.pos) && r.value == Meaning(t)
    decreases |s| - q, 3
  {
    hide *;
    var first := SkipBlanks(s, q + 1);
    var open := s[q + 1..first];
    SkippedBlanks(s, q + 1);
    var lead, entries := EntriesTaken(s, first, map[]);
    SkipTwice(s, q + 1);
    NothingSkipped(s, first);
    t := TDict(open, entries);
    DictSpells(s, q, first, open, entries, DictFrom(s, first, map[]).pos);
    DictMeaning(open, entries);
  }

  lemma DictMeaning(open: string, entries: seq<Entry>)
    ensures Meaning(TDict(open, entries)) == Dict(Behind(map[], FirstWins(entries)))
  {
    OntoNothing(FirstWins(entries));
  }

  lemma DictSpells(s: string, q: nat, first: nat, open: string, entries: seq<Entry>, e: nat)
    requires q < first <= e <= |s| && s[q] == '{' && open == s[q + 1..first] && Blanks(open) && EntriesOk(entries)
    requires s[first..e] == "" + ShowEntries(entries) + "}"
    ensures Spells(s, q, "", TDict(open, entries), e)
  {
    hide EntriesOk, ShowEntries;
    Glue(s, q, q + 1, e);
    Glue(s, q + 1, first, e);
    One(s, q);
    assert "" + Show(TDict(open, entries)) == "{" + (open + ("" + ShowEntries(entries) + "}"));
  }

  /** An entry, from its key to the end of its value. */
  lemma {:induction false} EntryTaken(s: string, p: nat, sep: Sep) returns (e: Entry)
    requires p <= |s| && ReadPair(s, p).Ok? && At(s, ReadPair(s, p).pos) != '-'
    ensures var r := ReadPair(s, p);
            && p <= r.pos <= |s| && s[p..r.pos] == ShowEntry(e) && r.value == (e.key, MeaningEntry(e)) && e.sep == sep
    ensures EntryOk(e)
    decreases |s| - p, 5
  {
    hide ReadRaw, SkipBlanks, ParseValue, RawOk, Spells, Show, ShowEntry, Meaning;
    var key, a := ReadRaw(s, p).value, ReadRaw(s, p).pos;
    var colon := SkipBlanks(s, a);
    var b := SkipBlanks(s, colon + 1);
    StringTaken(s, p);
    SkippedBlanks(s, a);
    SkippedBlanks(s, colon + 1);
    SkipTwice(s, colon + 1);
    Progress(s, b);
    var none, t := TreeTaken(s, b);
    NothingSkipped(s, b);
    e := Entry(key, s[a..colon], s[colon + 1..b], t, sep);
    EntrySpelled(s, p, a, colon, b, ReadPair(s, p).pos, e);
  }

  lemma EntrySpelled(s: string, p: nat, a: nat, colon: nat, b: nat, end: nat, e: Entry)
    requires p <= a <= colon < b <= end <= |s| && s[p..a] == Quoted(e.key) && s[a..colon] == e.beforeColon
    requires At(s, colon) == ':' && s[colon + 1..b] == e.afterColon && Spells(s, b, "", e.tree, end)
    requires e.key != "" && RawOk(e.key) && Blanks(e.beforeColon) && Blanks(e.afterColon)
    ensures s[p..end] == ShowEntry(e) && MeaningEntry(e) == Meaning(e.tree) && EntryOk(e)
  {
    hide *;
    Glue(s, p, a, end);
    Glue(s, a, colon, end);
    Glue(s, colon, colon + 1, end);
    Glue(s, colon + 1, b, end);
    PointAt(s, colon, ':');
    One(s, colon);
    SpelledText(s, b, "", e.tree, end);
    EntryIs(e);
    EntryFine(s, b, end, e);
  }

  lemma PointAt(s: string, p: nat, c: char)
    requires At(s, p) == c != '\0'
    ensures p < |s| && s[p] == c
  {}

  lemma EntryIs(e: Entry)
    ensures Quoted(e.key) + (e.beforeColon + (":" + (e.afterColon + ("" + Show(e.tree))))) == ShowEntry(e)
  {
    hide Show;
  }

  lemma EntryFine(s: string, p: nat, end: nat, e: Entry)
    requires e.key != "" && RawOk(e.key) && Blanks(e.beforeColon) && Blanks(e.afterColon)
    requires Spells(s, p, "", e.tree, end)
    ensures MeaningEntry(e) == Meaning(e.tree) && EntryOk(e)
  {}

  lemma EntriesJoined(s: string, p: nat, q: nat, a: nat, next: nat, lead: string, e: Entry, rest: seq<Entry>, end: nat)
    requires p <= q <= a <= next <= end <= |s| && s[p..q] == lead && s[q..a] == ShowEntry(e)
    requires s[a..next] + e.sep.after == ShowSep(e.sep) && s[next..end] == e.sep.after + ShowEntries(rest) + "}"
    ensures s[p..end] == lead + ShowEntries([e] + rest) + "}"
  {
    Glue(s, p, q, end);
    Glue(s, q, a, end);
    Glue(s, a, next, end);
    var entries := [e] + rest;
    assert entries[1..] == rest;
    var shown, more := ShowEntry(e), ShowEntries(rest);
    assert ShowEntries(entries) == shown + ShowSep(e.sep) + more;
    hide ShowEntry, ShowEntries, ShowSep;
    Regroup(lead, shown, s[a..next], e.sep.after, more, "}");
    assert "" + shown == shown;
  }

  lemma EntriesInOrder(e: Entry, rest: seq<Entry>)
    requires EntryOk(e) && SepOk(e.sep) && EntriesOk(rest) && (rest == [] ==> e.sep.after == "")
    ensures EntriesOk([e] + rest)
  {
    assert ([e] + rest)[1..] == rest;
  }

  lemma NoEntriesTaken(s: string, p: nat, acc: map<string, Json>) returns (lead: string)
    requires p <= |s| && At(s, p) == '}'
    ensures lead == "" == s[p..SkipBlanks(s, p)] && p < |s| && s[p..p + 1] == lead + ShowEntries([]) + "}"
    ensures Behind(acc, FirstWins([])) == acc && Blanks(lead) && EntriesOk([])
  {
    lead := "";
  }

  /** The dictionary loop has taken blanks, entries and the closing brace. */
  lemma {:induction false} EntriesTaken(s: string, p: nat, acc: map<string, Json>)
    returns (lead: string, entries: seq<Entry>)
    requires p <= |s| && DictFrom(s, p, acc).Ok?
    ensures var r := DictFrom(s, p, acc);
            && p <= r.pos <= |s| && s[p..r.pos] == lead + ShowEntries(entries) + "}"
            && r.value == Dict(Behind(acc, FirstWins(entries)))
    ensures Blanks(lead) && EntriesOk(entries) && lead == s[p..SkipBlanks(s, p)] && (entries == [] ==> lead == "")
    decreases |s| - p, 6
  {
    hide *;
    DictStep(s, p, acc);
    if At(s, p) == '}' {
      entries := [];
      lead := NoEntriesTaken(s, p, acc);
    } else {
      EntryInside(s, p, acc);
      var q := SkipBlanks(s, p);
      SkippedBlanks(s, p);
      lead := s[p..q];
      var pair := ReadPair(s, q);
      var next := AfterElement(s, pair.pos);
      var after, rest := EntriesTaken(s, next, InsertNew(acc, pair.value.0, pair.value.1));
      var sep := SepTaken(s, pair.pos, after);
      var e := EntryTaken(s, q, sep);
      entries := [e] + rest;
      EntriesJoined(s, p, q, pair.pos, next, lead, e, rest, DictFrom(s, p, acc).pos);
      EntriesInOrder(e, rest);
      NextBehind(acc, entries);
      assert entries[1..] == rest;
    }
  }

  // ----- Exactly the texts of trees -----

  /** A value is read from p to e if and only if the text there is that of blanks and a tree that is in order and ends
      there, and it is what the tree means; only a lone minus is read although it is no tree. */
  lemma ReadsExactlyTrees(s: string, p: nat, v: Json, e: nat)
    requires p <= |s| && !LoneMinus(s, SkipBlanks(s, p))
    ensures ParseValue(s, p) == Ok(v, e) <==> exists lead, t :: Spells(s, p, lead, t, e) && v == Meaning(t)
  {
    if ParseValue(s, p) == Ok(v, e) {
      var lead, t := TreeTaken(s, p);
    }
    if lead, t :| Spells(s, p, lead, t, e) && v == Meaning(t) {
      SpelledRead(s, p, lead, t, e);
    }
  }

  lemma SpelledRead(s: string, p: nat, lead: string, t: Tree, e: nat)
    requires Spells(s, p, lead, t, e)
    ensures ParseValue(s, p) == Ok(Meaning(t), e)
  {
    hide ParseValue, TreeOk, Show, Ended, SkipBlanks;
    var q := p + |lead|;
    assert Here(s, p, lead + Show(t));
    HereSplit(s, p, lead, Show(t));
    TreeBegins(s, q, t);
    SkipRun(s, p, lead);
    TreeRead(s, q, t);
    SkipFirst(s, p);
  }

  lemma SkipFirst(s: string, p: nat)
    requires p <= |s|
    ensures ParseValue(s, p) == ParseValue(s, SkipBlanks(s, p))
  {
    SkipTwice(s, p);
  }

  /** A minus without a digit behind it reads as 0, and takes nothing. */
  lemma LoneMinusRead(s: string, p: nat)
    requires p <= |s| && LoneMinus(s, SkipBlanks(s, p))
    ensures ParseValue(s, p) == Ok(Int(0), SkipBlanks(s, p))
  {
    hide SkipBlanks;
    Cases(s, p);
  }

  /** Of the entries with a key the first gives it its value, and there are no other keys. */
  lemma {:induction false} FirstCounts(entries: seq<Entry>, i: nat)
    requires i < |entries| && forall j :: 0 <= j < i ==> entries[j].key != entries[i].key
    ensures entries[i].key in FirstWins(entries) && FirstWins(entries)[entries[i].key] == Meaning(entries[i].tree)
  {
    if i > 0 {
      assert entries[0].key != entries[i].key;
      assert forall j :: 0 <= j < i - 1 ==> entries[1..][j] == entries[j + 1];
      FirstCounts(entries[1..], i - 1);
    }
  }

  lemma {:induction false} NoOtherKeys(entries: seq<Entry>, key: string)
    requires key in FirstWins(entries)
    ensures exists i :: 0 <= i < |entries| && entries[i].key == key
  {
    if entries[0].key != key {
      NoOtherKeys(entries[1..], key);
      var i :| 0 <= i < |entries[1..]| && entries[1..][i].key == key;
      assert entries[i + 1].key == key;
    }
  }

  // ----- Exactly what is printed -----

  /** The parts with the separator between each and the next. */
  function Join(sep: string, parts: seq<string>): string {
    if parts == [] then "" else if |parts| == 1 then parts[0]
    else Join(sep, parts[..|parts| - 1]) + sep + parts[|parts| - 1]
  }

  lemma {:induction false} JoinFront(sep: string, part: string, parts: seq<string>)
    requires parts != []
    ensures Join(sep, [part] + parts) == part + sep + Join(sep, parts)
  {
    var all, n := [part] + parts, |parts| - 1;
    assert all[..n + 1] == [part] + parts[..n];
    if n > 0 { JoinFront(sep, part, parts[..n]); }
  }

  lemma {:induction false} PrintedItems(items: seq<Doc>)
    ensures PrintItems(items) == Join(",", seq(|items|, i requires 0 <= i < |items| => Print(items[i])))
  {
    var parts := seq(|items|, i requires 0 <= i < |items| => Print(items[i]));
    if |items| > 1 {
      var rest := items[1..];
      var more := seq(|rest|, i requires 0 <= i < |rest| => Print(rest[i]));
      PrintedItems(rest);
      assert parts == [Print(items[0])] + more;
      JoinFront(",", Print(items[0]), more);
    }
  }

  function KeyAndText(pair: (string, Doc)): string { "\"" + pair.0 + "\":" + Print(pair.1) }

  lemma {:induction false} PrintedPairs(pairs: seq<(string, Doc)>)
    ensures PrintPairs(pairs) == Join(", ", seq(|pairs|, i requires 0 <= i < |pairs| => KeyAndText(pairs[i])))
  {
    var parts := seq(|pairs|, i requires 0 <= i < |pairs| => KeyAndText(pairs[i]));
    if pairs != [] { assert PrintPair(pairs[0]) == KeyAndText(pairs[0]); }
    if |pairs| > 1 {
      var rest := pairs[1..];
      var more := seq(|rest|, i requires 0 <= i < |rest| => KeyAndText(rest[i]));
      PrintedPairs(rest);
      assert parts == [KeyAndText(pairs[0])] + more;
      JoinFront(", ", KeyAndText(pairs[0]), more);
    }
  }

  /** An integer is printed as its sign and its digits, without zeros ahead. */
  lemma PrintedInt(i: int) returns (digits: string)
    ensures Print(DInt(i)) == Sign(i < 0) + digits && digits != "" && Decimal(digits)
    ensures Number(digits, 0) == (if i < 0 then -i else i) && (|digits| > 1 ==> digits[0] != '0')
  {
    var n := if i < 0 then -i else i;
    digits := Digits(n);
    DigitsBack(n);
    NumberIs(digits);
    NoZeroAhead(n);
  }

  lemma {:induction false} NoZeroAhead(n: nat)
    ensures n > 0 ==> Digits(n)[0] != '0'
    ensures |Digits(n)| > 1 ==> n > 0
  {
    if n >= 10 { NoZeroAhead(n / 10); }
  }

  /** The texts of the documents that are not numbers. */
  lemma PrintedDocument(d: Doc)
    ensures d.DNull? ==> Print(d) == "null"
    ensures d.DStr? ==> Print(d) == "\"" + d.s + "\""
    ensures d.DList? ==>
              Print(d) == "[" + Join(",", seq(|d.items|, i requires 0 <= i < |d.items| => Print(d.items[i]))) + "]"
    ensures d.DDict? ==>
              Print(d) ==
              "{" + Join(", ", seq(|d.pairs|, i requires 0 <= i < |d.pairs| => KeyAndText(d.pairs[i]))) + "}"
  {
    if d.DList? { PrintedItems(d.items); }
    if d.DDict? { PrintedPairs(d.pairs); }
  }
}
