/** The parser of src/jsontype/details/jsontype.cpp reads the text of every tree that is in order, with its meaning. */
module JsonSound {
  import opened JsonGrammar
  import opened JsonPrinter
  import opened JsonLocality
  import opened JsonSyntax

  // ----- Blanks -----

  lemma {:induction false} SkipRun(s: string, p: nat, b: string)
    requires Here(s, p, b) && Blanks(b) && !IsBlank(At(s, p + |b|))
    ensures SkipBlanks(s, p) == p + |b|
    decreases |b|
  {
    if b != "" {
      HereChar(s, p, b, 0);
      HereSplit(s, p, [b[0]], b[1..]);
      assert b == [b[0]] + b[1..];
      SkipRun(s, p + 1, b[1..]);
    }
  }

  // ----- Numbers -----

  lemma DigitIs(c: char)
    ensures IsDigit(c) ==> Ordinal(c) == Digit(c)
  {}

  lemma {:induction false} NumberPush(d: string, n: nat, c: char)
    ensures Number(d + [c], n) == Number(d, n) * 10 + Ordinal(c)
    decreases |d|
  {
    if d == "" {
      assert (d + [c])[1..] == "";
    } else {
      NumberPush(d[1..], n * 10 + Ordinal(d[0]), c);
      assert (d + [c])[1..] == d[1..] + [c];
    }
  }

  lemma {:induction false} NumberIs(d: string)
    requires Decimal(d)
    ensures Number(d, 0) == DigitsValue(d)
  {
    if d != "" {
      var m := |d| - 1;
      NumberIs(d[..m]);
      NumberPush(d[..m], 0, d[m]);
      DigitIs(d[m]);
      assert d[..m] + [d[m]] == d;
    }
  }

  /** Digits are read up to the first other character. */
  lemma DigitsRun(s: string, p: nat, d: string)
    requires Here(s, p, d) && Decimal(d) && !IsDigit(At(s, p + |d|))
    ensures DigitsEnd(s, p) == p + |d| && s[p .. p + |d|] == d
  {
    forall i | p <= i < p + |d| ensures IsDigit(s[i]) { HereChar(s, p, d, i - p); }
    DigitsStop(s, p, p + |d|);
  }

  lemma SignRead(s: string, p: nat, neg: bool, digits: string)
    requires Here(s, p, Sign(neg) + digits) && digits != "" && Decimal(digits)
    requires !IsDigit(At(s, p + |Sign(neg) + digits|))
    ensures p < |s| && (IsDigit(s[p]) || s[p] == '-') && (s[p] == '-' <==> neg)
    ensures StrToL(s, p) == (Saturated(neg, Number(digits, 0)), p + |Sign(neg) + digits|)
  {
    hide DigitsEnd, DigitsValue, Here, Number;
    HereSplit(s, p, Sign(neg), digits);
    var start := p + |Sign(neg)|;
    HereChar(s, start, digits, 0);
    if neg { HereChar(s, p, "-", 0); }
    DigitsRun(s, start, digits);
    NumberIs(digits);
  }

  lemma IntRead(s: string, p: nat, neg: bool, digits: string)
    requires TreeOk(TInt(neg, digits)) && Here(s, p, Sign(neg) + digits)
    requires Ended(s, p + |Sign(neg) + digits|, TInt(neg, digits))
    ensures ParseValue(s, p) == Ok(Meaning(TInt(neg, digits)), p + |Sign(neg) + digits|)
  {
    hide ParseValue, StrToL;
    SignRead(s, p, neg, digits);
    NumberValue(s, p);
  }

  /** What strtod takes behind the decimal point if there is no exponent. */
  lemma PlainFraction(s: string, dot: nat, fraction: string)
    requires dot < |s| && Here(s, dot + 1, fraction) && Decimal(fraction)
    requires var e := dot + 1 + |fraction|; !IsDigit(At(s, e)) && !WholeExponent(s, e)
    ensures DoubleEnd(s, dot) == dot + 1 + |fraction|
  {
    hide DigitsEnd;
    DigitsRun(s, dot + 1, fraction);
  }

  lemma ExponentParts(s: string, f: nat, letter: char, sign: string, digits: string)
    requires ExpOk(Exp(letter, sign, digits)) && Here(s, f, [letter] + sign + digits)
    ensures At(s, f) == letter && Here(s, f + 1 + |sign|, digits)
    ensures sign != "" ==> At(s, f + 1) == sign[0]
    ensures IsDigit(At(s, f + 1 + |sign|))
  {
    HereSplit(s, f, [letter] + sign, digits);
    HereSplit(s, f, [letter], sign);
    HereChar(s, f, [letter], 0);
    HereChar(s, f + 1 + |sign|, digits, 0);
    if sign != "" { HereChar(s, f + 1, sign, 0); }
  }

  /** What it takes if there is one. */
  lemma FractionAndExponent(s: string, dot: nat, fraction: string, letter: char, sign: string, digits: string)
    requires dot < |s| && Decimal(fraction) && ExpOk(Exp(letter, sign, digits))
    requires Here(s, dot + 1, fraction) && Here(s, dot + 1 + |fraction|, [letter] + sign + digits)
    requires !IsDigit(At(s, dot + 1 + |fraction| + |[letter] + sign + digits|))
    ensures DoubleEnd(s, dot) == dot + 1 + |fraction| + |[letter] + sign + digits|
  {
    hide DigitsEnd, Here;
    var f := dot + 1 + |fraction|;
    ExponentParts(s, f, letter, sign, digits);
    DigitsRun(s, dot + 1, fraction);
    DigitsRun(s, f + 1 + |sign|, digits);
  }

  lemma FractionRead(s: string, dot: nat, fraction: string, exp: Exp)
    requires dot < |s| && Here(s, dot + 1, fraction + ShowExp(exp)) && Decimal(fraction) && ExpOk(exp)
    requires var e := dot + 1 + |fraction + ShowExp(exp)|;
             !IsDigit(At(s, e)) && (exp.NoExp? ==> !WholeExponent(s, e))
    ensures DoubleEnd(s, dot) == dot + 1 + |fraction + ShowExp(exp)|
  {
    hide DoubleEnd, Here;
    HereSplit(s, dot + 1, fraction, ShowExp(exp));
    match exp
    case NoExp => PlainFraction(s, dot, fraction);
    case Exp(letter, sign, digits) => FractionAndExponent(s, dot, fraction, letter, sign, digits);
  }

  /** The parts of a double. */
  lemma DoubleParts(s: string, p: nat, neg: bool, digits: string, fraction: string, exp: Exp)
    requires Here(s, p, ShowDouble(neg, digits, fraction, exp))
    ensures var dot := p + |Sign(neg) + digits|;
            && Here(s, p, Sign(neg) + digits) && dot < |s| && At(s, dot) == '.'
            && Here(s, dot + 1, fraction + ShowExp(exp))
            && p + |ShowDouble(neg, digits, fraction, exp)| == dot + 1 + |fraction + ShowExp(exp)| <= |s|
            && s[p .. p + |ShowDouble(neg, digits, fraction, exp)|] == ShowDouble(neg, digits, fraction, exp)
  {
    hide *;
    var whole, behind := Sign(neg) + digits, fraction + ShowExp(exp);
    DoubleIs(neg, digits, fraction, exp);
    HereText(s, p, ShowDouble(neg, digits, fraction, exp));
    HereSplit(s, p, whole, "." + behind);
    HereSplit(s, p + |whole|, ".", behind);
    HereChar(s, p + |whole|, ".", 0);
  }

  lemma DoubleIs(neg: bool, digits: string, fraction: string, exp: Exp)
    ensures ShowDouble(neg, digits, fraction, exp) == (Sign(neg) + digits) + ("." + (fraction + ShowExp(exp)))
  {
    hide Sign, ShowExp;
  }

  lemma HereText(s: string, p: nat, t: string)
    requires Here(s, p, t)
    ensures p + |t| <= |s| && s[p .. p + |t|] == t
  {}

  lemma PointRead(s: string, p: nat, dot: nat, e: nat, text: string)
    requires p <= dot < e <= |s| && (IsDigit(s[p]) || s[p] == '-') && StrToL(s, p).1 == dot && At(s, dot) == '.'
    requires DoubleEnd(s, dot) == e && s[p..e] == text
    ensures ParseValue(s, p) == Ok(Double(text), e)
  {
    hide ParseValue, StrToL, DoubleEnd;
    NumberValue(s, p);
  }

  lemma DoubleRead(s: string, p: nat, neg: bool, digits: string, fraction: string, exp: Exp)
    requires digits != "" && Decimal(digits) && Decimal(fraction) && ExpOk(exp)
    requires Here(s, p, ShowDouble(neg, digits, fraction, exp))
    requires Ended(s, p + |ShowDouble(neg, digits, fraction, exp)|, TDouble(neg, digits, fraction, exp))
    ensures ParseValue(s, p) ==
            Ok(Meaning(TDouble(neg, digits, fraction, exp)), p + |ShowDouble(neg, digits, fraction, exp)|)
  {
    hide *;
    var text := ShowDouble(neg, digits, fraction, exp);
    DoubleParts(s, p, neg, digits, fraction, exp);
    var whole := Sign(neg) + digits;
    var dot := p + |whole|;
    assert !IsDigit(At(s, dot)) by { PointIsNoDigit(s, dot); }
    SignRead(s, p, neg, digits);
    EndedDouble(s, p + |text|, neg, digits, fraction, exp);
    FractionRead(s, dot, fraction, exp);
    PointRead(s, p, dot, p + |text|, text);
    MeaningOfDouble(neg, digits, fraction, exp);
  }

  lemma PointIsNoDigit(s: string, dot: nat)
    requires At(s, dot) == '.'
    ensures !IsDigit(At(s, dot))
  {}

  lemma EndedDouble(s: string, e: nat, neg: bool, digits: string, fraction: string, exp: Exp)
    requires Ended(s, e, TDouble(neg, digits, fraction, exp))
    ensures !IsDigit(At(s, e)) && (exp.NoExp? ==> !WholeExponent(s, e))
  {}

  lemma MeaningOfDouble(neg: bool, digits: string, fraction: string, exp: Exp)
    ensures Meaning(TDouble(neg, digits, fraction, exp)) == Double(ShowDouble(neg, digits, fraction, exp))
  {}

  // ----- Trees -----

  /** A tree begins with none of the characters a loop of the parser looks for. */
  lemma ShowBegins(t: Tree)
    requires TreeOk(t)
    ensures |Show(t)| > 0
    ensures var c := Show(t)[0]; !IsBlank(c) && c != '\0' && c != ']' && c != '}' && c != ',' && c != ':'
    ensures var c := Show(t)[0]; c != '.' && c != 'e' && c != 'E' && (IsDigit(c) <==> IsNumber(t) && !t.neg)
  {
    if t.TInt? && !t.neg { assert Show(t)[0] == t.digits[0]; }
    if t.TDouble? && !t.neg { assert Show(t)[0] == t.digits[0]; }
  }

  /** The parts of the text of a list. */
  lemma ItemParts(s: string, p: nat, items: seq<Item>)
    requires items != [] && Here(s, p, ShowItems(items))
    ensures var sep := items[0].sep;
            var a := p + |ShowItem(items[0])|;
            var b := a + |sep.before|;
            var c := b + |Comma(sep)|;
            && Here(s, p, ShowItem(items[0])) && Here(s, a, sep.before) && Here(s, b, Comma(sep))
                  && Here(s, c, sep.after)
            && Here(s, c + |sep.after|, ShowItems(items[1..]))
            && p + |ShowItems(items)| == c + |sep.after| + |ShowItems(items[1..])|
  {
    hide ShowItem, Here;
    var sep := items[0].sep;
    var x := ShowItem(items[0]);
    HereSplit(s, p, x + ShowSep(sep), ShowItems(items[1..]));
    HereSplit(s, p, x, ShowSep(sep));
    HereSplit(s, p + |x|, sep.before + Comma(sep), sep.after);
    HereSplit(s, p + |x|, sep.before, Comma(sep));
  }

  lemma EntryParts(s: string, p: nat, entries: seq<Entry>)
    requires entries != [] && Here(s, p, ShowEntries(entries))
    ensures var sep := entries[0].sep;
            var a := p + |ShowEntry(entries[0])|;
            var b := a + |sep.before|;
            var c := b + |Comma(sep)|;
            && Here(s, p, ShowEntry(entries[0])) && Here(s, a, sep.before) && Here(s, b, Comma(sep))
                  && Here(s, c, sep.after)
            && Here(s, c + |sep.after|, ShowEntries(entries[1..]))
            && p + |ShowEntries(entries)| == c + |sep.after| + |ShowEntries(entries[1..])|
  {
    hide ShowEntry, Here;
    var sep := entries[0].sep;
    var x := ShowEntry(entries[0]);
    HereSplit(s, p, x + ShowSep(sep), ShowEntries(entries[1..]));
    HereSplit(s, p, x, ShowSep(sep));
    HereSplit(s, p + |x|, sep.before + Comma(sep), sep.after);
    HereSplit(s, p + |x|, sep.before, Comma(sep));
  }

  /** Behind an element the parser skips the blanks before the comma, and the comma, and no more. */
  lemma SepRead(s: string, a: nat, sep: Sep)
    requires SepOk(sep) && Here(s, a, sep.before) && Here(s, a + |sep.before|, Comma(sep))
    requires var c := At(s, a + |sep.before|); sep.comma || (!IsBlank(c) && c != ',')
    ensures AfterElement(s, a) == a + |sep.before| + |Comma(sep)|
  {
    if sep.comma { HereChar(s, a + |sep.before|, ",", 0); }
    SkipRun(s, a, sep.before);
  }

  lemma Shift<T>(a: seq<T>, x: T, b: seq<T>)
    ensures (a + [x]) + b == a + ([x] + b)
  {}

  // ----- The text of a tree reads as its meaning -----

  lemma {:induction false} TreeRead(s: string, p: nat, t: Tree)
    requires TreeOk(t) && Here(s, p, Show(t)) && Ended(s, p + |Show(t)|, t)
    ensures ParseValue(s, p) == Ok(Meaning(t), p + |Show(t)|)
    decreases t, 0
  {
    match t
    case TNull => WordRead(s, p, "null");
    case TBool(b) => WordRead(s, p, if b then "true" else "false");
    case TInt(neg, digits) => IntRead(s, p, neg, digits);
    case TDouble(neg, digits, fraction, exp) => DoubleRead(s, p, neg, digits, fraction, exp);
    case TStr(str) =>
      assert Show(t) == Quoted(str);
      QuotedChars(s, p, str);
      RawIff(s, p, str);
      StringValue(s, p, str, p + |str| + 2);
    case TList(open, items) => ListRead(s, p, open, items);
    case TDict(open, entries) => DictRead(s, p, open, entries);
  }

  lemma WordRead(s: string, p: nat, word: string)
    requires word == "null" || word == "true" || word == "false"
    requires Here(s, p, word)
    ensures ParseValue(s, p) == Ok(if word == "null" then Null else Bool(word == "true"), p + |word|)
  {
    hide ParseValue;
    HereChar(s, p, word, 0);
    assert SkipBlanks(s, p) == p;
    Cases(s, p);
  }

  lemma ListRead(s: string, p: nat, open: string, items: seq<Item>)
    requires Blanks(open) && ItemsOk(items) && Here(s, p, "[" + open + ShowItems(items) + "]")
    ensures ParseValue(s, p) == Ok(List(MeaningItems(items)), p + |"[" + open + ShowItems(items) + "]"|)
    decreases items, 2
  {
    hide ParseValue, ListFrom, Here, ShowItems, ItemsOk, MeaningItems;
    BracketParts(s, p, "[", open, ShowItems(items), "]");
    var first := p + 1 + |open|;
    ItemsBegin(s, first, items);
    SkipRun(s, p + 1, open);
    NoBlank(s, p);
    Cases(s, p);
    ItemsRead(s, first, "", items, []);
    assert [] + MeaningItems(items) == MeaningItems(items);
  }

  lemma NoBlank(s: string, p: nat)
    requires p <= |s| && !IsBlank(At(s, p))
    ensures SkipBlanks(s, p) == p
  {}

  /** The parts of a bracketed text. */
  lemma BracketParts(s: string, p: nat, left: string, open: string, text: string, right: string)
    requires |left| == |right| == 1 && Here(s, p, left + open + text + right)
    ensures p < |s| && At(s, p) == left[0] && Here(s, p + 1, open) && Here(s, p + 1 + |open|, text)
    ensures At(s, p + 1 + |open| + |text|) == right[0] && p + 1 + |open| + |text| < |s|
    ensures Here(s, p + 1 + |open|, "")
  {
    HereSplit(s, p, left + open + text, right);
    HereSplit(s, p, left + open, text);
    HereSplit(s, p, left, open);
    HereChar(s, p, left, 0);
    HereChar(s, p + 1 + |open| + |text|, right, 0);
  }

  /** What stands where the elements of a list begin. */
  lemma ItemsBegin(s: string, p: nat, items: seq<Item>)
    requires ItemsOk(items) && Here(s, p, ShowItems(items)) && At(s, p + |ShowItems(items)|) == ']'
    ensures !IsBlank(At(s, p)) && At(s, p) != '\0' && At(s, p) != ',' && (items != [] ==> At(s, p) != ']')
    ensures items != [] ==> |Show(items[0].tree)| > 0 && At(s, p) == Show(items[0].tree)[0]
  {
    if items != [] {
      ItemParts(s, p, items);
      ShowBegins(items[0].tree);
      HereChar(s, p, ShowItem(items[0]), 0);
    }
  }

  lemma LeadBegins(s: string, p: nat, lead: string)
    requires Blanks(lead) && Here(s, p, lead)
    ensures lead != "" ==> At(s, p) != ']' && At(s, p) != '}' && At(s, p) != '\0'
  {
    if lead != "" { HereChar(s, p, lead, 0); }
  }

  lemma PunctuationEnds(s: string, e: nat, t: Tree)
    requires var c := At(s, e); IsBlank(c) || c == ',' || c == ']' || c == '}' || c == '"'
    ensures Ended(s, e, t)
  {}

  lemma TreeEnds(s: string, e: nat, t: Tree, u: Tree)
    requires TreeOk(u) && |Show(u)| > 0 && At(s, e) == Show(u)[0] && !Glued(t, u)
    ensures Ended(s, e, t)
  {
    hide Show;
    ShowBegins(u);
  }

  /** One step into the conditions on lists. */
  lemma ItemsOkStep(items: seq<Item>)
    requires items != [] && ItemsOk(items)
    ensures ItemOk(items[0]) && TreeOk(items[0].tree) && SepOk(items[0].sep) && ItemsOk(items[1..])
    ensures items[1..] == [] ==> items[0].sep.after == ""
    ensures items[1..] != [] ==> TreeOk(items[1..][0].tree) && items[1..][0] == items[1]
    ensures items[1..] != [] && Glued(items[0].tree, items[1].tree) ==> ShowSep(items[0].sep) != ""
  {
    hide TreeOk;
    if items[1..] != [] { assert items[1..][0] == items[1] && ItemOk(items[1..][0]); }
  }

  lemma SepFacts(sep: Sep)
    requires SepOk(sep)
    ensures Blanks(sep.before) && Blanks(sep.after) && (sep.comma || sep.after == "")
    ensures Comma(sep) == if sep.comma then "," else ""
    ensures sep.before == "" && !sep.comma ==> ShowSep(sep) == ""
  {}

  lemma BlankHere(s: string, p: nat, b: string)
    requires Blanks(b) && Here(s, p, b) && b != ""
    ensures IsBlank(At(s, p))
  {
    HereChar(s, p, b, 0);
  }

  /** What separates an element from the next, or from the bracket, does not prolong it. */
  lemma EndedBySep(s: string, e: nat, items: seq<Item>)
    requires items != [] && ItemsOk(items) && Here(s, e, items[0].sep.before)
    requires var sep, b := items[0].sep, e + |items[0].sep.before|;
             && Here(s, b, Comma(sep)) && Here(s, b + |Comma(sep)|, sep.after)
             && Here(s, b + |Comma(sep)| + |sep.after|, ShowItems(items[1..]))
             && At(s, b + |Comma(sep)| + |sep.after| + |ShowItems(items[1..])|) == ']'
    ensures Ended(s, e, items[0].tree)
  {
    hide *;
    var sep, rest := items[0].sep, items[1..];
    ItemsOkStep(items);
    SepFacts(sep);
    if sep.before != "" {
      BlankHere(s, e, sep.before);
      PunctuationEnds(s, e, items[0].tree);
    } else if sep.comma {
      HereChar(s, e, ",", 0);
      PunctuationEnds(s, e, items[0].tree);
    } else {
      ItemsBegin(s, e, rest);
      if rest == [] {
        NoItems(rest);
        PunctuationEnds(s, e, items[0].tree);
      } else {
        TreeEnds(s, e, items[0].tree, rest[0].tree);
      }
    }
  }

  lemma NoItems(items: seq<Item>)
    requires items == []
    ensures ShowItems(items) == "" && MeaningItems(items) == []
  {}

  lemma ItemRead(s: string, p: nat, i: Item)
    requires ItemOk(i) && Here(s, p, ShowItem(i)) && Ended(s, p + |ShowItem(i)|, i.tree)
    ensures ParseValue(s, p) == Ok(MeaningItem(i), p + |ShowItem(i)|)
    decreases i, 1
  {
    TreeRead(s, p, i.tree);
  }

  lemma ItemBegins(s: string, p: nat, i: Item)
    requires ItemOk(i) && Here(s, p, ShowItem(i))
    ensures |ShowItem(i)| > 0 && p + |ShowItem(i)| <= |s|
  {
    ShowBegins(i.tree);
  }

  /** An element and what separates it from the next. */
  lemma ItemAndSep(s: string, p: nat, items: seq<Item>)
    requires items != [] && ItemsOk(items) && Here(s, p, ShowItems(items)) && At(s, p + |ShowItems(items)|) == ']'
    ensures var e, sep := p + |ShowItem(items[0])|, items[0].sep;
            && p < e <= |s| && ParseValue(s, p) == Ok(MeaningItem(items[0]), e)
            && var next := AfterElement(s, e);
               && Here(s, next, sep.after) && Here(s, next + |sep.after|, ShowItems(items[1..]))
               && p + |ShowItems(items)| == next + |sep.after| + |ShowItems(items[1..])|
    ensures ItemsOk(items[1..]) && Blanks(items[0].sep.after) && (items[1..] == [] ==> items[0].sep.after == "")
    decreases items, 0
  {
    hide *;
    var e, sep := p + |ShowItem(items[0])|, items[0].sep;
    ItemsOkStep(items);
    SepFacts(sep);
    ItemParts(s, p, items);
    EndedBySep(s, e, items);
    ItemBegins(s, p, items[0]);
    ItemRead(s, p, items[0]);
    if !sep.comma { ItemsBegin(s, e + |sep.before|, items[1..]); }
    SepRead(s, e, sep);
  }

  lemma MeaningStep(items: seq<Item>)
    requires items != []
    ensures MeaningItems(items) == [MeaningItem(items[0])] + MeaningItems(items[1..])
  {}

  /** The loop of the list at p, with blanks ahead that stand behind a comma. */
  lemma {:induction false} ItemsRead(s: string, p: nat, lead: string, items: seq<Item>, acc: seq<Json>)
    requires ItemsOk(items) && Blanks(lead) && (items == [] ==> lead == "")
    requires Here(s, p, lead) && Here(s, p + |lead|, ShowItems(items))
    requires At(s, p + |lead| + |ShowItems(items)|) == ']'
    ensures p + |lead| + |ShowItems(items)| < |s|
    ensures ListFrom(s, p, acc) == Ok(List(acc + MeaningItems(items)), p + |lead| + |ShowItems(items)| + 1)
    decreases items, 1
  {
    hide *;
    if items == [] {
      NoItems(items);
      assert acc + [] == acc;
      InText(s, p);
      ListStep(s, p, acc);
    } else {
      var q := p + |lead|;
      var rest := items[1..];
      ItemsBegin(s, q, items);
      ItemAndSep(s, q, items);
      var next := AfterElement(s, q + |ShowItem(items[0])|);
      SkipRun(s, p, lead);
      LeadBegins(s, p, lead);
      ListStep(s, p, acc);
      ItemsRead(s, next, items[0].sep.after, rest, acc + [MeaningItem(items[0])]);
      MeaningStep(items);
      Shift(acc, MeaningItem(items[0]), MeaningItems(rest));
    }
  }

  lemma InText(s: string, p: nat)
    requires At(s, p) != '\0'
    ensures p < |s|
  {}

  // ----- Dictionaries -----

  lemma DictRead(s: string, p: nat, open: string, entries: seq<Entry>)
    requires Blanks(open) && EntriesOk(entries) && Here(s, p, "{" + open + ShowEntries(entries) + "}")
    ensures ParseValue(s, p) == Ok(Dict(FirstWins(entries)), p + |"{" + open + ShowEntries(entries) + "}"|)
    decreases entries, 2
  {
    hide ParseValue, DictFrom, Here, ShowEntries, EntriesOk, FirstWins;
    BracketParts(s, p, "{", open, ShowEntries(entries), "}");
    var first := p + 1 + |open|;
    EntriesBegin(s, first, entries);
    SkipRun(s, p + 1, open);
    NoBlank(s, p);
    Cases(s, p);
    EntriesRead(s, first, "", entries, map[]);
    OntoNothing(FirstWins(entries));
  }

  lemma EntriesBegin(s: string, p: nat, entries: seq<Entry>)
    requires EntriesOk(entries) && Here(s, p, ShowEntries(entries)) && At(s, p + |ShowEntries(entries)|) == '}'
    ensures At(s, p) == if entries == [] then '}' else '"'
  {
    if entries != [] {
      EntryParts(s, p, entries);
      KeyBegins(s, p, entries[0]);
    }
  }

  lemma KeyBegins(s: string, p: nat, e: Entry)
    requires Here(s, p, ShowEntry(e))
    ensures At(s, p) == '"'
  {
    HereChar(s, p, ShowEntry(e), 0);
  }

  /** The parts of the text of an entry. */
  lemma EntryText(s: string, p: nat, e: Entry)
    requires Here(s, p, ShowEntry(e))
    ensures var a := p + |e.key| + 2;
            var colon := a + |e.beforeColon|;
            && Here(s, p, Quoted(e.key)) && Here(s, a, e.beforeColon) && At(s, colon) == ':' && colon < |s|
            && Here(s, colon + 1, e.afterColon) && Here(s, colon + 1 + |e.afterColon|, Show(e.tree))
            && p + |ShowEntry(e)| == colon + 1 + |e.afterColon| + |Show(e.tree)|
  {
    hide Here, Show;
    var key, shown := Quoted(e.key), Show(e.tree);
    assert ShowEntry(e) == key + e.beforeColon + ":" + e.afterColon + shown;
    HereSplit(s, p, key + e.beforeColon + ":" + e.afterColon, shown);
    HereSplit(s, p, key + e.beforeColon + ":", e.afterColon);
    HereSplit(s, p, key + e.beforeColon, ":");
    HereSplit(s, p, key, e.beforeColon);
    HereChar(s, p + |key| + |e.beforeColon|, ":", 0);
  }

  lemma EntryRead(s: string, p: nat, e: Entry)
    requires EntryOk(e) && Here(s, p, ShowEntry(e)) && Ended(s, p + |ShowEntry(e)|, e.tree)
    ensures ReadPair(s, p) == Ok((e.key, MeaningEntry(e)), p + |ShowEntry(e)|)
    decreases e, 1
  {
    hide ReadRaw, ParseValue, Here, RawOk, Show, ShowEntry, Ended, Meaning;
    EntryText(s, p, e);
    var a := p + |e.key| + 2;
    var colon := a + |e.beforeColon|;
    var q := colon + 1 + |e.afterColon|;
    RawIff(s, p, e.key);
    SkipRun(s, a, e.beforeColon);
    TreeBegins(s, q, e.tree);
    SkipRun(s, colon + 1, e.afterColon);
    TreeRead(s, q, e.tree);
  }

  lemma TreeBegins(s: string, p: nat, t: Tree)
    requires TreeOk(t) && Here(s, p, Show(t))
    ensures !IsBlank(At(s, p))
  {
    ShowBegins(t);
    HereChar(s, p, Show(t), 0);
  }

  lemma EntriesOkStep(entries: seq<Entry>)
    requires entries != [] && EntriesOk(entries)
    ensures EntryOk(entries[0]) && SepOk(entries[0].sep) && EntriesOk(entries[1..])
    ensures entries[1..] == [] ==> entries[0].sep.after == ""
  {
    hide EntryOk;
  }

  lemma EntryEnded(s: string, e: nat, entries: seq<Entry>)
    requires entries != [] && EntriesOk(entries) && Here(s, e, entries[0].sep.before)
    requires var sep, b := entries[0].sep, e + |entries[0].sep.before|;
             && Here(s, b, Comma(sep)) && Here(s, b + |Comma(sep)|, sep.after)
             && Here(s, b + |Comma(sep)| + |sep.after|, ShowEntries(entries[1..]))
             && At(s, b + |Comma(sep)| + |sep.after| + |ShowEntries(entries[1..])|) == '}'
    ensures Ended(s, e, entries[0].tree)
  {
    hide *;
    var sep := entries[0].sep;
    EntriesOkStep(entries);
    SepFacts(sep);
    if sep.before != "" {
      BlankHere(s, e, sep.before);
    } else if sep.comma {
      HereChar(s, e, ",", 0);
    } else {
      EntriesBegin(s, e, entries[1..]);
    }
    PunctuationEnds(s, e, entries[0].tree);
  }

  lemma EntryInText(s: string, p: nat, e: Entry)
    requires Here(s, p, ShowEntry(e))
    ensures |ShowEntry(e)| > 0 && p + |ShowEntry(e)| <= |s|
  {}

  lemma QuoteIsNoBlank(c: char)
    requires c == '"' || c == '}'
    ensures !IsBlank(c)
  {}

  lemma EntryAndSep(s: string, p: nat, entries: seq<Entry>)
    requires entries != [] && EntriesOk(entries) && Here(s, p, ShowEntries(entries))
    requires At(s, p + |ShowEntries(entries)|) == '}'
    ensures var e, sep := p + |ShowEntry(entries[0])|, entries[0].sep;
            && p < e <= |s| && ReadPair(s, p) == Ok((entries[0].key, MeaningEntry(entries[0])), e)
            && var next := AfterElement(s, e);
               && Here(s, next, sep.after) && Here(s, next + |sep.after|, ShowEntries(entries[1..]))
               && p + |ShowEntries(entries)| == next + |sep.after| + |ShowEntries(entries[1..])|
    ensures EntriesOk(entries[1..]) && Blanks(entries[0].sep.after)
    ensures entries[1..] == [] ==> entries[0].sep.after == ""
    decreases entries, 0
  {
    hide *;
    var e, sep := p + |ShowEntry(entries[0])|, entries[0].sep;
    EntriesOkStep(entries);
    SepFacts(sep);
    EntryParts(s, p, entries);
    EntryEnded(s, e, entries);
    EntryInText(s, p, entries[0]);
    EntryRead(s, p, entries[0]);
    if !sep.comma {
      EntriesBegin(s, e + |sep.before|, entries[1..]);
      QuoteIsNoBlank(At(s, e + |sep.before|));
    }
    SepRead(s, e, sep);
  }

  /** Entries read behind others: those count first. */
  function Behind(acc: map<string, Json>, more: map<string, Json>): map<string, Json> {
    map key | key in acc.Keys + more.Keys :: if key in acc then acc[key] else more[key]
  }

  lemma OntoNothing(more: map<string, Json>)
    ensures Behind(map[], more) == more
  {}

  lemma NextBehind(acc: map<string, Json>, entries: seq<Entry>)
    requires entries != []
    ensures Behind(InsertNew(acc, entries[0].key, MeaningEntry(entries[0])), FirstWins(entries[1..])) ==
            Behind(acc, FirstWins(entries))
  {}

  /** The loop of the dictionary at p, with blanks ahead that stand behind a comma. */
  lemma {:induction false} EntriesRead(s: string, p: nat, lead: string, entries: seq<Entry>, acc: map<string, Json>)
    requires EntriesOk(entries) && Blanks(lead) && (entries == [] ==> lead == "")
    requires Here(s, p, lead) && Here(s, p + |lead|, ShowEntries(entries))
    requires At(s, p + |lead| + |ShowEntries(entries)|) == '}'
    ensures p + |lead| + |ShowEntries(entries)| < |s|
    ensures DictFrom(s, p, acc) ==
            Ok(Dict(Behind(acc, FirstWins(entries))), p + |lead| + |ShowEntries(entries)| + 1)
    decreases entries, 1
  {
    hide *;
    if entries == [] {
      NoEntries(acc, entries);
      InText(s, p);
      DictStep(s, p, acc);
    } else {
      var q := p + |lead|;
      EntriesBegin(s, q, entries);
      QuoteIsNoBlank(At(s, q));
      EntryAndSep(s, q, entries);
      var next := AfterElement(s, q + |ShowEntry(entries[0])|);
      SkipRun(s, p, lead);
      LeadBegins(s, p, lead);
      DictStep(s, p, acc);
      EntriesRead(s, next, entries[0].sep.after, entries[1..], InsertNew(acc, entries[0].key,
            MeaningEntry(entries[0])));
      NextBehind(acc, entries);
    }
  }

  lemma NoEntries(acc: map<string, Json>, entries: seq<Entry>)
    requires entries == []
    ensures ShowEntries(entries) == "" && Behind(acc, FirstWins(entries)) == acc
  {}
}
