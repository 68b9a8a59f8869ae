/** How far the parser of src/jsontype/details/jsontype.cpp gets, when it does not come back, and what it looks at. */
module JsonLocality {
  import opened JsonGrammar

  // ----- Single steps -----

  /** What ParseValue does with the first character behind the blanks. */
  lemma Cases(s: string, p: nat)
    requires p <= |s|
    ensures var q := SkipBlanks(s, p);
            var c, r := At(s, q), ParseValue(s, p);
            && (c == 'n' ==> r == if Matches(s, q, "null") then Ok(Null, q + 4) else Fail)
            && (c == 't' ==> r == if Matches(s, q, "true") then Ok(Bool(true), q + 4) else Fail)
            && (c == 'f' ==> r == if Matches(s, q, "false") then Ok(Bool(false), q + 5) else Fail)
            && (c == '"' ==> r == match ReadRaw(s, q) { case Ok(str, e) => Ok(Str(str), e) case _ => Fail })
            && (c == '[' ==> var first := SkipBlanks(s, q + 1);
                             r == if At(s, first) == '\0' then Fail else ListFrom(s, first, []))
            && (c == '{' ==> var first := SkipBlanks(s, q + 1);
                             r == if At(s, first) == '\0' then Fail else DictFrom(s, first, map[]))
            && (IsDigit(c) || c == '-' ==> r == ReadDigits(s, q))
            && (r.Ok? ==> c in "ntf\"[{-" || IsDigit(c))
  {}

  lemma ListStep(s: string, p: nat, items: seq<Json>)
    requires p <= |s|
    ensures At(s, p) == ']' ==> ListFrom(s, p, items) == Ok(List(items), p + 1)
    ensures At(s, p) == '\0' ==> ListFrom(s, p, items) == Fail
    ensures At(s, p) != ']' && At(s, p) != '\0' ==>
              var v := ParseValue(s, SkipBlanks(s, p));
              var next := if v.Ok? then AfterElement(s, v.pos) else p;
              && (!v.Ok? ==> ListFrom(s, p, items) == v)
              && (v.Ok? && next == p ==> ListFrom(s, p, items) == Stuck(p))
              && (v.Ok? && next != p ==> ListFrom(s, p, items) == ListFrom(s, next, items + [v.value]))
  {}

  lemma DictStep(s: string, p: nat, entries: map<string, Json>)
    requires p <= |s|
    ensures At(s, p) == '}' ==> DictFrom(s, p, entries) == Ok(Dict(entries), p + 1)
    ensures At(s, p) == '\0' ==> DictFrom(s, p, entries) == Fail
    ensures At(s, p) != '}' && At(s, p) != '\0' ==>
              var pair := ReadPair(s, SkipBlanks(s, p));
              && (pair.Fail? ==> DictFrom(s, p, entries) == Fail)
              && (pair.Stuck? ==> DictFrom(s, p, entries) == Stuck(pair.at))
              && (pair.Ok? ==> DictFrom(s, p, entries) ==
                               DictFrom(s, AfterElement(s, pair.pos), InsertNew(entries, pair.value.0, pair.value.1)))
  {}

  // ----- Progress -----

  /** A value advances the cursor over what stands behind the blanks, a lone minus alone excepted. */
  lemma Progress(s: string, p: nat)
    requires p <= |s| && ParseValue(s, p).Ok?
    ensures ParseValue(s, p).pos > SkipBlanks(s, p) <==> !LoneMinus(s, SkipBlanks(s, p))
  {}

  /** A list loop spins at its cursor if and only if a lone minus stands there. */
  lemma SpinsIff(s: string, p: nat, items: seq<Json>)
    requires p <= |s|
    ensures ListFrom(s, p, items) == Stuck(p) <==> LoneMinus(s, p)
  {
    if !LoneMinus(s, p) && ListFrom(s, p, items) == Stuck(p) {
      var q := SkipBlanks(s, p);
      var v := ParseValue(s, q);
      match v
      case Fail => assert false;
      case Stuck(at) => StuckValue(s, q);
      case Ok(w, e) =>
        Progress(s, q);
        assert AfterElement(s, e) == p || ListFrom(s, AfterElement(s, e), items + [w]) == Stuck(p);
        if AfterElement(s, e) != p { StuckList(s, AfterElement(s, e), items + [w]); }
    }
  }

  /** A parser that does not come back has met a lone minus where a list wants a value. */
  lemma {:induction false} StuckValue(s: string, p: nat)
    requires p <= |s| && ParseValue(s, p).Stuck?
    ensures var at := ParseValue(s, p).at; p < at < |s| && LoneMinus(s, at)
    decreases |s| - p, 0
  {
    var q := SkipBlanks(s, p);
    var first := if q < |s| then SkipBlanks(s, q + 1) else q;
    if At(s, q) == '[' { StuckList(s, first, []); }
    if At(s, q) == '{' { StuckDict(s, first, map[]); }
  }

  lemma {:induction false} StuckList(s: string, p: nat, items: seq<Json>)
    requires p <= |s| && ListFrom(s, p, items).Stuck?
    ensures var at := ListFrom(s, p, items).at; p <= at < |s| && LoneMinus(s, at)
    decreases |s| - p, 1
  {
    var v := ParseValue(s, SkipBlanks(s, p));
    if v.Stuck? {
      StuckValue(s, SkipBlanks(s, p));
    } else {
      var next := AfterElement(s, v.pos);
      if next != p { StuckList(s, next, items + [v.value]); }
    }
  }

  lemma {:induction false} StuckDict(s: string, p: nat, entries: map<string, Json>)
    requires p <= |s| && DictFrom(s, p, entries).Stuck?
    ensures var at := DictFrom(s, p, entries).at; p < at < |s| && LoneMinus(s, at)
    decreases |s| - p, 1
  {
    var q := SkipBlanks(s, p);
    var pair := ReadPair(s, q);
    if pair.Stuck? {
      var e := ReadRaw(s, q).pos;
      var colon := SkipBlanks(s, e);
      StuckValue(s, SkipBlanks(s, colon + 1));
    } else {
      StuckDict(s, AfterElement(s, pair.pos), InsertNew(entries, pair.value.0, pair.value.1));
    }
  }

  /** The smallest text the source does not come back from. */
  lemma NeverReturns()
    ensures ParseValue("[-", 0) == Stuck(1)
  {
    var s := "[-";
    assert SkipBlanks(s, 0) == 0 && SkipBlanks(s, 1) == 1;
    assert ReadDigits(s, 1) == Ok(Int(0), 1);
    assert ListFrom(s, 1, []) == Stuck(1);
  }

  // ----- The terminator is never passed -----

  /** No NUL between two cursors. */
  predicate Text(s: string, p: nat, e: nat) { e <= |s| && forall i :: p <= i < e ==> s[i] != '\0' }

  lemma {:induction false} BlanksText(s: string, p: nat)
    requires p <= |s|
    ensures Text(s, p, SkipBlanks(s, p))
    decreases |s| - p
  {
    if IsBlank(At(s, p)) { BlanksText(s, p + 1); }
  }

  lemma RawText(s: string, p: nat)
    requires p <= |s| && ReadRaw(s, p).Ok?
    ensures Text(s, p, ReadRaw(s, p).pos)
  {
    var e := StringEnd(s, p + 1, p + 1);
    forall i | p < i < e ensures s[i] != '\0' { assert !StopsString(s, p + 1, i); }
  }

  lemma AfterText(s: string, p: nat)
    requires p <= |s|
    ensures Text(s, p, AfterElement(s, p))
  {
    BlanksText(s, p);
  }

  lemma WordText(s: string, p: nat, word: string)
    requires Matches(s, p, word) && forall i :: 0 <= i < |word| ==> word[i] != '\0'
    ensures Text(s, p, p + |word|)
  {
    forall i | p <= i < p + |word| ensures s[i] != '\0' {
      assert s[p .. p + |word|][i - p] == word[i - p];
    }
  }

  lemma DigitsText(s: string, p: nat)
    requires p < |s| && (IsDigit(s[p]) || s[p] == '-')
    ensures Text(s, p, ReadDigits(s, p).pos)
  {
    if !LoneMinus(s, p) {
      var start := if s[p] == '-' then p + 1 else p;
      var end := DigitsEnd(s, start);
      assert Text(s, p, end);
      if At(s, end) == '.' { DoubleText(s, end); }
    }
  }

  lemma DoubleText(s: string, dot: nat)
    requires dot < |s| && s[dot] == '.'
    ensures Text(s, dot, DoubleEnd(s, dot))
  {}

  /** A value is read from the text alone. */
  lemma {:induction false} ValueText(s: string, p: nat)
    requires p <= |s| && ParseValue(s, p).Ok?
    ensures Text(s, p, ParseValue(s, p).pos)
    decreases |s| - p, 0
  {
    hide ParseValue, ListFrom, DictFrom, ReadDigits, ReadRaw, SkipBlanks, Matches;
    Cases(s, p);
    BlanksText(s, p);
    var q := SkipBlanks(s, p);
    var c := At(s, q);
    if c == 'n' { WordText(s, q, "null"); }
    else if c == 't' { WordText(s, q, "true"); }
    else if c == 'f' { WordText(s, q, "false"); }
    else if c == '"' { RawText(s, q); }
    else if c == '[' { ListText(s, SkipBlanks(s, q + 1), []); }
    else if c == '{' { DictText(s, SkipBlanks(s, q + 1), map[]); }
    else { DigitsText(s, q); }
    if q < |s| { BlanksText(s, q + 1); }
  }

  lemma {:induction false} ListText(s: string, p: nat, items: seq<Json>)
    requires p <= |s| && ListFrom(s, p, items).Ok?
    ensures Text(s, p, ListFrom(s, p, items).pos)
    decreases |s| - p, 1
  {
    if At(s, p) != ']' {
      var q := SkipBlanks(s, p);
      var v := ParseValue(s, q);
      BlanksText(s, p);
      ValueText(s, q);
      AfterText(s, v.pos);
      ListText(s, AfterElement(s, v.pos), items + [v.value]);
    }
  }

  lemma {:induction false} PairText(s: string, p: nat)
    requires p <= |s| && ReadPair(s, p).Ok?
    ensures Text(s, p, ReadPair(s, p).pos)
    decreases |s| - p, 0
  {
    var e := ReadRaw(s, p).pos;
    var colon := SkipBlanks(s, e);
    RawText(s, p);
    BlanksText(s, e);
    BlanksText(s, colon + 1);
    ValueText(s, SkipBlanks(s, colon + 1));
  }

  lemma {:induction false} DictText(s: string, p: nat, entries: map<string, Json>)
    requires p <= |s| && DictFrom(s, p, entries).Ok?
    ensures Text(s, p, DictFrom(s, p, entries).pos)
    decreases |s| - p, 1
  {
    if At(s, p) != '}' {
      var q := SkipBlanks(s, p);
      var pair := ReadPair(s, q);
      BlanksText(s, p);
      PairText(s, q);
      AfterText(s, pair.pos);
      DictText(s, AfterElement(s, pair.pos), InsertNew(entries, pair.value.0, pair.value.1));
    }
  }

  // ----- Locality -----

  /** The text t goes on like s from p up to e, and the next character is the same. */
  predicate Same(s: string, t: string, p: nat, e: nat) {
    e <= |s| && e <= |t| && forall i :: p <= i <= e ==> At(s, i) == At(t, i)
  }

  lemma SameSlice(s: string, t: string, p: nat, e: nat)
    requires p <= e && Same(s, t, p, e)
    ensures s[p..e] == t[p..e]
  {
    forall i | p <= i < e ensures s[i] == t[i] { assert At(s, i) == At(t, i); }
  }

  lemma {:induction false} BlanksSame(s: string, t: string, p: nat)
    requires p <= |s| && Same(s, t, p, SkipBlanks(s, p))
    ensures SkipBlanks(t, p) == SkipBlanks(s, p)
    decreases |s| - p
  {
    assert At(s, p) == At(t, p);
    if IsBlank(At(s, p)) { BlanksSame(s, t, p + 1); }
  }

  lemma {:induction false} StringSame(s: string, t: string, start: nat, q: nat)
    requires start <= q <= |s| && Same(s, t, start, StringEnd(s, start, q))
    ensures StringEnd(t, start, q) == StringEnd(s, start, q)
    decreases |s| - q
  {
    assert At(s, q) == At(t, q);
    if q > start { assert At(s, q - 1) == At(t, q - 1); }
    if !StopsString(s, start, q) { StringSame(s, t, start, q + 1); }
  }

  /** A string needs no character behind its closing quote. */
  lemma RawSame(s: string, t: string, p: nat)
    requires p <= |s| && ReadRaw(s, p).Ok? && Same(s, t, p, ReadRaw(s, p).pos - 1)
    ensures ReadRaw(t, p) == ReadRaw(s, p)
  {
    var e := StringEnd(s, p + 1, p + 1);
    assert At(t, p) == At(s, p) && At(t, e) == At(s, e);
    StringSame(s, t, p + 1, p + 1);
    SameSlice(s, t, p + 1, e);
  }

  lemma {:induction false} DigitsSame(s: string, t: string, p: nat)
    requires p <= |s| && Same(s, t, p, DigitsEnd(s, p))
    ensures DigitsEnd(t, p) == DigitsEnd(s, p)
    decreases |s| - p
  {
    assert At(s, p) == At(t, p);
    if IsDigit(At(s, p)) { DigitsSame(s, t, p + 1); }
  }

  predicate Exponent(c: char) { c == 'e' || c == 'E' }

  /** At dot strtod stops before the letter of an exponent that is not whole. */
  predicate CutAt(s: string, dot: nat)
    requires dot < |s|
  {
    Exponent(At(s, DoubleEnd(s, dot))) && DoubleEnd(s, dot) == DigitsEnd(s, dot + 1)
  }

  /** A double that ends before the letter of an exponent that is not whole. */
  predicate Cut(s: string, q: nat) {
    && q < |s| && (IsDigit(s[q]) || s[q] == '-') && !LoneMinus(s, q)
    && var dot := StrToL(s, q).1;
       At(s, dot) == '.' && CutAt(s, dot)
  }

  lemma DoubleSame(s: string, t: string, dot: nat)
    requires dot < |s| && Same(s, t, dot, DoubleEnd(s, dot)) && !CutAt(s, dot)
    ensures DoubleEnd(t, dot) == DoubleEnd(s, dot)
  {
    hide DigitsEnd;
    var e := DigitsEnd(s, dot + 1);
    DigitsSame(s, t, dot + 1);
    assert At(s, e) == At(t, e);
    if Exponent(At(s, e)) {
      assert At(s, e + 1) == At(t, e + 1);
      var digits := if At(s, e + 1) == '+' || At(s, e + 1) == '-' then e + 2 else e + 1;
      assert At(s, digits) == At(t, digits);
      DigitsSame(s, t, digits);
    }
  }

  lemma NumberSame(s: string, t: string, p: nat)
    requires p < |s| && (IsDigit(s[p]) || s[p] == '-') && !LoneMinus(s, p) && !Cut(s, p)
    requires Same(s, t, p, ReadDigits(s, p).pos)
    ensures p < |t| && t[p] == s[p] && ReadDigits(t, p) == ReadDigits(s, p)
  {
    hide DigitsEnd, DoubleEnd, DigitsValue;
    var start := if s[p] == '-' then p + 1 else p;
    var end := DigitsEnd(s, start);
    assert At(s, p) == At(t, p) && At(s, p + 1) == At(t, p + 1) && At(s, end) == At(t, end);
    DigitsSame(s, t, start);
    SameSlice(s, t, start, end);
    if At(s, end) == '.' {
      DoubleSame(s, t, end);
      SameSlice(s, t, p, DoubleEnd(s, end));
    }
  }

  lemma WordSame(s: string, t: string, p: nat, word: string)
    requires Matches(s, p, word) && Same(s, t, p, p + |word|)
    ensures Matches(t, p, word)
  {
    SameSlice(s, t, p, p + |word|);
  }

  lemma AfterSame(s: string, t: string, p: nat)
    requires p <= |s| && Same(s, t, p, AfterElement(s, p))
    ensures AfterElement(t, p) == AfterElement(s, p)
  {
    BlanksSame(s, t, p);
    assert At(s, SkipBlanks(s, p)) == At(t, SkipBlanks(s, p));
  }

  /** A value that is neither a lone minus nor a double cut off at an exponent depends on the text it takes and on one
      more character. */
  lemma {:induction false} ValueSame(s: string, t: string, p: nat)
    requires p <= |s| && ParseValue(s, p).Ok? && Same(s, t, p, ParseValue(s, p).pos)
    requires !LoneMinus(s, SkipBlanks(s, p)) && !Cut(s, SkipBlanks(s, p))
    ensures ParseValue(t, p) == ParseValue(s, p)
    decreases |s| - p, 0
  {
    hide ParseValue, ListFrom, DictFrom, ReadDigits, ReadRaw, SkipBlanks, Matches;
    Cases(s, p);
    Cases(t, p);
    BlanksSame(s, t, p);
    var q := SkipBlanks(s, p);
    var c := At(s, q);
    assert c == At(t, q);
    if c == 'n' { WordSame(s, t, q, "null"); }
    else if c == 't' { WordSame(s, t, q, "true"); }
    else if c == 'f' { WordSame(s, t, q, "false"); }
    else if c == '"' { RawSame(s, t, q); }
    else if c == '[' || c == '{' {
      var first := SkipBlanks(s, q + 1);
      BlanksSame(s, t, q + 1);
      assert At(s, first) == At(t, first);
      if c == '[' { ListSame(s, t, first, []); } else { DictSame(s, t, first, map[]); }
    }
    else { NumberSame(s, t, q); }
  }

  /** A list loop fails at a letter, and spins at a lone minus. */
  lemma NoElement(s: string, p: nat)
    requires p <= |s|
    ensures Exponent(At(s, p)) ==> forall items :: ListFrom(s, p, items) == Fail
    ensures LoneMinus(s, p) ==> forall items :: ListFrom(s, p, items) == Stuck(p)
  {
    assert Exponent(At(s, p)) ==> ParseValue(s, p) == Fail;
  }

  /** What stands behind a double that is cut off. */
  lemma CutEnds(s: string, q: nat)
    requires Cut(s, q)
    ensures ParseValue(s, q).Ok? && Exponent(At(s, ParseValue(s, q).pos))
  {
    hide DoubleEnd, DigitsEnd, DigitsValue;
    Cases(s, q);
    assert SkipBlanks(s, q) == q;
  }

  /** An element of a list that ends well is neither cut off nor a lone minus. */
  lemma ElementInside(s: string, p: nat, items: seq<Json>)
    requires p <= |s| && ListFrom(s, p, items).Ok? && At(s, p) != ']'
    ensures var q := SkipBlanks(s, p);
            !LoneMinus(s, q) && ParseValue(s, q).Ok? && !Cut(s, q)
  {
    var v := ParseValue(s, SkipBlanks(s, p));
    if Cut(s, SkipBlanks(s, p)) { CutEnds(s, SkipBlanks(s, p)); }
    NoElement(s, SkipBlanks(s, p));
    NoElement(s, v.pos);
  }

  lemma {:induction false} ListSame(s: string, t: string, p: nat, items: seq<Json>)
    requires p <= |s| && ListFrom(s, p, items).Ok? && Same(s, t, p, ListFrom(s, p, items).pos - 1)
    ensures ListFrom(t, p, items) == ListFrom(s, p, items)
    decreases |s| - p, 1
  {
    assert At(s, p) == At(t, p);
    if At(s, p) != ']' {
      var q := SkipBlanks(s, p);
      var v := ParseValue(s, q);
      var next := AfterElement(s, v.pos);
      ElementInside(s, p, items);
      BlanksSame(s, t, p);
      ValueSame(s, t, q);
      AfterSame(s, t, v.pos);
      ListSame(s, t, next, items + [v.value]);
    }
  }

  lemma {:induction false} PairSame(s: string, t: string, p: nat)
    requires p <= |s| && ReadPair(s, p).Ok?
    requires var e := ReadPair(s, p).pos; Same(s, t, p, e) && !Exponent(At(s, e)) && At(s, e) != '-'
    ensures ReadPair(t, p) == ReadPair(s, p)
    decreases |s| - p, 0
  {
    hide ReadRaw, ParseValue, SkipBlanks;
    var e := ReadRaw(s, p).pos;
    var colon := SkipBlanks(s, e);
    RawSame(s, t, p);
    BlanksSame(s, t, e);
    assert At(s, colon) == At(t, colon);
    BlanksSame(s, t, colon + 1);
    Progress(s, SkipBlanks(s, colon + 1));
    if Cut(s, SkipBlanks(s, colon + 1)) { CutEnds(s, SkipBlanks(s, colon + 1)); }
    ValueSame(s, t, SkipBlanks(s, colon + 1));
  }

  /** A dictionary loop fails at a letter and at a minus. */
  lemma NoEntry(s: string, p: nat)
    requires p <= |s|
    ensures Exponent(At(s, p)) || At(s, p) == '-' ==> forall entries :: DictFrom(s, p, entries) == Fail
  {}

  /** An entry of a dictionary that ends well is followed by no letter and no minus. */
  lemma EntryInside(s: string, p: nat, entries: map<string, Json>)
    requires p <= |s| && DictFrom(s, p, entries).Ok? && At(s, p) != '}'
    ensures var pair := ReadPair(s, SkipBlanks(s, p));
            pair.Ok? && !Exponent(At(s, pair.pos)) && At(s, pair.pos) != '-'
  {
    var pair := ReadPair(s, SkipBlanks(s, p));
    NoEntry(s, pair.pos);
  }

  lemma {:induction false} DictSame(s: string, t: string, p: nat, entries: map<string, Json>)
    requires p <= |s| && DictFrom(s, p, entries).Ok? && Same(s, t, p, DictFrom(s, p, entries).pos - 1)
    ensures DictFrom(t, p, entries) == DictFrom(s, p, entries)
    decreases |s| - p, 1
  {
    assert At(s, p) == At(t, p);
    if At(s, p) != '}' {
      var q := SkipBlanks(s, p);
      var pair := ReadPair(s, q);
      var next := AfterElement(s, pair.pos);
      EntryInside(s, p, entries);
      BlanksSame(s, t, p);
      PairSame(s, t, q);
      AfterSame(s, t, pair.pos);
      DictSame(s, t, next, InsertNew(entries, pair.value.0, pair.value.1));
    }
  }

  // ----- Exactly the local values -----

  /** What is read at p is the same in every text that goes on in the same way up to one character behind it. */
  ghost predicate Local(s: string, p: nat)
    requires p <= |s| && ParseValue(s, p).Ok?
  {
    forall t: string :: p <= |t| && Same(s, t, p, ParseValue(s, p).pos) ==> ParseValue(t, p) == ParseValue(s, p)
  }

  /** The value at p is local if and only if it is neither a lone minus nor a double cut off at an exponent. */
  lemma LocalIff(s: string, p: nat)
    requires p <= |s| && ParseValue(s, p).Ok?
    ensures var q := SkipBlanks(s, p);
            Local(s, p) <==> !LoneMinus(s, q) && !Cut(s, q)
  {
    var q := SkipBlanks(s, p);
    if LoneMinus(s, q) {
      LoneMinusLooksFurther(s, p);
    } else if Cut(s, q) {
      CutLooksFurther(s, p);
    } else {
      forall t: string | p <= |t| && Same(s, t, p, ParseValue(s, p).pos) ensures ParseValue(t, p) == ParseValue(s, p) {
        ValueSame(s, t, p);
      }
    }
  }

  /** Behind every lone minus a digit would change the value. */
  lemma LoneMinusLooksFurther(s: string, p: nat)
    requires p <= |s| && LoneMinus(s, SkipBlanks(s, p))
    ensures ParseValue(s, p).Ok? && !Local(s, p)
  {
    var q := SkipBlanks(s, p);
    var t := s[..q] + "-5";
    Cases(s, p);
    Cases(t, p);
    assert ReadDigits(s, q) == Ok(Int(0), q);
    assert Same(s, t, p, q);
    BlanksSame(s, t, p);
    assert At(t, q) == '-' && At(t, q + 1) == '5' && !LoneMinus(t, q);
  }

  /** The text up to the letter of the exponent, and a digit behind it. */
  function Completed(s: string, e: nat): string
    requires e < |s|
  {
    s[..e + 1] + "3"
  }

  lemma CompletedSame(s: string, p: nat, e: nat)
    requires p <= e < |s|
    ensures Same(s, Completed(s, e), p, e) && |Completed(s, e)| == e + 2
    ensures Completed(s, e)[e] == s[e] && Completed(s, e)[e + 1] == '3'
  {}

  lemma LongerDouble(t: string, dot: nat, e: nat)
    requires dot < e < |t| && e == DigitsEnd(t, dot + 1) && |t| == e + 2 && Exponent(t[e]) && t[e + 1] == '3'
    ensures DoubleEnd(t, dot) > e
  {}

  /** Completing the exponent makes the number longer. */
  lemma CutNumber(s: string, q: nat)
    requires Cut(s, q)
    ensures var e := ReadDigits(s, q).pos;
            && q < e < |s|
            && var t := Completed(s, e);
               q < |t| && t[q] == s[q] && ReadDigits(t, q).pos > e
  {
    hide DigitsEnd, DoubleEnd, DigitsValue, Completed;
    var start, dot := if s[q] == '-' then q + 1 else q, StrToL(s, q).1;
    var e := DoubleEnd(s, dot);
    var t := Completed(s, e);
    CompletedSame(s, q, e);
    assert At(t, q) == At(s, q) && At(t, q + 1) == At(s, q + 1) && At(t, dot) == At(s, dot);
    DigitsSame(s, t, start);
    DigitsSame(s, t, dot + 1);
    LongerDouble(t, dot, e);
  }

  /** Behind every double cut off at an exponent a digit would change the value. */
  lemma CutLooksFurther(s: string, p: nat)
    requires p <= |s| && Cut(s, SkipBlanks(s, p))
    ensures ParseValue(s, p).Ok? && !Local(s, p)
  {
    hide ParseValue, ReadDigits, SkipBlanks, Completed;
    var q := SkipBlanks(s, p);
    CutNumber(s, q);
    var e := ReadDigits(s, q).pos;
    var t := Completed(s, e);
    Cases(s, p);
    Cases(t, p);
    CompletedSame(s, p, e);
    BlanksSame(s, t, p);
    assert At(t, q) == At(s, q);
  }

  /** One character is not enough for an exponent: both texts begin with the same four characters. */
  lemma ExponentLooksFurther()
    ensures Same("1.5e", "1.5e3", 0, 3)
    ensures ParseValue("1.5e", 0) == Ok(Double("1.5"), 3) && ParseValue("1.5e3", 0) == Ok(Double("1.5e3"), 5)
  {
    var s, t := "1.5e", "1.5e3";
    assert DigitsEnd(s, 0) == 1 && DigitsEnd(t, 0) == 1;
    assert DigitsEnd(s, 2) == 3 && DigitsEnd(t, 2) == 3;
    assert DigitsEnd(t, 4) == 5;
    assert DoubleEnd(s, 1) == 3 && DoubleEnd(t, 1) == 5;
    assert s[0..3] == "1.5" && t[0..5] == "1.5e3";
  }

  /** Nor for a minus. */
  lemma MinusLooksFurther()
    ensures Same("-", "-5", 0, 0)
    ensures ParseValue("-", 0) == Ok(Int(0), 0) && ParseValue("-5", 0) == Ok(Int(-5), 2)
  {
    var t := "-5";
    assert DigitsEnd(t, 1) == 2;
    assert t[1..2] == "5" && DigitsValue("5") == 5 by { assert "5"[..0] == ""; }
  }
}
