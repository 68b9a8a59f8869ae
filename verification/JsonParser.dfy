/** The parser and the printer of src/jsontype/details/jsontype.cpp as they run: a cursor moved over a text, a stream
    appended to. */
module JsonParsers {
  import opened JsonGrammar
  import opened JsonPrinter
  import opened JsonLocality

  /** What the source returns by address.  NULL is every failure: the source returns NULL, or throws from its error
      log when fewer than 20 characters are left. */
  datatype Nullable<+T> = NULL | To(value: T)

  class Reader {
    const text: string
    var str: nat

    constructor (text: string)
      ensures this.text == text && str == 0
    {
      this.text := text;
      str := 0;
    }

    /** The outcome of a method is what the grammar says; where the cursor is after a failure is left open. */
    ghost predicate Returns<T(!new)>(result: Nullable<T>, spec: Parsed<T>)
      reads this
    {
      && str <= |text|
      && match spec
         case Ok(v, e) => result == To(v) && str == e
         case _ => result == NULL
    }

    method IgnoreBlanks()
      requires str <= |text|
      modifies this`str
      ensures str == SkipBlanks(text, old(str))
    {
      while At(text, str) == '\n' || At(text, str) == '\t' || At(text, str) == ' '
        invariant str <= |text| && SkipBlanks(text, str) == SkipBlanks(text, old(str))
        decreases |text| - str
      {
        str := str + 1;
      }
    }

    method ReadinWord(word: string, v: Json) returns (json: Nullable<Json>)
      requires str <= |text|
      modifies this`str
      ensures Returns(json, if Matches(text, old(str), word) then Ok(v, old(str) + |word|) else Fail)
    {
      if |text| - str < |word| || text[str .. str + |word|] != word { return NULL; }
      str := str + |word|;
      return To(v);
    }

    method ReadInDigits() returns (json: Nullable<Json>)
      requires str < |text| && (IsDigit(text[str]) || text[str] == '-')
      modifies this`str
      ensures Returns(json, ReadDigits(text, old(str)))
    {
      var (l, endptr) := StrToL(text, str);
      if At(text, endptr) == '.' {
        endptr := DoubleEnd(text, endptr);
        json := To(Double(text[str..endptr]));
      } else {
        json := To(Int(l));
      }
      str := endptr;
    }

    method ReadinStrRaw() returns (result: Nullable<string>)
      requires str <= |text|
      modifies this`str
      ensures Returns(result, ReadRaw(text, old(str)))
    {
      if At(text, str) != '"' { return NULL; }
      str := str + 1;
      var start := str;
      while At(text, str) != '\0'
        invariant start <= str <= |text| && StringEnd(text, start, str) == StringEnd(text, start, start)
        decreases |text| - str
      {
        if At(text, str) == '"' && (start == str || At(text, str - 1) != '\\') {
          break;
        }
        str := str + 1;
      }
      if At(text, str) == '\0' { return NULL; }
      result := To(text[start..str]);
      str := str + 1;
    }

    /** The list loop ends whenever the grammar does not get stuck. */
    method ReadinList() returns (json: Nullable<Json>)
      requires str < |text| && At(text, str) == '[' && !ParseValue(text, str).Stuck?
      modifies this`str
      ensures Returns(json, ParseValue(text, old(str)))
      decreases |text| - str, 1
    {
      hide ParseValue, ListFrom, DictFrom, ReadPair, SkipBlanks;
      ghost var spec := ParseValue(text, str);
      Cases(text, str);
      str := str + 1;
      IgnoreBlanks();
      if At(text, str) == '\0' { return NULL; }
      var list: seq<Json> := [];
      while At(text, str) != ']' && At(text, str) != '\0'
        invariant old(str) < str <= |text| && ListFrom(text, str, list) == spec
        decreases |text| - str
      {
        ListStep(text, str, list);
        IgnoreBlanks();
        var v := ParseJson();
        if v == NULL { return NULL; }
        list := list + [v.value];
        IgnoreBlanks();
        if At(text, str) == ',' { str := str + 1; }
      }
      ListStep(text, str, list);
      if At(text, str) == '\0' { return NULL; }
      str := str + 1;
      return To(List(list));
    }

    method ReadDictPair() returns (pair: Nullable<(string, Json)>)
      requires str <= |text| && !ReadPair(text, str).Stuck?
      modifies this`str
      ensures Returns(pair, ReadPair(text, old(str)))
      decreases |text| - str, 1
    {
      var key := ReadinStrRaw();
      if key == NULL || |key.value| == 0 { return NULL; }
      IgnoreBlanks();
      if At(text, str) != ':' { return NULL; }
      str := str + 1;
      IgnoreBlanks();
      var v := ParseJson();
      if v == NULL { return NULL; }
      return To((key.value, v.value));
    }

    method ReadinDict() returns (json: Nullable<Json>)
      requires str < |text| && At(text, str) == '{' && !ParseValue(text, str).Stuck?
      modifies this`str
      ensures Returns(json, ParseValue(text, old(str)))
      decreases |text| - str, 1
    {
      hide ParseValue, ListFrom, DictFrom, ReadPair, SkipBlanks;
      ghost var spec := ParseValue(text, str);
      Cases(text, str);
      str := str + 1;
      IgnoreBlanks();
      if At(text, str) == '\0' { return NULL; }
      var dict: map<string, Json> := map[];
      while At(text, str) != '}' && At(text, str) != '\0'
        invariant old(str) < str <= |text| && DictFrom(text, str, dict) == spec
        decreases |text| - str
      {
        DictStep(text, str, dict);
        IgnoreBlanks();
        var pair := ReadDictPair();
        if pair == NULL { return NULL; }
        dict := InsertNew(dict, pair.value.0, pair.value.1);
        IgnoreBlanks();
        if At(text, str) == ',' { str := str + 1; }
      }
      DictStep(text, str, dict);
      if At(text, str) == '\0' { return NULL; }
      str := str + 1;
      return To(Dict(dict));
    }

    /** The parser returns what the grammar says on every text on which it returns at all. */
    method ParseJson() returns (json: Nullable<Json>)
      requires str <= |text| && !ParseValue(text, str).Stuck?
      modifies this`str
      ensures Returns(json, ParseValue(text, old(str)))
      decreases |text| - str, 2
    {
      IgnoreBlanks();
      assert SkipBlanks(text, str) == str && ParseValue(text, str) == ParseValue(text, old(str));
      var c := At(text, str);
      match c
      case '\0' => json := NULL;
      case 'n' => json := ReadinWord("null", Null);
      case 't' => json := ReadinWord("true", Bool(true));
      case 'f' => json := ReadinWord("false", Bool(false));
      case '"' =>
        var s := ReadinStrRaw();
        json := if s == NULL then NULL else To(Str(s.value));
      case '[' => json := ReadinList();
      case '{' => json := ReadinDict();
      case _ =>
        if IsDigit(c) || c == '-' {
          json := ReadInDigits();
        } else {
          json := NULL;
        }
    }
  }

  // ----- Printing -----

  class Stream {
    var text: string

    constructor ()
      ensures text == ""
    {
      text := "";
    }

    method Put(s: string)
      modifies this
      ensures text == old(text) + s
    {
      text := text + s;
    }
  }

  lemma Append(a: string, b: string, c: string, d: string)
    ensures ((a + b) + c) + d == a + (b + (c + d))
    ensures (a + b) + c == a + (b + c)
  {}

  /** DumpJson; a dictionary is walked in the order of the document. */
  method DumpJson(d: Doc, ostr: Stream)
    modifies ostr
    ensures ostr.text == old(ostr.text) + Print(d)
    decreases d, 2
  {
    match d
    case DNull => ostr.Put("null");
    case DInt(i) => ostr.Put(PrintInt(i));
    case DStr(s) =>
      Append(ostr.text, "\"", s, "\"");
      Append("\"", s, "\"", "");
      ostr.Put("\"");
      ostr.Put(s);
      ostr.Put("\"");
    case DList(items) =>
      Append(ostr.text, "[", PrintItems(items), "]");
      Append("[", PrintItems(items), "]", "");
      ostr.Put("[");
      DumpItems(items, ostr);
      ostr.Put("]");
    case DDict(pairs) =>
      Append(ostr.text, "{", PrintPairs(pairs), "}");
      Append("{", PrintPairs(pairs), "}", "");
      ostr.Put("{");
      DumpPairs(pairs, ostr);
      ostr.Put("}");
  }

  /** What the loop over a list still prints behind the first i elements. */
  function MoreItems(items: seq<Doc>, i: nat): string
    requires i <= |items|
  {
    if i == |items| then "" else "," + PrintItems(items[i..])
  }

  lemma NextItem(items: seq<Doc>, i: nat)
    requires i < |items|
    ensures PrintItems(items[i..]) == Print(items[i]) + MoreItems(items, i + 1)
    ensures MoreItems(items, i) == ("," + Print(items[i])) + MoreItems(items, i + 1)
  {
    assert items[i..][0] == items[i] && items[i..][1..] == items[i + 1..];
  }

  method DumpItems(items: seq<Doc>, ostr: Stream)
    modifies ostr
    ensures ostr.text == old(ostr.text) + PrintItems(items)
    decreases items, 1
  {
    if |items| != 0 {
      ghost var done := Print(items[0]);
      NextItem(items, 0);
      assert items[0..] == items;
      DumpJson(items[0], ostr);
      var iter := 1;
      while iter != |items|
        invariant 1 <= iter <= |items| && ostr.text == old(ostr.text) + done
        invariant done + MoreItems(items, iter) == PrintItems(items)
      {
        hide Print, PrintItems, MoreItems;
        NextItem(items, iter);
        Append(old(ostr.text), done, ",", Print(items[iter]));
        Append(done, "," + Print(items[iter]), MoreItems(items, iter + 1), "");
        ostr.Put(",");
        DumpJson(items[iter], ostr);
        done := done + ("," + Print(items[iter]));
        iter := iter + 1;
      }
    }
  }

  /** What the loop over a dictionary still prints behind the first i entries. */
  function MorePairs(pairs: seq<(string, Doc)>, i: nat): string
    requires i <= |pairs|
  {
    if i == |pairs| then "" else ", " + PrintPairs(pairs[i..])
  }

  lemma NextPair(pairs: seq<(string, Doc)>, i: nat)
    requires i < |pairs|
    ensures PrintPairs(pairs[i..]) == PrintPair(pairs[i]) + MorePairs(pairs, i + 1)
    ensures MorePairs(pairs, i) == (", " + PrintPair(pairs[i])) + MorePairs(pairs, i + 1)
  {
    assert pairs[i..][0] == pairs[i] && pairs[i..][1..] == pairs[i + 1..];
  }

  /** One entry, with what separates it from the one before. */
  method DumpPair(lead: string, pair: (string, Doc), ostr: Stream)
    modifies ostr
    ensures ostr.text == old(ostr.text) + (lead + PrintPair(pair))
    decreases pair, 3
  {
    ostr.Put(lead + "\"");
    ostr.Put(pair.0);
    ostr.Put("\":");
    ghost var text := ostr.text;
    assert text == old(ostr.text) + (lead + (Quoted(pair.0) + ":"));
    DumpJson(pair.1, ostr);
    Append(old(ostr.text), lead + (Quoted(pair.0) + ":"), Print(pair.1), "");
    Append(lead, Quoted(pair.0) + ":", Print(pair.1), "");
  }

  method DumpPairs(pairs: seq<(string, Doc)>, ostr: Stream)
    modifies ostr
    ensures ostr.text == old(ostr.text) + PrintPairs(pairs)
    decreases pairs, 4
  {
    if |pairs| != 0 {
      ghost var done := PrintPair(pairs[0]);
      NextPair(pairs, 0);
      assert pairs[0..] == pairs && "" + done == done;
      DumpPair("", pairs[0], ostr);
      var iter := 1;
      while iter != |pairs|
        invariant 1 <= iter <= |pairs| && ostr.text == old(ostr.text) + done
        invariant done + MorePairs(pairs, iter) == PrintPairs(pairs)
      {
        hide PrintPair, PrintPairs, MorePairs;
        NextPair(pairs, iter);
        Append(old(ostr.text), done, ", " + PrintPair(pairs[iter]), "");
        Append(done, ", " + PrintPair(pairs[iter]), MorePairs(pairs, iter + 1), "");
        DumpPair(", ", pairs[iter], ostr);
        done := done + (", " + PrintPair(pairs[iter]));
        iter := iter + 1;
      }
    }
  }
}
