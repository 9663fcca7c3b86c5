/** The canonical serializer: JSON text with the keys of every object in one fixed order. */
module CanonicalJson {
  import opened Ordering

  /** A number is represented by its JSON text, which identifies it. */
  datatype Json =
    | Null
    | Bool(b: bool)
    | Num(lexeme: string)
    | Str(s: string)
    | Arr(items: seq<Json>)
    | Obj(entries: seq<Entry>)

  datatype Entry = Entry(key: string, value: Json)

  /** A strict total order on strings, such as `localeCompare` gives. */
  type Collation = (string, string) -> bool

  ghost predicate Total(lt: Collation) {
    StrictOrder(lt) && forall x, y :: x != y ==> lt(x, y) || lt(y, x)
  }

  predicate NumberCharacter(c: char) {
    '0' <= c <= '9' || c == '+' || c == '-' || c == '.' || c == 'e' || c == 'E'
  }

  predicate DistinctKeys(entries: seq<Entry>) {
    forall i, j | 0 <= i < j < |entries| :: entries[i].key != entries[j].key
  }

  /** JSON values as `JSON.parse` yields them. */
  predicate Valid(j: Json) {
    match j
    case Num(lexeme) => lexeme != "" && forall i | 0 <= i < |lexeme| :: NumberCharacter(lexeme[i])
    case Arr(items) => forall i | 0 <= i < |items| :: Valid(items[i])
    case Obj(entries) => DistinctKeys(entries) && forall i | 0 <= i < |entries| :: Valid(entries[i].value)
    case _ => true
  }

  /** Equality up to the order of object keys, at every depth. */
  predicate Equivalent(a: Json, b: Json) {
    match a
    case Arr(items) => b.Arr? && |items| == |b.items| && forall i | 0 <= i < |items| :: Equivalent(items[i], b.items[i])
    case Obj(entries) =>
      && b.Obj? && |entries| == |b.entries|
      && forall i | 0 <= i < |entries| ::
           exists k | 0 <= k < |b.entries| :: entries[i].key == b.entries[k].key && Equivalent(entries[i].value, b.entries[k].value)
    case _ => a == b
  }

  // ----- text -----

  function HexDigit(n: nat): char
    requires n < 16
  {
    "0123456789abcdef"[n]
  }

  function Escape(c: char): string {
    if c == '"' then "\\\""
    else if c == '\\' then "\\\\"
    else if c == '\U{08}' then "\\b"
    else if c == '\t' then "\\t"
    else if c == '\n' then "\\n"
    else if c == '\U{0C}' then "\\f"
    else if c == '\r' then "\\r"
    else if c < ' ' then "\\u00" + [HexDigit(c as int / 16), HexDigit(c as int % 16)]
    else [c]
  }

  function EscapeAll(s: string): string {
    if s == "" then "" else Escape(s[0]) + EscapeAll(s[1..])
  }

  function Quote(s: string): string {
    "\"" + EscapeAll(s) + "\""
  }

  function JoinComma(texts: seq<string>): string {
    if texts == [] then "" else if |texts| == 1 then texts[0] else texts[0] + "," + JoinComma(texts[1..])
  }

  function ByKey(lt: Collation): (Entry, Entry) -> bool {
    (a: Entry, b: Entry) => lt(a.key, b.key)
  }

  function Stable(lt: Collation, j: Json): string
    decreases j
  {
    match j
    case Null => "null"
    case Bool(b) => if b then "true" else "false"
    case Num(lexeme) => lexeme
    case Str(s) => Quote(s)
    case Arr(items) => "[" + JoinComma(seq(|items|, i requires 0 <= i < |items| => Stable(lt, items[i]))) + "]"
    case Obj(entries) => "{" + JoinComma(StablePairs(lt, j, Sort(ByKey(lt), entries))) + "}"
  }

  function StablePairs(lt: Collation, j: Json, sorted: seq<Entry>): seq<string>
    requires j.Obj? && forall e | e in sorted :: e in j.entries
    decreases j, |sorted|
  {
    if sorted == [] then []
    else
      assert sorted[0] in j.entries;
      [Quote(sorted[0].key) + ":" + Stable(lt, sorted[0].value)] + StablePairs(lt, j, sorted[1..])
  }

  // ----- reading text back -----

  /** What may follow a value inside a larger text. */
  predicate Delimited(x: string) {
    x == "" || x[0] in ",]}"
  }

  lemma EscapeUnique(c: char, d: char, x: string, y: string)
    requires Escape(c) + x == Escape(d) + y
    ensures c == d && x == y
  {
    var text := Escape(c) + x;
    assert text[0] == Escape(c)[0] == Escape(d)[0];
    if text[0] == '\\' {
      assert text[1] == Escape(c)[1] == Escape(d)[1];
      if text[1] == 'u' {
        assert text[4] == Escape(c)[4] == Escape(d)[4];
        assert text[5] == Escape(c)[5] == Escape(d)[5];
        HexUnique(c as int / 16, d as int / 16);
        HexUnique(c as int % 16, d as int % 16);
        assert c as int == 16 * (c as int / 16) + c as int % 16;
        assert d as int == 16 * (d as int / 16) + d as int % 16;
      }
    }
    assert c == d;
    assert text[|Escape(c)|..] == x && text[|Escape(d)|..] == y;
  }

  lemma HexUnique(m: nat, n: nat)
    requires m < 16 && n < 16 && HexDigit(m) == HexDigit(n)
    ensures m == n
  {
  }

  lemma EscapeStarts(c: char)
    ensures Escape(c) != "" && Escape(c)[0] != '"'
  {
  }

  /** Only an empty text starts with the closing quote. */
  lemma StartsQuote(s: string, x: string)
    ensures (EscapeAll(s) + ("\"" + x))[0] == '"' <==> s == ""
  {
    if s != "" {
      EscapeStarts(s[0]);
      assert EscapeAll(s)[0] == Escape(s[0])[0];
    } else {
      assert EscapeAll(s) + ("\"" + x) == "\"" + x;
    }
  }

  lemma EscapeFirst(s: string, x: string)
    requires s != ""
    ensures EscapeAll(s) + x == Escape(s[0]) + (EscapeAll(s[1..]) + x)
  {
  }

  lemma {:induction false} EscapesUnique(s: string, t: string, x: string, y: string)
    requires EscapeAll(s) + ("\"" + x) == EscapeAll(t) + ("\"" + y)
    ensures s == t && x == y
    decreases |s|
  {
    StartsQuote(s, x);
    StartsQuote(t, y);
    if s == "" {
      assert EscapeAll(s) + ("\"" + x) == "\"" + x;
      assert EscapeAll(t) + ("\"" + y) == "\"" + y;
      SameSuffix("\"", x, y);
    } else {
      EscapeFirst(s, "\"" + x);
      EscapeFirst(t, "\"" + y);
      EscapeUnique(s[0], t[0], EscapeAll(s[1..]) + ("\"" + x), EscapeAll(t[1..]) + ("\"" + y));
      EscapesUnique(s[1..], t[1..], x, y);
      assert s == [s[0]] + s[1..] && t == [t[0]] + t[1..];
    }
  }

  lemma QuoteText(s: string, x: string)
    ensures Quote(s) + x == "\"" + (EscapeAll(s) + ("\"" + x))
  {
    var body := EscapeAll(s);
    assert ("\"" + body + "\"") + x == "\"" + (body + ("\"" + x));
  }

  lemma QuoteUnique(s: string, t: string, x: string, y: string)
    requires Quote(s) + x == Quote(t) + y
    ensures s == t && x == y
  {
    QuoteText(s, x);
    QuoteText(t, y);
    SameSuffix("\"", EscapeAll(s) + ("\"" + x), EscapeAll(t) + ("\"" + y));
    EscapesUnique(s, t, x, y);
  }

  function NumberPrefix(text: string): nat {
    if text == "" || !NumberCharacter(text[0]) then 0 else 1 + NumberPrefix(text[1..])
  }

  lemma {:induction false} NumberEnds(l: string, x: string)
    requires Delimited(x) && forall i | 0 <= i < |l| :: NumberCharacter(l[i])
    ensures NumberPrefix(l + x) == |l|
    decreases |l|
  {
    if l == "" {
      assert l + x == x;
    } else {
      assert (l + x)[1..] == l[1..] + x;
      NumberEnds(l[1..], x);
    }
  }

  lemma NumberUnique(l: string, m: string, x: string, y: string)
    requires l + x == m + y && Delimited(x) && Delimited(y)
    requires forall i | 0 <= i < |l| :: NumberCharacter(l[i])
    requires forall i | 0 <= i < |m| :: NumberCharacter(m[i])
    ensures l == m && x == y
  {
    NumberEnds(l, x);
    NumberEnds(m, y);
    assert (l + x)[..|l|] == l && (m + y)[..|m|] == m;
    SameSuffix(l, x, y);
  }

  /** The text of a list from its first element on. */
  function ListText(texts: seq<string>, close: char, x: string): string {
    JoinComma(texts) + ([close] + x)
  }

  /** What follows the first element of a list. */
  function After(texts: seq<string>, close: char, x: string): string
    requires texts != []
  {
    if |texts| == 1 then [close] + x else "," + ListText(texts[1..], close, x)
  }

  lemma ListTextSteps(texts: seq<string>, close: char, x: string)
    requires texts != []
    ensures ListText(texts, close, x) == texts[0] + After(texts, close, x)
  {
    if |texts| > 1 {
      CommaMoves(texts[0], JoinComma(texts[1..]), [close] + x);
    }
  }

  lemma CommaMoves(first: string, rest: string, end: string)
    ensures (first + "," + rest) + end == first + ("," + (rest + end))
  {
    assert (first + "," + rest) + end == (first + ",") + (rest + end);
    assert (first + ",") + (rest + end) == first + ("," + (rest + end));
  }

  lemma AfterDelimits(texts: seq<string>, close: char, x: string)
    requires texts != [] && close in "]}"
    ensures Delimited(After(texts, close, x))
  {
  }

  lemma AfterUnique(s: seq<string>, t: seq<string>, close: char, x: string, y: string)
    requires s != [] && t != [] && close != ',' && After(s, close, x) == After(t, close, y)
    ensures |s| == 1 <==> |t| == 1
    ensures |s| == 1 ==> x == y
    ensures |s| > 1 ==> ListText(s[1..], close, x) == ListText(t[1..], close, y)
  {
    assert After(s, close, x)[0] == (if |s| == 1 then close else ',');
    assert After(t, close, y)[0] == (if |t| == 1 then close else ',');
    if |s| == 1 {
      SameSuffix([close], x, y);
    } else {
      SameSuffix(",", ListText(s[1..], close, x), ListText(t[1..], close, y));
    }
  }

  function Texts(lt: Collation, items: seq<Json>): seq<string> {
    seq(|items|, i requires 0 <= i < |items| => Stable(lt, items[i]))
  }

  function PairText(lt: Collation, e: Entry): string {
    Quote(e.key) + ":" + Stable(lt, e.value)
  }

  function PairTexts(lt: Collation, entries: seq<Entry>): seq<string> {
    seq(|entries|, i requires 0 <= i < |entries| => PairText(lt, entries[i]))
  }

  /** The first character tells the kind of a value. */
  lemma FirstCharacter(lt: Collation, j: Json)
    requires Valid(j)
    ensures Stable(lt, j) != ""
    ensures var c := Stable(lt, j)[0];
            match j
            case Null => c == 'n'
            case Bool(b) => c == if b then 't' else 'f'
            case Num(_) => NumberCharacter(c)
            case Str(_) => c == '"'
            case Arr(_) => c == '['
            case Obj(_) => c == '{'
  {
  }

  lemma ArrText(lt: Collation, items: seq<Json>, x: string)
    ensures Stable(lt, Arr(items)) + x == "[" + ListText(Texts(lt, items), ']', x)
  {
    assert Stable(lt, Arr(items)) == "[" + JoinComma(Texts(lt, items)) + "]";
  }

  lemma {:induction false} PairTextsAgree(lt: Collation, j: Json, sorted: seq<Entry>)
    requires j.Obj? && forall e | e in sorted :: e in j.entries
    ensures StablePairs(lt, j, sorted) == PairTexts(lt, sorted)
    decreases |sorted|
  {
    if sorted != [] {
      PairTextsAgree(lt, j, sorted[1..]);
      assert PairTexts(lt, sorted) == [PairText(lt, sorted[0])] + PairTexts(lt, sorted[1..]);
    }
  }

  lemma ObjText(lt: Collation, entries: seq<Entry>, x: string)
    ensures Stable(lt, Obj(entries)) + x == "{" + ListText(PairTexts(lt, Sort(ByKey(lt), entries)), '}', x)
  {
    var body := JoinComma(PairTexts(lt, Sort(ByKey(lt), entries)));
    PairTextsAgree(lt, Obj(entries), Sort(ByKey(lt), entries));
    assert ("{" + body + "}") + x == "{" + (body + ("}" + x));
  }

  /** No text of a value, followed by a delimiter, is also the text of an inequivalent value. */
  lemma {:induction false} StableUnique(lt: Collation, a: Json, b: Json, x: string, y: string)
    requires Valid(a) && Valid(b) && Delimited(x) && Delimited(y)
    requires Stable(lt, a) + x == Stable(lt, b) + y
    ensures Equivalent(a, b) && x == y
    decreases a, 1, 0
  {
    SameKind(lt, a, b, x, y);
    match a {
      case Null => SameSuffix("null", x, y);
      case Bool(v) => SameSuffix(if v then "true" else "false", x, y);
      case Num(lexeme) => NumberUnique(lexeme, b.lexeme, x, y);
      case Str(s) => QuoteUnique(s, b.s, x, y);
      case Arr(items) =>
        ArrayUnique(lt, a, b, x, y);
      case Obj(entries) =>
        ObjectUnique(lt, a, b, x, y);
    }
  }

  lemma SameKind(lt: Collation, a: Json, b: Json, x: string, y: string)
    requires Valid(a) && Valid(b) && Stable(lt, a) + x == Stable(lt, b) + y
    ensures a.Null? == b.Null? && (a.Bool? == b.Bool?) && (a.Bool? && b.Bool? ==> a == b)
    ensures (a.Num? == b.Num?) && (a.Str? == b.Str?) && (a.Arr? == b.Arr?) && (a.Obj? == b.Obj?)
  {
    FirstCharacter(lt, a);
    FirstCharacter(lt, b);
    assert (Stable(lt, a) + x)[0] == Stable(lt, a)[0];
    assert (Stable(lt, b) + y)[0] == Stable(lt, b)[0];
  }

  lemma {:induction false} ArrayUnique(lt: Collation, a: Json, b: Json, x: string, y: string)
    requires Valid(a) && Valid(b) && a.Arr? && b.Arr?
    requires Stable(lt, a) + x == Stable(lt, b) + y
    ensures Equivalent(a, b) && x == y
    decreases a, 0, |a.items|, 2
  {
    ArrText(lt, a.items, x);
    ArrText(lt, b.items, y);
    SameSuffix("[", ListText(Texts(lt, a.items), ']', x), ListText(Texts(lt, b.items), ']', y));
    ItemsUnique(lt, a, a.items, b.items, x, y);
  }

  lemma {:induction false} ObjectUnique(lt: Collation, a: Json, b: Json, x: string, y: string)
    requires Valid(a) && Valid(b) && a.Obj? && b.Obj?
    requires Stable(lt, a) + x == Stable(lt, b) + y
    ensures Equivalent(a, b) && x == y
    decreases a, 0, |a.entries|, 2
  {
    var s, t := Sort(ByKey(lt), a.entries), Sort(ByKey(lt), b.entries);
    ObjText(lt, a.entries, x);
    ObjText(lt, b.entries, y);
    SameSuffix("{", ListText(PairTexts(lt, s), '}', x), ListText(PairTexts(lt, t), '}', y));
    forall e | e in s ensures e.value < a && Valid(e.value) {
      assert e in a.entries;
    }
    forall e | e in t ensures Valid(e.value) {
      assert e in b.entries;
    }
    PairsUnique(lt, a, s, t, x, y);
    SortedPairsEquivalent(lt, a, b);
  }

  lemma SameSuffix(p: string, x: string, y: string)
    requires p + x == p + y
    ensures x == y
  {
    assert (p + x)[|p|..] == x && (p + y)[|p|..] == y;
  }

  lemma {:induction false} ItemsUnique(lt: Collation, parent: Json, items: seq<Json>, others: seq<Json>, x: string, y: string)
    requires forall j | j in items :: j < parent && Valid(j)
    requires forall j | j in others :: Valid(j)
    requires ListText(Texts(lt, items), ']', x) == ListText(Texts(lt, others), ']', y)
    ensures AllEquivalent(items, others) && x == y
    decreases parent, 0, |items|, 1
  {
    EmptyList(lt, items, x);
    EmptyList(lt, others, y);
    if items == [] || others == [] {
      SameSuffix("]", x, y);
    } else {
      assert items[0] in items && others[0] in others;
      FirstUnique(lt, parent, items, others, x, y);
      if |items| > 1 {
        ItemsUnique(lt, parent, items[1..], others[1..], x, y);
      }
      FirstAndRest(items, others);
    }
  }

  ghost predicate AllEquivalent(items: seq<Json>, others: seq<Json>) {
    |items| == |others| && forall i | 0 <= i < |items| :: Equivalent(items[i], others[i])
  }

  lemma FirstAndRest(items: seq<Json>, others: seq<Json>)
    requires items != [] && others != [] && Equivalent(items[0], others[0])
    requires |items| == 1 <==> |others| == 1
    requires |items| > 1 ==> AllEquivalent(items[1..], others[1..])
    ensures AllEquivalent(items, others)
  {
    forall i | 0 < i < |items| ensures |items| == |others| && Equivalent(items[i], others[i]) {
      assert items[i] == items[1..][i - 1] && others[i] == others[1..][i - 1];
    }
  }

  /** The first items of two lists with one text are equivalent, and what follows them is the same. */
  lemma {:induction false} FirstUnique(lt: Collation, parent: Json, items: seq<Json>, others: seq<Json>, x: string, y: string)
    requires items != [] && others != [] && items[0] < parent && Valid(items[0]) && Valid(others[0])
    requires ListText(Texts(lt, items), ']', x) == ListText(Texts(lt, others), ']', y)
    ensures Equivalent(items[0], others[0])
    ensures |items| == 1 <==> |others| == 1
    ensures |items| == 1 ==> x == y
    ensures |items| > 1 ==> ListText(Texts(lt, items[1..]), ']', x) == ListText(Texts(lt, others[1..]), ']', y)
    decreases parent, 0, |items|, 0
  {
    var s, t := Texts(lt, items), Texts(lt, others);
    ListTextSteps(s, ']', x);
    ListTextSteps(t, ']', y);
    AfterDelimits(s, ']', x);
    AfterDelimits(t, ']', y);
    StableUnique(lt, items[0], others[0], After(s, ']', x), After(t, ']', y));
    AfterUnique(s, t, ']', x, y);
    assert s[1..] == Texts(lt, items[1..]) && t[1..] == Texts(lt, others[1..]);
  }

  /** An empty list starts with its closing bracket, a nonempty one does not. */
  lemma EmptyList(lt: Collation, items: seq<Json>, x: string)
    requires forall j | j in items :: Valid(j)
    ensures var text := ListText(Texts(lt, items), ']', x);
            (items == [] ==> text == "]" + x) && (items != [] ==> text != "" && text[0] != ']')
  {
    if items != [] {
      assert items[0] in items;
      FirstCharacter(lt, items[0]);
      ListTextSteps(Texts(lt, items), ']', x);
    } else {
      assert JoinComma([]) == "";
      assert Texts(lt, items) == [];
    }
  }

  lemma EmptyPairs(lt: Collation, entries: seq<Entry>, x: string)
    ensures var text := ListText(PairTexts(lt, entries), '}', x);
            (entries == [] ==> text == "}" + x) && (entries != [] ==> text != "" && text[0] == '"')
  {
    if entries != [] {
      ListTextSteps(PairTexts(lt, entries), '}', x);
      assert PairText(lt, entries[0])[0] == '"';
    } else {
      assert JoinComma([]) == "";
      assert PairTexts(lt, entries) == [];
    }
  }

  lemma PairSteps(lt: Collation, e: Entry, x: string)
    ensures PairText(lt, e) + x == Quote(e.key) + (":" + (Stable(lt, e.value) + x))
  {
  }

  lemma {:induction false} PairsUnique(lt: Collation, parent: Json, entries: seq<Entry>, others: seq<Entry>, x: string, y: string)
    requires forall e | e in entries :: e.value < parent && Valid(e.value)
    requires forall e | e in others :: Valid(e.value)
    requires ListText(PairTexts(lt, entries), '}', x) == ListText(PairTexts(lt, others), '}', y)
    ensures AllPairsEquivalent(entries, others) && x == y
    decreases parent, 0, |entries|, 1
  {
    EmptyPairs(lt, entries, x);
    EmptyPairs(lt, others, y);
    if entries == [] || others == [] {
      SameSuffix("}", x, y);
    } else {
      FirstPairUnique(lt, parent, entries, others, x, y);
      if |entries| > 1 {
        PairsUnique(lt, parent, entries[1..], others[1..], x, y);
      }
      FirstAndOtherPairs(entries, others);
    }
  }

  ghost predicate AllPairsEquivalent(entries: seq<Entry>, others: seq<Entry>) {
    && |entries| == |others|
    && forall i | 0 <= i < |entries| :: entries[i].key == others[i].key && Equivalent(entries[i].value, others[i].value)
  }

  lemma FirstAndOtherPairs(entries: seq<Entry>, others: seq<Entry>)
    requires entries != [] && others != []
    requires entries[0].key == others[0].key && Equivalent(entries[0].value, others[0].value)
    requires |entries| == 1 <==> |others| == 1
    requires |entries| > 1 ==> AllPairsEquivalent(entries[1..], others[1..])
    ensures AllPairsEquivalent(entries, others)
  {
    forall i | 0 < i < |entries|
      ensures |entries| == |others| && entries[i].key == others[i].key && Equivalent(entries[i].value, others[i].value)
    {
      assert entries[i] == entries[1..][i - 1] && others[i] == others[1..][i - 1];
    }
  }

  lemma {:induction false} FirstPairUnique(lt: Collation, parent: Json, entries: seq<Entry>, others: seq<Entry>, x: string, y: string)
    requires entries != [] && others != []
    requires entries[0].value < parent && Valid(entries[0].value) && Valid(others[0].value)
    requires ListText(PairTexts(lt, entries), '}', x) == ListText(PairTexts(lt, others), '}', y)
    ensures entries[0].key == others[0].key && Equivalent(entries[0].value, others[0].value)
    ensures |entries| == 1 <==> |others| == 1
    ensures |entries| == 1 ==> x == y
    ensures |entries| > 1 ==> ListText(PairTexts(lt, entries[1..]), '}', x) == ListText(PairTexts(lt, others[1..]), '}', y)
    decreases parent, 0, |entries|, 0
  {
    var s, t := PairTexts(lt, entries), PairTexts(lt, others);
    ListTextSteps(s, '}', x);
    ListTextSteps(t, '}', y);
    AfterDelimits(s, '}', x);
    AfterDelimits(t, '}', y);
    PairUnique(lt, parent, entries[0], others[0], After(s, '}', x), After(t, '}', y));
    AfterUnique(s, t, '}', x, y);
    assert s[1..] == PairTexts(lt, entries[1..]) && t[1..] == PairTexts(lt, others[1..]);
  }

  lemma {:induction false} PairUnique(lt: Collation, parent: Json, e: Entry, f: Entry, x: string, y: string)
    requires e.value < parent && Valid(e.value) && Valid(f.value) && Delimited(x) && Delimited(y)
    requires PairText(lt, e) + x == PairText(lt, f) + y
    ensures e.key == f.key && Equivalent(e.value, f.value) && x == y
    decreases parent, 0, 0, 0
  {
    PairSteps(lt, e, x);
    PairSteps(lt, f, y);
    QuoteUnique(e.key, f.key, ":" + (Stable(lt, e.value) + x), ":" + (Stable(lt, f.value) + y));
    SameSuffix(":", Stable(lt, e.value) + x, Stable(lt, f.value) + y);
    StableUnique(lt, e.value, f.value, x, y);
  }

  lemma SortedPairsEquivalent(lt: Collation, a: Json, b: Json)
    requires a.Obj? && b.Obj?
    requires AllPairsEquivalent(Sort(ByKey(lt), a.entries), Sort(ByKey(lt), b.entries))
    ensures Equivalent(a, b)
  {
    var s, t := Sort(ByKey(lt), a.entries), Sort(ByKey(lt), b.entries);
    forall i | 0 <= i < |a.entries|
      ensures exists k | 0 <= k < |b.entries| ::
                a.entries[i].key == b.entries[k].key && Equivalent(a.entries[i].value, b.entries[k].value)
    {
      assert a.entries[i] in s;
      var m :| 0 <= m < |s| && s[m] == a.entries[i];
      assert t[m] in b.entries;
      var k :| 0 <= k < |b.entries| && b.entries[k] == t[m];
    }
  }

  // ----- equivalent values have one text -----

  ghost function KeysOf(entries: seq<Entry>): set<string> {
    set e | e in entries :: e.key
  }

  lemma KeyCount(entries: seq<Entry>)
    requires DistinctKeys(entries)
    ensures |KeysOf(entries)| == |entries|
  {
    var keys := KeySequence(entries);
    DistinctElements(keys);
    assert KeysOf(entries) == set k | k in keys by {
      forall e | e in entries ensures e.key in keys {
        var i :| 0 <= i < |entries| && entries[i] == e;
        assert keys[i] == e.key;
      }
    }
  }

  function KeySequence(entries: seq<Entry>): (keys: seq<string>)
    ensures |keys| == |entries| && forall i | 0 <= i < |keys| :: keys[i] == entries[i].key
  {
    seq(|entries|, i requires 0 <= i < |entries| => entries[i].key)
  }

  lemma SortedByKey(lt: Collation, entries: seq<Entry>)
    requires Total(lt) && DistinctKeys(entries)
    ensures Ascending(ByKey(lt), Sort(ByKey(lt), entries))
    ensures Ascending(lt, KeySequence(Sort(ByKey(lt), entries)))
    ensures forall k :: k in KeySequence(Sort(ByKey(lt), entries)) <==> k in KeysOf(entries)
  {
    var sorted := Sort(ByKey(lt), entries);
    forall x, y, z | ByKey(lt)(x, y) && ByKey(lt)(y, z) ensures ByKey(lt)(x, z) {
      assert lt(x.key, y.key) && lt(y.key, z.key);
    }
    forall x ensures !ByKey(lt)(x, x) {
      assert !lt(x.key, x.key);
    }
    SortAscends(ByKey(lt), entries);
    var keys := KeySequence(sorted);
    MapAscends(ByKey(lt), sorted, lt, keys);
    forall k ensures k in keys <==> k in KeysOf(entries) {
      if k in keys {
        var i :| 0 <= i < |keys| && keys[i] == k;
        assert sorted[i] in entries;
      }
      if k in KeysOf(entries) {
        var e :| e in entries && e.key == k;
        assert e in sorted;
        var i :| 0 <= i < |sorted| && sorted[i] == e;
        assert keys[i] == k;
      }
    }
  }

  /** Equivalent objects list the same keys in the same order, with equivalent values. */
  lemma SortedEquivalent(lt: Collation, a: Json, b: Json)
    requires Total(lt) && Valid(a) && Valid(b) && a.Obj? && Equivalent(a, b)
    ensures AllPairsEquivalent(Sort(ByKey(lt), a.entries), Sort(ByKey(lt), b.entries))
  {
    var s, t := Sort(ByKey(lt), a.entries), Sort(ByKey(lt), b.entries);
    SortedByKey(lt, a.entries);
    SortedByKey(lt, b.entries);
    KeyCount(a.entries);
    KeyCount(b.entries);
    forall k | k in KeysOf(a.entries) ensures k in KeysOf(b.entries) {
      var e :| e in a.entries && e.key == k;
      var f := Counterpart(a, b, e);
    }
    SubsetCount(KeysOf(a.entries), KeysOf(b.entries));
    AscendingUnique(lt, KeySequence(s), KeySequence(t));
    forall i | 0 <= i < |s| ensures s[i].key == t[i].key && Equivalent(s[i].value, t[i].value) {
      assert KeySequence(s)[i] == KeySequence(t)[i];
      assert s[i] in a.entries && t[i] in b.entries;
      var f := Counterpart(a, b, s[i]);
      OneEntryPerKey(b.entries, f, t[i]);
    }
  }

  lemma Counterpart(a: Json, b: Json, e: Entry) returns (f: Entry)
    requires a.Obj? && Equivalent(a, b) && e in a.entries
    ensures f in b.entries && f.key == e.key && Equivalent(e.value, f.value)
  {
    var i :| 0 <= i < |a.entries| && a.entries[i] == e;
    var k :| 0 <= k < |b.entries| && a.entries[i].key == b.entries[k].key && Equivalent(a.entries[i].value, b.entries[k].value);
    f := b.entries[k];
  }

  lemma OneEntryPerKey(entries: seq<Entry>, e: Entry, f: Entry)
    requires DistinctKeys(entries) && e in entries && f in entries && e.key == f.key
    ensures e == f
  {
  }

  lemma {:induction false} EquivalentText(lt: Collation, a: Json, b: Json)
    requires Total(lt) && Valid(a) && Valid(b) && Equivalent(a, b)
    ensures Stable(lt, a) == Stable(lt, b)
    decreases a
  {
    match a {
      case Arr(items) =>
        forall i | 0 <= i < |items| ensures Stable(lt, items[i]) == Stable(lt, b.items[i]) {
          EquivalentText(lt, items[i], b.items[i]);
        }
        assert Texts(lt, items) == Texts(lt, b.items);
        assert Stable(lt, a) == "[" + JoinComma(Texts(lt, items)) + "]";
      case Obj(entries) =>
        var s, t := Sort(ByKey(lt), entries), Sort(ByKey(lt), b.entries);
        SortedEquivalent(lt, a, b);
        forall i | 0 <= i < |s| ensures PairText(lt, s[i]) == PairText(lt, t[i]) {
          assert s[i] in entries && t[i] in b.entries;
          EquivalentText(lt, s[i].value, t[i].value);
        }
        assert PairTexts(lt, s) == PairTexts(lt, t);
        PairTextsAgree(lt, a, s);
        PairTextsAgree(lt, b, t);
      case _ =>
    }
  }

  /** The canonical text identifies a value up to the order of its object keys. */
  lemma StableIsCanonical(lt: Collation, a: Json, b: Json)
    requires Total(lt) && Valid(a) && Valid(b)
    ensures Stable(lt, a) == Stable(lt, b) <==> Equivalent(a, b)
  {
    if Stable(lt, a) == Stable(lt, b) {
      StableUnique(lt, a, b, "", "");
    }
    if Equivalent(a, b) {
      EquivalentText(lt, a, b);
    }
  }
}
