/** Element trees, their text, and what the shape check says about them. */
module XmlTrees {
  import opened Basics
  import opened XmlShape

  /** `head` is what precedes the quoted value: white space, the name and `=`. */
  datatype Attribute = Attribute(head: string, quote: char, value: string)

  datatype Item =
    | Text(text: string)
    | Comment(body: string)
    | CharacterData(body: string)
    | Instruction(body: string)
    | Empty(name: string, attributes: seq<Attribute>, space: string)                    // <name .../>
    | Element(name: string, attributes: seq<Attribute>, space: string, content: seq<Item>, closingSpace: string)

  // ----- which trees are meant -----

  /** No quote and no bracket: such a character never ends a tag or opens a quoted value. */
  predicate Plain(s: string) {
    forall i | 0 <= i < |s| :: s[i] != '"' && s[i] != '\'' && s[i] != '>'
  }

  predicate Blank(s: string) {
    forall i | 0 <= i < |s| :: Space(s[i])
  }

  predicate Name(s: string) {
    && s != "" && NameStart(s[0]) && Plain(s)
    && forall i | 0 <= i < |s| :: s[i] != '/' && !Space(s[i])
  }

  /** The section closes where its body ends and not before. */
  predicate Closes(body: string, close: string) {
    forall k | 0 <= k < |body| :: !At(body + close, k, close)
  }

  /** A quoted value may hold `<`, `>` and the other quote. */
  predicate WellFormedAttribute(a: Attribute) {
    && Plain(a.head)
    && (a.quote == '"' || a.quote == '\'') && a.quote !in a.value
  }

  predicate WellFormedTag(name: string, attributes: seq<Attribute>, space: string) {
    && Name(name) && Blank(space)
    && forall i | 0 <= i < |attributes| :: WellFormedAttribute(attributes[i])
  }

  predicate WellFormed(item: Item) {
    match item
    case Text(text) => '<' !in text
    case Comment(body) => Closes(body, "-->")
    case CharacterData(body) => Closes(body, "]]>")
    case Instruction(body) => Closes(body, "?>")
    case Empty(name, attributes, space) => WellFormedTag(name, attributes, space)
    case Element(name, attributes, space, content, closingSpace) =>
      && WellFormedTag(name, attributes, space) && Blank(closingSpace)
      && forall i | 0 <= i < |content| :: WellFormed(content[i])
  }

  predicate AllWellFormed(items: seq<Item>) {
    forall i | 0 <= i < |items| :: WellFormed(items[i])
  }

  // ----- text -----

  function RenderAttribute(a: Attribute): string {
    a.head + ([a.quote] + (a.value + [a.quote]))
  }

  function RenderAttributes(attributes: seq<Attribute>): string {
    if attributes == [] then "" else RenderAttribute(attributes[0]) + RenderAttributes(attributes[1..])
  }

  function RenderTag(name: string, attributes: seq<Attribute>, space: string, close: string): string {
    "<" + (name + (RenderAttributes(attributes) + (space + close)))
  }

  function RenderClosing(name: string, space: string): string {
    "</" + (name + (space + ">"))
  }

  function Render(item: Item): string
    decreases item
  {
    match item
    case Text(text) => text
    case Comment(body) => "<!--" + (body + "-->")
    case CharacterData(body) => "<![CDATA[" + (body + "]]>")
    case Instruction(body) => "<?" + (body + "?>")
    case Empty(name, attributes, space) => RenderTag(name, attributes, space, "/>")
    case Element(name, attributes, space, content, closingSpace) =>
      RenderTag(name, attributes, space, ">") + (RenderAll(content) + RenderClosing(name, closingSpace))
  }

  function RenderAll(items: seq<Item>): string
    decreases items
  {
    if items == [] then "" else Render(items[0]) + RenderAll(items[1..])
  }

  // ----- measures of a tree -----

  function Max(a: nat, b: nat): nat { if a > b then a else b }

  /** How deep elements with content nest. */
  function Depth(item: Item): nat
    decreases item
  {
    if item.Element? then 1 + DepthAll(item.content) else 0
  }

  function DepthAll(items: seq<Item>): nat
    decreases items
  {
    if items == [] then 0 else Max(Depth(items[0]), DepthAll(items[1..]))
  }

  /** How many elements there are, empty ones included. */
  function Count(item: Item): nat
    decreases item
  {
    match item
    case Empty(_, _, _) => 1
    case Element(_, _, _, content, _) => 1 + CountAll(content)
    case _ => 0
  }

  function CountAll(items: seq<Item>): nat
    decreases items
  {
    if items == [] then 0 else Count(items[0]) + CountAll(items[1..])
  }

  // ----- positions in a text -----

  lemma AtSub(xml: string, i: nat, s: string, k: nat, n: nat)
    requires At(xml, i, s) && k + n <= |s|
    ensures xml[i + k..i + k + n] == s[k..k + n]
  {
    var a, b := xml[i + k..i + k + n], s[k..k + n];
    forall j | 0 <= j < |a| ensures a[j] == b[j] {
      AtCharacter(xml, i, s, k + j);
    }
  }

  // ----- sections -----

  lemma {:induction false} IndexOfClose(xml: string, from: nat, body: string, close: string, k: nat)
    requires At(xml, from, body + close) && Closes(body, close) && k <= |body|
    ensures IndexOf(xml, close, from + k) == Some(from + |body|)
    decreases |body| - k
  {
    if k == |body| {
      AtSplit(xml, from, body, close);
    } else {
      assert !At(body + close, k, close);
      AtSub(xml, from, body + close, k, |close|);
      IndexOfClose(xml, from, body, close, k + 1);
    }
  }

  /** The section that starts at c is the one rendered there. */
  lemma SectionFound(xml: string, c: nat, open: string, body: string, close: string)
    requires At(xml, c, open + (body + close)) && Closes(body, close)
    requires (open, close) in {("<!--", "-->"), ("<![CDATA[", "]]>"), ("<?", "?>")}
    ensures c < |xml| && xml[c] == '<'
    ensures SectionAt(xml, c) == Ends(c + |open| + |body| + |close|)
  {
    AtSplit(xml, c, open, body + close);
    IndexOfClose(xml, c + |open|, body, close, 0);
    AtCharacter(xml, c, open, 0);
    AtCharacter(xml, c, open, 1);
    if open == "<![CDATA[" {
      AtCharacter(xml, c, open, 2);
      NotAtPosition(xml, c, "<!--", 2);
    } else if open == "<?" {
      NotAtPosition(xml, c, "<!--", 1);
      NotAtPosition(xml, c, "<![CDATA[", 1);
    }
  }

  lemma NotAtPosition(xml: string, i: nat, text: string, k: nat)
    requires k < |text| && i + k < |xml| && text[k] != xml[i + k]
    ensures !At(xml, i, text)
  {
    if i + |text| <= |xml| {
      assert xml[i..i + |text|][k] == xml[i + k];
    }
  }

  lemma ScanSection(xml: string, c: nat, next: nat, depth: nat, elements: nat)
    requires c < |xml| && xml[c] == '<' && SectionAt(xml, c) == Ends(next)
    ensures Scan(xml, c, depth, elements) == Scan(xml, next, depth, elements)
  {
  }

  lemma {:induction false} ScanText(xml: string, c: nat, text: string, depth: nat, elements: nat)
    requires At(xml, c, text) && '<' !in text
    ensures Scan(xml, c, depth, elements) == Scan(xml, c + |text|, depth, elements)
    decreases |text|
  {
    if text != "" {
      AtCharacter(xml, c, text, 0);
      assert text == text[..1] + text[1..];
      AtSplit(xml, c, text[..1], text[1..]);
      ScanText(xml, c + 1, text[1..], depth, elements);
    }
  }

  // ----- tags -----

  lemma {:induction false} TagEndPlain(xml: string, i: nat, s: string)
    requires At(xml, i, s) && Plain(s)
    ensures TagEnd(xml, i, None) == TagEnd(xml, i + |s|, None)
    decreases |s|
  {
    if s != "" {
      AtCharacter(xml, i, s, 0);
      assert s == s[..1] + s[1..];
      AtSplit(xml, i, s[..1], s[1..]);
      TagEndPlain(xml, i + 1, s[1..]);
    }
  }

  lemma {:induction false} TagEndQuoted(xml: string, i: nat, value: string, quote: char)
    requires At(xml, i, value + [quote]) && quote !in value
    ensures TagEnd(xml, i, Some(quote)) == TagEnd(xml, i + |value| + 1, None)
    decreases |value|
  {
    AtCharacter(xml, i, value + [quote], 0);
    if value != "" {
      assert value + [quote] == value[..1] + (value[1..] + [quote]);
      AtSplit(xml, i, value[..1], value[1..] + [quote]);
      TagEndQuoted(xml, i + 1, value[1..], quote);
    }
  }

  lemma TagEndAttribute(xml: string, i: nat, a: Attribute)
    requires At(xml, i, RenderAttribute(a)) && WellFormedAttribute(a)
    ensures var next := i + |RenderAttribute(a)|;
            xml[next - 1] == a.quote && TagEnd(xml, i, None) == TagEnd(xml, next, None)
  {
    AtSplit(xml, i, a.head, [a.quote] + (a.value + [a.quote]));
    TagEndPlain(xml, i, a.head);
    TagEndValue(xml, i + |a.head|, a.value, a.quote);
  }

  lemma TagEndValue(xml: string, i: nat, value: string, quote: char)
    requires At(xml, i, [quote] + (value + [quote])) && quote !in value && (quote == '"' || quote == '\'')
    ensures var next := i + |value| + 2;
            xml[next - 1] == quote && TagEnd(xml, i, None) == TagEnd(xml, next, None)
  {
    AtSplit(xml, i, [quote], value + [quote]);
    AtCharacter(xml, i, [quote], 0);
    TagEndQuoted(xml, i + 1, value, quote);
    AtCharacter(xml, i + 1, value + [quote], |value|);
  }

  /** A character that ends a tag's last word: no white space and no slash. */
  predicate Solid(c: char) {
    !Space(c) && c != '/'
  }

  lemma {:induction false} TagEndAttributes(xml: string, i: nat, attributes: seq<Attribute>)
    requires 0 < i <= |xml| && Solid(xml[i - 1])
    requires At(xml, i, RenderAttributes(attributes))
    requires forall k | 0 <= k < |attributes| :: WellFormedAttribute(attributes[k])
    ensures RunsThrough(xml, i, RenderAttributes(attributes))
    decreases |attributes|
  {
    if attributes != [] {
      var first := RenderAttribute(attributes[0]);
      AtSplit(xml, i, first, RenderAttributes(attributes[1..]));
      TagEndAttribute(xml, i, attributes[0]);
      TagEndAttributes(xml, i + |first|, attributes[1..]);
    }
  }

  lemma {:induction false} LastSolidBlank(xml: string, i: nat, space: string)
    requires 0 < i <= |xml| && At(xml, i, space) && Blank(space) && !Space(xml[i - 1])
    ensures LastSolid(xml, i + |space| - 1) == i - 1
    decreases |space|
  {
    if space != "" {
      var n := |space| - 1;
      AtCharacter(xml, i, space, n);
      BlankPrefix(space, n);
      assert space == space[..n] + space[n..];
      AtSplit(xml, i, space[..n], space[n..]);
      LastSolidBlank(xml, i, space[..n]);
      LastSolidStep(xml, i + n);
    }
  }

  lemma BlankPrefix(space: string, n: nat)
    requires Blank(space) && n < |space|
    ensures Blank(space[..n]) && Space(space[n])
  {
  }

  lemma LastSolidStep(xml: string, i: nat)
    requires 0 < i < |xml| && Space(xml[i])
    ensures LastSolid(xml, i) == LastSolid(xml, i - 1)
  {
  }

  lemma NameEnds(xml: string, i: nat, name: string)
    requires At(xml, i, name) && Name(name)
    ensures i < |xml| && NameStart(xml[i]) && !Space(xml[i]) && xml[i] != '/'
    ensures Solid(xml[i + |name| - 1]) && TagEnd(xml, i + 1, None) == TagEnd(xml, i + |name|, None)
  {
    AtCharacter(xml, i, name, 0);
    AtCharacter(xml, i, name, |name| - 1);
    assert name == name[..1] + name[1..];
    AtSplit(xml, i, name[..1], name[1..]);
    TagEndPlain(xml, i + 1, name[1..]);
  }

  /** No tag ends within this text, and it does not look like the end of one. */
  predicate RunsThrough(xml: string, i: nat, text: string) {
    && 0 < i + |text| <= |xml|
    && TagEnd(xml, i, None) == TagEnd(xml, i + |text|, None) && Solid(xml[i + |text| - 1])
  }

  lemma TagFromEnds(xml: string, i: nat, closing: bool, name: string, attributes: seq<Attribute>, space: string, close: string)
    requires i > 0 && WellFormedTag(name, attributes, space) && (close == ">" || close == "/>")
    requires At(xml, i, name) && At(xml, i + |name|, RenderAttributes(attributes))
    requires At(xml, i + |name| + |RenderAttributes(attributes)|, space + close)
    ensures TagFrom(xml, closing, i) ==
              Found(closing, close == "/>", i + |name| + |RenderAttributes(attributes)| + |space| + |close| - 1)
  {
    NameEnds(xml, i, name);
    TagEndAttributes(xml, i + |name|, attributes);
    TagFromParts(xml, i, closing, name, RenderAttributes(attributes), space, close);
  }

  lemma TagFromParts(xml: string, i: nat, closing: bool, name: string, rendered: string, space: string, close: string)
    requires i > 0 && Name(name) && Blank(space) && (close == ">" || close == "/>")
    requires At(xml, i, name) && RunsThrough(xml, i + |name|, rendered) && At(xml, i + |name| + |rendered|, space + close)
    ensures TagFrom(xml, closing, i) == Found(closing, close == "/>", i + |name| + |rendered| + |space| + |close| - 1)
  {
    var end := i + |name| + |rendered| + |space| + |close| - 1;
    NameEnds(xml, i, name);
    ClosingBracket(xml, i + |name| + |rendered|, space, close);
    NamedTag(xml, closing, i, end, close == "/>");
  }

  lemma NamedTag(xml: string, closing: bool, name: nat, end: nat, selfClosing: bool)
    requires name < |xml| && NameStart(xml[name]) && TagEnd(xml, name + 1, None) == Some(end)
    requires (xml[LastSolid(xml, end - 1)] == '/') == selfClosing
    ensures TagFrom(xml, closing, name) == Found(closing, selfClosing, end)
  {
  }

  lemma TagParts(xml: string, c: nat, name: string, attributes: string, end: string)
    requires At(xml, c, "<" + (name + (attributes + end)))
    ensures xml[c] == '<' && At(xml, c + 1, name) && At(xml, c + 1 + |name|, attributes)
    ensures At(xml, c + 1 + |name| + |attributes|, end)
  {
    AtSplit(xml, c, "<", name + (attributes + end));
    AtCharacter(xml, c, "<", 0);
    AtSplit(xml, c + 1, name, attributes + end);
    AtSplit(xml, c + 1 + |name|, attributes, end);
  }

  /** The end of an opening tag, and whether it closes itself. */
  lemma OpeningEnds(xml: string, c: nat, name: string, attributes: seq<Attribute>, space: string, close: string)
    requires WellFormedTag(name, attributes, space) && (close == ">" || close == "/>")
    requires At(xml, c, RenderTag(name, attributes, space, close))
    ensures ReadTag(xml, c) == Found(false, close == "/>", c + |RenderTag(name, attributes, space, close)| - 1)
    ensures xml[c] == '<' && NameStart(xml[c + 1])
  {
    TagParts(xml, c, name, RenderAttributes(attributes), space + close);
    AtCharacter(xml, c + 1, name, 0);
    TagFromEnds(xml, c + 1, false, name, attributes, space, close);
  }

  lemma ClosingBracket(xml: string, i: nat, space: string, close: string)
    requires 0 < i <= |xml| && At(xml, i, space + close) && Blank(space) && Solid(xml[i - 1])
    requires close == ">" || close == "/>"
    ensures var end := i + |space| + |close| - 1;
            TagEnd(xml, i, None) == Some(end) && (xml[LastSolid(xml, end - 1)] == '/') == (close == "/>")
  {
    AtSplit(xml, i, space, close);
    BlankIsPlain(space);
    TagEndPlain(xml, i, space);
    BracketEnds(xml, i + |space|, close);
    if close == ">" {
      LastSolidBlank(xml, i, space);
    }
  }

  lemma BlankIsPlain(space: string)
    requires Blank(space)
    ensures Plain(space)
  {
    forall k | 0 <= k < |space| ensures space[k] != '"' && space[k] != '\'' && space[k] != '>' {
      assert Space(space[k]);
    }
  }

  lemma BracketEnds(xml: string, i: nat, close: string)
    requires At(xml, i, close) && (close == ">" || close == "/>")
    ensures TagEnd(xml, i, None) == Some(i + |close| - 1)
    ensures close == "/>" ==> xml[LastSolid(xml, i)] == '/'
  {
    AtCharacter(xml, i, close, 0);
    if close == "/>" {
      AtCharacter(xml, i, close, 1);
    }
  }

  lemma ClosingEnds(xml: string, c: nat, name: string, space: string)
    requires Name(name) && Blank(space) && At(xml, c, RenderClosing(name, space))
    ensures ReadTag(xml, c) == Found(true, false, c + |RenderClosing(name, space)| - 1)
    ensures xml[c] == '<' && xml[c + 1] == '/'
  {
    AtSplit(xml, c, "</", name + (space + ">"));
    AtCharacter(xml, c, "</", 0);
    AtCharacter(xml, c, "</", 1);
    AtSplit(xml, c + 2, name, space + ">");
    NameEnds(xml, c + 2, name);
    TagFromParts(xml, c + 2, true, name, "", space, ">");
  }

  // ----- trees -----

  /** A rejection for size, and for the one that is exceeded if it is only one. */
  predicate TooLarge(v: Verdict, shallow: bool, few: bool) {
    (v.TooManyElements? && !few) || (v.TooDeep? && !shallow)
  }

  /** The scan of one text as a value: what the laws below need to know about it is only
      that it is the scan. */
  type Scanner = (nat, nat, nat) -> Verdict

  ghost predicate IsScan(xml: string, scan: Scanner) {
    forall c: nat, depth: nat, elements: nat {:trigger Scan(xml, c, depth, elements)} ::
      c <= |xml| ==> scan(c, depth, elements) == Scan(xml, c, depth, elements)
  }

  /** A scan from here goes on there, or is rejected for size when that does not fit. */
  predicate Passes(scan: Scanner, c: nat, depth: nat, elements: nat, next: nat, depth': nat, elements': nat,
                   shallow: bool, few: bool) {
    if shallow && few then scan(c, depth, elements) == scan(next, depth', elements')
    else TooLarge(scan(c, depth, elements), shallow, few)
  }

  /** Scanning what is rendered here counts its elements and measures how deep they nest. */
  predicate Measures(scan: Scanner, c: nat, next: nat, depth: nat, elements: nat, deepest: nat, count: nat)
  {
    Passes(scan, c, depth, elements, next, depth, elements + count,
           depth + deepest <= MAX_XML_DEPTH, elements + count <= MAX_XML_ELEMENTS)
  }

  lemma TagIsMarkup(xml: string, c: nat)
    requires c + 1 < |xml| && xml[c] == '<' && xml[c + 1] != '!' && xml[c + 1] != '?'
    ensures SectionAt(xml, c).Markup? && !At(xml, c, "<!")
  {
    NotAtPosition(xml, c, "<!--", 1);
    NotAtPosition(xml, c, "<![CDATA[", 1);
    NotAtPosition(xml, c, "<?", 1);
    NotAtPosition(xml, c, "<!", 1);
  }

  lemma ScanOpening(xml: string, scan: Scanner, c: nat, selfClosing: bool, end: nat, depth: nat, elements: nat)
    requires IsScan(xml, scan)
    requires c + 1 < |xml| && xml[c] == '<' && NameStart(xml[c + 1])
    requires ReadTag(xml, c) == Found(false, selfClosing, end)
    ensures Passes(scan, c, depth, elements, end + 1, if selfClosing then depth else depth + 1, elements + 1,
                   selfClosing || depth + 1 <= MAX_XML_DEPTH, elements + 1 <= MAX_XML_ELEMENTS)
  {
    TagIsMarkup(xml, c);
    assert Scan(xml, c, depth, elements) ==
             if elements + 1 > MAX_XML_ELEMENTS then TooManyElements
             else if selfClosing then Scan(xml, end + 1, depth, elements + 1)
             else if depth + 1 > MAX_XML_DEPTH then TooDeep
             else Scan(xml, end + 1, depth + 1, elements + 1);
  }

  lemma ScanClosing(xml: string, scan: Scanner, c: nat, end: nat, depth: nat, elements: nat)
    requires IsScan(xml, scan)
    requires c + 1 < |xml| && xml[c] == '<' && xml[c + 1] == '/'
    requires ReadTag(xml, c) == Found(true, false, end)
    ensures Passes(scan, c, depth + 1, elements, end + 1, depth, elements, true, true)
  {
    TagIsMarkup(xml, c);
    assert Scan(xml, c, depth + 1, elements) == Scan(xml, end + 1, depth, elements);
  }

  lemma TextPasses(xml: string, scan: Scanner, c: nat, text: string, depth: nat, elements: nat)
    requires IsScan(xml, scan) && At(xml, c, text) && '<' !in text
    ensures Passes(scan, c, depth, elements, c + |text|, depth, elements, true, true)
  {
    ScanText(xml, c, text, depth, elements);
  }

  lemma SectionPasses(xml: string, scan: Scanner, c: nat, open: string, body: string, close: string, depth: nat, elements: nat)
    requires IsScan(xml, scan) && At(xml, c, open + (body + close)) && Closes(body, close)
    requires (open, close) in {("<!--", "-->"), ("<![CDATA[", "]]>"), ("<?", "?>")}
    ensures Passes(scan, c, depth, elements, c + |open + (body + close)|, depth, elements, true, true)
  {
    SectionFound(xml, c, open, body, close);
    ScanSection(xml, c, c + |open| + |body| + |close|, depth, elements);
  }

  lemma OpeningPasses(xml: string, scan: Scanner, c: nat, name: string, attributes: seq<Attribute>, space: string, close: string,
                      depth: nat, elements: nat)
    requires IsScan(xml, scan) && WellFormedTag(name, attributes, space) && (close == ">" || close == "/>")
    requires At(xml, c, RenderTag(name, attributes, space, close))
    ensures Passes(scan, c, depth, elements,
                   c + |RenderTag(name, attributes, space, close)|, if close == "/>" then depth else depth + 1, elements + 1,
                   close == "/>" || depth + 1 <= MAX_XML_DEPTH, elements + 1 <= MAX_XML_ELEMENTS)
  {
    OpeningEnds(xml, c, name, attributes, space, close);
    ScanOpening(xml, scan, c, close == "/>", c + |RenderTag(name, attributes, space, close)| - 1, depth, elements);
  }

  lemma ClosingPasses(xml: string, scan: Scanner, c: nat, name: string, space: string, depth: nat, elements: nat)
    requires IsScan(xml, scan) && Name(name) && Blank(space) && At(xml, c, RenderClosing(name, space))
    ensures Passes(scan, c, depth + 1, elements, c + |RenderClosing(name, space)|, depth, elements, true, true)
  {
    ClosingEnds(xml, c, name, space);
    ScanClosing(xml, scan, c, c + |RenderClosing(name, space)| - 1, depth, elements);
  }

  /** An opening tag, content within bounds or not, and a closing tag. */
  lemma NestedPasses(scan: Scanner, c: nat, inside: nat, after: nat, next: nat, depth: nat, elements: nat, deepest: nat, count: nat)
    requires Passes(scan, c, depth, elements, inside, depth + 1, elements + 1,
                    depth + 1 <= MAX_XML_DEPTH, elements + 1 <= MAX_XML_ELEMENTS)
    requires elements + 1 <= MAX_XML_ELEMENTS && depth + 1 <= MAX_XML_DEPTH ==>
               Measures(scan, inside, after, depth + 1, elements + 1, deepest, count)
    requires Passes(scan, after, depth + 1, elements + 1 + count, next, depth, elements + 1 + count, true, true)
    ensures Measures(scan, c, next, depth, elements, 1 + deepest, 1 + count)
  {
  }

  lemma {:induction false} ScanItem(xml: string, scan: Scanner, c: nat, item: Item, depth: nat, elements: nat)
    requires IsScan(xml, scan)
    requires At(xml, c, Render(item)) && WellFormed(item)
    requires depth <= MAX_XML_DEPTH && elements <= MAX_XML_ELEMENTS
    ensures Measures(scan, c, c + |Render(item)|, depth, elements, Depth(item), Count(item))
    decreases item, 1
  {
    match item {
      case Text(text) => TextPasses(xml, scan, c, text, depth, elements);
      case Comment(body) => SectionPasses(xml, scan, c, "<!--", body, "-->", depth, elements);
      case CharacterData(body) => SectionPasses(xml, scan, c, "<![CDATA[", body, "]]>", depth, elements);
      case Instruction(body) => SectionPasses(xml, scan, c, "<?", body, "?>", depth, elements);
      case Empty(name, attributes, space) => OpeningPasses(xml, scan, c, name, attributes, space, "/>", depth, elements);
      case Element(name, attributes, space, content, closingSpace) =>
        ScanElement(xml, scan, c, name, attributes, space, content, closingSpace, depth, elements);
    }
  }

  lemma {:induction false} ScanElement(xml: string, scan: Scanner, c: nat, name: string, attributes: seq<Attribute>, space: string,
                                       content: seq<Item>, closingSpace: string, depth: nat, elements: nat)
    requires IsScan(xml, scan)
    requires WellFormedTag(name, attributes, space) && Blank(closingSpace) && AllWellFormed(content)
    requires At(xml, c, RenderTag(name, attributes, space, ">") + (RenderAll(content) + RenderClosing(name, closingSpace)))
    requires depth <= MAX_XML_DEPTH && elements <= MAX_XML_ELEMENTS
    ensures Measures(scan, c, c + |RenderTag(name, attributes, space, ">")| + |RenderAll(content)| + |RenderClosing(name, closingSpace)|,
                     depth, elements, 1 + DepthAll(content), 1 + CountAll(content))
    decreases content, 3
  {
    var open := RenderTag(name, attributes, space, ">");
    var body := RenderAll(content);
    var close := RenderClosing(name, closingSpace);
    AtSplit(xml, c, open, body + close);
    AtSplit(xml, c + |open|, body, close);
    OpeningPasses(xml, scan, c, name, attributes, space, ">", depth, elements);
    if elements + 1 <= MAX_XML_ELEMENTS && depth + 1 <= MAX_XML_DEPTH {
      ScanItems(xml, scan, c + |open|, content, depth + 1, elements + 1);
    }
    ClosingPasses(xml, scan, c + |open| + |body|, name, closingSpace, depth, elements + 1 + CountAll(content));
    NestedPasses(scan, c, c + |open|, c + |open| + |body|, c + |open| + |body| + |close|, depth, elements,
                 DepthAll(content), CountAll(content));
  }

  lemma {:induction false} ScanItems(xml: string, scan: Scanner, c: nat, items: seq<Item>, depth: nat, elements: nat)
    requires IsScan(xml, scan)
    requires At(xml, c, RenderAll(items)) && AllWellFormed(items)
    requires depth <= MAX_XML_DEPTH && elements <= MAX_XML_ELEMENTS
    ensures Measures(scan, c, c + |RenderAll(items)|, depth, elements, DepthAll(items), CountAll(items))
    decreases items, 2
  {
    if items != [] {
      var first, rest := Render(items[0]), RenderAll(items[1..]);
      AtSplit(xml, c, first, rest);
      ScanItem(xml, scan, c, items[0], depth, elements);
      if elements + Count(items[0]) <= MAX_XML_ELEMENTS {
        ScanItems(xml, scan, c + |first|, items[1..], depth, elements + Count(items[0]));
      }
      MeasuresBoth(scan, c, c + |first|, c + |first| + |rest|, depth, elements,
                   Depth(items[0]), Count(items[0]), DepthAll(items[1..]), CountAll(items[1..]));
    }
  }

  lemma MeasuresBoth(scan: Scanner, c: nat, middle: nat, next: nat, depth: nat, elements: nat,
                     deepest: nat, count: nat, deepest': nat, count': nat)
    requires Measures(scan, c, middle, depth, elements, deepest, count)
    requires elements + count <= MAX_XML_ELEMENTS ==> Measures(scan, middle, next, depth, elements + count, deepest', count')
    ensures Measures(scan, c, next, depth, elements, Max(deepest, deepest'), count + count')
  {
  }

  /** A document without a document type is accepted exactly when its elements nest at most
      16 deep and number at most 4096; otherwise it is rejected for what is exceeded. */
  lemma CheckMeasuresTree(items: seq<Item>)
    requires AllWellFormed(items)
    ensures var verdict := Check(RenderAll(items));
            if HasDoctype(RenderAll(items)) then verdict == DocumentType
            else if DepthAll(items) <= MAX_XML_DEPTH && CountAll(items) <= MAX_XML_ELEMENTS then verdict == Accepted
            else TooLarge(verdict, DepthAll(items) <= MAX_XML_DEPTH, CountAll(items) <= MAX_XML_ELEMENTS)
  {
    var xml := RenderAll(items);
    assert xml[0..|xml|] == xml;
    var scan: Scanner := (c: nat, depth: nat, elements: nat) => if c <= |xml| then Scan(xml, c, depth, elements) else Accepted;
    assert scan(0, 0, 0) == Scan(xml, 0, 0, 0);
    assert scan(|xml|, 0, CountAll(items)) == Accepted;
    ScanItems(xml, scan, 0, items, 0, 0);
  }
}
