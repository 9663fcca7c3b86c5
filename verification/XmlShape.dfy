/** The bounds check on the shape of an XML feed: a scanner over the text. */
module XmlShape {
  import opened Basics

  const MAX_XML_DEPTH := 16
  const MAX_XML_ELEMENTS := 4096

  datatype Verdict = Accepted | DocumentType | Declaration | TagName | TooManyElements | TooDeep

  // ----- characters -----

  predicate NameStart(c: char) {
    'A' <= c <= 'Z' || 'a' <= c <= 'z' || c == '_'
  }

  function Upper(c: char): char {
    if 'a' <= c <= 'z' then (c as int - 32) as char else c
  }

  /** <!DOCTYPE in any mix of cases starts at this index. */
  predicate DoctypeAt(xml: string, i: nat) {
    i + 9 <= |xml| && forall k | 0 <= k < 9 :: Upper(xml[i + k]) == "<!DOCTYPE"[k]
  }

  predicate HasDoctype(xml: string) {
    exists i | 0 <= i < |xml| :: DoctypeAt(xml, i)
  }

  // ----- searching -----

  function IndexOf(xml: string, text: string, from: nat): (r: Option<nat>)
    ensures r.Some? ==> from <= r.value && At(xml, r.value, text)
    decreases |xml| - from
  {
    if from + |text| > |xml| then None
    else if At(xml, from, text) then Some(from)
    else if from == |xml| then None
    else IndexOf(xml, text, from + 1)
  }

  function SkipSpace(xml: string, i: nat): (r: nat)
    requires i <= |xml|
    ensures i <= r <= |xml|
    decreases |xml| - i
  {
    if i < |xml| && Space(xml[i]) then SkipSpace(xml, i + 1) else i
  }

  /** The first `>` outside quotes. */
  function TagEnd(xml: string, i: nat, quote: Option<char>): (r: Option<nat>)
    ensures r.Some? ==> i <= r.value < |xml|
    decreases |xml| - i
  {
    if i >= |xml| then None
    else if quote.Some? then TagEnd(xml, i + 1, if xml[i] == quote.value then None else quote)
    else if xml[i] == '"' || xml[i] == '\'' then TagEnd(xml, i + 1, Some(xml[i]))
    else if xml[i] == '>' then Some(i)
    else TagEnd(xml, i + 1, None)
  }

  /** The last index up to i that holds no white space, unless only white space is left. */
  function LastSolid(xml: string, i: nat): (r: nat)
    requires i < |xml|
    ensures r <= i
  {
    if Space(xml[i]) && i > 0 then LastSolid(xml, i - 1) else i
  }

  // ----- the scanner as a function -----

  datatype Tag = BadName | Unfinished | Found(closing: bool, selfClosing: bool, end: nat)

  /** The tag whose `<` is at the cursor. */
  function ReadTag(xml: string, cursor: nat): (tag: Tag)
    requires cursor < |xml|
    ensures tag.Found? ==> cursor < tag.end < |xml|
  {
    var first := SkipSpace(xml, cursor + 1);
    var closing := first < |xml| && xml[first] == '/';
    TagFrom(xml, closing, SkipSpace(xml, if closing then first + 1 else first))
  }

  /** A tag from its name on. */
  function TagFrom(xml: string, closing: bool, name: nat): (tag: Tag)
    ensures tag.Found? ==> name < tag.end < |xml|
  {
    if name >= |xml| || !NameStart(xml[name]) then BadName
    else
      match TagEnd(xml, name + 1, None)
      case None => Unfinished
      case Some(end) => Found(closing, xml[LastSolid(xml, end - 1)] == '/', end)
  }

  datatype Section = Markup | Open | Ends(next: nat)

  /** The comment, CDATA section or processing instruction at the cursor, if there is one. */
  function SectionAt(xml: string, cursor: nat): (section: Section)
    ensures section.Ends? ==> cursor < section.next <= |xml|
  {
    if At(xml, cursor, "<!--") then SectionEnd(xml, "-->", cursor + 4)
    else if At(xml, cursor, "<![CDATA[") then SectionEnd(xml, "]]>", cursor + 9)
    else if At(xml, cursor, "<?") then SectionEnd(xml, "?>", cursor + 2)
    else Markup
  }

  function SectionEnd(xml: string, close: string, from: nat): (section: Section)
    ensures !section.Markup? && (section.Ends? ==> from <= section.next <= |xml|)
  {
    match IndexOf(xml, close, from)
    case None => Open
    case Some(end) => Ends(end + |close|)
  }

  function Scan(xml: string, cursor: nat, depth: nat, elements: nat): Verdict
    requires cursor <= |xml|
    decreases |xml| - cursor
  {
    if cursor == |xml| then Accepted
    else if xml[cursor] != '<' then Scan(xml, cursor + 1, depth, elements)
    else
      match SectionAt(xml, cursor)
      case Open => Accepted
      case Ends(next) => Scan(xml, next, depth, elements)
      case Markup =>
        if At(xml, cursor, "<!") then Declaration
        else
          match ReadTag(xml, cursor)
          case BadName => TagName
          case Unfinished => Accepted
          case Found(closing, selfClosing, end) =>
            if closing then Scan(xml, end + 1, if depth == 0 then 0 else depth - 1, elements)
            else if elements + 1 > MAX_XML_ELEMENTS then TooManyElements
            else if selfClosing then Scan(xml, end + 1, depth, elements + 1)
            else if depth + 1 > MAX_XML_DEPTH then TooDeep
            else Scan(xml, end + 1, depth + 1, elements + 1)
  }

  function Check(xml: string): Verdict {
    if HasDoctype(xml) then DocumentType else Scan(xml, 0, 0, 0)
  }

  // ----- the scanner as a loop -----

  method SkipSpaces(xml: string, from: nat) returns (position: nat)
    requires from <= |xml|
    ensures position == SkipSpace(xml, from)
  {
    position := from;
    while position < |xml| && Space(xml[position])
      invariant from <= position <= |xml|
      invariant SkipSpace(xml, position) == SkipSpace(xml, from)
    {
      position := position + 1;
    }
  }

  method FindTagEnd(xml: string, from: nat) returns (end: Option<nat>)
    requires from <= |xml|
    ensures end == TagEnd(xml, from, None)
  {
    var quote: Option<char> := None;
    var scan := from;
    while scan < |xml|
      invariant from <= scan <= |xml|
      invariant TagEnd(xml, scan, quote) == TagEnd(xml, from, None)
    {
      var character := xml[scan];
      if quote.Some? {
        if character == quote.value {
          quote := None;
        }
      } else if character == '"' || character == '\'' {
        quote := Some(character);
      } else if character == '>' {
        return Some(scan);
      }
      scan := scan + 1;
    }
    return None;
  }

  method SkipSpacesBack(xml: string, from: nat) returns (position: nat)
    requires from < |xml|
    ensures position == LastSolid(xml, from)
  {
    position := from;
    while position > 0 && Space(xml[position])
      invariant position < |xml|
      invariant LastSolid(xml, position) == LastSolid(xml, from)
    {
      position := position - 1;
    }
  }

  /** One tag: white space, slash, name, quoted attributes, and whether it closes itself. */
  method FindTag(xml: string, cursor: nat) returns (tag: Tag)
    requires cursor < |xml|
    ensures tag == ReadTag(xml, cursor)
  {
    var position := SkipSpaces(xml, cursor + 1);
    var closing := position < |xml| && xml[position] == '/';
    if closing {
      position := position + 1;
    }
    position := SkipSpaces(xml, position);
    tag := FinishTag(xml, closing, position);
  }

  method FinishTag(xml: string, closing: bool, position: nat) returns (tag: Tag)
    requires position <= |xml|
    ensures tag == TagFrom(xml, closing, position)
  {
    if position == |xml| || !NameStart(xml[position]) {
      return BadName;
    }
    var end := FindTagEnd(xml, position + 1);
    if end.None? {
      return Unfinished;
    }
    var beforeEnd := SkipSpacesBack(xml, end.value - 1);
    return Found(closing, xml[beforeEnd] == '/', end.value);
  }

  /** The check itself. */
  method AssertXmlShapeBounds(xml: string) returns (verdict: Verdict)
    ensures verdict == Check(xml)
  {
    if HasDoctype(xml) {
      return DocumentType;
    }
    var depth: nat, elements: nat, cursor: nat := 0, 0, 0;
    ghost var expected := Scan(xml, 0, 0, 0);
    while cursor < |xml|
      invariant cursor <= |xml|
      invariant Scan(xml, cursor, depth, elements) == expected
      decreases |xml| - cursor
    {
      if xml[cursor] != '<' {
        cursor := cursor + 1;
        continue;
      }
      var section := SectionAt(xml, cursor);
      if section.Open? {
        return Accepted;
      }
      if section.Ends? {
        cursor := section.next;
        continue;
      }
      if At(xml, cursor, "<!") {
        return Declaration;
      }
      var tag := FindTag(xml, cursor);
      if tag.BadName? {
        return TagName;
      }
      if tag.Unfinished? {
        return Accepted;
      }
      if tag.closing {
        depth := if depth > 0 then depth - 1 else 0;
        cursor := tag.end + 1;
        continue;
      }
      elements := elements + 1;
      if elements > MAX_XML_ELEMENTS {
        return TooManyElements;
      }
      if !tag.selfClosing {
        depth := depth + 1;
        if depth > MAX_XML_DEPTH {
          return TooDeep;
        }
      }
      cursor := tag.end + 1;
    }
    return Accepted;
  }
}
