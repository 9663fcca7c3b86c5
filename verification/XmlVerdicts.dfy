/** What the shape check says of markup that is not part of an element tree: document types, declarations,
    tags without a name, tags and sections that do not end, and closing tags with nothing to close. */
module XmlVerdicts {
  import opened Basics
  import opened XmlShape
  import opened XmlTrees

  // ----- document types -----

  predicate SpellsDoctype(xml: string, i: nat) {
    i + 9 <= |xml| && forall k | 0 <= k < 9 :: xml[i + k] == "<!DOCTYPE"[k] || xml[i + k] == "<!doctype"[k]
  }

  /** A document type is rejected wherever it stands, in any mix of cases, and nothing else as one. */
  lemma DocumentTypeIff(xml: string)
    ensures Check(xml).DocumentType? <==> exists i | 0 <= i < |xml| :: SpellsDoctype(xml, i)
  {
    ScanHasNoDoctype(xml, 0, 0, 0);
    forall i | 0 <= i < |xml| ensures SpellsDoctype(xml, i) <==> DoctypeAt(xml, i) {
      if i + 9 <= |xml| {
        forall k | 0 <= k < 9
          ensures (xml[i + k] == "<!DOCTYPE"[k] || xml[i + k] == "<!doctype"[k]) <==> Upper(xml[i + k]) == "<!DOCTYPE"[k]
        {
          Cases(xml[i + k], k);
        }
      }
    }
  }

  lemma Cases(c: char, k: nat)
    requires k < 9
    ensures (c == "<!DOCTYPE"[k] || c == "<!doctype"[k]) <==> Upper(c) == "<!DOCTYPE"[k]
  {
    assert "<!doctype"[k] == "<!DOCTYPE"[k] || (k >= 2 && "<!doctype"[k] as int == "<!DOCTYPE"[k] as int + 32 && 'A' <= "<!DOCTYPE"[k] <= 'Z');
  }

  lemma {:induction false} ScanHasNoDoctype(xml: string, cursor: nat, depth: nat, elements: nat)
    requires cursor <= |xml|
    ensures !Scan(xml, cursor, depth, elements).DocumentType?
    decreases |xml| - cursor
  {
    if cursor < |xml| {
      if xml[cursor] != '<' {
        ScanHasNoDoctype(xml, cursor + 1, depth, elements);
      } else {
        match SectionAt(xml, cursor)
        case Open =>
        case Ends(next) => ScanHasNoDoctype(xml, next, depth, elements);
        case Markup =>
          match ReadTag(xml, cursor)
          case BadName =>
          case Unfinished =>
          case Found(closing, selfClosing, end) =>
            ScanHasNoDoctype(xml, end + 1, if depth == 0 then 0 else depth - 1, elements);
            ScanHasNoDoctype(xml, end + 1, depth, elements + 1);
            ScanHasNoDoctype(xml, end + 1, depth + 1, elements + 1);
      }
    }
  }

  // ----- behind complete items -----

  predicate Within(items: seq<Item>) {
    AllWellFormed(items) && DepthAll(items) <= MAX_XML_DEPTH && CountAll(items) <= MAX_XML_ELEMENTS
  }

  /** The scan goes on behind items that are within the bounds. */
  lemma Behind(items: seq<Item>, rest: string) returns (scan: Scanner)
    requires Within(items)
    ensures var xml, c := RenderAll(items) + rest, |RenderAll(items)|;
            && At(xml, c, rest) && IsScan(xml, scan)
            && Check(xml) == if HasDoctype(xml) then DocumentType else scan(c, 0, CountAll(items))
  {
    var xml, c := RenderAll(items) + rest, |RenderAll(items)|;
    assert xml[0..c] == RenderAll(items) && xml[c..c + |rest|] == rest;
    scan := ScannerOf(xml);
    ScanItems(xml, scan, 0, items, 0, 0);
  }

  lemma ScannerOf(xml: string) returns (scan: Scanner)
    ensures IsScan(xml, scan) && scan(0, 0, 0) == Scan(xml, 0, 0, 0)
  {
    scan := (c: nat, depth: nat, elements: nat) => if c <= |xml| then Scan(xml, c, depth, elements) else Accepted;
  }

  /** The verdict where a scan ends. */
  lemma ScanStops(xml: string, scan: Scanner, c: nat, elements: nat, verdict: Verdict)
    requires IsScan(xml, scan) && c < |xml| && xml[c] == '<'
    requires if SectionAt(xml, c).Open? then verdict == Accepted
             else SectionAt(xml, c).Markup? &&
                  if At(xml, c, "<!") then verdict == Declaration
                  else if ReadTag(xml, c).BadName? then verdict == TagName
                  else ReadTag(xml, c).Unfinished? && verdict == Accepted
    ensures scan(c, 0, elements) == verdict
  {
    assert Scan(xml, c, 0, elements) == verdict;
  }

  /** A markup declaration is rejected. */
  lemma DeclarationIsRejected(items: seq<Item>, rest: string)
    requires Within(items) && !At(rest, 0, "--") && !At(rest, 0, "[CDATA[")
    ensures var xml := RenderAll(items) + ("<!" + rest);
            Check(xml) == if HasDoctype(xml) then DocumentType else Declaration
  {
    var xml, c := RenderAll(items) + ("<!" + rest), |RenderAll(items)|;
    var scan := Behind(items, "<!" + rest);
    AtSplit(xml, c, "<!", rest);
    AtCharacter(xml, c, "<!", 0);
    AtCharacter(xml, c, "<!", 1);
    Opens(xml, c, rest, "--");
    Opens(xml, c, rest, "[CDATA[");
    assert "<!" + "--" == "<!--" && "<!" + "[CDATA[" == "<![CDATA[";
    NotAtPosition(xml, c, "<?", 1);
    ScanStops(xml, scan, c, CountAll(items), Declaration);
  }

  lemma Opens(xml: string, c: nat, rest: string, word: string)
    requires At(xml, c, "<!") && c + 2 + |rest| == |xml| && At(xml, c + 2, rest)
    ensures At(xml, c, "<!" + word) ==> At(rest, 0, word)
  {
    if At(xml, c, "<!" + word) {
      AtSplit(xml, c, "<!", word);
      assert rest == xml[c + 2..];
      assert rest[..|word|] == xml[c + 2..c + 2 + |word|];
    }
  }

  /** What a tag must not be followed by instead of its name. */
  predicate Nameless(space: string, slash: string, more: string, rest: string) {
    && Blank(space) && Blank(more) && (slash == "/" || (slash == "" && more == ""))
    && (rest != "" ==> !NameStart(rest[0]) && !Space(rest[0]) && (slash == "" ==> rest[0] != '/'))
    && (space == "" && slash == "" && rest != "" ==> rest[0] != '!' && rest[0] != '?')
  }

  /** A tag must have a name, possibly behind white space, a slash and white space. */
  lemma NamelessIsRejected(items: seq<Item>, space: string, slash: string, more: string, rest: string)
    requires Within(items) && Nameless(space, slash, more, rest)
    ensures var xml := RenderAll(items) + ("<" + (space + (slash + (more + rest))));
            Check(xml) == if HasDoctype(xml) then DocumentType else TagName
  {
    var tag := "<" + (space + (slash + (more + rest)));
    var xml, c := RenderAll(items) + tag, |RenderAll(items)|;
    var scan := Behind(items, tag);
    AtSplit(xml, c, "<", space + (slash + (more + rest)));
    AtCharacter(xml, c, "<", 0);
    AtSplit(xml, c + 1, space, slash + (more + rest));
    AtSplit(xml, c + 1 + |space|, slash, more + rest);
    AtSplit(xml, c + 1 + |space| + |slash|, more, rest);
    NamelessTag(xml, c, space, slash, more, rest);
    NamelessMarkup(xml, c, space, slash, more, rest);
    ScanStops(xml, scan, c, CountAll(items), TagName);
  }

  lemma {:induction false} SkipsBlank(xml: string, i: nat, space: string)
    requires At(xml, i, space) && Blank(space) && (i + |space| < |xml| ==> !Space(xml[i + |space|]))
    ensures SkipSpace(xml, i) == i + |space|
    decreases |space|
  {
    if space != "" {
      AtCharacter(xml, i, space, 0);
      assert space == space[..1] + space[1..];
      AtSplit(xml, i, space[..1], space[1..]);
      SkipsBlank(xml, i + 1, space[1..]);
    }
  }

  lemma NamelessTag(xml: string, c: nat, space: string, slash: string, more: string, rest: string)
    requires c < |xml| && Nameless(space, slash, more, rest)
    requires At(xml, c + 1, space) && At(xml, c + 1 + |space|, slash) && At(xml, c + 1 + |space| + |slash|, more)
    requires At(xml, c + 1 + |space| + |slash| + |more|, rest) && c + 1 + |space| + |slash| + |more| + |rest| == |xml|
    ensures ReadTag(xml, c).BadName?
  {
    var first := c + 1 + |space|;
    var name := first + |slash| + |more|;
    if rest != "" {
      AtCharacter(xml, name, rest, 0);
    }
    if slash == "/" {
      AtCharacter(xml, first, slash, 0);
      SkipsBlank(xml, first + 1, more);
    }
    SkipsBlank(xml, c + 1, space);
    if slash == "" {
      assert SkipSpace(xml, first) == first;
    }
  }

  lemma NamelessMarkup(xml: string, c: nat, space: string, slash: string, more: string, rest: string)
    requires c < |xml| && Nameless(space, slash, more, rest)
    requires At(xml, c + 1, space) && At(xml, c + 1 + |space|, slash) && At(xml, c + 1 + |space| + |slash|, more)
    requires At(xml, c + 1 + |space| + |slash| + |more|, rest) && c + 1 + |space| + |slash| + |more| + |rest| == |xml|
    ensures SectionAt(xml, c).Markup? && !At(xml, c, "<!")
  {
    if c + 1 < |xml| {
      if space != "" {
        AtCharacter(xml, c + 1, space, 0);
      } else if slash != "" {
        AtCharacter(xml, c + 1, slash, 0);
      } else {
        AtCharacter(xml, c + 1, rest, 0);
      }
      NotAtPosition(xml, c, "<!--", 1);
      NotAtPosition(xml, c, "<![CDATA[", 1);
      NotAtPosition(xml, c, "<?", 1);
      NotAtPosition(xml, c, "<!", 1);
    }
  }

  // ----- what does not end -----

  /** A tag that is not finished ends the check. */
  lemma UnfinishedTagIsAccepted(items: seq<Item>, name: string, rest: string)
    requires Within(items) && Name(name) && Plain(rest)
    ensures var xml := RenderAll(items) + ("<" + (name + rest));
            Check(xml) == if HasDoctype(xml) then DocumentType else Accepted
  {
    var xml, c := RenderAll(items) + ("<" + (name + rest)), |RenderAll(items)|;
    var scan := Behind(items, "<" + (name + rest));
    AtSplit(xml, c, "<", name + rest);
    AtCharacter(xml, c, "<", 0);
    AtSplit(xml, c + 1, name, rest);
    UnfinishedTag(xml, c, name, rest);
    ScanStops(xml, scan, c, CountAll(items), Accepted);
  }

  lemma UnfinishedTag(xml: string, c: nat, name: string, rest: string)
    requires c < |xml| && xml[c] == '<' && Name(name) && Plain(rest)
    requires At(xml, c + 1, name) && At(xml, c + 1 + |name|, rest) && c + 1 + |name| + |rest| == |xml|
    ensures SectionAt(xml, c).Markup? && !At(xml, c, "<!") && ReadTag(xml, c).Unfinished?
  {
    NameEnds(xml, c + 1, name);
    TagEndPlain(xml, c + 1 + |name|, rest);
    assert TagEnd(xml, |xml|, None).None?;
    assert SkipSpace(xml, c + 1) == c + 1;
    TagIsMarkup(xml, c);
  }

  /** So does a section that does not end. */
  lemma OpenSectionIsAccepted(items: seq<Item>, open: string, rest: string, close: string)
    requires Within(items) && (open, close) in {("<!--", "-->"), ("<![CDATA[", "]]>"), ("<?", "?>")}
    requires forall k | 0 <= k < |rest| :: !At(rest, k, close)
    ensures var xml := RenderAll(items) + (open + rest);
            Check(xml) == if HasDoctype(xml) then DocumentType else Accepted
  {
    var xml, c := RenderAll(items) + (open + rest), |RenderAll(items)|;
    var scan := Behind(items, open + rest);
    AtSplit(xml, c, open, rest);
    AtCharacter(xml, c, open, 0);
    AtCharacter(xml, c, open, 1);
    NoIndex(xml, c + |open|, rest, close, 0);
    if open == "<![CDATA[" {
      AtCharacter(xml, c, open, 2);
      NotAtPosition(xml, c, "<!--", 2);
    } else if open == "<?" {
      NotAtPosition(xml, c, "<!--", 1);
      NotAtPosition(xml, c, "<![CDATA[", 1);
    }
    ScanStops(xml, scan, c, CountAll(items), Accepted);
  }

  lemma AtRest(xml: string, from: nat, rest: string, close: string, k: nat)
    requires At(xml, from, rest) && from + |rest| == |xml| && At(xml, from + k, close)
    ensures At(rest, k, close)
  {
    assert rest == xml[from..];
    assert rest[k..k + |close|] == xml[from + k..from + k + |close|];
  }

  lemma {:induction false} NoIndex(xml: string, from: nat, rest: string, close: string, k: nat)
    requires At(xml, from, rest) && from + |rest| == |xml| && k <= |rest| && close != ""
    requires forall j | 0 <= j < |rest| :: !At(rest, j, close)
    ensures IndexOf(xml, close, from + k).None?
    decreases |rest| - k
  {
    if k < |rest| {
      if At(xml, from + k, close) {
        AtRest(xml, from, rest, close, k);
      }
      NoIndex(xml, from, rest, close, k + 1);
    }
  }

  // ----- closing tags -----

  /** A closing tag with nothing to close changes nothing. */
  lemma StrayClosingIsIgnored(before: seq<Item>, name: string, space: string, after: seq<Item>)
    requires Within(before) && Name(name) && Blank(space) && AllWellFormed(after)
    requires DepthAll(after) <= MAX_XML_DEPTH && CountAll(before) + CountAll(after) <= MAX_XML_ELEMENTS
    ensures var xml := RenderAll(before) + (RenderClosing(name, space) + RenderAll(after));
            Check(xml) == if HasDoctype(xml) then DocumentType else Accepted
  {
    var closing := RenderClosing(name, space);
    var xml, c := RenderAll(before) + (closing + RenderAll(after)), |RenderAll(before)|;
    var scan := Behind(before, closing + RenderAll(after));
    AtSplit(xml, c, closing, RenderAll(after));
    ClosedThen(xml, scan, c, name, space, after, CountAll(before));
  }

  lemma ClosedThen(xml: string, scan: Scanner, c: nat, name: string, space: string, after: seq<Item>, elements: nat)
    requires IsScan(xml, scan) && Name(name) && Blank(space) && AllWellFormed(after)
    requires DepthAll(after) <= MAX_XML_DEPTH && elements + CountAll(after) <= MAX_XML_ELEMENTS
    requires At(xml, c, RenderClosing(name, space)) && At(xml, c + |RenderClosing(name, space)|, RenderAll(after))
    requires c + |RenderClosing(name, space)| + |RenderAll(after)| == |xml|
    ensures scan(c, 0, elements) == Accepted
  {
    var next := c + |RenderClosing(name, space)|;
    ClosingEnds(xml, c, name, space);
    NothingToClose(xml, scan, c, next - 1, elements);
    ScanItems(xml, scan, next, after, 0, elements);
    ScanEnds(xml, scan, elements + CountAll(after));
  }

  lemma NothingToClose(xml: string, scan: Scanner, c: nat, end: nat, elements: nat)
    requires IsScan(xml, scan)
    requires c + 1 < |xml| && xml[c] == '<' && xml[c + 1] == '/' && ReadTag(xml, c) == Found(true, false, end)
    ensures scan(c, 0, elements) == scan(end + 1, 0, elements)
  {
    TagIsMarkup(xml, c);
    assert Scan(xml, c, 0, elements) == Scan(xml, end + 1, 0, elements);
  }

  lemma ScanEnds(xml: string, scan: Scanner, elements: nat)
    requires IsScan(xml, scan)
    ensures scan(|xml|, 0, elements) == Accepted
  {
    assert Scan(xml, |xml|, 0, elements) == Accepted;
  }
}
