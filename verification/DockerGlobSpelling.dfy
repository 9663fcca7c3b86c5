/** What patterns spell: the marks a pattern is written with, as literal text, and that reading a
    pattern finds exactly them. */
module DockerGlobSpelling {
  import opened Basics
  import opened DockerGlob

  /** The marks of a pattern. */
  datatype Mark =
    | Plain(c: char)
    | Escape(c: char)           // \c
    | Question                  // ?
    | Star                      // *
    | Stars                     // **
    | StarsSlash                // **/
    | Bracket(negated: bool, members: seq<Member>)   // [...] and [^...]

  datatype Member = Lone(at: Point) | Range(low: Point, high: Point)

  /** A character of a class, as it stands or behind a backslash. */
  datatype Point = Bare(c: char) | Quoted(c: char)

  // ----- the text of marks -----

  function PointText(point: Point): string {
    match point
    case Bare(c) => [c]
    case Quoted(c) => ['\\', c]
  }

  function MemberText(member: Member): string {
    match member
    case Lone(at) => PointText(at)
    case Range(low, high) => PointText(low) + (['-'] + PointText(high))
  }

  function MembersText(members: seq<Member>): string {
    if members == [] then "" else MemberText(members[0]) + MembersText(members[1..])
  }

  function MarkText(mark: Mark): string {
    match mark
    case Plain(c) => [c]
    case Escape(c) => ['\\', c]
    case Question => ['?']
    case Star => ['*']
    case Stars => ['*', '*']
    case StarsSlash => ['*', '*', '/']
    case Bracket(negated, members) => (if negated then ['[', '^'] else ['[']) + (MembersText(members) + [']'])
  }

  function Spelled(marks: seq<Mark>): string {
    if marks == [] then "" else MarkText(marks[0]) + Spelled(marks[1..])
  }

  // ----- the pieces of marks -----

  function ItemOf(member: Member): Item {
    match member
    case Lone(at) => One(at.c)
    case Range(low, high) => Span(low.c, high.c)
  }

  function ItemsOf(members: seq<Member>): (items: seq<Item>)
    ensures |items| == |members|
  {
    if members == [] then [] else [ItemOf(members[0])] + ItemsOf(members[1..])
  }

  function PieceOf(mark: Mark): Piece {
    match mark
    case Plain(c) => Exactly(c)
    case Escape(c) => Exactly(c)
    case Question => AnyCharacter
    case Star => AnyRun
    case Stars => AnyPath
    case StarsSlash => AnyDirectories
    case Bracket(negated, members) => OneOf(negated, ItemsOf(members))
  }

  function PiecesOf(marks: seq<Mark>): seq<Piece> {
    if marks == [] then [] else [PieceOf(marks[0])] + PiecesOf(marks[1..])
  }

  // ----- which marks may stand where -----

  predicate MetaCharacter(c: char) {
    c == '\\' || c == '*' || c == '?' || c == '[' || c == ']'
  }

  predicate PointStands(point: Point) {
    point.Bare? ==> point.c != '\\' && point.c != ']' && point.c != '-'
  }

  predicate MemberStands(member: Member) {
    match member
    case Lone(at) => PointStands(at)
    case Range(low, high) => PointStands(low) && PointStands(high) && low.c <= high.c
  }

  predicate MembersStand(members: seq<Member>) {
    forall k | 0 <= k < |members| :: MemberStands(members[k])
  }

  function FirstPoint(member: Member): Point {
    if member.Lone? then member.at else member.low
  }

  /** A class has members; one that is not negated does not begin with a bare caret. */
  predicate MarkStands(mark: Mark) {
    match mark
    case Plain(c) => !MetaCharacter(c)
    case Bracket(negated, members) =>
      members != [] && MembersStand(members) && (!negated ==> FirstPoint(members[0]) != Bare('^'))
    case _ => true
  }

  predicate StarMark(mark: Mark) {
    mark.Star? || mark.Stars? || mark.StarsSlash?
  }

  /** A star is no part of a longer run of stars, and a slash behind two of them belongs to them. */
  predicate Apart(mark: Mark, rest: seq<Mark>) {
    && (mark.Star? && rest != [] ==> !StarMark(rest[0]))
    && (mark.Stars? && rest != [] ==> rest[0] != Plain('/'))
  }

  predicate Stand(marks: seq<Mark>) {
    marks == [] || (MarkStands(marks[0]) && Apart(marks[0], marks[1..]) && Stand(marks[1..]))
  }

  // ----- reading finds the marks -----

  lemma FirstOfMark(mark: Mark)
    requires MarkStands(mark)
    ensures MarkText(mark) != ""
    ensures MarkText(mark)[0] == '*' <==> StarMark(mark)
    ensures MarkText(mark)[0] == '/' <==> mark == Plain('/')
  {
  }

  lemma FirstOfSpelled(marks: seq<Mark>)
    requires Stand(marks) && marks != []
    ensures Spelled(marks) != "" && Spelled(marks)[0] == MarkText(marks[0])[0]
  {
    FirstOfMark(marks[0]);
  }

  lemma Cut(a: string, b: string)
    ensures (a + b)[|a|..] == b && (a + b)[..|a|] == a
  {
  }

  lemma PointReads(point: Point, rest: string)
    requires PointStands(point)
    ensures ReadClassCharacter(PointText(point) + rest) == Some((point.c, rest))
    ensures (PointText(point) + rest)[0] != ']' && (PointText(point) + rest)[0] != '-'
  {
    Cut(PointText(point), rest);
  }

  lemma LoneReads(at: Point, tail: string)
    requires PointStands(at) && tail != "" && tail[0] != '-'
    ensures ReadClass(PointText(at) + tail) == PrependItems([One(at.c)], ReadClass(tail))
  {
    PointReads(at, tail);
  }

  lemma RangeReads(low: Point, high: Point, tail: string)
    requires PointStands(low) && PointStands(high) && low.c <= high.c
    ensures ReadClass(PointText(low) + (['-'] + (PointText(high) + tail))) == PrependItems([Span(low.c, high.c)], ReadClass(tail))
  {
    var second := PointText(high) + tail;
    PointReads(low, ['-'] + second);
    PointReads(high, tail);
    Cut(['-'], second);
    assert (['-'] + second)[1] == second[0];
  }

  lemma FirstOfMembers(members: seq<Member>, rest: string)
    requires MembersStand(members)
    ensures (MembersText(members) + ([']'] + rest))[0] != '-'
    ensures members != [] ==> MembersText(members) != "" && MembersText(members)[0] == PointText(FirstPoint(members[0]))[0]
  {
    var text := MembersText(members) + ([']'] + rest);
    if members == [] {
      assert text == [']'] + rest;
    } else {
      assert MemberStands(members[0]);
      assert MemberText(members[0])[0] == PointText(FirstPoint(members[0]))[0];
      assert text[0] == MemberText(members[0])[0];
    }
  }

  lemma Regroup(a: string, b: string, c: string)
    ensures (a + b) + c == a + (b + c)
  {
  }

  lemma {:induction false} MembersRead(members: seq<Member>, rest: string)
    requires MembersStand(members)
    ensures ReadClass(MembersText(members) + ([']'] + rest)) == Some((ItemsOf(members), rest))
    decreases |members|
  {
    var end := [']'] + rest;
    if members == [] {
      assert MembersText(members) + end == end;
      Cut([']'], rest);
    } else {
      var tail := MembersText(members[1..]) + end;
      assert MemberStands(members[0]);
      FirstOfMembers(members[1..], rest);
      MembersRead(members[1..], rest);
      Regroup(MemberText(members[0]), MembersText(members[1..]), end);
      match members[0] {
        case Lone(at) => LoneReads(at, tail);
        case Range(low, high) =>
          Regroup(PointText(low), ['-'] + PointText(high), tail);
          Regroup(['-'], PointText(high), tail);
          RangeReads(low, high, tail);
      }
    }
  }

  lemma BracketText(negated: bool, members: seq<Member>, rest: string)
    ensures MarkText(Bracket(negated, members)) + rest ==
            (if negated then ['[', '^'] else ['[']) + (MembersText(members) + ([']'] + rest))
  {
    Regroup(if negated then ['[', '^'] else ['['], MembersText(members) + [']'], rest);
    Regroup(MembersText(members), [']'], rest);
  }

  lemma BracketReads(negated: bool, members: seq<Member>, rest: string)
    requires MarkStands(Bracket(negated, members))
    ensures ReadGlob(MarkText(Bracket(negated, members)) + rest) == Prepend([OneOf(negated, ItemsOf(members))], ReadGlob(rest))
  {
    var body := MembersText(members) + ([']'] + rest);
    BracketText(negated, members, rest);
    FirstOfMembers(members, rest);
    MembersRead(members, rest);
    OpensClass(negated, body);
  }

  lemma OpensClass(negated: bool, body: string)
    requires body != "" && (!negated ==> body[0] != '^')
    requires ReadClass(body).Some? && ReadClass(body).value.0 != []
    ensures var (items, rest) := ReadClass(body).value;
            ReadGlob((if negated then ['[', '^'] else ['[']) + body) == Prepend([OneOf(negated, items)], ReadGlob(rest))
  {
    var open := if negated then ['[', '^'] else ['['];
    var text := open + body;
    Cut(open, body);
    assert text[0] == '[' && text[1] == (if negated then '^' else body[0]);
    ReadsClass(text, 0);
    assert text[0..] == text;
  }

  lemma PlainReads(c: char, rest: string)
    requires !MetaCharacter(c)
    ensures ReadGlob([c] + rest) == Prepend([Exactly(c)], ReadGlob(rest))
  {
    var text := [c] + rest;
    Cut([c], rest);
    assert text[0] == c;
    assert |text| >= 2 ==> text[..2][0] == c;
    assert |text| >= 3 ==> text[..3][0] == c;
  }

  lemma EscapeReads(c: char, rest: string)
    ensures ReadGlob(['\\', c] + rest) == Prepend([Exactly(c)], ReadGlob(rest))
  {
    Cut(['\\', c], rest);
  }

  lemma QuestionReads(rest: string)
    ensures ReadGlob(['?'] + rest) == Prepend([AnyCharacter], ReadGlob(rest))
  {
    var text := ['?'] + rest;
    Cut(['?'], rest);
    assert |text| >= 2 ==> text[..2][0] == '?';
    assert |text| >= 3 ==> text[..3][0] == '?';
  }

  lemma StarReads(rest: string)
    requires rest != "" ==> rest[0] != '*'
    ensures ReadGlob(['*'] + rest) == Prepend([AnyRun], ReadGlob(rest))
  {
    var text := ['*'] + rest;
    Cut(['*'], rest);
    assert |text| >= 2 ==> text[1] == rest[0] && text[..2][1] == text[1];
    assert |text| >= 3 ==> text[..3][1] == text[1];
  }

  lemma StarsRead(rest: string)
    requires rest != "" ==> rest[0] != '/'
    ensures ReadGlob(['*', '*'] + rest) == Prepend([AnyPath], ReadGlob(rest))
  {
    var text := ['*', '*'] + rest;
    Cut(['*', '*'], rest);
    assert text[..2] == "**";
    assert |text| >= 3 ==> text[2] == rest[0] && text[..3][2] == text[2];
  }

  lemma StarsSlashRead(rest: string)
    ensures ReadGlob(['*', '*', '/'] + rest) == Prepend([AnyDirectories], ReadGlob(rest))
  {
    var text := ['*', '*', '/'] + rest;
    Cut(['*', '*', '/'], rest);
    assert text[..3] == "**/";
  }

  lemma MarkReads(mark: Mark, rest: string)
    requires MarkStands(mark)
    requires mark.Star? && rest != "" ==> rest[0] != '*'
    requires mark.Stars? && rest != "" ==> rest[0] != '/'
    ensures ReadGlob(MarkText(mark) + rest) == Prepend([PieceOf(mark)], ReadGlob(rest))
  {
    match mark {
      case Plain(c) => PlainReads(c, rest);
      case Escape(c) => EscapeReads(c, rest);
      case Question => QuestionReads(rest);
      case Star => StarReads(rest);
      case Stars => StarsRead(rest);
      case StarsSlash => StarsSlashRead(rest);
      case Bracket(negated, members) => BracketReads(negated, members, rest);
    }
  }

  /** Reading what marks spell finds their pieces. */
  lemma {:induction false} ReadingUndoesSpelling(marks: seq<Mark>)
    requires Stand(marks)
    ensures ReadGlob(Spelled(marks)) == Some(PiecesOf(marks))
    decreases |marks|
  {
    if marks != [] {
      var rest := Spelled(marks[1..]);
      ReadingUndoesSpelling(marks[1..]);
      if marks[1..] != [] {
        FirstOfSpelled(marks[1..]);
        FirstOfMark(marks[1]);
      }
      MarkReads(marks[0], rest);
    }
  }

  // ----- what is read is spelled by marks -----

  lemma PointSpells(text: string) returns (point: Point)
    requires ReadClassCharacter(text).Some?
    ensures PointStands(point) && point.c == ReadClassCharacter(text).value.0
    ensures text == PointText(point) + ReadClassCharacter(text).value.1
  {
    point := if text[0] == '\\' then Quoted(text[1]) else Bare(text[0]);
  }

  lemma {:induction false} MembersSpell(text: string) returns (members: seq<Member>)
    requires ReadClass(text).Some?
    ensures MembersStand(members) && ItemsOf(members) == ReadClass(text).value.0
    ensures text == MembersText(members) + ([']'] + ReadClass(text).value.1)
    decreases |text|
  {
    var end := [']'] + ReadClass(text).value.1;
    if text[0] == ']' {
      members := [];
      assert text == end;
    } else {
      var low := PointSpells(text);
      var rest := ReadClassCharacter(text).value.1;
      if rest != "" && rest[0] == '-' && !(|rest| > 1 && rest[1] == ']') {
        var high := PointSpells(rest[1..]);
        var rest' := ReadClassCharacter(rest[1..]).value.1;
        var more := MembersSpell(rest');
        members := [Range(low, high)] + more;
        FirstMember(Range(low, high), more);
        assert rest == ['-'] + (PointText(high) + rest');
        RangeText(low, high, MembersText(more), end);
      } else {
        var more := MembersSpell(rest);
        members := [Lone(low)] + more;
        FirstMember(Lone(low), more);
        Regroup(PointText(low), MembersText(more), end);
      }
    }
  }

  lemma RangeText(low: Point, high: Point, more: string, end: string)
    ensures PointText(low) + (['-'] + (PointText(high) + (more + end))) == (MemberText(Range(low, high)) + more) + end
  {
    Regroup(PointText(low), ['-'] + PointText(high), more);
    Regroup(['-'], PointText(high), more);
    Regroup(PointText(low), ['-'] + (PointText(high) + more), end);
    Regroup(['-'], PointText(high) + more, end);
    Regroup(PointText(high), more, end);
  }

  lemma FirstMember(member: Member, more: seq<Member>)
    ensures MembersText([member] + more) == MemberText(member) + MembersText(more)
    ensures ItemsOf([member] + more) == [ItemOf(member)] + ItemsOf(more)
    ensures MembersStand([member] + more) <==> MemberStands(member) && MembersStand(more)
  {
    var members := [member] + more;
    assert members[0] == member && members[1..] == more;
    if MembersStand(members) {
      forall k | 0 <= k < |more| ensures MemberStands(more[k]) {
        assert members[k + 1] == more[k];
      }
    }
  }

  /** Whatever is accepted is spelled by marks, and means their pieces. */
  lemma {:induction false} AcceptedIsSpelled(pattern: string) returns (marks: seq<Mark>)
    requires ReadGlob(pattern).Some?
    ensures Stand(marks) && Spelled(marks) == pattern && PiecesOf(marks) == ReadGlob(pattern).value
    decreases |pattern|
  {
    if pattern == "" {
      marks := [];
    } else {
      var mark, rest := FirstMark(pattern);
      var more := AcceptedIsSpelled(rest);
      marks := [mark] + more;
      assert marks[1..] == more;
      if more != [] {
        FirstOfSpelled(more);
        FirstOfMark(more[0]);
      }
    }
  }

  lemma FirstMark(pattern: string) returns (mark: Mark, rest: string)
    requires pattern != "" && ReadGlob(pattern).Some?
    ensures MarkStands(mark) && pattern == MarkText(mark) + rest && |rest| < |pattern|
    ensures ReadGlob(rest).Some? && ReadGlob(pattern).value == [PieceOf(mark)] + ReadGlob(rest).value
    ensures mark.Star? && rest != "" ==> rest[0] != '*'
    ensures mark.Stars? && rest != "" ==> rest[0] != '/'
  {
    if pattern[0] == '\\' {
      mark, rest := Escape(pattern[1]), pattern[2..];
    } else if |pattern| >= 3 && pattern[..3] == "**/" {
      mark, rest := StarsSlash, pattern[3..];
      assert pattern == pattern[..3] + rest;
    } else if |pattern| >= 2 && pattern[..2] == "**" {
      mark, rest := Stars, pattern[2..];
      assert pattern == pattern[..2] + rest;
      assert rest != "" ==> pattern[..3] == pattern[..2] + [rest[0]];
    } else if pattern[0] == '*' {
      mark, rest := Star, pattern[1..];
      assert rest != "" ==> pattern[..2] == ['*', rest[0]];
    } else if pattern[0] == '?' {
      mark, rest := Question, pattern[1..];
    } else if pattern[0] == '[' {
      mark, rest := FirstBracket(pattern);
    } else {
      mark, rest := Plain(pattern[0]), pattern[1..];
    }
  }

  lemma FirstBracket(pattern: string) returns (mark: Mark, rest: string)
    requires pattern != "" && pattern[0] == '[' && ReadGlob(pattern).Some?
    ensures mark.Bracket? && MarkStands(mark) && pattern == MarkText(mark) + rest && |rest| < |pattern|
    ensures ReadGlob(rest).Some? && ReadGlob(pattern).value == [PieceOf(mark)] + ReadGlob(rest).value
  {
    var negated := |pattern| > 1 && pattern[1] == '^';
    var open := if negated then ['[', '^'] else ['['];
    var text := pattern[if negated then 2 else 1..];
    assert pattern == open + text;
    var members := MembersSpell(text);
    rest := ReadClass(text).value.1;
    mark := Bracket(negated, members);
    BracketText(negated, members, rest);
    FirstOfMembers(members, rest);
    if !negated {
      assert text[0] == PointText(FirstPoint(members[0]))[0] && pattern[1] == text[0];
    }
  }

  /** A pattern is malformed exactly when no marks spell it, and is read as pieces exactly when marks
      with these pieces do. */
  lemma ReadIffSpelled(pattern: string, pieces: seq<Piece>)
    ensures ReadGlob(pattern) == Some(pieces) <==>
            exists marks :: Stand(marks) && Spelled(marks) == pattern && PiecesOf(marks) == pieces
  {
    if ReadGlob(pattern) == Some(pieces) {
      var marks := AcceptedIsSpelled(pattern);
    }
    if exists marks :: Stand(marks) && Spelled(marks) == pattern && PiecesOf(marks) == pieces {
      var marks :| Stand(marks) && Spelled(marks) == pattern && PiecesOf(marks) == pieces;
      ReadingUndoesSpelling(marks);
    }
  }

  lemma MalformedIffUnspelled(pattern: string)
    ensures ReadGlob(pattern).None? <==> forall marks | Stand(marks) :: Spelled(marks) != pattern
  {
    if ReadGlob(pattern).Some? {
      var marks := AcceptedIsSpelled(pattern);
    }
    forall marks | Stand(marks) && Spelled(marks) == pattern ensures ReadGlob(pattern).Some? {
      ReadingUndoesSpelling(marks);
    }
  }
}
