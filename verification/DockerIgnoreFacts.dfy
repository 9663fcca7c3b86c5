/** What single rules exclude, said of their text and of the path alone. */
module DockerIgnoreFacts {
  import opened Basics
  import opened DockerGlob
  import opened DockerGlobMeaning
  import opened DockerGlobSpelling
  import opened DockerIgnoreRules

  /** No character of the text means something in a pattern. */
  predicate Ordinary(text: string) {
    forall k | 0 <= k < |text| :: !MetaCharacter(text[k])
  }

  function PlainMarks(text: string): seq<Mark> {
    if text == "" then [] else [Plain(text[0])] + PlainMarks(text[1..])
  }

  lemma {:induction false} PlainMarksSpell(text: string)
    requires Ordinary(text)
    ensures Stand(PlainMarks(text)) && Spelled(PlainMarks(text)) == text && PiecesOf(PlainMarks(text)) == ExactPieces(text)
    ensures text != "" ==> PlainMarks(text) != [] && PlainMarks(text)[0] == Plain(text[0])
  {
    if text != "" {
      PlainMarksSpell(text[1..]);
      assert PlainMarks(text)[1..] == PlainMarks(text[1..]);
      assert text == [text[0]] + text[1..];
    }
  }

  /** A mark in front of an ordinary text. */
  lemma MarkAndText(mark: Mark, text: string)
    requires MarkStands(mark) && Ordinary(text) && (mark.Stars? ==> text == "" || text[0] != '/')
    ensures ReadGlob(MarkText(mark) + text) == Some([PieceOf(mark)] + ExactPieces(text))
  {
    PlainMarksSpell(text);
    var marks := [mark] + PlainMarks(text);
    assert marks[1..] == PlainMarks(text);
    ReadingUndoesSpelling(marks);
  }

  /** The path, or a directory above it, is such a string. */
  ghost predicate Concerns(path: string, shape: string -> bool) {
    exists candidate :: (candidate == path || Ancestor(path, candidate)) && shape(candidate)
  }

  /** A list of one rule excludes what its pattern matches. */
  lemma LoneRule(pattern: string, pieces: seq<Piece>, path: string, shape: string -> bool)
    requires !Blank(pattern) && ReadGlob(pattern) == Some(pieces)
    requires forall s :: GlobMatches(pieces, s, false) <==> shape(s)
    ensures WellFormed([Rule(true, pattern)])
    ensures Verdict([Rule(true, pattern)], path, false) <==> Concerns(path, shape)
  {
    var rules := [Rule(true, pattern)];
    assert Applies(rules[0], path, false) <==> Concerns(path, shape);
    if Concerns(path, shape) {
      assert Decides(rules, path, false, 0);
    }
  }

  lemma {:induction false} ExactOnly(text: string, s: string)
    ensures GlobMatches(ExactPieces(text), s, false) <==> s == text
  {
    if text != "" {
      assert ExactPieces(text)[0] == Exactly(text[0]) && ExactPieces(text)[1..] == ExactPieces(text[1..]);
      assert text == [text[0]] + text[1..];
      if s != "" {
        ExactOnly(text[1..], s[1..]);
        assert s == [s[0]] + s[1..];
      }
    }
  }

  // ----- the shapes -----

  predicate SomeCharacter(s: string, text: string) {
    s != "" && s[0] != '/' && s[1..] == text
  }

  /** Anything without a slash, and then the text. */
  predicate RunBefore(s: string, text: string) {
    |text| <= |s| && s[|s| - |text|..] == text && '/' !in s[..|s| - |text|]
  }

  /** Anything on one line, and then the text. */
  predicate LineBefore(s: string, text: string) {
    |text| <= |s| && s[|s| - |text|..] == text && OneLine(s[..|s| - |text|])
  }

  /** The text, or directories on one line with a slash, and then the text. */
  predicate DirectoriesBefore(s: string, text: string) {
    s == text || (|text| < |s| && LineBefore(s, text) && s[|s| - |text| - 1] == '/')
  }

  predicate InRange(s: string, low: char, high: char, text: string) {
    s != "" && low <= s[0] <= high && s[1..] == text
  }

  predicate OutOfRange(s: string, low: char, high: char, text: string) {
    s != "" && !(low <= s[0] <= high) && s[1..] == text
  }

  // ----- what rules of one mark and a text exclude -----

  lemma FirstPiece(piece: Piece, text: string)
    ensures ([piece] + ExactPieces(text))[0] == piece && ([piece] + ExactPieces(text))[1..] == ExactPieces(text)
  {
  }

  /** An ordinary text excludes itself and what is below it. */
  lemma TextExcludes(text: string, path: string)
    requires Ordinary(text) && !Blank(text)
    ensures WellFormed([Rule(true, text)])
    ensures Verdict([Rule(true, text)], path, false) <==> Concerns(path, s => s == text)
  {
    PlainMarksSpell(text);
    ReadingUndoesSpelling(PlainMarks(text));
    forall s ensures GlobMatches(ExactPieces(text), s, false) <==> s == text {
      ExactOnly(text, s);
    }
    LoneRule(text, ExactPieces(text), path, s => s == text);
  }

  /** So does a text behind a backslash, whatever its first character. */
  lemma EscapeExcludes(c: char, text: string, path: string)
    requires Ordinary(text)
    ensures WellFormed([Rule(true, ['\\', c] + text)])
    ensures Verdict([Rule(true, ['\\', c] + text)], path, false) <==> Concerns(path, s => s == [c] + text)
  {
    MarkAndText(Escape(c), text);
    forall s ensures GlobMatches([Exactly(c)] + ExactPieces(text), s, false) <==> s == [c] + text {
      FirstPiece(Exactly(c), text);
      if s != "" {
        ExactOnly(text, s[1..]);
        assert s == [s[0]] + s[1..];
      }
    }
    LoneRule(['\\', c] + text, [Exactly(c)] + ExactPieces(text), path, s => s == [c] + text);
  }

  /** `?` is one character, but no slash. */
  lemma QuestionExcludes(text: string, path: string)
    requires Ordinary(text)
    ensures WellFormed([Rule(true, ['?'] + text)])
    ensures Verdict([Rule(true, ['?'] + text)], path, false) <==> Concerns(path, s => SomeCharacter(s, text))
  {
    MarkAndText(Question, text);
    forall s ensures GlobMatches([AnyCharacter] + ExactPieces(text), s, false) <==> SomeCharacter(s, text) {
      FirstPiece(AnyCharacter, text);
      if s != "" {
        ExactOnly(text, s[1..]);
      }
    }
    LoneRule(['?'] + text, [AnyCharacter] + ExactPieces(text), path, s => SomeCharacter(s, text));
  }

  /** `*` stays within a segment. */
  lemma StarExcludes(text: string, path: string)
    requires Ordinary(text)
    ensures WellFormed([Rule(true, ['*'] + text)])
    ensures Verdict([Rule(true, ['*'] + text)], path, false) <==> Concerns(path, s => RunBefore(s, text))
  {
    MarkAndText(Star, text);
    forall s ensures GlobMatches([AnyRun] + ExactPieces(text), s, false) <==> RunBefore(s, text) {
      FirstPiece(AnyRun, text);
      TextAtEnd(text, s);
    }
    LoneRule(['*'] + text, [AnyRun] + ExactPieces(text), path, s => RunBefore(s, text));
  }

  lemma TextAtEnd(text: string, s: string)
    ensures forall k | 0 <= k <= |s| :: GlobMatches(ExactPieces(text), s[k..], false) <==> |text| <= |s| && k == |s| - |text| && s[k..] == text
  {
    forall k | 0 <= k <= |s|
      ensures GlobMatches(ExactPieces(text), s[k..], false) <==> |text| <= |s| && k == |s| - |text| && s[k..] == text
    {
      ExactOnly(text, s[k..]);
    }
  }

  /** `**` crosses slashes. */
  lemma StarsExclude(text: string, path: string)
    requires Ordinary(text) && (text != "" ==> text[0] != '/')
    ensures WellFormed([Rule(true, ['*', '*'] + text)])
    ensures Verdict([Rule(true, ['*', '*'] + text)], path, false) <==> Concerns(path, s => LineBefore(s, text))
  {
    MarkAndText(Stars, text);
    forall s ensures GlobMatches([AnyPath] + ExactPieces(text), s, false) <==> LineBefore(s, text) {
      FirstPiece(AnyPath, text);
      TextAtEnd(text, s);
    }
    LoneRule(['*', '*'] + text, [AnyPath] + ExactPieces(text), path, s => LineBefore(s, text));
  }

  /** A `**` with a slash is any number of directories. */
  lemma DirectoriesExclude(text: string, path: string)
    requires Ordinary(text)
    ensures WellFormed([Rule(true, ['*', '*', '/'] + text)])
    ensures Verdict([Rule(true, ['*', '*', '/'] + text)], path, false) <==> Concerns(path, s => DirectoriesBefore(s, text))
  {
    MarkAndText(StarsSlash, text);
    forall s ensures GlobMatches([AnyDirectories] + ExactPieces(text), s, false) <==> DirectoriesBefore(s, text) {
      FirstPiece(AnyDirectories, text);
      TextAtEnd(text, s);
      assert s[0..] == s;
    }
    LoneRule(['*', '*', '/'] + text, [AnyDirectories] + ExactPieces(text), path, s => DirectoriesBefore(s, text));
  }

  /** A class of a range is one character of it; a negated one is any other character, a slash included. */
  lemma RangeExcludes(low: char, high: char, negated: bool, text: string, path: string)
    requires Ordinary(text) && MarkStands(RangeMark(low, high, negated))
    ensures WellFormed([Rule(true, MarkText(RangeMark(low, high, negated)) + text)])
    ensures Verdict([Rule(true, MarkText(RangeMark(low, high, negated)) + text)], path, false) <==>
            Concerns(path, s => if negated then OutOfRange(s, low, high, text) else InRange(s, low, high, text))
  {
    var mark := RangeMark(low, high, negated);
    var pieces := [PieceOf(mark)] + ExactPieces(text);
    MarkAndText(mark, text);
    var shape := s => if negated then OutOfRange(s, low, high, text) else InRange(s, low, high, text);
    forall s ensures GlobMatches(pieces, s, false) <==> shape(s) {
      FirstPiece(PieceOf(mark), text);
      if s != "" {
        ExactOnly(text, s[1..]);
        OneRange(s[0], low, high);
      }
    }
    LoneRule(MarkText(mark) + text, pieces, path, shape);
  }

  /** `[low-high]` or `[^low-high]`. */
  function RangeMark(low: char, high: char, negated: bool): Mark {
    Bracket(negated, [Range(DockerGlobSpelling.Bare(low), DockerGlobSpelling.Bare(high))])
  }

  lemma OneRange(c: char, low: char, high: char)
    ensures InItems(c, ItemsOf([Range(DockerGlobSpelling.Bare(low), DockerGlobSpelling.Bare(high))])) <==> low <= c <= high
  {
    var items := ItemsOf([Range(DockerGlobSpelling.Bare(low), DockerGlobSpelling.Bare(high))]);
    assert items == [Span(low, high)];
    if low <= c <= high {
      assert match items[0] case One(d) => c == d case Span(l, h) => l <= c <= h;
    }
  }
}
