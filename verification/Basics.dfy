/** What several parts of the models share. */
module Basics {
  datatype Option<+T> = None | Some(value: T)

  function Min(a: int, b: int): int { if a < b then a else b }

  /** The characters \s matches. */
  predicate Space(c: char) {
    || c == ' ' || '\t' <= c <= '\r' || c == '\U{A0}' || c == '\U{1680}'
    || '\U{2000}' <= c <= '\U{200A}' || c == '\U{2028}' || c == '\U{2029}' || c == '\U{202F}'
    || c == '\U{205F}' || c == '\U{3000}' || c == '\U{FEFF}'
  }

  /** The text occurs at this index. */
  predicate At(source: string, i: nat, text: string) {
    i + |text| <= |source| && source[i..i + |text|] == text
  }

  lemma AtSplit(source: string, i: nat, a: string, b: string)
    ensures At(source, i, a + b) <==> At(source, i, a) && At(source, i + |a|, b)
  {
    if At(source, i, a + b) {
      assert source[i..i + |a + b|][..|a|] == a;
      assert source[i..i + |a + b|][|a|..] == b;
    }
    if At(source, i, a) && At(source, i + |a|, b) {
      assert source[i..i + |a + b|] == source[i..i + |a|] + source[i + |a|..i + |a| + |b|];
    }
  }

  lemma AtCharacter(source: string, i: nat, s: string, k: nat)
    requires At(source, i, s) && k < |s|
    ensures source[i + k] == s[k]
  {
    assert source[i..i + |s|][k] == source[i + k];
  }
}
