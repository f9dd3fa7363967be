/** `split_left_operand` of the `csv_format.py` scripts: an operand text is
    cut at its first comma that is not inside parentheses, so that an
    address expression such as `(%rax,%rbx,4)` stays in one piece. */
module OperandSplit {

  /** `open_count` after scanning `s`: '(' adds one, ')' takes one away, and
      no other character changes it. It can go below zero. */
  function Depth(s: string): int {
    if s == [] then 0
    else
      var c := s[|s| - 1];
      Depth(s[..|s| - 1]) + (if c == '(' then 1 else if c == ')' then -1 else 0)
  }

  /** Position `i` holds a comma at depth exactly 0: inside parentheses the
      depth is positive, after an unmatched ')' it is negative. */
  predicate SplitsAt(text: string, i: int) {
    0 <= i < |text| && text[i] == ',' && Depth(text[..i]) == 0
  }

  /** With no qualifying comma the whole text is the left operand and the
      right one is empty; otherwise the text is cut at the first qualifying
      comma, which belongs to neither side. */
  method SplitLeftOperand(text: string) returns (left: string, right: string)
    ensures (forall k :: 0 <= k < |text| ==> !SplitsAt(text, k)) ==> left == text && right == ""
    ensures forall k :: 0 <= k < |left| ==> !SplitsAt(text, k)
    ensures |left| < |text| ==> SplitsAt(text, |left|) && left + "," + right == text
    ensures |left| <= |text|
  {
    var openCount := 0;
    var i := 0;
    while i < |text|
      invariant 0 <= i <= |text|
      invariant openCount == Depth(text[..i])
      invariant forall k :: 0 <= k < i ==> !SplitsAt(text, k)
    {
      assert text[..i + 1][..i] == text[..i];
      var c := text[i];
      if c == '(' {
        openCount := openCount + 1;
      } else if c == ')' {
        openCount := openCount - 1;
      } else if c == ',' && openCount == 0 {
        assert SplitsAt(text, i);
        assert text == text[..i] + "," + text[i + 1..];
        return text[..i], text[i + 1..];
      }
      i := i + 1;
    }
    return text, "";
  }

  // ---------------------------------------------------------------------
  // Properties

  /** The depth of a text is the number of '(' minus the number of ')'. */
  lemma {:induction false} DepthAppend(s: string, t: string)
    ensures Depth(s + t) == Depth(s) + Depth(t)
    decreases |t|
  {
    if t == [] {
      assert s + t == s;
    } else {
      assert (s + t)[..|s + t| - 1] == s + t[..|t| - 1];
      DepthAppend(s, t[..|t| - 1]);
    }
  }

  /** A comma written between parentheses never splits: after the '(' the
      depth is one more than before it, and the text inside stays balanced
      when it has no parentheses of its own. */
  lemma ParenthesisedCommaNeverSplits(before: string, inside: string, after: string)
    requires Depth(before) == 0
    requires '(' !in inside && ')' !in inside
    ensures forall k :: |before| < k <= |before| + |inside| ==> !SplitsAt(before + "(" + inside + ")" + after, k)
  {
    var text := before + "(" + inside + ")" + after;
    forall k | |before| < k <= |before| + |inside|
      ensures !SplitsAt(text, k)
    {
      var mid := inside[..k - |before| - 1];
      assert text[..k] == before + ("(" + mid);
      DepthAppend(before, "(" + mid);
      DepthAppend("(", mid);
      assert "("[..0] == [];
      assert Depth("(") == 1;
      assert forall i :: 0 <= i < |mid| ==> mid[i] == inside[i];
      NoParenthesesDepth(mid);
    }
  }

  /** A text without parentheses has depth 0. */
  lemma {:induction false} NoParenthesesDepth(s: string)
    requires '(' !in s && ')' !in s
    ensures Depth(s) == 0
    decreases |s|
  {
    if s != [] {
      NoParenthesesDepth(s[..|s| - 1]);
    }
  }

  /** After an unmatched ')' the depth stays negative until a '(' is met, so
      a comma in that stretch does not split either. */
  lemma UnmatchedCloseNeverSplits(before: string, after: string, k: int)
    requires Depth(before) == 0
    requires '(' !in after
    requires |before| < k < |before| + 1 + |after|
    ensures !SplitsAt(before + ")" + after, k)
  {
    var text := before + ")" + after;
    var mid := after[..k - |before| - 1];
    assert text[..k] == before + (")" + mid);
    DepthAppend(before, ")" + mid);
    DepthAppend(")", mid);
    assert ")"[..0] == [];
    assert Depth(")") == -1;
    assert forall i :: 0 <= i < |mid| ==> mid[i] == after[i];
    NoOpenDepth(mid);
  }

  /** A text without '(' never has a positive depth. */
  lemma {:induction false} NoOpenDepth(s: string)
    requires '(' !in s
    ensures Depth(s) <= 0
    decreases |s|
  {
    if s != [] {
      NoOpenDepth(s[..|s| - 1]);
    }
  }

  /** A text without parentheses splits at its first comma, exactly like a
      plain split. */
  lemma PlainTextSplitsAtFirstComma(text: string, k: int)
    requires '(' !in text && ')' !in text
    ensures SplitsAt(text, k) <==> 0 <= k < |text| && text[k] == ','
  {
    if 0 <= k < |text| {
      NoParenthesesDepth(text[..k]);
    }
  }
}
