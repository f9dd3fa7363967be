/** The few Python `str` operations and the C++ `std::getline` rule that the
    parsing scripts rely on, written over `string` (= `seq<char>`). */
module Strings {
  import opened Wrappers
  import opened Counting

  /** Python's `str.isspace` for ASCII characters. */
  predicate IsSpace(c: char) {
    c == ' ' || c == '\t' || c == '\n' || c == '\r' || c == '\U{0B}' || c == '\U{0C}'
    || c == '\U{1C}' || c == '\U{1D}' || c == '\U{1E}' || c == '\U{1F}'
  }

  /** True when every character is white space (so `s.strip()` is falsy). */
  predicate IsBlank(s: string) {
    forall i :: 0 <= i < |s| ==> IsSpace(s[i])
  }

  predicate EndsWith(s: string, c: char) {
    |s| > 0 && s[|s| - 1] == c
  }

  /** Index of the first `d` in `s`, or `|s|` when `s` has none. */
  function FieldEnd(s: string, d: char): (k: nat)
    ensures k <= |s|
    ensures forall i :: 0 <= i < k ==> s[i] != d
    ensures k < |s| ==> s[k] == d
  {
    if s == [] || s[0] == d then 0 else 1 + FieldEnd(s[1..], d)
  }

  /** Python `s.split(d)` for a one-character separator: every piece between
      separators, including empty ones; never an empty list. */
  function Split(s: string, d: char): (r: seq<string>)
    ensures |r| >= 1
    decreases |s|
  {
    var k := FieldEnd(s, d);
    if k == |s| then [s] else [s[..k]] + Split(s[k + 1..], d)
  }

  /** The pieces read by repeated C++ `std::getline(stream, piece, d)`, which is
      also Python's `splitlines()` when `d` is the line break: each call takes
      the text up to the next `d` and consumes that `d`; a call fails only when
      nothing is left, so a trailing `d` yields no trailing empty piece. */
  function Pieces(s: string, d: char): (r: seq<string>)
    decreases |s|
  {
    if s == [] then []
    else
      var k := FieldEnd(s, d);
      [s[..k]] + Pieces(s[if k < |s| then k + 1 else k..], d)
  }

  /** Python `sep.join(parts)`. */
  function Join(parts: seq<string>, sep: string): string {
    if parts == [] then ""
    else if |parts| == 1 then parts[0]
    else parts[0] + sep + Join(parts[1..], sep)
  }

  function TrimStart(s: string): (r: string)
    ensures |r| <= |s|
  {
    if s != [] && IsSpace(s[0]) then TrimStart(s[1..]) else s
  }

  function TrimEnd(s: string): (r: string)
    ensures |r| <= |s|
  {
    if s != [] && IsSpace(s[|s| - 1]) then TrimEnd(s[..|s| - 1]) else s
  }

  /** Python `s.strip()`. */
  function Strip(s: string): string {
    TrimEnd(TrimStart(s))
  }

  /** Length of the leading run of non-space characters. */
  function WordEnd(s: string): (k: nat)
    ensures k <= |s|
    ensures forall i :: 0 <= i < k ==> !IsSpace(s[i])
    ensures k < |s| ==> IsSpace(s[k])
  {
    if s == [] || IsSpace(s[0]) then 0 else 1 + WordEnd(s[1..])
  }

  /** Python `s.split()`: the maximal runs of non-space characters. */
  function Tokens(s: string): (r: seq<string>)
    decreases |s|
  {
    if s == [] then []
    else if IsSpace(s[0]) then Tokens(s[1..])
    else
      var w := WordEnd(s);
      [s[..w]] + Tokens(s[w..])
  }

  predicate IsDigit(c: char) {
    '0' <= c <= '9'
  }

  predicate AllDigits(s: string) {
    forall i :: 0 <= i < |s| ==> IsDigit(s[i])
  }

  /** The value of a non-empty run of decimal digits. */
  function DigitsValue(s: string): nat
    requires AllDigits(s)
  {
    if s == [] then 0
    else DigitsValue(s[..|s| - 1]) * 10 + (s[|s| - 1] as int - '0' as int)
  }

  /** Python `int(s)` for base-10 text: surrounding white space, an optional
      sign, then at least one digit; anything else raises ValueError. */
  function ParseInt(s: string): (r: Option<int>)
    ensures r.Some? <==>
      var t := Strip(s);
      || (t != [] && AllDigits(t))
      || (|t| > 1 && (t[0] == '-' || t[0] == '+') && AllDigits(t[1..]))
  {
    var t := Strip(s);
    if t != [] && AllDigits(t) then Some(DigitsValue(t))
    else if |t| > 1 && (t[0] == '-' || t[0] == '+') && AllDigits(t[1..]) then
      var v: int := DigitsValue(t[1..]);
      Some(if t[0] == '-' then -v else v)
    else None
  }

  /** Decimal digits of a natural number, without leading zeros. */
  function ShowNat(n: nat): (r: string)
    ensures r != [] && AllDigits(r)
    decreases n
  {
    var d := [('0' as int + n % 10) as char];
    if n < 10 then d else ShowNat(n / 10) + d
  }

  lemma {:induction false} DigitsOfShowNat(n: nat)
    ensures DigitsValue(ShowNat(n)) == n
    decreases n
  {
    var d := [('0' as int + n % 10) as char];
    if n >= 10 {
      DigitsOfShowNat(n / 10);
      assert (ShowNat(n / 10) + d)[..|ShowNat(n / 10) + d| - 1] == ShowNat(n / 10);
    } else {
      assert d[..0] == [];
    }
  }

  /** `int(str(n))` gives `n` back for a non-negative `n`. */
  lemma ParseShowNat(n: nat)
    ensures ParseInt(ShowNat(n)) == Some(n)
  {
    var t := ShowNat(n);
    DigitsOfShowNat(n);
    assert !IsSpace(t[0]) && !IsSpace(t[|t| - 1]);
    assert TrimStart(t) == t;
    assert TrimEnd(t) == t;
  }

  function Last<T>(s: seq<T>): T
    requires |s| > 0
  {
    s[|s| - 1]
  }

  // ---------------------------------------------------------------------
  // Properties

  /** `parts` without its last element when that element is empty. */
  function DropEmptyTail(parts: seq<string>): seq<string> {
    if parts != [] && Last(parts) == "" then parts[..|parts| - 1] else parts
  }

  /** `getline` pieces are Python's `split` pieces minus a final empty one. */
  lemma {:induction false} PiecesIsSplitWithoutEmptyTail(s: string, d: char)
    ensures Pieces(s, d) == DropEmptyTail(Split(s, d))
    decreases |s|
  {
    var k := FieldEnd(s, d);
    if s == [] {
    } else if k < |s| {
      PiecesIsSplitWithoutEmptyTail(s[k + 1..], d);
      PiecesStep(s, d, k);
      SplitStep(s, d, k);
      DropEmptyTailCons(s[..k], Split(s[k + 1..], d));
    } else {
      WholePiece(s, d);
    }
  }

  lemma SplitStep(s: string, d: char, k: nat)
    requires k == FieldEnd(s, d) && k < |s|
    ensures Split(s, d) == [s[..k]] + Split(s[k + 1..], d)
  {
  }

  /** A non-empty text without the delimiter is one piece either way. */
  lemma WholePiece(s: string, d: char)
    requires s != [] && FieldEnd(s, d) == |s|
    ensures Pieces(s, d) == [s] && Split(s, d) == [s]
  {
    assert s[..|s|] == s;
  }

  lemma DropEmptyTailCons(x: string, rest: seq<string>)
    requires rest != []
    ensures DropEmptyTail([x] + rest) == [x] + DropEmptyTail(rest)
  {
    if Last(rest) == "" {
      assert ([x] + rest)[..|rest|] == [x] + rest[..|rest| - 1];
    }
  }

  /** No `getline` piece contains the delimiter. */
  lemma {:induction false} PiecesHaveNoDelimiter(s: string, d: char)
    ensures forall p :: p in Pieces(s, d) ==> d !in p
    decreases |s|
  {
    if s != [] {
      var k := FieldEnd(s, d);
      PiecesHaveNoDelimiter(s[if k < |s| then k + 1 else k..], d);
      assert d !in s[..k];
    }
  }

  /** Joining the `getline` pieces with the delimiter gives the text back,
      except that a trailing delimiter is lost. */
  lemma {:induction false} JoinPieces(s: string, d: char)
    ensures Join(Pieces(s, d), [d]) == if EndsWith(s, d) then s[..|s| - 1] else s
    decreases |s|
  {
    if s != [] {
      var k := FieldEnd(s, d);
      if k < |s| - 1 {
        JoinPieces(s[k + 1..], d);
        JoinPiecesStep(s, d, k);
      } else if k == |s| - 1 {
        assert Pieces(s, d) == [s[..k]] + Pieces([], d);
      } else {
        assert s[..k] == s;
        assert Pieces(s, d) == [s] + Pieces([], d);
      }
    }
  }

  /** A piece followed by more text: the piece, the delimiter, then the
      rest joined back. */
  lemma JoinPiecesStep(s: string, d: char, k: nat)
    requires k == FieldEnd(s, d) && k < |s| - 1
    requires var rest := s[k + 1..]; Join(Pieces(rest, d), [d]) == if EndsWith(rest, d) then rest[..|rest| - 1] else rest
    ensures Join(Pieces(s, d), [d]) == if EndsWith(s, d) then s[..|s| - 1] else s
  {
    var rest := s[k + 1..];
    PiecesStep(s, d, k);
    PiecesNonEmpty(rest, d);
    JoinCons(s[..k], Pieces(rest, d), [d]);
    AroundDelimiter(s, d, k);
  }

  lemma PiecesStep(s: string, d: char, k: nat)
    requires k == FieldEnd(s, d) && k < |s|
    ensures Pieces(s, d) == [s[..k]] + Pieces(s[k + 1..], d)
  {
  }

  /** The text around the delimiter at position k. */
  lemma AroundDelimiter(s: string, d: char, k: nat)
    requires k < |s| - 1 && s[k] == d
    ensures s == s[..k] + [d] + s[k + 1..]
    ensures EndsWith(s, d) == EndsWith(s[k + 1..], d)
    ensures s[..|s| - 1] == s[..k] + [d] + s[k + 1..][..|s| - k - 2]
  {
  }

  lemma PiecesNonEmpty(s: string, d: char)
    requires s != []
    ensures Pieces(s, d) != []
  {
  }

  lemma JoinCons(x: string, rest: seq<string>, sep: string)
    requires rest != []
    ensures Join([x] + rest, sep) == x + sep + Join(rest, sep)
  {
    assert ([x] + rest)[1..] == rest;
  }

  /** Python's `split` pieces, joined back with the separator, give the text. */
  lemma {:induction false} JoinSplit(s: string, d: char)
    ensures Join(Split(s, d), [d]) == s
    decreases |s|
  {
    var k := FieldEnd(s, d);
    if k < |s| {
      JoinSplit(s[k + 1..], d);
      assert s == s[..k] + [d] + s[k + 1..];
    }
  }

  /** A text without the separator is a single piece. */
  lemma SplitWithoutSeparator(s: string, d: char)
    requires d !in s
    ensures Split(s, d) == [s]
  {
    assert FieldEnd(s, d) == |s|;
  }

  /** `s.split()` is empty exactly when `s` is blank. */
  lemma {:induction false} TokensEmptyIffBlank(s: string)
    ensures Tokens(s) == [] <==> IsBlank(s)
    decreases |s|
  {
    if s != [] {
      if IsSpace(s[0]) {
        TokensEmptyIffBlank(s[1..]);
        assert IsBlank(s) <==> IsBlank(s[1..]) by {
          if IsBlank(s[1..]) {
            forall i | 0 <= i < |s| ensures IsSpace(s[i]) {
              if i > 0 { assert s[i] == s[1..][i - 1]; }
            }
          }
        }
      } else {
        assert !IsBlank(s);
      }
    }
  }

  /** Every token is non-empty and holds no white space. */
  lemma {:induction false} TokensAreWords(s: string)
    ensures forall t :: t in Tokens(s) ==> t != [] && forall i :: 0 <= i < |t| ==> !IsSpace(t[i])
    decreases |s|
  {
    if s != [] {
      if IsSpace(s[0]) {
        TokensAreWords(s[1..]);
      } else {
        TokensAreWords(s[WordEnd(s)..]);
      }
    }
  }

  /** `s.strip()` is empty exactly when `s` is blank. */
  lemma StripEmptyIffBlank(s: string)
    ensures Strip(s) == [] <==> IsBlank(s)
  {
    TrimStartBlank(s);
    TrimEndBlank(TrimStart(s));
  }

  lemma {:induction false} TrimStartBlank(s: string)
    ensures TrimStart(s) == [] <==> IsBlank(s)
    ensures TrimStart(s) != [] ==> !IsSpace(TrimStart(s)[0])
    decreases |s|
  {
    if s != [] && IsSpace(s[0]) {
      TrimStartBlank(s[1..]);
      if IsBlank(s[1..]) {
        forall i | 0 <= i < |s| ensures IsSpace(s[i]) {
          if i > 0 { assert s[i] == s[1..][i - 1]; }
        }
      }
    }
  }

  lemma {:induction false} TrimEndBlank(s: string)
    requires s == [] || !IsSpace(s[0])
    ensures TrimEnd(s) == [] <==> s == []
    decreases |s|
  {
    if s != [] && IsSpace(s[|s| - 1]) {
      assert |s| > 1;
      TrimEndBlank(s[..|s| - 1]);
    }
  }

  /** A non-empty `strip()` result starts and ends with a non-space. */
  lemma StripEnds(s: string)
    ensures Strip(s) != [] ==> !IsSpace(Strip(s)[0]) && !IsSpace(Last(Strip(s)))
  {
    TrimStartBlank(s);
    TrimEndKeepsStart(TrimStart(s));
    TrimEndLast(TrimStart(s));
  }

  lemma {:induction false} TrimEndKeepsStart(s: string)
    ensures TrimEnd(s) != [] ==> TrimEnd(s)[0] == s[0]
    decreases |s|
  {
    if s != [] && IsSpace(s[|s| - 1]) {
      TrimEndKeepsStart(s[..|s| - 1]);
    }
  }

  lemma {:induction false} TrimEndLast(s: string)
    ensures TrimEnd(s) != [] ==> !IsSpace(Last(TrimEnd(s)))
    decreases |s|
  {
    if s != [] && IsSpace(s[|s| - 1]) {
      TrimEndLast(s[..|s| - 1]);
    }
  }

  /** A text that neither starts nor ends with white space is its own `strip()`. */
  lemma StripUnchanged(s: string)
    requires s != [] && !IsSpace(s[0]) && !IsSpace(Last(s))
    ensures Strip(s) == s
  {
  }

  /** The last `split` piece is a suffix of the text. */
  lemma {:induction false} LastSplitPiece(s: string, d: char) returns (k: nat)
    ensures k <= |s| && Last(Split(s, d)) == s[k..]
    decreases |s|
  {
    var f := FieldEnd(s, d);
    if f == |s| {
      k := 0;
    } else {
      var j := LastSplitPiece(s[f + 1..], d);
      k := f + 1 + j;
      assert s[f + 1..][j..] == s[k..];
    }
  }

  /** When the text does not end with the separator, its last `split` piece
      is non-empty and ends with the text's last character. */
  lemma LastSplitPieceEnd(s: string, d: char)
    requires s != [] && Last(s) != d
    ensures Last(Split(s, d)) != [] && Last(Last(Split(s, d))) == Last(s)
  {
    var k := LastSplitPiece(s, d);
    if k == |s| {
      var f := FieldEnd(s, d);
      assert f < |s|;
      LastPieceAfterSeparator(s, d);
    }
  }

  /** A last piece that is empty follows a separator at the very end. */
  lemma {:induction false} LastPieceAfterSeparator(s: string, d: char)
    requires s != [] && Last(Split(s, d)) == []
    ensures Last(s) == d
    decreases |s|
  {
    var f := FieldEnd(s, d);
    if f == |s| {
    } else if f + 1 < |s| {
      LastPieceAfterSeparator(s[f + 1..], d);
    }
  }

  /** A text whose last character is not white space has at least one token. */
  lemma TokensOfNonBlank(s: string)
    requires s != [] && !IsSpace(Last(s))
    ensures Tokens(s) != []
  {
    TokensEmptyIffBlank(s);
  }

  /** Splitting joined pieces that hold no separator gives the pieces back. */
  lemma {:induction false} SplitJoin(parts: seq<string>, d: char)
    requires parts != []
    requires forall p :: p in parts ==> d !in p
    ensures Split(Join(parts, [d]), d) == parts
    decreases |parts|
  {
    if |parts| == 1 {
      SplitWithoutSeparator(parts[0], d);
    } else {
      var s := Join(parts, [d]);
      var rest := Join(parts[1..], [d]);
      assert s == parts[0] + [d] + rest;
      FieldEndOfPrefix(parts[0], rest, d);
      assert s[..|parts[0]|] == parts[0];
      assert s[|parts[0]| + 1..] == rest;
      SplitJoin(parts[1..], d);
    }
  }

  lemma FieldEndOfPrefix(a: string, rest: string, d: char)
    requires d !in a
    ensures FieldEnd(a + [d] + rest, d) == |a|
  {
    var s := a + [d] + rest;
    assert forall i :: 0 <= i < |a| ==> s[i] == a[i];
    assert s[|a|] == d;
  }

  /** `split` gives one piece more than there are separators. */
  lemma {:induction false} SplitLength(s: string, d: char)
    ensures |Split(s, d)| == Count(s, d) + 1
    decreases |s|
  {
    var k := FieldEnd(s, d);
    if k == |s| {
      CountPositive(s, d);
    } else {
      SplitLength(s[k + 1..], d);
      assert s == s[..k] + [d] + s[k + 1..];
      CountAppend(s[..k] + [d], s[k + 1..], d);
      CountAppend(s[..k], [d], d);
      CountPositive(s[..k], d);
      assert [d][..0] == [];
    }
  }
}
