/** `parse_block` (`feature_extraction_test.py`): one disassembled block whose
    first line carries the block id in angle brackets, followed by
    tab-separated instruction lines, becomes a list of 5-tuples. */
module BlockParser {
  import opened Wrappers
  import opened Strings
  import opened Counting

  /** (block_id, address, instruction, left_operand, right_operand) */
  datatype Tuple = Tuple(blockId: string, address: string, instruction: string, left: string, right: string)

  /** `re.search(r"<([^>]*)>", first)`: the text between the first '<' and
      the next '>' after it, or "Unknown" when there is no such pair. (A
      later '<' cannot help: it has no '>' after it either.) */
  function BlockId(first: string): (r: string)
    ensures r == "Unknown" ||
      exists i, j ::
        && 0 <= i < j < |first| && first[i] == '<' && first[j] == '>'
        && '<' !in first[..i] && '>' !in first[i + 1..j] && r == first[i + 1..j]
  {
    var i := FieldEnd(first, '<');
    if i == |first| then "Unknown"
    else
      var rest := first[i + 1..];
      var j := FieldEnd(rest, '>');
      if j == |rest| then "Unknown"
      else
        assert rest[..j] == first[i + 1..i + 1 + j];
        rest[..j]
  }

  /** `operands.split(",")`, then the first piece and the other pieces joined
      with ", ". */
  function SplitOperands(operands: string): (string, string) {
    var pieces := Split(operands, ',');
    (pieces[0], Join(pieces[1..], ", "))
  }

  /** One instruction line: a tuple when the stripped line has at least three
      tab fields (fields after the third are ignored), nothing otherwise. */
  function ParseLine(blockId: string, line: string): Option<Tuple> {
    var parts := Split(Strip(line), '\t');
    if |parts| >= 3 then
      var (left, right) := SplitOperands(parts[2]);
      Some(Tuple(blockId, parts[0], parts[1], left, right))
    else None
  }

  function ParseLines(blockId: string, lines: seq<string>): seq<Tuple> {
    if lines == [] then []
    else
      var init := ParseLines(blockId, lines[..|lines| - 1]);
      match ParseLine(blockId, lines[|lines| - 1])
      case Some(t) => init + [t]
      case None => init
  }

  /** `data.strip().split("\n")` */
  function BlockLines(data: string): (lines: seq<string>)
    ensures |lines| >= 1
  {
    Split(Strip(data), '\n')
  }

  /** The tuples of a block: the header line only gives the id. */
  function Parse(data: string): seq<Tuple> {
    var lines := BlockLines(data);
    ParseLines(BlockId(lines[0]), lines[1..])
  }

  method ParseBlock(data: string) returns (instructions: seq<Tuple>)
    ensures instructions == Parse(data)
  {
    var lines := BlockLines(data);
    var blockId := BlockId(lines[0]);
    instructions := [];
    var rest := lines[1..];
    var i := 0;
    while i < |rest|
      invariant 0 <= i <= |rest|
      invariant instructions == ParseLines(blockId, rest[..i])
    {
      assert rest[..i + 1][..i] == rest[..i];
      var parts := Split(Strip(rest[i]), '\t');
      if |parts| >= 3 {
        var address, instruction, operands := parts[0], parts[1], parts[2];
        var pieces := Split(operands, ',');
        var left, right := pieces[0], Join(pieces[1..], ", ");
        instructions := instructions + [Tuple(blockId, address, instruction, left, right)];
      }
      i := i + 1;
    }
    assert rest[..i] == rest;
  }

  // ---------------------------------------------------------------------
  // Properties

  /** The id written between the first '<' and the next '>' is read back. */
  lemma BlockIdOfBracketed(before: string, id: string, after: string)
    requires '<' !in before && '>' !in id
    ensures BlockId(before + "<" + id + ">" + after) == id
  {
    var first := before + "<" + id + ">" + after;
    var rest := id + ">" + after;
    assert first == before + ['<'] + rest;
    FieldEndOfPrefix(before, rest, '<');
    assert first[|before| + 1..] == rest;
    assert rest == id + ['>'] + after;
    FieldEndOfPrefix(id, after, '>');
    assert rest[..|id|] == id;
  }

  /** A header without '<' gives "Unknown". */
  lemma BlockIdWithoutBracket(first: string)
    requires '<' !in first
    ensures BlockId(first) == "Unknown"
  {
  }

  /** A header in which no '>' follows any '<' (in particular one whose '<'
      is never closed) gives "Unknown", like a regular-expression search for
      `<...>` that finds no match. */
  lemma BlockIdWithoutClosingBracket(first: string)
    requires forall i, j :: 0 <= i < j < |first| && first[i] == '<' ==> first[j] != '>'
    ensures BlockId(first) == "Unknown"
  {
    var i := FieldEnd(first, '<');
    if i < |first| {
      var rest := first[i + 1..];
      var j := FieldEnd(rest, '>');
      if j < |rest| {
        assert first[i + 1 + j] == rest[j];
      }
    }
  }

  /** Every tuple carries the block id of the header, and there are at most
      as many tuples as lines after the header. */
  lemma {:induction false} ParseLinesBounds(blockId: string, lines: seq<string>)
    ensures |ParseLines(blockId, lines)| <= |lines|
    ensures forall t :: t in ParseLines(blockId, lines) ==> t.blockId == blockId
    decreases |lines|
  {
    if lines != [] {
      ParseLinesBounds(blockId, lines[..|lines| - 1]);
    }
  }

  lemma ParseBounds(data: string)
    ensures |Parse(data)| <= |BlockLines(data)| - 1
    ensures forall t :: t in Parse(data) ==> t.blockId == BlockId(BlockLines(data)[0])
  {
    ParseLinesBounds(BlockId(BlockLines(data)[0]), BlockLines(data)[1..]);
  }

  /** The tuples are the parsed lines in line order, skipped lines left out:
      appending a line appends its tuple, if any. */
  lemma {:induction false} ParseLinesAppend(blockId: string, lines: seq<string>, more: seq<string>)
    ensures ParseLines(blockId, lines + more) == ParseLines(blockId, lines) + ParseLines(blockId, more)
    decreases |more|
  {
    if more != [] {
      var m := more[..|more| - 1];
      assert (lines + more)[..|lines + more| - 1] == lines + m;
      ParseLinesAppend(blockId, lines, m);
    } else {
      assert lines + more == lines;
    }
  }

  /** A line yields a tuple exactly when its stripped text holds at least two
      tabs. */
  lemma ParseLineIffTwoTabs(blockId: string, line: string)
    ensures ParseLine(blockId, line).Some? <==> Count(Strip(line), '\t') >= 2
  {
    SplitLength(Strip(line), '\t');
  }

  /** A line written as address, instruction and operands (and possibly more
      fields) separated by tabs is read back field by field. */
  lemma ParseLineOfFields(blockId: string, address: string, instruction: string, operands: string, extra: seq<string>)
    requires forall f :: f in [address, instruction, operands] + extra ==> '\t' !in f
    requires address != [] && !IsSpace(address[0])
    requires var lastField := Last([address, instruction, operands] + extra); lastField != [] && !IsSpace(Last(lastField))
    ensures ParseLine(blockId, Join([address, instruction, operands] + extra, "\t"))
         == Some(Tuple(blockId, address, instruction, SplitOperands(operands).0, SplitOperands(operands).1))
  {
    var fields := [address, instruction, operands] + extra;
    var line := Join(fields, "\t");
    JoinStartsAndEnds(fields, '\t');
    StripUnchanged(line);
    SplitJoin(fields, '\t');
  }

  /** A joined text starts with the first piece and ends with the last one. */
  lemma {:induction false} JoinStartsAndEnds(parts: seq<string>, d: char)
    requires |parts| >= 1 && parts[0] != [] && Last(parts) != []
    ensures Join(parts, [d]) != []
    ensures Join(parts, [d])[0] == parts[0][0]
    ensures Last(Join(parts, [d])) == Last(Last(parts))
    decreases |parts|
  {
    if |parts| > 1 {
      var rest := parts[1..];
      if |rest| > 1 || rest[0] != [] {
        if rest[0] != [] {
          JoinStartsAndEnds(rest, d);
        } else {
          JoinEnds(rest, d);
        }
      }
    }
  }

  lemma {:induction false} JoinEnds(parts: seq<string>, d: char)
    requires |parts| >= 1 && Last(parts) != []
    ensures Join(parts, [d]) != [] && Last(Join(parts, [d])) == Last(Last(parts))
    decreases |parts|
  {
    if |parts| > 1 {
      JoinEnds(parts[1..], d);
    }
  }

  /** The left operand is the text before the first comma; with no comma the
      right operand is empty, otherwise it is the rest of the text with each
      comma followed by a space. */
  lemma SplitOperandsProperties(operands: string)
    ensures ',' !in SplitOperands(operands).0
    ensures ',' !in operands ==> SplitOperands(operands) == (operands, "")
    ensures ',' in operands ==>
      var k := |SplitOperands(operands).0|;
      && k < |operands| && operands[k] == ','
      && operands == SplitOperands(operands).0 + "," + operands[k + 1..]
      && SplitOperands(operands).1 == Join(Split(operands[k + 1..], ','), ", ")
  {
    var k := FieldEnd(operands, ',');
    if ',' !in operands {
      SplitWithoutSeparator(operands, ',');
    } else {
      assert k < |operands|;
      assert operands == operands[..k] + "," + operands[k + 1..];
    }
  }
}
