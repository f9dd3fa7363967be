/** `parse_disassembly` of the `feature_extraction_columns.py` files and their
    export loop: each address gets the list of its lines' token lists, and the
    export writes the blocks side by side, one line of every block per row. */
module ColumnsParser {
  import opened Wrappers
  import opened Dicts
  import opened Counting
  import opened Grouping
  import opened Strings
  import opened DisassemblyLines

  /** `results` and `current_addr` between two lines. */
  datatype State = State(results: Dict<string, seq<seq<string>>>, current: Option<string>)

  /** One line of the loop. An address line makes its address current and
      (re)sets its list to []; an instruction line appends its token list under
      the current address, which fails with KeyError (`results[None]`) before
      any address line; a blank line changes nothing. */
  function Step(s: State, line: string): Result<State> {
    if IsAddressLine(line) then
      var a := AddressOf(line);
      Ok(State(s.results.Put(a, []), Some(a)))
    else if Strip(line) != [] then
      match s.current
      case None => Err("KeyError")
      case Some(a) => Ok(State(Append(s.results, a, LineTokens(line)), s.current))
    else Ok(s)
  }

  function RunFrom(start: Result<State>, lines: seq<string>): Result<State> {
    if lines == [] then start
    else
      match RunFrom(start, lines[..|lines| - 1])
      case Err(e) => Err(e)
      case Ok(s) => Step(s, lines[|lines| - 1])
  }

  function Start(): State {
    State(Empty(), None)
  }

  function Run(lines: seq<string>): Result<State> {
    RunFrom(Ok(Start()), lines)
  }

  function ParseColumns(text: string): Result<Dict<string, seq<seq<string>>>> {
    match Run(Lines(text))
    case Err(e) => Err(e)
    case Ok(s) => Ok(s.results)
  }

  method ParseDisassembly(text: string) returns (r: Result<Dict<string, seq<seq<string>>>>)
    ensures r == ParseColumns(text)
  {
    var lines := Lines(text);
    var results: Dict<string, seq<seq<string>>> := Empty();
    var currentAddr: Option<string> := None;
    var i := 0;
    while i < |lines|
      invariant 0 <= i <= |lines|
      invariant Run(lines[..i]) == Ok(State(results, currentAddr))
    {
      RunStep(lines, i);
      CurrentHasList(lines[..i]);
      var next := ParseLine(results, currentAddr, lines[i]);
      if next.Err? {
        ErrorSticks(lines, i + 1);
        return Err(next.error);
      }
      results, currentAddr := next.value.results, next.value.current;
      i := i + 1;
    }
    assert lines[..i] == lines;
    r := Ok(results);
  }

  lemma RunStep(lines: seq<string>, i: nat)
    requires i < |lines|
    ensures Run(lines[..i + 1]) == if Run(lines[..i]).Err? then Run(lines[..i]) else Step(Run(lines[..i]).value, lines[i])
  {
    assert lines[..i + 1][..i] == lines[..i];
  }

  /** The current address always has a list. */
  lemma CurrentHasList(lines: seq<string>)
    ensures Run(lines).Ok? && Run(lines).value.current.Some? ==> Run(lines).value.current.value in Run(lines).value.results.entries
  {
    RunShape(lines);
  }

  /** The loop body for one line. */
  method ParseLine(results: Dict<string, seq<seq<string>>>, currentAddr: Option<string>, line: string)
    returns (next: Result<State>)
    requires currentAddr.Some? ==> currentAddr.value in results.entries
    ensures next == Step(State(results, currentAddr), line)
  {
    if EndsWith(line, ':') {
      var a := AddressOf(line);
      return Ok(State(results.Put(a, []), Some(a)));
    } else if Strip(line) != [] {
      var parts := Tokens(Last(Split(Strip(line), '\t')));
      if currentAddr.None? {
        return Err("KeyError");
      }
      var a := currentAddr.value;
      return Ok(State(results.Put(a, results.entries[a] + [parts]), currentAddr));
    }
    return Ok(State(results, currentAddr));
  }

  // ---------------------------------------------------------------------
  // Running over pieces of the text

  lemma {:induction false} ErrorSticks(lines: seq<string>, k: nat)
    requires k <= |lines| && Run(lines[..k]).Err?
    ensures Run(lines) == Run(lines[..k])
    decreases |lines| - k
  {
    if k < |lines| {
      assert lines[..k + 1][..k] == lines[..k];
      ErrorSticks(lines, k + 1);
    } else {
      assert lines[..k] == lines;
    }
  }

  lemma {:induction false} RunFromAppend(start: Result<State>, xs: seq<string>, ys: seq<string>)
    ensures RunFrom(start, xs + ys) == RunFrom(RunFrom(start, xs), ys)
    decreases |ys|
  {
    if ys == [] {
      assert xs + ys == xs;
    } else {
      assert (xs + ys)[..|xs + ys| - 1] == xs + ys[..|ys| - 1];
      RunFromAppend(start, xs, ys[..|ys| - 1]);
    }
  }

  lemma {:induction false} RunFromError(e: string, ys: seq<string>)
    ensures RunFrom(Err(e), ys) == Err(e)
    decreases |ys|
  {
    if ys != [] {
      RunFromError(e, ys[..|ys| - 1]);
    }
  }

  lemma RunSnoc(lines: seq<string>)
    requires lines != []
    ensures Run(lines) == if Run(lines[..|lines| - 1]).Err? then Run(lines[..|lines| - 1])
                          else Step(Run(lines[..|lines| - 1]).value, lines[|lines| - 1])
  {
  }

  // ---------------------------------------------------------------------
  // Properties

  /** The loop fails exactly when an instruction line comes before every
      address line. */
  predicate EarlyInstruction(lines: seq<string>) {
    exists i :: 0 <= i < |lines| && IsInstructionLine(lines[i]) && Addresses(lines[..i]) == []
  }

  /** While it runs: the dict is well formed; its keys are the distinct
      addresses in order of first appearance; the current address is the
      last address line's, and it has a list; every token list is non-empty. */
  ghost predicate Shaped(s: State, lines: seq<string>) {
    && s.results.Valid()
    && s.results.keys == Distinct(Addresses(lines))
    && s.current == (if Addresses(lines) == [] then None else Some(Last(Addresses(lines))))
    && (s.current.Some? ==> s.current.value in s.results.entries)
    && forall a, j :: a in s.results.entries && 0 <= j < |s.results.entries[a]| ==> s.results.entries[a][j] != []
  }

  lemma {:induction false} RunShape(lines: seq<string>)
    ensures Run(lines).Ok? ==> Shaped(Run(lines).value, lines)
    decreases |lines|
  {
    if lines != [] {
      var init := lines[..|lines| - 1];
      var line := lines[|lines| - 1];
      RunShape(init);
      RunSnoc(lines);
      if Run(init).Ok? && Run(lines).Ok? {
        ShapedStep(Run(init).value, init, line);
        assert init + [line] == lines;
      }
    }
  }

  lemma ShapedStep(s: State, lines: seq<string>, line: string)
    requires Shaped(s, lines) && Step(s, line).Ok?
    ensures Shaped(Step(s, line).value, lines + [line])
  {
    assert (lines + [line])[..|lines|] == lines;
    if IsAddressLine(line) {
      ShapedAddressStep(s, lines, line);
    } else {
      ShapedOtherStep(s, lines, line);
    }
  }

  lemma ShapedAddressStep(s: State, lines: seq<string>, line: string)
    requires Shaped(s, lines) && IsAddressLine(line)
    ensures Shaped(Step(s, line).value, lines + [line])
  {
    assert (lines + [line])[..|lines|] == lines;
    var a := AddressOf(line);
    assert Addresses(lines + [line]) == Addresses(lines) + [a];
    KeysStep(s, lines, line);
    ListsStayNonEmpty(s.results, a);
  }

  /** Resetting a list to [] keeps every stored token list non-empty. */
  lemma ListsStayNonEmpty(results: Dict<string, seq<seq<string>>>, a: string)
    requires forall b, j :: b in results.entries && 0 <= j < |results.entries[b]| ==> results.entries[b][j] != []
    ensures var r := results.Put(a, []);
      forall b, j :: b in r.entries && 0 <= j < |r.entries[b]| ==> r.entries[b][j] != []
  {
  }

  lemma ShapedOtherStep(s: State, lines: seq<string>, line: string)
    requires Shaped(s, lines) && !IsAddressLine(line) && Step(s, line).Ok?
    ensures Shaped(Step(s, line).value, lines + [line])
  {
    assert (lines + [line])[..|lines|] == lines;
    assert Addresses(lines + [line]) == Addresses(lines);
    if IsInstructionLine(line) {
      InstructionTokensNonEmpty(line);
    }
  }

  lemma KeysStep(s: State, lines: seq<string>, line: string)
    requires Shaped(s, lines) && IsAddressLine(line)
    ensures Step(s, line).value.results.keys == Distinct(Addresses(lines) + [AddressOf(line)])
  {
    var addresses := Addresses(lines);
    var a := AddressOf(line);
    DistinctProperties(addresses);
    assert (addresses + [a])[..|addresses|] == addresses;
    assert a in s.results.entries <==> a in Distinct(addresses);
  }

  lemma EarlySnoc(lines: seq<string>)
    requires lines != []
    ensures var init := lines[..|lines| - 1];
      EarlyInstruction(lines) <==>
        EarlyInstruction(init) || (IsInstructionLine(lines[|lines| - 1]) && Addresses(init) == [])
  {
    var init := lines[..|lines| - 1];
    if EarlyInstruction(init) {
      var i :| 0 <= i < |init| && IsInstructionLine(init[i]) && Addresses(init[..i]) == [];
      assert lines[i] == init[i] && lines[..i] == init[..i];
    }
    if EarlyInstruction(lines) {
      var i :| 0 <= i < |lines| && IsInstructionLine(lines[i]) && Addresses(lines[..i]) == [];
      if i < |init| {
        assert lines[i] == init[i] && lines[..i] == init[..i];
      }
    }
    assert lines[..|init|] == init;
  }

  lemma {:induction false} RunFailsIffEarlyInstruction(lines: seq<string>)
    ensures Run(lines).Err? <==> EarlyInstruction(lines)
    decreases |lines|
  {
    if lines != [] {
      var init := lines[..|lines| - 1];
      RunFailsIffEarlyInstruction(init);
      RunSnoc(lines);
      EarlySnoc(lines);
      if Run(init).Ok? {
        RunShape(init);
      }
    }
  }

  lemma RunInvariant(lines: seq<string>)
    ensures Run(lines).Err? <==> EarlyInstruction(lines)
    ensures Run(lines).Ok? ==> Shaped(Run(lines).value, lines)
  {
    RunFailsIffEarlyInstruction(lines);
    RunShape(lines);
  }

  /** The token lists of the instruction lines among `lines`, in order. */
  function TokenLists(lines: seq<string>): seq<seq<string>> {
    if lines == [] then []
    else
      var last := lines[|lines| - 1];
      TokenLists(lines[..|lines| - 1]) + (if IsInstructionLine(last) then [LineTokens(last)] else [])
  }

  /** Lines without address lines, run under address `a`, append their
      token lists to `a`'s list and keep `a` current. */
  lemma {:induction false} UnderAddress(s: State, a: string, mid: seq<string>)
    requires s.current == Some(a)
    requires forall l :: l in mid ==> !IsAddressLine(l)
    ensures RunFrom(Ok(s), mid).Ok?
    ensures RunFrom(Ok(s), mid).value.current == Some(a)
    ensures RunFrom(Ok(s), mid).value.results.GetOr(a, []) == s.results.GetOr(a, []) + TokenLists(mid)
    ensures a in s.results.entries ==> a in RunFrom(Ok(s), mid).value.results.entries
    decreases |mid|
  {
    if mid != [] {
      UnderAddress(s, a, mid[..|mid| - 1]);
    }
  }

  /** Lines without an address line for `a`, run while another address is
      current, never fail and leave `a`'s list alone. */
  lemma {:induction false} AwayFromAddress(s: State, a: string, post: seq<string>)
    requires s.current.Some? && s.current != Some(a)
    requires forall l :: l in post && IsAddressLine(l) ==> AddressOf(l) != a
    ensures RunFrom(Ok(s), post).Ok?
    ensures RunFrom(Ok(s), post).value.current.Some? && RunFrom(Ok(s), post).value.current != Some(a)
    ensures a in RunFrom(Ok(s), post).value.results.entries <==> a in s.results.entries
    ensures RunFrom(Ok(s), post).value.results.GetOr(a, []) == s.results.GetOr(a, [])
    decreases |post|
  {
    if post != [] {
      AwayFromAddress(s, a, post[..|post| - 1]);
    }
  }

  /** Right after an address line its address is current and its list is empty. */
  lemma AfterAddressLine(pre: seq<string>, addressLine: string)
    requires IsAddressLine(addressLine) && Run(pre + [addressLine]).Ok?
    ensures var s := Run(pre + [addressLine]).value;
      && s.current == Some(AddressOf(addressLine))
      && AddressOf(addressLine) in s.results.entries
      && s.results.entries[AddressOf(addressLine)] == []
  {
    RunSnoc(pre + [addressLine]);
    assert (pre + [addressLine])[..|pre|] == pre;
  }

  /** A run that ends well passed every prefix without failing. */
  lemma PrefixOk(xs: seq<string>, ys: seq<string>)
    requires Run(xs + ys).Ok?
    ensures Run(xs).Ok? && Run(xs + ys) == RunFrom(Run(xs), ys)
  {
    RunFromAppend(Ok(Start()), xs, ys);
    if Run(xs).Err? {
      RunFromError(Run(xs).error, ys);
    }
  }

  /** An address's list holds the token lists of the instruction lines after
      its last address line, up to the next address line: a repeated address
      discards what was collected under its earlier occurrences. */
  lemma ListIsLastSegment(pre: seq<string>, addressLine: string, mid: seq<string>, post: seq<string>)
    requires IsAddressLine(addressLine)
    requires forall l :: l in mid ==> !IsAddressLine(l)
    requires post == [] || IsAddressLine(post[0])
    requires forall l :: l in post && IsAddressLine(l) ==> AddressOf(l) != AddressOf(addressLine)
    requires Run(pre + [addressLine] + mid + post).Ok?
    ensures var d := Run(pre + [addressLine] + mid + post).value.results;
      AddressOf(addressLine) in d.entries && d.entries[AddressOf(addressLine)] == TokenLists(mid)
  {
    var a := AddressOf(addressLine);
    var l1 := pre + [addressLine];
    var l2 := l1 + mid;
    PrefixOk(l2, post);
    PrefixOk(l1, mid);
    AfterAddressLine(pre, addressLine);
    var s1 := Run(l1).value;
    UnderAddress(s1, a, mid);
    var s2 := Run(l2).value;
    assert s2.results.GetOr(a, []) == TokenLists(mid);
    if post != [] {
      RunFromAppend(Ok(s2), [post[0]], post[1..]);
      assert [post[0]] + post[1..] == post;
      PostStart(s2, a, post[0]);
      AwayFromAddress(Step(s2, post[0]).value, a, post[1..]);
    }
  }

  /** The address line that ends the segment makes another address current. */
  lemma PostStart(s: State, a: string, line: string)
    requires IsAddressLine(line) && AddressOf(line) != a
    ensures Step(s, line).Ok? && Step(s, line).value.current.Some? && Step(s, line).value.current != Some(a)
    ensures Step(s, line).value.results.GetOr(a, []) == s.results.GetOr(a, [])
    ensures RunFrom(Ok(s), [line]) == Step(s, line)
  {
    assert [line][..0] == [];
  }

  // ---------------------------------------------------------------------
  // Export

  /** `max(len(instructions[addr]) for addr in instructions)` over `keys`,
      0 for no keys (where Python's `max` fails instead). */
  function MaxLength(d: Dict<string, seq<seq<string>>>, keys: seq<string>): nat
    requires forall k :: k in keys ==> k in d.entries
  {
    if keys == [] then 0
    else
      var m := MaxLength(d, keys[..|keys| - 1]);
      var n := |d.entries[keys[|keys| - 1]]|;
      if n > m then n else m
  }

  /** Row `i`: each block's `i`-th token list, or a single "" when the block
      has fewer lines. */
  function ExportRow(d: Dict<string, seq<seq<string>>>, keys: seq<string>, i: nat): seq<string>
    requires forall k :: k in keys ==> k in d.entries
  {
    if keys == [] then []
    else
      var lines := d.entries[keys[|keys| - 1]];
      ExportRow(d, keys[..|keys| - 1], i) + (if i < |lines| then lines[i] else [""])
  }

  /** The rows after the header; `max()` of no blocks raises ValueError. */
  function Export(d: Dict<string, seq<seq<string>>>): Result<seq<seq<string>>>
    requires d.Valid()
  {
    if d.keys == [] then Err("ValueError")
    else Ok(seq(MaxLength(d, d.keys), i requires 0 <= i < MaxLength(d, d.keys) => ExportRow(d, d.keys, i)))
  }

  /** The header (written before `max()` is evaluated) and the rows. */
  method ExportRows(d: Dict<string, seq<seq<string>>>) returns (header: seq<string>, rows: Result<seq<seq<string>>>)
    requires d.Valid()
    ensures header == d.keys
    ensures rows == Export(d)
  {
    header := d.keys;
    if d.keys == [] {
      return header, Err("ValueError");
    }
    var maxRowLength := LongestBlock(d);
    var written: seq<seq<string>> := [];
    var i := 0;
    while i < maxRowLength
      invariant 0 <= i <= maxRowLength
      invariant |written| == i
      invariant forall r :: 0 <= r < i ==> written[r] == ExportRow(d, d.keys, r)
    {
      var row := WriteRow(d, i);
      written := written + [row];
      i := i + 1;
    }
    assert Export(d) == Ok(written) by {
      var expected := Export(d).value;
      assert |expected| == |written|;
      forall r | 0 <= r < |written| ensures expected[r] == written[r] {
        assert expected[r] == ExportRow(d, d.keys, r);
      }
      assert expected == written;
    }
    rows := Ok(written);
  }

  /** `max(len(instructions[addr]) for addr in instructions)`. */
  method LongestBlock(d: Dict<string, seq<seq<string>>>) returns (maxRowLength: nat)
    requires d.Valid()
    ensures maxRowLength == MaxLength(d, d.keys)
  {
    maxRowLength := 0;
    var j := 0;
    while j < |d.keys|
      invariant 0 <= j <= |d.keys|
      invariant maxRowLength == MaxLength(d, d.keys[..j])
    {
      ColumnStep(d, j);
      var n := |d.entries[d.keys[j]]|;
      if n > maxRowLength {
        maxRowLength := n;
      }
      j := j + 1;
    }
    assert d.keys[..j] == d.keys;
  }

  /** One output row: the `i`-th token list of every block, in key order. */
  method WriteRow(d: Dict<string, seq<seq<string>>>, i: nat) returns (row: seq<string>)
    requires d.Valid()
    ensures row == ExportRow(d, d.keys, i)
  {
    row := [];
    var k := 0;
    while k < |d.keys|
      invariant 0 <= k <= |d.keys|
      invariant row == ExportRow(d, d.keys[..k], i)
    {
      ColumnStep(d, k);
      var lines := d.entries[d.keys[k]];
      if i < |lines| {
        row := row + lines[i];
      } else {
        row := row + [""];
      }
      k := k + 1;
    }
    assert d.keys[..k] == d.keys;
  }

  /** Taking one more key: both folds advance by that key's block. */
  lemma ColumnStep(d: Dict<string, seq<seq<string>>>, j: nat)
    requires d.Valid() && j < |d.keys|
    ensures d.keys[j] in d.entries
    ensures forall k :: k in d.keys[..j + 1] ==> k in d.entries
    ensures var n := |d.entries[d.keys[j]]|;
      MaxLength(d, d.keys[..j + 1]) == if n > MaxLength(d, d.keys[..j]) then n else MaxLength(d, d.keys[..j])
    ensures forall i: nat :: (ExportRow(d, d.keys[..j + 1], i)
      == ExportRow(d, d.keys[..j], i) + (if i < |d.entries[d.keys[j]]| then d.entries[d.keys[j]][i] else [""]))
  {
    assert d.keys[..j + 1][..j] == d.keys[..j];
  }

  /** The number of rows is the length of the longest block: no block is
      longer, and some block is exactly that long. */
  lemma {:induction false} MaxLengthIsMaximum(d: Dict<string, seq<seq<string>>>, keys: seq<string>)
    requires forall k :: k in keys ==> k in d.entries
    ensures forall k :: k in keys ==> |d.entries[k]| <= MaxLength(d, keys)
    ensures keys != [] ==> exists k :: k in keys && |d.entries[k]| == MaxLength(d, keys)
    decreases |keys|
  {
    if keys != [] {
      var init := keys[..|keys| - 1];
      var last := keys[|keys| - 1];
      MaxLengthIsMaximum(d, init);
      assert keys == init + [last];
      assert forall k :: k in keys ==> k in init || k == last;
      if init != [] && |d.entries[last]| <= MaxLength(d, init) {
        var k :| k in init && |d.entries[k]| == MaxLength(d, init);
        assert k in keys;
      } else {
        assert last in keys && |d.entries[last]| == MaxLength(d, keys);
      }
    }
  }

  /** Each block fills at least one cell of every row, so when no token list
      is empty, every row has at least one cell per block. */
  lemma {:induction false} RowHasCellPerBlock(d: Dict<string, seq<seq<string>>>, keys: seq<string>, i: nat)
    requires forall k :: k in keys ==> k in d.entries
    requires forall k, j :: k in d.entries && 0 <= j < |d.entries[k]| ==> d.entries[k][j] != []
    ensures |ExportRow(d, keys, i)| >= |keys|
    decreases |keys|
  {
    if keys != [] {
      RowHasCellPerBlock(d, keys[..|keys| - 1], i);
    }
  }

  /** With a single block, the export gives back that block's token lists, one
      per row, with no padding. */
  lemma SingleBlockExport(d: Dict<string, seq<seq<string>>>)
    requires d.Valid() && |d.keys| == 1
    ensures Export(d) == Ok(d.entries[d.keys[0]])
  {
    var k := d.keys[0];
    assert k in d.keys;
    assert d.keys[..0] == [];
    assert MaxLength(d, d.keys) == |d.entries[k]|;
    var rows := Export(d).value;
    assert |rows| == |d.entries[k]|;
    forall i | 0 <= i < |rows| ensures rows[i] == d.entries[k][i] {
      assert ExportRow(d, d.keys, i) == ExportRow(d, [], i) + d.entries[k][i];
    }
    assert rows == d.entries[k];
  }

  /** Parsed text always gives a well-formed dict, and every exported row
      has at least one cell per block. */
  lemma ParsedRowsHaveCellPerBlock(text: string)
    requires ParseColumns(text).Ok? && ParseColumns(text).value.keys != []
    ensures var d := ParseColumns(text).value;
      && d.Valid() && Export(d).Ok?
      && forall r :: 0 <= r < |Export(d).value| ==> |Export(d).value[r]| >= |d.keys|
  {
    RunInvariant(Lines(text));
    var s := Run(Lines(text)).value;
    var d := ParseColumns(text).value;
    assert d == s.results && Shaped(s, Lines(text));
    forall r | 0 <= r < |Export(d).value|
      ensures |Export(d).value[r]| >= |d.keys|
    {
      RowHasCellPerBlock(d, d.keys, r);
    }
  }
}
