/** `parse_disassembly` of `feature_extraction_rows.py`: the text is cut into
    blocks at its address lines; a block is the address followed by the
    tokens of its instruction lines, all in one flat list. */
module RowsParser {
  import opened Strings
  import opened DisassemblyLines

  /** `results` and `current_block` between two lines. */
  datatype State = State(results: seq<seq<string>>, current: seq<string>)

  /** One line of the loop. An address line stores the previous block when
      it is non-empty and starts a new one with the address; an instruction
      line extends the current block; a blank line changes nothing. */
  function Step(s: State, line: string): State {
    if IsAddressLine(line) then
      State(if s.current != [] then s.results + [s.current] else s.results, [AddressOf(line)])
    else if Strip(line) != [] then
      State(s.results, s.current + LineTokens(line))
    else s
  }

  function Run(lines: seq<string>): State {
    if lines == [] then State([], []) else Step(Run(lines[..|lines| - 1]), lines[|lines| - 1])
  }

  /** The blocks: the last one is stored after the loop when non-empty. */
  function Finish(s: State): seq<seq<string>> {
    if s.current != [] then s.results + [s.current] else s.results
  }

  function ParseRows(text: string): seq<seq<string>> {
    Finish(Run(Lines(text)))
  }

  method ParseDisassembly(text: string) returns (results: seq<seq<string>>)
    ensures results == ParseRows(text)
    ensures |results| == |Addresses(Lines(text))| + LeadCount(Lines(text))
    ensures forall j :: LeadCount(Lines(text)) <= j < |results| ==>
      results[j] != [] && results[j][0] == Addresses(Lines(text))[j - LeadCount(Lines(text))]
  {
    var lines := Lines(text);
    results := [];
    var currentBlock: seq<string> := [];
    var i := 0;
    while i < |lines|
      invariant 0 <= i <= |lines|
      invariant State(results, currentBlock) == Run(lines[..i])
    {
      var line := lines[i];
      assert lines[..i + 1][..i] == lines[..i];
      if EndsWith(line, ':') {
        if currentBlock != [] {
          results := results + [currentBlock];
        }
        currentBlock := [AddressOf(line)];
      } else if Strip(line) != [] {
        var parts := Tokens(Last(Split(Strip(line), '\t')));
        currentBlock := currentBlock + parts;
      }
      i := i + 1;
    }
    assert lines[..i] == lines;
    if currentBlock != [] {
      results := results + [currentBlock];
    }
    assert results == ParseRows(text);
    BlocksStartWithAddresses(text);
  }

  // ---------------------------------------------------------------------
  // Reference definitions

  /** What one line contributes to the output, wherever the block breaks fall. */
  function Contribution(line: string): seq<string> {
    if IsAddressLine(line) then [AddressOf(line)]
    else if Strip(line) != [] then LineTokens(line)
    else []
  }

  function AllTokens(lines: seq<string>): seq<string> {
    if lines == [] then [] else AllTokens(lines[..|lines| - 1]) + Contribution(lines[|lines| - 1])
  }

  /** The instruction tokens that come before the first address line. */
  function Lead(lines: seq<string>): seq<string> {
    if lines == [] then []
    else
      var init, last := lines[..|lines| - 1], lines[|lines| - 1];
      if Addresses(init) == [] && !IsAddressLine(last) then Lead(init) + Contribution(last) else Lead(init)
  }

  /** 1 when those tokens form a leading block of their own, else 0. */
  function LeadCount(lines: seq<string>): nat {
    if Lead(lines) != [] then 1 else 0
  }

  function Flatten(blocks: seq<seq<string>>): seq<string> {
    if blocks == [] then [] else Flatten(blocks[..|blocks| - 1]) + blocks[|blocks| - 1]
  }

  // ---------------------------------------------------------------------
  // Properties

  /** Stored blocks are non-empty, and stored blocks and the current block
      together hold every contribution in order. */
  lemma {:induction false} RunKeepsTokens(lines: seq<string>)
    ensures forall k :: 0 <= k < |Run(lines).results| ==> Run(lines).results[k] != []
    ensures Flatten(Run(lines).results) + Run(lines).current == AllTokens(lines)
    decreases |lines|
  {
    if lines != [] {
      var init := lines[..|lines| - 1];
      var line := lines[|lines| - 1];
      RunKeepsTokens(init);
      KeepsStep(Run(init), AllTokens(init), line);
    }
  }

  /** Stored blocks are non-empty, and stored blocks and the current block
      together are `tokens`. */
  ghost predicate Keeps(s: State, tokens: seq<string>) {
    && (forall k :: 0 <= k < |s.results| ==> s.results[k] != [])
    && Flatten(s.results) + s.current == tokens
  }

  /** One line adds exactly its contribution. */
  lemma KeepsStep(s: State, tokens: seq<string>, line: string)
    requires Keeps(s, tokens)
    ensures Keeps(Step(s, line), tokens + Contribution(line))
  {
    if IsAddressLine(line) {
      if s.current != [] {
        assert (s.results + [s.current])[..|s.results|] == s.results;
        assert Flatten(s.results + [s.current]) == Flatten(s.results) + s.current;
      } else {
        assert Flatten(s.results) == tokens;
      }
    } else if Strip(line) != [] {
      InstructionTokensNonEmpty(line);
      assert Flatten(s.results) + (s.current + LineTokens(line)) == tokens + LineTokens(line);
    } else {
      assert tokens + [] == tokens;
    }
  }

  /** Where the blocks break. Before the first address line every
      instruction token goes into the current block and nothing is stored.
      Afterwards each address line stores the block before it, so block
      `k + LeadCount` was started by the `k`-th address line and the current
      block by the last one; a non-empty leading block holds the tokens
      before the first address line. */
  lemma {:induction false} RunStartsAtAddresses(lines: seq<string>)
    ensures Addresses(lines) == [] ==> Run(lines).results == [] && Run(lines).current == Lead(lines)
    ensures Addresses(lines) != [] ==>
      && |Run(lines).results| == |Addresses(lines)| - 1 + LeadCount(lines)
      && Run(lines).current != []
      && Run(lines).current[0] == Addresses(lines)[|Addresses(lines)| - 1]
    ensures forall j :: LeadCount(lines) <= j < |Run(lines).results| ==>
      Run(lines).results[j] != [] && Run(lines).results[j][0] == Addresses(lines)[j - LeadCount(lines)]
    ensures Addresses(lines) != [] && Lead(lines) != [] ==> Run(lines).results[0] == Lead(lines)
    decreases |lines|
  {
    if lines != [] {
      var init, line := lines[..|lines| - 1], lines[|lines| - 1];
      RunStartsAtAddresses(init);
      var s, a := Run(init), Addresses(init);
      assert Run(lines) == Step(s, line);
      assert Addresses(lines) == a + (if IsAddressLine(line) then [AddressOf(line)] else []);
      if a != [] {
        assert Lead(lines) == Lead(init);
        if IsAddressLine(line) {
          var r, lc := Run(lines).results, LeadCount(lines);
          assert r == s.results + [s.current];
          forall j | lc <= j < |r|
            ensures r[j] != [] && r[j][0] == Addresses(lines)[j - lc]
          {
            assert lc == LeadCount(init) && Addresses(lines)[j - lc] == a[j - lc];
            if j < |s.results| {
              assert r[j] == s.results[j];
            } else {
              assert r[j] == s.current;
            }
          }
        }
      } else if IsAddressLine(line) {
        assert Lead(lines) == Lead(init);
      }
    }
  }

  lemma RunInvariant(lines: seq<string>)
    ensures forall k :: 0 <= k < |Run(lines).results| ==> Run(lines).results[k] != []
    ensures Flatten(Run(lines).results) + Run(lines).current == AllTokens(lines)
    ensures Addresses(lines) == [] ==> Run(lines).results == [] && Run(lines).current == Lead(lines)
    ensures Addresses(lines) != [] ==>
      && |Run(lines).results| == |Addresses(lines)| - 1 + LeadCount(lines)
      && Run(lines).current != []
      && Run(lines).current[0] == Addresses(lines)[|Addresses(lines)| - 1]
    ensures forall j :: LeadCount(lines) <= j < |Run(lines).results| ==>
      Run(lines).results[j][0] == Addresses(lines)[j - LeadCount(lines)]
    ensures Addresses(lines) != [] && Lead(lines) != [] ==> Run(lines).results[0] == Lead(lines)
  {
    RunKeepsTokens(lines);
    RunStartsAtAddresses(lines);
  }

  /** Every returned block is non-empty; together, in order, the blocks are
      exactly the addresses and instruction tokens of the text. */
  lemma ParseRowsProperties(text: string)
    ensures forall k :: 0 <= k < |ParseRows(text)| ==> ParseRows(text)[k] != []
    ensures Flatten(ParseRows(text)) == AllTokens(Lines(text))
  {
    var s := Run(Lines(text));
    RunInvariant(Lines(text));
    if s.current != [] {
      assert (s.results + [s.current])[..|s.results|] == s.results;
    }
  }

  /** One block per address line, plus a leading block when instruction
      tokens come before the first address line: block `k + LeadCount`
      starts with the `k`-th address, and the leading block is exactly the
      tokens before the first address line. */
  lemma BlocksStartWithAddresses(text: string)
    ensures |ParseRows(text)| == |Addresses(Lines(text))| + LeadCount(Lines(text))
    ensures forall j :: LeadCount(Lines(text)) <= j < |ParseRows(text)| ==>
      ParseRows(text)[j] != [] && ParseRows(text)[j][0] == Addresses(Lines(text))[j - LeadCount(Lines(text))]
    ensures Lead(Lines(text)) != [] ==> ParseRows(text)[0] == Lead(Lines(text))
  {
    var lines := Lines(text);
    RunStartsAtAddresses(lines);
    var s, blocks, lc := Run(lines), ParseRows(text), LeadCount(lines);
    if Addresses(lines) == [] {
      assert blocks == if Lead(lines) != [] then [Lead(lines)] else [];
    } else {
      assert blocks == s.results + [s.current];
      forall j | lc <= j < |blocks|
        ensures blocks[j] != [] && blocks[j][0] == Addresses(lines)[j - lc]
      {
        if j < |s.results| {
          assert blocks[j] == s.results[j];
        } else {
          assert blocks[j] == s.current;
        }
      }
      if Lead(lines) != [] {
        assert blocks[0] == s.results[0];
      }
    }
  }

  /** Text without address lines gives at most one block: all of its
      instruction tokens, with no address element. */
  lemma {:induction false} NoAddressLines(text: string)
    requires Addresses(Lines(text)) == []
    ensures ParseRows(text) == if AllTokens(Lines(text)) == [] then [] else [AllTokens(Lines(text))]
  {
    RunInvariant(Lines(text));
    var s := Run(Lines(text));
    assert s.results == [];
    assert Flatten(s.results) + s.current == s.current;
  }
}
