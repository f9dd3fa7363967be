/** How the `parse_disassembly` variants read one line of `objdump`-style
    text: a line ending in ':' names a block address, any other non-blank
    line is an instruction line whose tokens are the words after its last tab. */
module DisassemblyLines {
  import opened Strings

  /** `text.splitlines()`, for text whose only line break is '\n'. */
  function Lines(text: string): seq<string> {
    Pieces(text, '\n')
  }

  /** `line.endswith(":")` */
  predicate IsAddressLine(line: string) {
    EndsWith(line, ':')
  }

  /** `line.split()[0]` of an address line, which always has a first word:
      its last character ':' is not white space. */
  function AddressOf(line: string): string
    requires IsAddressLine(line)
  {
    TokensOfNonBlank(line);
    Tokens(line)[0]
  }

  /** Neither an address line nor blank (`elif line.strip()`). */
  predicate IsInstructionLine(line: string) {
    !IsAddressLine(line) && Strip(line) != []
  }

  /** `line.strip().split("\t")[-1].split()` */
  function LineTokens(line: string): seq<string> {
    Tokens(Last(Split(Strip(line), '\t')))
  }

  /** The addresses of the address lines, in order. */
  function Addresses(lines: seq<string>): seq<string> {
    if lines == [] then []
    else
      var last := lines[|lines| - 1];
      Addresses(lines[..|lines| - 1]) + (if IsAddressLine(last) then [AddressOf(last)] else [])
  }

  /** An instruction line always yields at least one token: its stripped text
      ends with a non-space, and so does its last tab field. */
  lemma InstructionTokensNonEmpty(line: string)
    requires IsInstructionLine(line)
    ensures LineTokens(line) != []
  {
    var s := Strip(line);
    StripEnds(line);
    LastSplitPieceEnd(s, '\t');
    TokensOfNonBlank(Last(Split(s, '\t')));
  }
}
