# Binary static analysis through instruction and operand extraction: a Dafny model

This project models the hand-written data handling of a pipeline that studies
disassembled programs:

1. Disassembly text is cut into basic blocks and instruction records.
2. Operands are split at commas outside parentheses.
3. Block ids are numbered in order of first appearance.
4. The values of each block are counted and turned into probabilities and
   Shannon entropies.
5. Low-entropy values are filtered out against per-(block, type) thresholds.
6. Blocks are compared pairwise with Kullback–Leibler-style scores.
7. The scores are assembled into a symmetric matrix and converted to
   distances.
8. Probabilities are normalised and pivoted for clustering, and cluster
   sizes and mean entropies are computed.

Two small C++ sample programs are also modelled: a growable array and a comma
splitter.

Every step is a Dafny function that serves as the reference definition. Code
that works by looping or by updating state is a method, proved to compute
that function. The properties the scripts rely on are proved as lemmas:

- sums to one;
- symmetry;
- partitioning;
- subsequence;
- first-appearance numbering;
- round trips of splitting and joining.

Modelling choices shared by all modules:

- Numbers are `real`. Probabilities are exact ratios of counts.
- `log2` and `sqrt` are not computed. They are fields of a `Numeric.Math`
  value passed as a parameter. Lemmas that need them assume only
  `Numeric.Sound(m)`: `log2(1) == 0` and `sqrt` is non-negative on
  non-negatives.
- A Python `dict` is `Dicts.Dict`: a sequence of keys in insertion order
  together with a map.
  - `Put` keeps the position of a key already present.
  - `Grouping.GroupBy` is the `defaultdict(list)` / `setdefault(...).append`
    idiom.
  - `Counting.Tally` is the `dict.get(k, 0) + 1` idiom.
  - `Counting.Distinct` gives the distinct elements in order of first
    appearance.
- `str.splitlines()` and repeated `std::getline` are both
  `Strings.Pieces`. A final delimiter does not start an empty piece.
- `str.split(d)` is `Strings.Split`, `str.split()` is `Strings.Tokens` and
  `str.strip()` is `Strings.Strip`.
- `int()` on a cell is `Strings.ParseInt`. It returns `None` for text
  outside the plain ASCII form: optional white space, an optional sign and
  ASCII digits. Python raises `ValueError` on all such text except the forms
  listed under Left out.
- Reading and writing CSV files is not modelled. Each operation takes the
  rows it would have read, and returns the rows it would have written.
- An exception is a `Wrappers.Result` error, or a `KeyErrorAfter` outcome.

Many root-level files repeat a file under `src/`, and such a pair shares one
model. The rows below cite one file of each pair. The twins are:

- `feature_extraction/feature_extraction_columns.py:4-26,41-52` is the same
  as `src/analysis/feature/feature_extraction_columns.py:9-31,58-69`.
- `feature_extraction/csv_format.py:7-30` is the same as
  `src/analysis/feature/csv_format.py:20-43`.
- `feature_extraction/csv_block_id.py:11-23` is the same as
  `src/analysis/feature/csv_block_id.py:20-32`.
- `preprocessing/entropy.py:7-65` is the same as
  `src/analysis/entropy/entropy.py:16-112`.
- `entropy_visualization.py` (lines 8-33 and 55-77) is the same as
  `src/analysis/entropy/entropy_visualization.py` (lines 15-62 and 96-130).
- `kl_divergence.py`, `kl_divergence_normalized.py`, `similarity_matrix.py`
  and `src/analysis/similarity/similarity_matrix.py` all share the builder,
  the smoothed KL term, the pair loop and the writer of
  `src/analysis/similarity/kl_divergence_normalized.py`.
  - `Divergence.Measure.Smoothed` selects that KL term.
  - `kl_divergence/kl_divergence.py` uses the masked per-assembly term,
    `Measure.Masked`.
- `similarity_matrix.py:58-66` is the same as
  `src/analysis/similarity/similarity_matrix.py:109-129`.
- The `read_similarity_matrix` fill and `similarity_to_distance` of
  `ahc_pca.py`, `distance_matrix.py`, `src/analysis/clustering/ahc_pca.py`
  and `src/analysis/similarity/distance_matrix.py` are the same as those of
  `src/analysis/clustering/agglomerative_hierarchical_clustering.py:22-68`.
- `src/analysis/clustering/AHC_silhouette_coefficient.py:20-68` is the same
  as `src/analysis/clustering/AHC_CSV.py:19-68`.
- The two `clusters_visualization.py` files differ in the cluster key:
  - `src/` converts the cluster with `int()`, in
    `ClusterStatistics.ReadClusterAssignments`;
  - the root copy keeps the raw text, in
    `ClusterStatistics.ReadClusterAssignmentsByText`.

## Model

| member | source | states |
|---|---|---|
| BlockParser.BlockId | src/analysis/feature/feature_extraction_test.py:27-31 | the id is "Unknown" or the text strictly between a '<' with no earlier '<' and the first '>' after it |
| BlockParser.ParseBlock | src/analysis/feature/feature_extraction_test.py:26-45 | the loop returns exactly `Parse(data)`: the tuples of the lines after the header, in line order |
| BlockParser.BlockIdOfBracketed | src/analysis/feature/feature_extraction_test.py:27-29 | a header `before<id>after` with no '<' in `before` and no '>' in `id` yields `id` |
| BlockParser.BlockIdWithoutBracket | src/analysis/feature/feature_extraction_test.py:30-31 | a header without '<' yields "Unknown" |
| BlockParser.BlockIdWithoutClosingBracket | src/analysis/feature/feature_extraction_test.py:27-31 | a header in which no '>' follows any '<', such as one whose '<' is never closed, yields "Unknown" |
| BlockParser.ParseBounds | src/analysis/feature/feature_extraction_test.py:26-41 | there are at most (lines − 1) tuples, since the header never yields one; every tuple carries the header's block id |
| BlockParser.ParseLinesBounds | src/analysis/feature/feature_extraction_test.py:33-41 | at most one tuple per line, each with the given block id |
| BlockParser.ParseLinesAppend | src/analysis/feature/feature_extraction_test.py:33-44 | tuples follow line order: parsing `lines + more` appends the tuples of `more` to those of `lines` |
| BlockParser.ParseLineIffTwoTabs | src/analysis/feature/feature_extraction_test.py:34-35 | a line yields a tuple exactly when its stripped text has at least two tabs, i.e. at least three tab parts |
| BlockParser.ParseLineOfFields | src/analysis/feature/feature_extraction_test.py:34-38 | a line written as address, instruction, operands and any extra fields is read back field by field; the extra fields are ignored |
| BlockParser.SplitOperandsProperties | src/analysis/feature/feature_extraction_test.py:37-38 | the left operand is the text before the first comma and has no comma; with no comma the right operand is ""; otherwise the right operand is the rest, its comma pieces re-joined with ", " |
| OperandSplit.SplitLeftOperand | src/analysis/feature/csv_format.py:20-43 | with no comma at depth 0 the result is (text, ""); otherwise the cut is at the first comma at depth 0 and left + "," + right == text |
| OperandSplit.DepthAppend | src/analysis/feature/csv_format.py:33-36 | the depth counter is additive: '(' adds one, ')' subtracts one, and no other character changes it |
| OperandSplit.ParenthesisedCommaNeverSplits | src/analysis/feature/csv_format.py:33-39 | a comma inside a balanced parenthesis never splits |
| OperandSplit.UnmatchedCloseNeverSplits | src/analysis/feature/csv_format.py:35-37 | after an unmatched ')' the depth is negative, so no later comma splits until a '(' is met |
| OperandSplit.PlainTextSplitsAtFirstComma | src/analysis/feature/csv_format.py:37-39 | in text without parentheses, the splitting positions are exactly the commas |
| OperandSplit.NoParenthesesDepth | src/analysis/feature/csv_format.py:33-36 | text without parentheses has depth 0 |
| OperandSplit.NoOpenDepth | src/analysis/feature/csv_format.py:33-36 | text without '(' never has a positive depth |
| DisassemblyLines.InstructionTokensNonEmpty | feature_extraction/feature_extraction_rows.py:28-32 | a non-blank, non-address line always yields at least one token |
| RowsParser.ParseDisassembly | feature_extraction/feature_extraction_rows.py:20-37 | the loop and the final flush compute `ParseRows(text)`: one block per address line, plus one leading block exactly when tokens come before the first address line; block k after the leading one starts with the k-th address |
| RowsParser.ParseRowsProperties | feature_extraction/feature_extraction_rows.py:23-35 | every returned block is non-empty; concatenated in order, the blocks are all addresses and tokens of the text |
| RowsParser.BlocksStartWithAddresses | feature_extraction/feature_extraction_rows.py:24-35 | the block count is the number of address lines, plus 1 when tokens come first; block k after the leading one starts with the k-th address line's address; the leading block is the tokens before the first address line |
| RowsParser.NoAddressLines | feature_extraction/feature_extraction_rows.py:21-35 | text with no address line gives one block of all its tokens, or no block when it has none |
| RowsParser.RunKeepsTokens | feature_extraction/feature_extraction_rows.py:25-32 | stored blocks are non-empty; stored blocks plus the current block hold every token read so far, in order |
| RowsParser.KeepsStep | feature_extraction/feature_extraction_rows.py:24-32 | one line adds exactly its contribution; blank lines change nothing |
| RowsParser.RunStartsAtAddresses | feature_extraction/feature_extraction_rows.py:24-27 | each address line closes the current block (when non-empty) and opens a new one starting with its address: without address lines nothing is stored and the current block is the leading tokens; otherwise (address lines − 1 + leading block) blocks are stored, stored block k after the leading one starts with the k-th address, and the current block with the last one |
| ColumnsParser.ParseDisassembly | src/analysis/feature/feature_extraction_columns.py:20-31 | the loop computes exactly `ParseColumns(text)`: the dict of token lists, or an error |
| ColumnsParser.ParseLine | src/analysis/feature/feature_extraction_columns.py:24-29 | one loop step equals `Step`: an address line makes its address current and resets its list; any other non-blank line appends one token list under the current address |
| ColumnsParser.RunFailsIffEarlyInstruction | src/analysis/feature/feature_extraction_columns.py:21-29 | the parse fails (`results[None]`) exactly when a non-blank instruction line precedes every address line |
| ColumnsParser.RunInvariant | src/analysis/feature/feature_extraction_columns.py:23-29 | on success the dict's keys are the distinct addresses in first-appearance order; the current address is the last one; no stored token list is empty |
| ColumnsParser.RunShape | src/analysis/feature/feature_extraction_columns.py:23-29 | a successful run keeps the dict well formed and keyed by the distinct addresses |
| ColumnsParser.CurrentHasList | src/analysis/feature/feature_extraction_columns.py:25-26 | the current address always has a list |
| ColumnsParser.ErrorSticks | src/analysis/feature/feature_extraction_columns.py:29 | once the loop has failed, later lines do not change the outcome |
| ColumnsParser.ListIsLastSegment | src/analysis/feature/feature_extraction_columns.py:26 | an address's list holds the token lists of the lines after its last occurrence; a repeated address discards its earlier lines |
| ColumnsParser.AfterAddressLine | src/analysis/feature/feature_extraction_columns.py:24-26 | right after an address line its address is current and its list is empty |
| ColumnsParser.UnderAddress | src/analysis/feature/feature_extraction_columns.py:27-29 | instruction lines under the current address append their token lists, in order, to its list |
| ColumnsParser.AwayFromAddress | src/analysis/feature/feature_extraction_columns.py:24-29 | lines under other addresses leave an address's list as it was |
| ColumnsParser.ExportRows | src/analysis/feature/feature_extraction_columns.py:58-69 | the header is the dict's keys in insertion order; the rows equal `Export(d)`: max(list length) rows, each block's i-th token list or a single "" |
| ColumnsParser.LongestBlock | src/analysis/feature/feature_extraction_columns.py:61 | the loop computes the maximum list length |
| ColumnsParser.WriteRow | src/analysis/feature/feature_extraction_columns.py:63-68 | row i is each block's i-th token list, or "" where the block is shorter |
| ColumnsParser.MaxLengthIsMaximum | src/analysis/feature/feature_extraction_columns.py:61 | the row count bounds every block's length and equals the length of some block |
| ColumnsParser.RowHasCellPerBlock | src/analysis/feature/feature_extraction_columns.py:64-68 | when no token list is empty, every row holds at least one cell per block |
| ColumnsParser.SingleBlockExport | src/analysis/feature/feature_extraction_columns.py:61-69 | a single block is exported as its own token lists, one per row |
| ColumnsParser.ParsedRowsHaveCellPerBlock | src/analysis/feature/feature_extraction_columns.py:23-69 | for parsed text with at least one address, the export succeeds and every row has a cell per block |
| BlockNumbering.NumberBlocks | src/analysis/feature/csv_block_id.py:20-32 | as written: the numbering of all rows except row 0 |
| BlockNumbering.NumberAllBlocks | src/analysis/feature/csv_block_id.py:20-32 | corrected: the numbering of every data row |
| BlockNumbering.AssignIsFirstAppearance | src/analysis/feature/csv_block_id.py:30-32 | the mapped ids are the distinct ids in first-appearance order; the k-th gets k + 1; the counter ends at (distinct ids + 1) |
| BlockNumbering.NumbersAreOneToCounter | src/analysis/feature/csv_block_id.py:20-32 | every number lies in 1 .. counter − 1; numbers are pairwise distinct; there are counter − 1 of them |
| BlockNumbering.NumbersNeverChange | src/analysis/feature/csv_block_id.py:30 | later rows never change a number already given |
| BlockNumbering.NumberedIffPresent | src/analysis/feature/csv_block_id.py:24-32 | an id is mapped exactly when it occurs in the numbered rows; the map size is the number of distinct ids |
| BlockNumbering.FirstDataRowSkipped | src/analysis/feature/csv_block_id.py:25-26 | as written, an id that occurs only in the first data row gets no number |
| BlockNumbering.EveryRowNumbered | src/analysis/feature/csv_block_id.py:24-32 | corrected, every id of the column gets a number |
| BlockEntropy.CalculateEntropy | src/analysis/entropy/entropy.py:25-29 | the accumulator loop computes `EntropyOf`: −Σ p·log2 p over the non-zero entries |
| BlockEntropy.EntropySkipsZeros | src/analysis/entropy/entropy.py:27 | zero entries contribute nothing, so log2 is only applied to non-zero values |
| BlockEntropy.EntropySnoc | src/analysis/entropy/entropy.py:26-28 | one more probability subtracts exactly its own term |
| BlockEntropy.CountVariables | src/analysis/entropy/entropy.py:62-70 | the counter equals the tally of the block's (value, type) keys |
| BlockEntropy.TallyOfLine | src/analysis/entropy/entropy.py:66-70 | one line adds one increment per key of that line |
| BlockEntropy.KeyCounts | src/analysis/entropy/entropy.py:65-70 | counts are per (value, type): an instruction counts once per line (even ""); an operand counts only when non-empty |
| BlockEntropy.KindCounts | src/analysis/entropy/entropy.py:65-70 | each line gives exactly one Instruction key and one key per non-empty operand |
| BlockEntropy.BlockProbabilities | src/analysis/entropy/entropy.py:73-84 | the loop writes one record per counter key, with probability count / lines |
| BlockEntropy.ProbabilitiesAndEntropy | src/analysis/entropy/entropy.py:60-84 | the records of every block, blocks in dict order |
| BlockEntropy.InstructionProbabilitiesSumToOne | src/analysis/entropy/entropy.py:61-74 | a block's Instruction probabilities add up to 1 |
| BlockEntropy.OperandProbabilitiesSum | src/analysis/entropy/entropy.py:67-74 | a block's Left (Right) operand probabilities add up to the share of lines with a non-empty left (right) operand |
| BlockEntropy.KindProbabilitySum | src/analysis/entropy/entropy.py:73-74 | the probabilities of one type add up to (keys of that type) / lines |
| BlockEntropy.RecordsAreDistinct | src/analysis/entropy/entropy.py:73-84 | one record per distinct (value, type) of the block, none repeated |
| BlockEntropy.KeyCountAtMostLines | src/analysis/entropy/entropy.py:65-70 | a key counts at most once per line |
| BlockEntropy.ProbabilitiesInUnitRange | src/analysis/entropy/entropy.py:74 | every probability written lies in (0, 1] |
| BlockEntropy.ReadAssemblyCsv | src/analysis/entropy/entropy.py:100-112 | rows are grouped by Block_ID: blocks in first-appearance order, each block's lines in row order |
| ShannonV1.CalculateEntropy | shannon_entropy/shannon_entropy_version1.py:23-31 | the loop computes `DataEntropy`: one term per distinct value, with probability count / length |
| ShannonV1.VisitedProbabilitiesPositive | shannon_entropy/shannon_entropy_version1.py:24-28 | only values that occur are visited, so every probability is in (0, 1] and log2 never sees 0 |
| ShannonV1.SingleValuedEntropyIsZero | shannon_entropy/shannon_entropy_version1.py:23-31 | a list holding a single value has entropy 0 |
| ShannonV1.GroupRows | shannon_entropy/shannon_entropy_version1.py:44-64 | the loop builds `BlockData(rows)` |
| ShannonV1.StoreRow | shannon_entropy/shannon_entropy_version1.py:47-64 | a new block's three lists are created together; each row appends one value to each list, empty operands included |
| ShannonV1.BlockDataIsColumns | shannon_entropy/shannon_entropy_version1.py:44-64 | each block's three lists are the instruction, left and right columns of its rows, in order, so they have equal length |
| ShannonV1.WriteList | shannon_entropy/shannon_entropy_version1.py:82-93 | one record per distinct value: its share of the list, and the whole list's entropy |
| ShannonV1.WriteResults | shannon_entropy/shannon_entropy_version1.py:72-93 | the records of every block and type, in dict order |
| ShannonV1.ListRecordsProperties | shannon_entropy/shannon_entropy_version1.py:82-90 | the probabilities of a list's distinct values add up to 1; each lies in (0, 1]; the Entropy column repeats the list's entropy |
| ShannonV1.ListRecordsInUnitRange | shannon_entropy/shannon_entropy_version1.py:85-90 | each probability lies in (0, 1], and each entropy is that of the whole list |
| ShannonV2.CountRows | shannon_entropy/shannon_entropy_version2.py:28-50 | the loop computes `CountAll`: the four tallies, or ValueError at the first non-integer Block_ID |
| ShannonV2.CountStep | shannon_entropy/shannon_entropy_version2.py:35-50 | each row increments the block counter and one (block, value) counter per column, empty operands included |
| ShannonV2.FilterType | shannon_entropy/shannon_entropy_version2.py:56-76 | one entry per key of the block, probability count / block count, in dict order |
| ShannonV2.Results | shannon_entropy/shannon_entropy_version2.py:53-76 | blocks in first-appearance order; within a block, Instruction entries, then Left, then Right |
| ShannonV2.Script | shannon_entropy/shannon_entropy_version2.py:28-76 | fails exactly when some Block_ID is not an integer; otherwise returns the entries of the counted rows |
| ShannonV2.CountsAreValid | shannon_entropy/shannon_entropy_version2.py:35 | the counting dicts are well formed; `block_counts[b]` is the number of rows with block b |
| ShannonV2.ColumnKeysOfBlock | shannon_entropy/shannon_entropy_version2.py:38-50 | each column has as many (b, value) keys as block b has rows, so counts never mix across blocks |
| ShannonV2.TypeEntriesSumToOne | shannon_entropy/shannon_entropy_version2.py:55-76 | for a block and one column the probabilities add up to 1 |
| ShannonV2.BlockEntriesSumToOne | shannon_entropy/shannon_entropy_version2.py:55-76 | for every block, each of the three columns sums to 1 |
| ShannonV2.BlockEntriesInOrder | shannon_entropy/shannon_entropy_version2.py:55-76 | every entry of a block carries that block's id; Instruction entries come before Left entries, and Left before Right |
| ShannonV2.TypeEntriesOfBlock | shannon_entropy/shannon_entropy_version2.py:57-60 | the filter on `b_id == block_id` keeps only the block's own keys, labelled with the column's type |
| ShannonV2.EntrySumAppend | shannon_entropy/shannon_entropy_version2.py:53-76 | the probability sum is additive over concatenated results |
| ProbabilityUpdate.KeyOf | entropy_probability_update.py:4 | a present cell of an integer column is the integer it reads as; any other cell is its own text |
| ProbabilityUpdate.TriplesWith | entropy_probability_update.py:11 | the counted triples are exactly those of rows with no missing Block_ID, Type or Assembly, at most one per row |
| ProbabilityUpdate.CalculateAssemblyProbabilities | entropy_probability_update.py:8-27 | one row per group key (Block_ID, Type, Assembly) of the complete rows, in strictly increasing key order; Probability is the triple's count / its (Block_ID, Type) group's count; only the four columns are output |
| ProbabilityUpdate.GroupKeys | entropy_probability_update.py:10-12 | the `groupby(...).size()` index: every distinct triple once, in strictly increasing order |
| ProbabilityUpdate.KeyBelowIsStrictTotal | entropy_probability_update.py:11 | the order on keys is a strict total order |
| ProbabilityUpdate.TripleBelowIsStrictTotal | entropy_probability_update.py:11 | the lexicographic order on (Block_ID, Type, Assembly) is a strict total order |
| ProbabilityUpdate.OutputOrderIsKeyOrder | entropy_probability_update.py:10-22 | the output rows are the group keys in sorted order, whatever the order of the input rows |
| ProbabilityUpdate.TotalCountIsGroupSize | entropy_probability_update.py:15-19 | Total_Count of a group equals the number of counted rows in that group |
| ProbabilityUpdate.GroupsOfKeysArePositive | entropy_probability_update.py:15-22 | every output triple's group is non-empty, so no division by zero |
| ProbabilityUpdate.GroupSumIsShareSum | entropy_probability_update.py:25 | a group's probability sum is its members' counts over the group count |
| ProbabilityUpdate.GroupsSumToOne | entropy_probability_update.py:25 | the probabilities of each (Block_ID, Type) group that occurs add up to 1 |
| ProbabilityUpdate.IncompleteRowsAreDropped | entropy_probability_update.py:11 | a row with a missing key cell adds no triple, although it still decides how its columns are read |
| ProbabilityUpdate.IntegerColumnsCompareAsNumbers | entropy_probability_update.py:4-27 | in an integer Block_ID column "09" and "9" form one group and 9 comes before 10 |
| ProbabilityUpdate.ProbabilitiesInUnitRange | entropy_probability_update.py:25 | every output probability lies in (0, 1] |
| ProbabilityUpdate.ProbabilityInUnitRange | entropy_probability_update.py:25 | the j-th output probability lies in (0, 1] |
| Thresholds.CollectStatistics | src/analysis/clustering/threshold.py:24-35 | the loop builds `CollectAll(rows)` |
| Thresholds.StoreEntropy | src/analysis/clustering/threshold.py:31-35 | the block's dict and the type's list are created when missing; the entropy is appended |
| Thresholds.StatisticsAreGroups | src/analysis/clustering/threshold.py:27-35 | the nested dict holds exactly one list per (block, type) that occurs: that pair's entropies in file order |
| Thresholds.ListLengths | src/analysis/clustering/threshold.py:31-35 | every row lands in exactly one list; list lengths add up to the row count |
| Thresholds.ComputeThresholds | src/analysis/clustering/threshold.py:37-45 | the same blocks and types in the same order, each with threshold mean + std of its list |
| Thresholds.InnerThresholds | src/analysis/clustering/threshold.py:40-44 | one threshold per type of a block |
| Thresholds.ThresholdAtLeastMean | src/analysis/clustering/threshold.py:41-43 | with std ≥ 0, every threshold is at least its group's mean |
| Thresholds.FilterVariables | src/analysis/clustering/threshold.py:66-78 | the header is the input's fieldnames; the outcome is `FilterAll`; without KeyError the written rows are exactly `Kept`, the input rows reaching their threshold, in input order |
| Thresholds.FilterKeepsRowsAtThreshold | src/analysis/clustering/threshold.py:70-78 | the written rows are a subsequence of the input, each with entropy ≥ its threshold (0 for an unknown type) |
| Thresholds.KeptMembers | src/analysis/clustering/threshold.py:70-78 | a row is in `Kept` exactly when it is an input row whose block has thresholds and whose entropy reaches its threshold |
| Thresholds.KeptAppend | src/analysis/clustering/threshold.py:70-78 | the rows kept from a concatenation are those kept from each part, in order |
| Thresholds.FilterWritesKept | src/analysis/clustering/threshold.py:70-78 | when no KeyError is raised, every row meeting its threshold is written, in input order, and no other |
| Thresholds.KeyErrorKeepsPrefix | src/analysis/clustering/threshold.py:70-78 | when row i is the first with an unknown block, the KeyError comes after exactly the kept rows before i |
| Thresholds.KeyErrorIffUnknownBlock | src/analysis/clustering/threshold.py:74-76 | the filter raises KeyError exactly when some row's block has no thresholds |
| Thresholds.KeyErrorStops | src/analysis/clustering/threshold.py:74-76 | after a KeyError no further row is written |
| Thresholds.OwnThresholdsNeverFail | src/analysis/clustering/threshold.py:37-45 | thresholds computed from the same rows never raise KeyError |
| EntropyVisualization.ReadEntropyData | src/analysis/entropy/entropy_visualization.py:28-44 | the loop builds `BucketsOf(rows, blockId)` |
| EntropyVisualization.BucketsAreMatches | src/analysis/entropy/entropy_visualization.py:32-42 | each bucket holds, in file order, the (assembly, entropy) of exactly the rows of the requested block and its type; other types are dropped |
| EntropyVisualization.EncodeVariables | src/analysis/entropy/entropy_visualization.py:59-62 | same length; entry k becomes (k + 1, its entropy) |
| EntropyVisualization.PlottedBucketHasThreshold | src/analysis/entropy/entropy_visualization.py:109-130 | a non-empty bucket's block and type receive a threshold from the statistics |
| Distributions.CalculateProbabilityDistributions | src/analysis/similarity/kl_divergence_normalized.py:29-36 | the loop builds `Build(rows)` |
| Distributions.StoreProbability | src/analysis/similarity/kl_divergence_normalized.py:33-35 | the block's and the type's maps are created when missing; the probability is stored under the assembly |
| Distributions.BuildIsLastRowWins | src/analysis/similarity/kl_divergence_normalized.py:29-35 | every level is well formed; blocks are in first-appearance order; each stored probability is that of the last row with its block, type and assembly |
| Distributions.TypesAreThoseOfTheRows | src/analysis/similarity/kl_divergence_normalized.py:33-35 | a block has a type map exactly when some row names that block and type |
| Distributions.AddRowWellFormed | src/analysis/similarity/kl_divergence_normalized.py:33-35 | a row keeps every level well formed and puts a new block last |
| Distributions.AddRowLookup | src/analysis/similarity/kl_divergence_normalized.py:33-35 | a row sets its own entry and leaves every other one as it was |
| Distributions.OtherBlockUnchanged | src/analysis/similarity/kl_divergence_normalized.py:33-35 | a row leaves the other blocks' maps unchanged |
| Divergence.BlockScore | src/analysis/similarity/kl_divergence_normalized.py:76-82 | the loops compute `Score`: the sum, over the first block's types, of that type's divergence |
| Divergence.AddAssemblyTerms | kl_divergence/kl_divergence.py:42-47 | the inner loop adds one `PairTerm` per assembly of the first block's type |
| Divergence.UnionCoversBoth | src/analysis/similarity/kl_divergence_normalized.py:79-81 | p and q are aligned on the union of both blocks' assemblies and have equal length |
| Divergence.MissingTypeGivesZeros | src/analysis/similarity/kl_divergence_normalized.py:78-81 | a type the second block lacks is compared with all zeros |
| Divergence.SmoothedKLOfSelf | src/analysis/similarity/kl_divergence_normalized.py:53-56 | equal vectors have smoothed divergence 0 |
| Divergence.ScoreOfIdenticalBlocks | src/analysis/similarity/kl_divergence_normalized.py:77-82 | under either measure, a block scored against an identical block scores 0 |
| Divergence.TypeSumOfSelf | src/analysis/similarity/kl_divergence_normalized.py:77-82 | type by type, identical distributions sum to 0 |
| Divergence.AssemblySumOfSelf | kl_divergence/kl_divergence.py:42-47 | the masked per-assembly sum of a distribution against itself is 0 |
| Divergence.PairTermOfEqual | kl_divergence/kl_divergence.py:44-47 | a per-assembly term with p1 == p2 adds 0 |
| Divergence.PairTermOfAbsent | kl_divergence/kl_divergence.py:27-28 | an assembly the second block lacks adds 0, not infinity (masked entry, infinite sum replaced by 0) |
| Divergence.MaskedMissingTypeAddsNothing | kl_divergence/kl_divergence.py:40-47 | in the masked score, a type the second block lacks adds nothing |
| Divergence.ExtraSecondTypeIgnored | src/analysis/similarity/kl_divergence_normalized.py:77 | a type found only in the second block does not change the score |
| Divergence.MissingMembers | src/analysis/similarity/kl_divergence_normalized.py:79 | the assemblies added for the second block are exactly those the first lacks |
| BlockPairs.CalculateBlockSimilarity | src/analysis/similarity/kl_divergence_normalized.py:72-84 | keys are exactly (ids[i], ids[j]) for i < j, in loop order; every value is the pair's score |
| BlockPairs.PairsWithBlock | src/analysis/similarity/kl_divergence_normalized.py:75-83 | the inner loop adds the pairs of block i with every later block, each scored |
| BlockPairs.WriteSimilarity | src/analysis/similarity/kl_divergence_normalized.py:101-109 | a header plus exactly one row (block1, block2, score) per pair key, in key order |
| BlockPairs.PairsAreOrderedIndexPairs | src/analysis/similarity/kl_divergence_normalized.py:73-75 | with distinct ids, the pairs are exactly (ids[a], ids[b]) with a < b: no self pairs, and no pair in both orders |
| BlockPairs.PairsCount | src/analysis/similarity/kl_divergence_normalized.py:73-75 | n ids give n(n − 1)/2 pairs |
| BlockPairs.PairsUpToCount | src/analysis/similarity/kl_divergence_normalized.py:73-75 | after i outer steps, 2·(pairs) = i·(2n − i − 1) |
| BlockPairs.PairsUpToMembers | src/analysis/similarity/kl_divergence_normalized.py:73-75 | after i outer steps, the pairs are exactly those whose first index is below i |
| BlockPairs.NewPair | src/analysis/similarity/kl_divergence_normalized.py:83 | with distinct ids, each step stores a key not seen before |
| StringOrder.SortSet | src/analysis/similarity/similarity_matrix_visualization.py:43 | `sorted(set)`: strictly increasing in string order, with the same elements as the set |
| StringOrder.TextOrderIsNotNumeric | src/analysis/similarity/similarity_matrix_visualization.py:43 | ids compare as text: "10" < "2", "1" < "10", and "9" is not below "10" |
| StringOrder.BelowIrreflexive | src/analysis/similarity/similarity_matrix_visualization.py:43 | string order is irreflexive |
| StringOrder.BelowTotal | src/analysis/similarity/similarity_matrix_visualization.py:43 | of two different strings, exactly one is below the other |
| StringOrder.BelowTransitive | src/analysis/similarity/similarity_matrix_visualization.py:43 | string order is transitive |
| StringOrder.BelowIsStrictTotal | src/analysis/similarity/similarity_matrix_visualization.py:43 | string order is a strict total order |
| Sorting.Insert | src/analysis/similarity/similarity_matrix_visualization.py:43 | insertion adds exactly the new element: one more element, the old ones and the new one |
| Sorting.Sort | src/analysis/similarity/similarity_matrix_visualization.py:43 | the sorted sequence has the same length and the same elements as its input |
| Sorting.InsertIncreasing | src/analysis/similarity/similarity_matrix_visualization.py:43 | inserting a new element into a strictly increasing sequence keeps it strictly increasing |
| Sorting.SortIncreasing | src/analysis/similarity/similarity_matrix_visualization.py:43 | sorting a duplicate-free sequence gives a strictly increasing one |
| Sorting.IncreasingIsUnique | src/analysis/similarity/similarity_matrix_visualization.py:43 | a strictly increasing sequence has no element twice |
| Sorting.IncreasingUnique | src/analysis/similarity/similarity_matrix_visualization.py:43 | two strictly increasing sequences with the same elements are equal |
| StringOrder.SortedUnique | src/analysis/similarity/similarity_matrix_visualization.py:43 | two sorted arrangements of the same elements are equal |
| Matrix.IndexOf | src/analysis/clustering/agglomerative_hierarchical_clustering.py:47-48 | `list.index`: None exactly for a missing id (ValueError); otherwise the first position holding it |
| Matrix.FillMatrix | src/analysis/clustering/agglomerative_hierarchical_clustering.py:40-51 | ValueError exactly when a row names an unknown id; otherwise an n×n matrix whose cell (i, j) is `Cell`: the last row that writes (i, j) or (j, i), else 0 |
| Matrix.CreateSimilarityMatrix | src/analysis/similarity/similarity_matrix.py:109-129 | the same fill over the pair dict's items, n = len(block_ids) |
| Matrix.ReadSortedSimilarityMatrix | src/analysis/similarity/similarity_matrix_visualization.py:34-57 | the ids are exactly those mentioned in either column, sorted as strings; the matrix is the symmetric fill, which never fails |
| Matrix.MaxSimilarity | src/analysis/clustering/agglomerative_hierarchical_clustering.py:66 | the result bounds every cell and is some cell's value |
| Matrix.SimilarityToDistance | src/analysis/clustering/agglomerative_hierarchical_clustering.py:55-68 | ValueError on an empty matrix; otherwise every distance is ≥ 0, some cell is 0, and d[i,j] − d[p,q] == S[p,q] − S[i,j], so order is reversed and symmetry kept |
| Matrix.CellSymmetric | src/analysis/clustering/agglomerative_hierarchical_clustering.py:45-50 | the filled matrix is symmetric |
| Matrix.UnwrittenCellIsZero | src/analysis/clustering/agglomerative_hierarchical_clustering.py:41 | a cell no row names stays 0 |
| Matrix.LastWriteWins | src/analysis/similarity/similarity_matrix_visualization.py:49-55 | a cell holds the value of the last row that names it |
| Matrix.DiagonalStaysZero | src/analysis/similarity/similarity_matrix.py:123-128 | rows that never pair a block with itself leave the diagonal at 0 |
| Matrix.SimilarityMatrixOfPairs | src/analysis/similarity/similarity_matrix.py:109-129 | with the pairs of the pair loop and distinct ids, the fill cannot fail; both (a, b) and (b, a) hold the pair's score; the diagonal is 0 |
| Matrix.IndexOfDistinct | src/analysis/similarity/similarity_matrix.py:125-126 | with distinct ids, `index` finds each id at its own position |
| Matrix.SortedIdsAreUnique | src/analysis/similarity/similarity_matrix_visualization.py:37-43 | the sorted id list is determined by the rows alone |
| Normalization.NormalizeProbabilities | src/analysis/clustering/AHC_CSV.py:32-42 | the nested loops over the copy compute `Normalize(df)`: each probability divided by its (Block_ID, Type) group sum |
| Normalization.Normalize | src/analysis/clustering/AHC_CSV.py:32-42 | same row count and order; every column except Probability unchanged |
| Normalization.NormalizedGroupSumsToOne | src/analysis/clustering/AHC_CSV.py:35-41 | a group with non-zero sum sums to 1 afterwards |
| Normalization.NormalizePreservesRatios | src/analysis/clustering/AHC_CSV.py:38-41 | every row of a group is divided by the same group sum |
| Normalization.DivideCross | src/analysis/clustering/AHC_CSV.py:39-41 | dividing two numbers by the same non-zero sum keeps their ratio |
| Normalization.ZeroSumGroupBecomesUndefined | src/analysis/clustering/AHC_CSV.py:38-41 | a group summing to 0 becomes NaN |
| Normalization.NormalizeIdempotent | src/analysis/clustering/AHC_CSV.py:32-42 | normalising a normalised table changes nothing |
| Normalization.RescaledGroupSum | src/analysis/clustering/AHC_CSV.py:38-41 | dividing a group by s divides its sum by s |
| Normalization.GroupSumWithoutNumbers | src/analysis/clustering/AHC_CSV.py:38 | NaN cells are skipped by `sum()`: a group of NaN sums to 0 |
| Normalization.GroupSumAgrees | src/analysis/clustering/AHC_CSV.py:35-38 | a group's sum depends only on that group's rows, so other groups' updates do not change it |
| Normalization.PrepareDataForClustering | src/analysis/clustering/AHC_CSV.py:62-68 | one row per block and one column per (Type, Assembly) of the table |
| Normalization.PivotFillsAbsentWithZero | src/analysis/clustering/AHC_CSV.py:66 | a (block, column) pair with no row is 0 |
| Normalization.PivotShowsSingleRow | src/analysis/clustering/AHC_CSV.py:62-67 | a (block, column) pair with one numeric row shows that row's probability |
| ClusterStatistics.ReadClusterAssignments | src/analysis/visualization/clusters_visualization.py:25-35 | ValueError exactly when some cluster cell is not an integer; otherwise blocks grouped under int(cluster) in file order |
| ClusterStatistics.ReadClusterAssignmentsByText | clusters_visualization.py:10-19 | blocks grouped under the raw cluster text, in file order |
| ClusterStatistics.NumberedPairsParse | src/analysis/visualization/clusters_visualization.py:31 | the int conversion succeeds exactly when every cluster cell is an integer, and then gives each row's value |
| ClusterStatistics.AssignmentsPartitionRows | src/analysis/visualization/clusters_visualization.py:29-34 | clusters in first-appearance order; each cluster's list is its rows' block ids in order; list lengths add up to the row count |
| ClusterStatistics.ClustersAreNonEmpty | src/analysis/visualization/clusters_visualization.py:32-34 | every cluster that has a list has at least one block |
| ClusterStatistics.LeadingZeroClusters | clusters_visualization.py:15-18 | "1" and "01" are one cluster after `int()`, but two clusters as raw text |
| ClusterStatistics.ReadEntropyData | src/analysis/visualization/clusters_visualization.py:51-60 | each block's entropies, in file order |
| ClusterStatistics.CalculateClusterStatistics | src/analysis/visualization/clusters_visualization.py:78-92 | both dicts have exactly the cluster keys in order; size is the list length; entropy is the mean of the pooled values, or 0 |
| ClusterStatistics.PoolEntropies | src/analysis/visualization/clusters_visualization.py:82-85 | the values of the cluster's blocks found in the entropy dict, block by block |
| ClusterStatistics.PooledOfUnknownBlocks | src/analysis/visualization/clusters_visualization.py:84-91 | blocks missing from the entropy dict contribute nothing; a cluster without values gets 0 |
| ClusterStatistics.PooledValuesComeFromBlocks | src/analysis/visualization/clusters_visualization.py:82-85 | every pooled value is an entropy of one of the cluster's blocks |
| ClusterStatistics.PooledLength | src/analysis/visualization/clusters_visualization.py:82-85 | the pool holds as many values as the cluster's known blocks have together |
| ClusterStatistics.ClusterEntropyWithinBounds | src/analysis/visualization/clusters_visualization.py:86-91 | with entropies in [0, hi], every cluster entropy lies in [0, hi] |
| ClusterStatistics.MeanWithinBounds | src/analysis/visualization/clusters_visualization.py:86-89 | the mean of values in [lo, hi] lies in [lo, hi] |
| ClusterStatistics.PooledMeanWeighsBlocksByValueCount | src/analysis/visualization/clusters_visualization.py:82-89 | the cluster entropy pools values rather than averaging block means: blocks [0,0,0] and [4] give 1, not 2 |
| CsvParser.ParseFile | csv_parser/csv_parser.cpp:11-43 | exit status 1 and no rows when the file cannot be opened; otherwise 0 and one row per line, in order |
| CsvParser.ParseCsv | csv_parser/csv_parser.cpp:22-32 | one row per line; each row's fields are that line's comma pieces |
| CsvParser.GetLine | csv_parser/csv_parser.cpp:22-28 | one `getline` consumes exactly the first piece and its delimiter |
| CsvParser.SplitFields | csv_parser/csv_parser.cpp:27-29 | the fields loop returns the comma pieces of the line |
| CsvParser.FieldsRebuildLine | csv_parser/csv_parser.cpp:27-29 | no field contains ','; joining the fields with "," rebuilds the line, except that a trailing comma is lost |
| CsvParser.FieldExamples | csv_parser/csv_parser.cpp:27-29 | "a,,b" gives three fields with an empty middle one; "" gives none; "a," gives only "a" |
| CsvParser.RowExamples | csv_parser/csv_parser.cpp:22-31 | an empty file has no row; a last line without a line break is still a row |
| DynamicArrayAllocator.DynamicArray.constructor | programs/dynamic_array_allocator/dynamic_array_allocator.cpp:6-9 | size == capacity == initialSize; a new buffer of that many slots |
| DynamicArrayAllocator.DynamicArray.PushBack | programs/dynamic_array_allocator/dynamic_array_allocator.cpp:13-18 | contents become old contents + [value]; capacity doubles exactly when the array was full |
| DynamicArrayAllocator.DynamicArray.Resize | programs/dynamic_array_allocator/dynamic_array_allocator.cpp:25-33 | a fresh buffer of the new capacity holds the same contents; size is unchanged |
| DynamicArrayAllocator.DynamicArray.At | programs/dynamic_array_allocator/dynamic_array_allocator.cpp:20 | a slot below size reads the corresponding element |
| DynamicArrayAllocator.DynamicArray.GetSize | programs/dynamic_array_allocator/dynamic_array_allocator.cpp:22 | the size is the number of elements |
| DynamicArrayAllocator.PushTwenty | programs/dynamic_array_allocator/dynamic_array_allocator.cpp:40-46 | twenty pushes on a default array end with size 30, capacity 40, and slot 10 + i holding 5·i |

## Left out

- Library clustering and scoring is not modelled. It is done by scipy and
  sklearn calls with no algorithm in the repository to compare against:
  `linkage`, `fcluster`, the Jensen–Shannon matrix (`pdist`, `squareform`,
  `stats.entropy`), the silhouette scores and PCA.
- Floating point is not modelled. Numbers are exact reals, and `log2` and
  `sqrt` are parameters. So the numeric values of entropies, of the KL terms
  with their 1e-10 smoothing, and of `np.std` are not computed. Only the
  facts `log2(1) == 0` and `sqrt ≥ 0` are used. NaN and infinity appear
  only where a script's result depends on them:
  - the masked KL replaces an infinite sum by 0;
  - a zero group sum in normalisation gives NaN.
- All file, console and plotting I/O is left out. This covers CSV reading
  and writing, `input()`, `print` and matplotlib/seaborn/plotly. Operations
  take and return the rows instead.
- The `csv_block_id.py` write-back is left out. It assigns to a copy from
  `iterrows` and calls `df.update(df)`, so it has no effect; only the
  numbering map is modelled.
- Output order that comes from Python set iteration is replaced by
  first-appearance order. This covers `set(data_list)` in
  `shannon_entropy_version1.py` and the assembly union in the KL scripts.
  Only order-independent facts are stated about these: sums, lengths and
  membership.
- ProbabilityUpdate.CalculateAssemblyProbabilities: reads a key column as
  integers or as text only. pandas also infers float and boolean columns,
  which are kept as text here, and integers beyond 64 bits. Integer cells
  are recognised by `Strings.ParseInt`, not by pandas' own number parser.
  The output holds the key values, not the text pandas writes for them: an
  integer column with a missing cell is read as floats and written as
  "1.0".
- Normalization.Normalize: a non-zero probability divided by a zero group
  sum is NaN here, where pandas gives ±infinity. A zero sum with a non-zero
  member needs negative probabilities, which the tables never hold.
- Normalization.PrepareDataForClustering: the model is a map, so it has no
  row or column order. pandas sorts the labels. pandas also drops a column
  whose cells are all NaN; the model keeps it with mean 0.
- DynamicArrayAllocator.DynamicArray.PushBack requires capacity > 0.
  - With `initialSize` 0, `capacity * 2` stays 0 and the C++ writes past
    the buffer.
  - The 32-bit overflow of `capacity * 2` is not modelled.
- DynamicArrayAllocator.DynamicArray.At requires the index to be inside the
  buffer, because the C++ `operator[]` does no bounds check. Writing through
  the returned reference is not modelled.
- DynamicArrayAllocator.DynamicArray.constructor requires a non-negative
  size, which `new T[n]` needs.
- The `DynamicArray` destructor is not modelled, nor the missing copy
  constructor (which would delete twice), nor `main` printing the
  uninitialised slots 0..9.
- CsvParser.ParseFile takes the file's text, or `None` when the file cannot
  be opened. Only '\n' ends a line: a '\r' stays inside the last field.
- `str.splitlines()` is modelled for text whose only line break is '\n'.
  Python also breaks at '\r', '\v', '\f' and a few Unicode separators.
- Strings.ParseInt: accepts only the plain ASCII form. Python's `int()` also
  accepts underscores between digits ('1_000'), non-ASCII decimal digits
  and Unicode white space around the number; the model returns `None` for
  those.
- Divergence.Ratio: `x / 0` is 0 here, where numpy gives infinity or NaN.
  The smoothed divergence divides only by `q + 1e-10`, which is non-zero
  for every non-negative probability `q`, so the difference shows only for
  negative probabilities.
- `str.strip()` and `str.split()` treat space, tab, '\n', '\r', '\v' and '\f'
  as whitespace. Unicode whitespace is not modelled.
- The following scripts are not part of this model, since their substance is
  plotting or float arithmetic:
  - test.py, a regular-expression feature extractor interleaved with file
    streaming;
  - both `kl_divergence_plot.py` files, where pandas `align` produces NaN
    and infinity;
  - `shannon_entropy/shannon_entropy.py`, both `content_size.py` files and
    `src/analysis/similarity/kl_divergence.py`;
  - both `csv_00.py` files;
  - the cluster content, entropy, feature-sample, feature-size, threshold
    and Shannon-entropy visualisation scripts;
  - `calculator.cpp` and `simple_calculator.cpp`.
- The data-frame clean-up of the `csv_format.py` scripts is not modelled:
  `fillna`, clearing the Instruction column, and the column assignments.
  Only `split_left_operand` is.

## Findings

| source | as written | input that shows it | evidently intended | confidence | as-written member | corrected member |
|---|---|---|---|---|---|---|
| src/analysis/feature/csv_block_id.py:25-26 | the row loop skips `index == 0`, but `read_csv` has already consumed the header, so index 0 is the first data row | a table whose first data row has Block_ID "a" and no other row with "a": "a" gets no number | every data row's Block_ID is numbered | medium, not executed | BlockNumbering.FirstDataRowSkipped | BlockNumbering.EveryRowNumbered |
