# LODA-RUST core logic in Dafny

This project models four small pieces of the LODA-RUST code base and proves what they promise.

- **The `div` instruction of the LODA register machine** (`NodeDivide`, in `node_divide.dfy`).
  - `perform_operation` refuses a divisor whose BigInt bit length reaches 32. It then refuses a zero divisor, then a dividend whose bit length reaches 32. Otherwise it divides, rounding toward zero.
  - The two nodes `div $target,$source` and `div $target,constant` do three things:
    - evaluate into the target register of a register file;
    - append the registers they touch to a caller's vector;
    - for the register form, propagate liveness from source to target in a caller's set.
  - BigInt values are Dafny `int`. Truncating division is defined explicitly: Dafny's own `/` is Euclidean. It is characterised as the unique quotient whose remainder is smaller than the divisor and never has the opposite sign of the dividend.
- **The popularity container of the miner** (`PopularProgramContainer`, in `popular_program_container.dfy`).
  - `convert_records_to_clusters` refuses any cluster id of 10 or more. Otherwise it partitions `(program_id, cluster_id)` records into ten buckets, keeping input order.
  - The `choose_*` functions pick a program from one bucket. The weighted choice picks the bucket with weight 2^i for bucket i.
  - Every random draw is a parameter.
- **The prolog block extractor of the ARC language-model experiments** (`NaturalLanguage`, in `natural_language.dfy`).
  - `ParseNaturalLanguage::parse` is a `for` loop over the lines of a response. It finds the single ```` ```prolog ```` block and keeps its `object(output` lines.
  - It reports these errors: no block, several blocks, or unrecognized lines in the block.
  - The loop is a method proved equal to a declarative definition, `ParseSpec`. ParseSpec names the first prolog fence, the end of its block, the count of unrecognized lines in the block and the block's output lines.
- **The overlay-position decoder of the training-image generator** (`TrainingImagePositions`, in `training_image_positions.dfy`).
  - `take_position_id` takes the lowest base-5 digit off a `u64` index.
  - The four successive calls in `generate_pair_image` read digits 0 to 3 as the input x, input y, output x and output y positions.

`wrappers.dfy` holds the `Option`, `Result` and `Outcome` datatypes that stand for Rust's `Option<T>`, `Result<T, E>` and `Result<(), E>`.
`arithmetic.dfy` holds the integer facts the modules share: powers of two, and products that do not shrink.

Source paths below are relative to the repository root.

## Model

| member | source | states |
|---|---|---|
| NodeDivide.BitsReachCeiling | rust_project/src/execute/node_divide.rs:22-30 | BigInt's `bits() >= 32` holds exactly when the magnitude is at least 2^31, whatever the sign |
| NodeDivide.BitLengthExceeds | rust_project/src/execute/node_divide.rs:22-30 | a bit length above k means a magnitude of at least 2^k, and conversely |
| NodeDivide.BitLength | rust_project/src/execute/node_divide.rs:22-30 | a magnitude is below 2^b for its bit length b, and a nonzero one is at least 2^(b-1) |
| NodeDivide.Bits | rust_project/src/execute/node_divide.rs:22-30 | BigInt `bits()`: |v| is below 2^b, and a nonzero v has |v| at least 2^(b-1), whatever the sign |
| NodeDivide.SignedQuotientIsTruncated | rust_project/src/execute/node_divide.rs:32 | the quotient of the magnitudes, given the sign of x/y, is a quotient rounded toward zero; it never exceeds \|x\| |
| NodeDivide.TruncDiv | rust_project/src/execute/node_divide.rs:32 | BigInt `/`: the remainder x - q*y is smaller than y in magnitude and never has the opposite sign of x; \|q\| <= \|x\| |
| NodeDivide.TruncatedQuotientUnique | rust_project/src/execute/node_divide.rs:32 | at most one integer is a quotient of x by y rounded toward zero |
| NodeDivide.TruncDivCharacterized | rust_project/src/execute/node_divide.rs:32 | q is a quotient rounded toward zero iff q == TruncDiv(x, y) (both directions) |
| NodeDivide.PerformOperation | rust_project/src/execute/node_divide.rs:20-33 | a divisor of magnitude >= 2^31 gives InputOutOfRange whatever the dividend; a zero divisor gives DivisionByZero whatever the dividend, even one out of range; otherwise a dividend of magnitude >= 2^31 gives InputOutOfRange; success iff both operands are in range and the divisor is non-zero; on success the value is the quotient rounded toward zero, of magnitude at most \|x\| < 2^31 |
| NodeDivide.ToEvalError | rust_project/src/execute/node_divide.rs:11-18 | InputOutOfRange becomes DivideOutOfRange and DivisionByZero becomes DivisionByZero, in both directions |
| NodeDivide.PerformOperationExamples | rust_project/src/execute/node_divide.rs:122-155 | the whole test table: 9/2 = 4, -9/2 = -4, 3/-3 = -1, -1/-1 = 1, the zero-divisor faults, ±(2^31-1) accepted, ±2^31 and ±(2^31+1) refused as dividend and as divisor |
| NodeDivide.ProgramState.SetRegisterValue | rust_project/src/execute/node_divide.rs:58 | `set_register_value` replaces the one register and leaves the others alone |
| NodeDivide.ProgramState.GetRegisterValue | rust_project/src/execute/node_divide.rs:55-56 | `get_register_value_ref` reads register index and changes nothing; after `SetRegisterValue(index, v)` it gives v (SetRegisterValue's second ensures) |
| NodeDivide.RegisterIndexVec.Push | rust_project/src/execute/node_divide.rs:63-64 | `Vec::push` appends one element at the end |
| NodeDivide.RegisterIndexSet.Contains | rust_project/src/execute/node_divide.rs:68 | `HashSet::contains`: whether the index is in the set |
| NodeDivide.RegisterIndexSet.Insert | rust_project/src/execute/node_divide.rs:69 | `HashSet::insert` adds the element |
| NodeDivide.NodeDivideRegister.Eval | rust_project/src/execute/node_divide.rs:54-60 | on success only the target register changes, to perform_operation(target, source); on a fault the mapped EvalError is returned and the register file is unchanged |
| NodeDivide.NodeDivideRegister.AccumulateRegisterIndexes | rust_project/src/execute/node_divide.rs:62-65 | appends the target and then the source; the earlier elements stay as they were |
| NodeDivide.NodeDivideRegister.LiveRegisterIndexes | rust_project/src/execute/node_divide.rs:67-71 | never removes an element, adds nothing but the target, and the target is live afterwards iff it was live or the source was |
| NodeDivide.NodeDivideConstant.Eval | rust_project/src/execute/node_divide.rs:93-99 | on success only the target register changes, to perform_operation(target, constant); on a fault the register file is unchanged |
| NodeDivide.NodeDivideConstant.AccumulateRegisterIndexes | rust_project/src/execute/node_divide.rs:101-103 | appends only the target; the earlier elements stay as they were |
| PopularProgramContainer.ConvertRecordsToClusters | rust_project/loda-rust-cli/src/mine/popular_program_container.rs:185-213 | fails, with PopularityClusterIdOutOfBounds, iff some record has cluster id >= 10; on success there are exactly 10 buckets and bucket k is the program ids of the records with cluster id k, in input order |
| PopularProgramContainer.ProgramIdsInClusterMembership | rust_project/loda-rust-cli/src/mine/popular_program_container.rs:199-206 | an id is in bucket k iff some record carries that id and cluster id k |
| PopularProgramContainer.ProgramIdsInClusterAppend | rust_project/loda-rust-cli/src/mine/popular_program_container.rs:201-205 | one more record extends its own cluster's bucket by its id, at the end, and leaves every other bucket alone |
| PopularProgramContainer.ClustersUnionAppend | rust_project/loda-rust-cli/src/mine/popular_program_container.rs:199-206 | one more record adds its id once to the first n buckets together iff its cluster id is below n |
| PopularProgramContainer.ClustersConserveRecords | rust_project/loda-rust-cli/src/mine/popular_program_container.rs:198-207 | when every cluster id is below n, the first n buckets together hold every record's program id exactly once (as multisets) |
| PopularProgramContainer.ClusterSizesCountUnion | rust_project/loda-rust-cli/src/mine/popular_program_container.rs:198-207 | the sizes of the first n buckets add up to the size of their union |
| PopularProgramContainer.ClusterSizesSumToRecordCount | rust_project/loda-rust-cli/src/mine/popular_program_container.rs:198-207 | after a successful conversion the ten bucket sizes add up to the number of records |
| PopularProgramContainer.GenRange | rust_project/loda-rust-cli/src/mine/popular_program_container.rs:123 | `gen_range(low..high)` lies in [low, high) |
| PopularProgramContainer.GenRangeCovers | rust_project/loda-rust-cli/src/mine/popular_program_container.rs:123 | every value of the range is produced by some draw |
| PopularProgramContainer.ChooseFromCluster | rust_project/loda-rust-cli/src/mine/popular_program_container.rs:96-114 | None iff the bucket is empty; otherwise Some(id) with id a member of that bucket |
| PopularProgramContainer.ChooseFromClusterReachesEveryMember | rust_project/loda-rust-cli/src/mine/popular_program_container.rs:106-113 | every member of a bucket is chosen for some draw |
| PopularProgramContainer.ChooseMostPopular | rust_project/loda-rust-cli/src/mine/popular_program_container.rs:117-119 | draws from bucket 9: None iff it is empty, otherwise a member of it |
| PopularProgramContainer.MediumClusterId | rust_project/loda-rust-cli/src/mine/popular_program_container.rs:123 | `gen_range(1..8)` picks a bucket between 1 and 7, never 8 |
| PopularProgramContainer.ChooseMediumPopular | rust_project/loda-rust-cli/src/mine/popular_program_container.rs:122-125 | None iff the drawn bucket (`MediumClusterId`, one of 1 to 7) is empty; otherwise a member of that drawn bucket |
| PopularProgramContainer.ChooseLeastPopular | rust_project/loda-rust-cli/src/mine/popular_program_container.rs:128-130 | draws from bucket 0: None iff it is empty, otherwise a member of it |
| PopularProgramContainer.ClusterWeightsArePowersOfTwo | rust_project/loda-rust-cli/src/mine/popular_program_container.rs:65-77 | the weight table has one entry per cluster, in cluster order, and cluster i weighs 2^i |
| PopularProgramContainer.ClusterWeightsCumulative | rust_project/loda-rust-cli/src/mine/popular_program_container.rs:65-76 | the first n weights add up to 2^n - 1, so all ten add up to 1023 |
| PopularProgramContainer.CumulativeWeightPrefix | rust_project/loda-rust-cli/src/mine/popular_program_container.rs:78 | the cumulative weight of the first n entries depends on those entries only |
| PopularProgramContainer.WeightedIndex | rust_project/loda-rust-cli/src/mine/popular_program_container.rs:78 | `choose_weighted` picks the entry whose cumulative-weight interval contains the point |
| PopularProgramContainer.WeightedClusterId | rust_project/loda-rust-cli/src/mine/popular_program_container.rs:65-78 | the picked cluster is below 10 and the point lies in [2^k - 1, 2^(k+1) - 1) |
| PopularProgramContainer.WeightedClusterIdInterval | rust_project/loda-rust-cli/src/mine/popular_program_container.rs:65-78 | cluster k is picked iff the point lies in the interval of width 2^k that starts at 2^k - 1 (both directions) |
| Arithmetic.Pow2Monotone | rust_project/loda-rust-cli/src/mine/popular_program_container.rs:65-76 | the weights grow with the cluster id |
| PopularProgramContainer.ChooseWeightedByPopularity | rust_project/loda-rust-cli/src/mine/popular_program_container.rs:64-94 | None iff the picked bucket is empty; otherwise a member of that bucket |
| PopularProgramContainer.ConvertRecordsToClustersExample | rust_project/loda-rust-cli/src/mine/popular_program_container.rs:249-270 | the success test: 10 buckets, with [101, 102, 103] in bucket 0, [301] in bucket 4 and [901, 902] in bucket 9 |
| PopularProgramContainer.ConvertRecordsToClustersOutOfBoundsExample | rust_project/loda-rust-cli/src/mine/popular_program_container.rs:238-247 | the failure test: cluster id 10 gives PopularityClusterIdOutOfBounds |
| NaturalLanguage.TrimStart | rust_project/loda-rust-cli/src/arc/natural_language.rs:24 | a suffix of the line that does not start with white space |
| NaturalLanguage.TrimStartDropsWhitespace | rust_project/loda-rust-cli/src/arc/natural_language.rs:24 | only white space is dropped from the front |
| NaturalLanguage.TrimEnd | rust_project/loda-rust-cli/src/arc/natural_language.rs:24 | a prefix of the line that does not end with white space |
| NaturalLanguage.TrimEndDropsWhitespace | rust_project/loda-rust-cli/src/arc/natural_language.rs:24 | only white space is dropped from the back |
| NaturalLanguage.Trim | rust_project/loda-rust-cli/src/arc/natural_language.rs:24 | `str::trim`: the result neither starts nor ends with white space, and a line that neither starts nor ends with white space is left as it is |
| NaturalLanguage.TrimDropsWhitespace | rust_project/loda-rust-cli/src/arc/natural_language.rs:24 | the trimmed line is one slice of the line, and everything cut before and after it is white space |
| NaturalLanguage.ContainsOccurs | rust_project/loda-rust-cli/src/arc/natural_language.rs:25 | `contains` holds iff the pattern occurs at some index |
| NaturalLanguage.Contains | rust_project/loda-rust-cli/src/arc/natural_language.rs:25 | `str::contains`: a match needs the pattern to fit in the text, and a prefix match is a match; ContainsOccurs gives the full characterisation |
| NaturalLanguage.StartsWith | rust_project/loda-rust-cli/src/arc/natural_language.rs:42-48 | `str::starts_with`: the prefix fits and agrees with the text character by character |
| NaturalLanguage.NotContainsMissingChar | rust_project/loda-rust-cli/src/arc/natural_language.rs:25 | a text lacking the first character of a pattern does not contain it |
| NaturalLanguage.SplitLines | rust_project/loda-rust-cli/src/arc/natural_language.rs:23 | `split("\n")` gives at least one piece and no piece holds a newline |
| NaturalLanguage.JoinSplitLines | rust_project/loda-rust-cli/src/arc/natural_language.rs:23 | joining the pieces with newlines gives the text back |
| NaturalLanguage.SplitLinesPrefix | rust_project/loda-rust-cli/src/arc/natural_language.rs:23 | text without a newline in front of t joins t's first piece |
| NaturalLanguage.SplitJoinLines | rust_project/loda-rust-cli/src/arc/natural_language.rs:23 | splitting newline-free lines joined by newlines gives the lines back |
| NaturalLanguage.ClassifyTrimmed | rust_project/loda-rust-cli/src/arc/natural_language.rs:24-52 | a line's kind follows the source's test order on its trimmed text: contains ```` ```prolog ````, then equals ```` ``` ````, then empty / `%` / `object(input`, then `object(output` |
| NaturalLanguage.Classify | rust_project/loda-rust-cli/src/arc/natural_language.rs:24-52 | a line is an opening fence exactly when its trimmed text contains ```` ```prolog ````; a closing fence is trimmed to ```` ``` ````; an output line's trimmed text starts with `object(output`; an unrecognized line is not blank and does not start with `object(output` |
| NaturalLanguage.UnrecognizedLineCharacterized | rust_project/loda-rust-cli/src/arc/natural_language.rs:35-52 | a line counts as unrecognized iff its trimmed text contains no ```` ```prolog ````, is not ```` ``` ````, is not empty and starts with none of `%`, `object(input`, `object(output` |
| NaturalLanguage.OutputLineStartsWithOutputObject | rust_project/loda-rust-cli/src/arc/natural_language.rs:48-50 | an output line's trimmed text starts with `object(output` |
| NaturalLanguage.OutputPrefixClassifies | rust_project/loda-rust-cli/src/arc/natural_language.rs:45-50 | a line whose trimmed text starts with `object(output` is an output line unless it is a prolog fence |
| NaturalLanguage.Classification | rust_project/loda-rust-cli/src/arc/natural_language.rs:23-24 | one kind per line |
| NaturalLanguage.ClassificationAt | rust_project/loda-rust-cli/src/arc/natural_language.rs:23-24 | the kind at index i is the kind of line i |
| NaturalLanguage.ClassificationAll | rust_project/loda-rust-cli/src/arc/natural_language.rs:23-24 | the same, for every line at once |
| NaturalLanguage.NoPrologFence | rust_project/loda-rust-cli/src/arc/natural_language.rs:25-29 | the fence count is 0 iff no line is a prolog fence |
| NaturalLanguage.TwoPrologFences | rust_project/loda-rust-cli/src/arc/natural_language.rs:25-29 | the fence count is at least 2 iff two distinct lines are prolog fences |
| NaturalLanguage.FirstPrologFence | rust_project/loda-rust-cli/src/arc/natural_language.rs:26-28 | the index of the fence that opens the block lies in range |
| NaturalLanguage.FirstPrologFenceIsFirst | rust_project/loda-rust-cli/src/arc/natural_language.rs:26-28 | it is a prolog fence and no earlier line is one |
| NaturalLanguage.BlockEnd | rust_project/loda-rust-cli/src/arc/natural_language.rs:35-38 | the block runs to the first closing fence after the opening one, or to the end of the text |
| NaturalLanguage.OutputLines | rust_project/loda-rust-cli/src/arc/natural_language.rs:48-50 | at most one extracted line per line of the range |
| NaturalLanguage.OutputLinesFromRange | rust_project/loda-rust-cli/src/arc/natural_language.rs:48-50 | every extracted line is an output line of the range |
| NaturalLanguage.OutputLinesContains | rust_project/loda-rust-cli/src/arc/natural_language.rs:48-50 | every output line of the range is extracted |
| NaturalLanguage.ScanPrologFence | rust_project/loda-rust-cli/src/arc/natural_language.rs:25-30 | a prolog fence raises the fence count, and only the first one opens the block |
| NaturalLanguage.ScanOutsideBlock | rust_project/loda-rust-cli/src/arc/natural_language.rs:32-34 | outside the block every other line is skipped |
| NaturalLanguage.ScanClosingFence | rust_project/loda-rust-cli/src/arc/natural_language.rs:35-38 | ```` ``` ```` closes the block |
| NaturalLanguage.ScanInsideBlock | rust_project/loda-rust-cli/src/arc/natural_language.rs:39-52 | inside the block an output line is kept, an unrecognized line is counted, and the rest is skipped |
| NaturalLanguage.ScanLinesScanned | rust_project/loda-rust-cli/src/arc/natural_language.rs:23-53 | after any number of lines the loop's variables agree with ParseSpec's fence count, first fence, block end, unrecognized count and output lines |
| NaturalLanguage.ScanFinished | rust_project/loda-rust-cli/src/arc/natural_language.rs:54-66 | the checks after the loop, in their order (no block, several blocks, unrecognized lines, success), give ParseSpec's result |
| NaturalLanguage.ScanLine | rust_project/loda-rust-cli/src/arc/natural_language.rs:24-52 | one pass of the loop body, with its `continue` chain, updates the four variables as the line's kind says |
| NaturalLanguage.Parse | rust_project/loda-rust-cli/src/arc/natural_language.rs:18-67 | `parse` returns exactly ParseSpec of the text's lines |
| NaturalLanguage.NoCodeBlockFoundIff | rust_project/loda-rust-cli/src/arc/natural_language.rs:25-56 | "No code block found" iff no trimmed line contains ```` ```prolog ```` |
| NaturalLanguage.MultipleCodeBlocksFoundIff | rust_project/loda-rust-cli/src/arc/natural_language.rs:25-59 | "Multiple code blocks found" iff two distinct trimmed lines contain ```` ```prolog ```` |
| NaturalLanguage.CountPrologFencesUpdate | rust_project/loda-rust-cli/src/arc/natural_language.rs:25-29 | replacing a line by one that is a fence exactly when it was one keeps the fence count |
| NaturalLanguage.FirstPrologFenceUpdate | rust_project/loda-rust-cli/src/arc/natural_language.rs:26-28 | such a replacement keeps the opening fence |
| NaturalLanguage.BlockEndUpdate | rust_project/loda-rust-cli/src/arc/natural_language.rs:35-38 | a replacement outside the block keeps its end |
| NaturalLanguage.CountUnrecognizedUpdate | rust_project/loda-rust-cli/src/arc/natural_language.rs:52 | a replacement outside a range keeps its unrecognized count |
| NaturalLanguage.OutputLinesUpdate | rust_project/loda-rust-cli/src/arc/natural_language.rs:48-50 | a replacement outside a range keeps its output lines |
| NaturalLanguage.ClassificationUpdate | rust_project/loda-rust-cli/src/arc/natural_language.rs:23-24 | replacing one line changes only its own kind |
| NaturalLanguage.ParseKindsOutsideUpdate | rust_project/loda-rust-cli/src/arc/natural_language.rs:32-38 | replacing a non-fence line outside the block by another non-fence line keeps the result |
| NaturalLanguage.OutsideLineIgnored | rust_project/loda-rust-cli/src/arc/natural_language.rs:32-38 | lines before the opening fence and after the closing one do not affect the result, whatever they are replaced by (short of a prolog fence) |
| NaturalLanguage.WithinBlockIsNoFence | rust_project/loda-rust-cli/src/arc/natural_language.rs:25-38 | no line of the block is a prolog fence |
| NaturalLanguage.ParseKindsOutput | rust_project/loda-rust-cli/src/arc/natural_language.rs:32-50 | on success every extracted line is an output line lying within the block, and every output line of the block is extracted |
| NaturalLanguage.ParsedLinesAreOutputLines | rust_project/loda-rust-cli/src/arc/natural_language.rs:32-50 | on success every extracted line is an untrimmed line lying within the block whose trimmed form starts with `object(output`, and every such line of the block is extracted |
| NaturalLanguage.NatToString | rust_project/loda-rust-cli/src/arc/natural_language.rs:61 | `{}` of a count: decimal digits with no leading zero |
| NaturalLanguage.NatToStringReadsBack | rust_project/loda-rust-cli/src/arc/natural_language.rs:61 | the digits read back as the count |
| NaturalLanguage.ErrorMessageExamples | rust_project/loda-rust-cli/src/arc/natural_language.rs:54-62 | the three messages: "No code block found", "Multiple code blocks found", and "2" followed by " unrecognized lines inside the code block" |
| NaturalLanguage.ErrorMessage | rust_project/loda-rust-cli/src/arc/natural_language.rs:54-62 | only the unrecognized-lines message is longer than its fixed tail; that message ends with " unrecognized lines inside the code block" and its leading digits, with no leading zero, read back as the count |
| NaturalLanguage.ErrorMessageInjective | rust_project/loda-rust-cli/src/arc/natural_language.rs:54-62 | different errors give different messages |
| NaturalLanguage.ParseWithoutCodeBlockExample | rust_project/loda-rust-cli/src/arc/natural_language.rs:114-125 | "Text without code block\n\njunk\nignore" fails with NoCodeBlockFound |
| NaturalLanguage.ParseUnrecognizedLinesExample | rust_project/loda-rust-cli/src/arc/natural_language.rs:127-143 | the block holding `junk1.` and `junk2.` fails with UnrecognizedLines(2) |
| NaturalLanguage.ParseResponseExample | rust_project/loda-rust-cli/src/arc/natural_language.rs:105-112 | a response with prose around one prolog block, joined into one text and split at newlines as `parse` does, succeeds with its three `object(output` lines |
| TrainingImagePositions.PositionOfVariant | rust_project/loda-rust-cli/src/arc/generate_training_image_files.rs:28-34 | everything from 4 up picks One; that digits 0 to 3 pick Zero, OneThird, Half and TwoThird is stated by VariantOfPositionInverts |
| TrainingImagePositions.VariantOfPosition | rust_project/loda-rust-cli/src/arc/generate_training_image_files.rs:28-34 | each position has a digit below 5 that picks it |
| TrainingImagePositions.VariantOfPositionInverts | rust_project/loda-rust-cli/src/arc/generate_training_image_files.rs:28-34 | the digit of the position a digit below 5 picks is that digit |
| TrainingImagePositions.TakePositionId | rust_project/loda-rust-cli/src/arc/generate_training_image_files.rs:25-35 | the position stands for index mod 5 and the index becomes index / 5 |
| TrainingImagePositions.PeelDigit | rust_project/loda-rust-cli/src/arc/generate_training_image_files.rs:26-27 | d + 5 * rest has remainder d and quotient rest when d < 5 |
| TrainingImagePositions.TakenDigit | rust_project/loda-rust-cli/src/arc/generate_training_image_files.rs:47-55 | the take after k others yields digit k and leaves the index divided by 5 k + 1 times |
| TrainingImagePositions.DecodeMutationIndex | rust_project/loda-rust-cli/src/arc/generate_training_image_files.rs:47-55 | the four takes yield base-5 digits 0, 1, 2 and 3 of the index, least significant first, as input x, input y, output x and output y |
| TrainingImagePositions.EncodePositions | rust_project/loda-rust-cli/src/arc/generate_training_image_files.rs:47-55 | the smallest index selecting given positions is below 625 |
| TrainingImagePositions.DecodeEncode | rust_project/loda-rust-cli/src/arc/generate_training_image_files.rs:47-55 | decoding the encoded positions gives them back |
| TrainingImagePositions.EncodeDecode | rust_project/loda-rust-cli/src/arc/generate_training_image_files.rs:47-55 | encoding the decoded positions gives the index mod 625 |
| TrainingImagePositions.DecodeDependsOnResidue | rust_project/loda-rust-cli/src/arc/generate_training_image_files.rs:47-55 | only the index mod 625 affects the four positions |
| TrainingImagePositions.DecodeInjectiveBelow625 | rust_project/loda-rust-cli/src/arc/generate_training_image_files.rs:47-55 | distinct indexes below 625 select distinct positions |
| TrainingImagePositions.ExportedMutationIndexes | rust_project/loda-rust-cli/src/arc/generate_training_image_files.rs:126-135 | the indexes `export_task` uses: 0 gives all Zero, 4 gives (One, Zero, Zero, Zero), 312 gives all Half, 624 gives all One |

## Left out

- `formatted_instruction` of both divide nodes: it depends on the `Display` implementations of `RegisterIndex` and `RegisterValue`, which are not part of this model.
- `live_register_indexes` of `NodeDivideConstant`: it is the trait's default method, which is not part of this model.
- `ProgramState`, `ProgramCache` and the other `EvalError` variants are not part of this model.
  - ProgramState is a class holding a sequence of register values, with only the get and set that `eval` uses.
  - NodeDivide.NodeDivideRegister.Eval and NodeDivide.NodeDivideConstant.Eval require the register indexes to lie within the register file, because what `ProgramState` does with other indexes is not known here.
  - The cache argument is dropped, since `eval` does not use it.
- Rust's `Vec` and `HashSet` are modelled as sequence-backed and set-backed classes. Aliasing between the register file and these collections cannot arise in the source and is not modelled.
- `process_csv_data` and `load` (CSV and file I/O through the `csv` and `serde` crates), and their test: the model starts from already-parsed records.
- Randomness: every draw of `rand` is a natural-number parameter.
  - `gen_range(low..high)` is low + draw mod (high - low). `choose` on a slice is an index drawn that way.
  - `choose_weighted` picks the entry whose cumulative-weight interval contains a point in [0, 1023).
  - The probability distribution and the generator's internal algorithm are not modelled; only the reachable results are.
- PopularProgramContainer.ChooseFromCluster: the `None` that `choose` would return on a non-empty slice cannot happen and is not modelled. The two `assert!`s of `choose_from_cluster` are preconditions.
- The `unwrap` of `choose_weighted` is not modelled: all weights are positive, so it cannot fail.
- `rust_project/loda-rust-cli/src/mine/analytics_worker.rs`: actor-style concurrency, shared mutable state, an external executable, timeouts and sleeping.
- `rust_project/loda-rust-cli/src/arc/generate_dataset_simple.rs`: it depends on a seeded random generator, image helpers and an HTML log.
- The image operations of `generate_training_image_files.rs` are not modelled: overlay, padding, `vjoin`, `hstack`, `save_as_file` and the export loops. They call an image library that is not part of this model and write to hard-coded paths.
  - Only `take_position_id`, the four-call decode and the mutation indexes of `export_task` are modelled.
  - The starting value `Half` of the four position variables is overwritten before use, so it does not appear.
- The module-list files, the build script and `subcommand_install.rs` (file creation under the home directory).
- NaturalLanguage.Trim strips the characters with Unicode's White_Space property, which is what `str::trim` strips. Nothing else about Unicode is modelled; strings are sequences of `char`.
- NaturalLanguage.ParseResponseExample: the test's response, `RESPONSE1`, has 30 lines (about 1.8 KB). Most of them are long prose lines or `object(` lines of some 90 characters, and each literal line is classified character by character. The model checks a shorter response of the same shape instead:
  - prose before and after;
  - a comment line, an `object(input` line and a blank line in the block;
  - three `object(output` lines.
  It does not reproduce RESPONSE1 character for character; the shorter response is written as its lines joined with newlines, which `SplitLines` takes apart again.
- NaturalLanguage.ErrorMessageExamples: the message for two unrecognized lines is stated as "2" followed by the named constant holding " unrecognized lines inside the code block", rather than as one literal.
- `anyhow` errors are modelled as the three-case `ParseError` datatype. `ErrorMessage` gives the text each error prints.
- BigInt is Dafny's `int`, and `bits()` is the bit length of the magnitude.
- `u64`, `u32` and `u8` are subset types of `int`. The decoder's mathematics (`DecodePositions` and the lemmas about it) holds for every natural number; TakePositionId and DecodeMutationIndex take the `u64` range.
