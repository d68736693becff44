# Verified model of the EIP-0045 reproduction generator

The generator extracts the verifier constants of a zero-knowledge virtual machine into a frozen binary file,
calibrates workloads, derives alternate statements, builds and replays ancestries of recursion proofs, and publishes
the results into a directory that somebody else may touch while it works. This project models that logic in Dafny and
proves what it is for.

**The verifier-data artifact** (`Codes`, `Words`, `PolyExt`, `TapTable`, `TapMeaning`, `Header`, `Artifact`,
`ArtifactLayout`, `ArtifactMeaning`, `SourceTables`, `ArtifactExample`). The codec is an exact inverse both ways:
`Decode` accepts a string if and only if it is the encoding of a valid artifact, and then returns that artifact. Which
bytes those are is stated apart from the encoder: an 87-byte literal header, place values of every word, the five
bytes of every tap record and the tags and operands of every instruction (`EncodingIsLaidOut`). Validity is stated
field by field, with the instructions counted by constructor (`ValidMeans`), and the canonical tap tables record by
record, without registers or runs (`CanonicalMeans`). The instruction codec is uniquely decodable at any length. A
stream passes the reference check exactly when a two-stack machine over arbitrary values can run it, and then nothing
it has computed is ever overwritten. The frozen census and the table lengths force the layout, so the later length and
census checks cannot fail. A valid artifact exists. `Cursor` is a class, as in the source.

**Calibration, statements and seals** (`Calibration`, `Statement`, `Seal`, `SealMeaning`). The observer is a class
that logs its questions and answers by an arbitrary function of the whole log, so it may contradict itself; what a run
was told is stated in the raw observations (`Told`). Montgomery decoding is shown to be a bijection, which makes the
first 33 words of an accepted seal unique for a root and a claim digest, and the accepted receipt shape is stated word
by word (`ShapeMeans`).

**Recursive ancestry** (`Plan`, `Ancestry` with module `Replay`, `OracleMeaning`, `Generator`, `GeneratorMeaning`,
`AcceptedExample`). Joins, resolves, digests and verification are arbitrary functions collected in `Zkvm`; the prover
is an arbitrary function per call in `Prover`. Any accepted list of steps claims the value of its own operation trees.
The accepted oracles are also stated receipt by receipt (`OracleMeans`). What the generator returns is characterised
exactly, in the same words (`GeneratedMeans`), and passes the replay if and only if the two facts left to the prover
hold; with an honest prover it succeeds, whatever the claim algebra (`GenerateHonestly`). Small concrete ancestries,
one for each family, with an order-sensitive join and a non-zero root, show that all these conditions can be met at
once.

**Publication** (`FileSystem`, `Publication`, `SharedPublication`, `ReturnGuarantee`, `FinalRun`). A `World` holds the
file-system state, an environment and the trace of events. Inside every callback the environment may change anything,
as a function of the whole history: rename, replace, rewrite, restore, even reuse node numbers. Between callbacks only
the code acts; the source states its single-writer assumption at
`generator/src/local_ancestry_shared_assumption.rs:481`. `Course` says that the state changes of a run are exactly its
events and that every creation adds one new node under a free name and touches nothing else; `FromCreations` ties
every retained observation to the creation event that made its file; `World.Valid` says that the trace is a run of the
environment. On success the state itself is described, path, chain, entries, bytes and links (`Stands`), and every
created file is the record its creation left (`LeftAsCreated`). Contracts state what a success means under every such
environment and that an environment in which nothing goes wrong does lead to success.

Modules follow the source files. Loops and updates of the source are methods with loop invariants or classes; pure
checks are functions. Errors are `Result` values, and `r.Ok? <==> ...` says when a call succeeds; which of several
errors is reported is modelled in the bodies in source order and promised only where a contract names it.

## Points where the code decides

- A digest is finite, so a globally injective digest does not exist. The replay theorems ask for no collision among
  the claims at hand only (`NoStepCollision`, `NoOracleCollision`).
- Two byte-level checks on a seal (its byte length and its little-endian reading) hold of any seal with the right
  number of words; the re-encoding comparison and both length checks of the artifact cannot fail either. The bodies
  perform them and the contracts show that they add nothing.
- The earlier protocol, `publish` in `generator/src/local_ancestry_shared_assumption.rs`, ends in a callback that no
  check follows. Its guarantee holds at entry to that callback. For a last conserve that is a function of the state,
  the guarantee reaches the return of every successful run if and only if that conserve, whenever it succeeds in a
  published directory, keeps it complete (`GuaranteeIff`). `KeepingConserveReachesReturn` is the first direction for
  any conserve, `LastCallbackDecides` runs `publish` into any given published directory, and `LastCallbackCanUndo`
  into an empty one. The later protocol checks once more and its guarantee holds at return.
- The calibration search promises a local boundary, not a global minimum, for observers that are not monotone:
  `LeastCanBeMissed` gives one that is exact at 3 and is answered with 8.

## Model

| member | source | states |
|---|---|---|
| Codes.UniquelyDecodable | generator/src/constants_artifact.rs:1198-1247 | A concatenation of items under any prefix code splits in one way only, whatever the lengths of the two lists |
| PolyExt.EncodedAt | generator/src/constants_artifact.rs:1198-1247 | An instruction encoding starts a string exactly when its tag and little-endian operand words can be read there |
| PolyExt.OpPrefixCode | generator/src/constants_artifact.rs:1198-1247 | No instruction encoding is a prefix of another, so the tag fixes the width |
| PolyExt.StreamUniquelyDecodable | generator/src/constants_artifact.rs:1198-1247 | Instruction streams of any length are uniquely decodable |
| PolyExt.Histogram | generator/src/constants_artifact.rs:1170-1189 | The histogram has an entry for every kind and counts each kind exactly |
| PolyExt.CensusCounts | generator/src/constants_artifact.rs:804-833 | The kind counts alone give the numbers of field and mix variables |
| PolyExt.CensusLength | generator/src/constants_artifact.rs:1170-1247 | The kind counts alone give the encoded length of a stream |
| PolyExt.WalkReferences | generator/src/constants_artifact.rs:814-833 | The reference walk succeeds exactly when every instruction reads only variables before it, and then returns both stack heights |
| PolyExt.StepIffValid | generator/src/constants_artifact.rs:837-899 | An instruction passes the reference check exactly when a two-stack machine over any value types can execute it, which only pushes |
| PolyExt.AcceptedIffRuns | generator/src/constants_artifact.rs:804-899 | A stream is accepted exactly when the two-stack machine runs it to the end, with the counted stack heights |
| PolyExt.RunKeepsEarlierValues | generator/src/constants_artifact.rs:837-899 | Single assignment: no variable, once pushed, is ever changed by later instructions |
| PolyExt.FirstMixIsUniqueTrue | generator/src/constants_artifact.rs:804-899 | With one True in the census, the first mix instruction is that True and every other mix variable extends an earlier one |
| PolyExt.ChainEndsAtTrue | generator/src/constants_artifact.rs:837-899 | Following the chain operand from any mix variable strictly descends and ends at the True |
| TapTable.WalkRegister | generator/src/constants_artifact.rs:918-956 | One skip-run is read as a register of the next column or no register there fits the table |
| TapTable.WalkStep | generator/src/constants_artifact.rs:918-966 | One turn of the walk keeps the registers read so far, their column order and the shape recorded for each combo |
| TapTable.ValidateTaps | generator/src/constants_artifact.rs:901-997 | The walk accepts exactly the canonical tables: one run per column in order, increasing backs, one combo per distinct back list, and the stated totals |
| TapTable.RunsPartitionTable | generator/src/constants_artifact.rs:901-997 | The runs partition the table: a record belongs to register k exactly when it stands in run k, which has the length its skip says |
| TapTable.RecordsStrictlyIncrease | generator/src/constants_artifact.rs:901-997 | Records of an accepted table strictly increase in (group, offset, back) |
| TapTable.SameBacksIffSameCombo | generator/src/constants_artifact.rs:957-987 | Two registers have equal back lists exactly when they share a combo |
| TapTable.RunsArePrefixCode | generator/src/constants_artifact.rs:918-966 | No skip run is empty or a prefix of another, so a table splits into registers in one way |
| TapTable.OneReading | generator/src/constants_artifact.rs:901-997 | A table has one reading as registers and combo shapes |
| TapMeaning.CanonicalMeans | generator/src/constants_artifact.rs:901-997 | A table is canonical exactly when its records are placed, strictly ordered, cover every column and combo, carry the size of their column as skip, share a combo exactly when their columns have the same backs, and have the stated number of different combo and back pairs |
| Header.Cursor.Take | generator/src/constants_artifact.rs:1297-1310 | Succeeds exactly when that many bytes are left, returns them and advances by them; otherwise nothing moves |
| Header.Cursor.U16 | generator/src/constants_artifact.rs:1314-1318 | Reads the little-endian halfword at the position or fails and stays |
| Header.Cursor.U32 | generator/src/constants_artifact.rs:1319-1323 | Reads the little-endian word at the position or fails and stays |
| Header.Cursor.U32Vec | generator/src/constants_artifact.rs:1324-1326 | Reads exactly the words whose encodings stand at the position |
| Header.Cursor.AsciiText | generator/src/constants_artifact.rs:1327-1335 | Succeeds exactly on ASCII bytes that are there |
| Header.DecodeTapBlock | generator/src/constants_artifact.rs:522-526 | The tap block is read exactly when it stands there with its group count |
| Header.DecodeInfo | generator/src/constants_artifact.rs:531-539 | The extension and label-length block is read exactly when it stands there with its fixed bytes |
| Artifact.CensusForcesLayout | generator/src/constants_artifact.rs:81-92 | The frozen census forces 12,359 instructions, 11,130 field and 1,229 mix variables, and 60,757 encoded bytes |
| Artifact.ReturnedChainReachesTrue | generator/src/constants_artifact.rs:790-833 | In a valid artifact the return index is the last mix variable and its chain descends to the unique True |
| Artifact.ValidateStream | generator/src/constants_artifact.rs:790-833 | The stream checks, including the final census check, succeed exactly on a valid stream with the frozen counts |
| Artifact.Validate | generator/src/constants_artifact.rs:695-835 | Succeeds exactly on the valid artifacts |
| Artifact.ShapesForceLayout | generator/src/constants_artifact.rs:405-492 | Table lengths, text lengths and the instruction census alone force exactly 65,119 bytes with an 87-byte header and every table at its frozen offset |
| Artifact.SectionsDetermine | generator/src/constants_artifact.rs:405-492 | The sections together are the whole encoding |
| Artifact.Encode | generator/src/constants_artifact.rs:405-492 | Succeeds exactly on valid artifacts and writes the encoding; neither length check can then fail |
| Artifact.DecodeOperands | generator/src/constants_artifact.rs:565-578 | After a tag, the operands read are those of the one instruction standing there, or none stands there |
| Artifact.DecodeOp | generator/src/constants_artifact.rs:565-578 | The instruction read is the one encoded at the cursor, and failure means none is |
| Artifact.DecodeOps | generator/src/constants_artifact.rs:561-586 | The instruction loop succeeds exactly when a well-referenced stream of the given count stands at the cursor |
| Artifact.DecodeHeader | generator/src/constants_artifact.rs:501-546 | The header is read exactly when one stands at the start |
| Artifact.DecodeTables | generator/src/constants_artifact.rs:548-586 | The tables are read exactly when they stand after the header |
| Artifact.EncodingInjective | generator/src/constants_artifact.rs:405-492 | No two valid artifacts have one encoding |
| Artifact.Decode | generator/src/constants_artifact.rs:495-643 | Every accepted string is the encoding of the result, and every encoding of a valid artifact decodes to that artifact |
| Artifact.VerifyCanonical | generator/src/constants_artifact.rs:651-663 | Succeeds exactly on a valid encoding with the frozen digest; the re-encoding comparison adds nothing |
| Artifact.CheckedOutput | generator/src/constants_artifact.rs:665-692 | Succeeds exactly on a valid artifact whose encoding has the frozen digest, and returns that encoding; the two codec comparisons add nothing |
| ArtifactExample.ValidArtifactExists | generator/src/constants_artifact.rs:695-835 | All conditions on constants, taps, census and references can be met together: a valid artifact and its 65,119 bytes exist |
| ArtifactLayout.EncodingIsLaidOut | generator/src/constants_artifact.rs:405-492 | A string is the encoding of a valid artifact exactly when it has the 87 literal header bytes, every table word and tap record at its place with its place values, and then the tags and operands of the instructions |
| ArtifactLayout.HeaderIsFixed | generator/src/constants_artifact.rs:408-462 | The header of every valid artifact is one literal byte string |
| ArtifactLayout.OpsAre | generator/src/constants_artifact.rs:1198-1247 | A string is the encoding of a stream exactly when its tags and operand words follow one another with nothing behind them |
| ArtifactMeaning.ValidMeans | generator/src/constants_artifact.rs:695-835 | An artifact is valid exactly when each of its fields is, with instructions counted by constructor and the bounds of globals being its own sizes |
| ArtifactMeaning.CensusIs | generator/src/constants_artifact.rs:804-812 | The histogram check holds exactly when the instructions of each constructor have the frozen numbers |
| ArtifactMeaning.ReferencesAre | generator/src/constants_artifact.rs:837-899 | The reference check holds exactly when every operand is below the number of variables that earlier instructions define |
| ArtifactMeaning.ValidArtifactRuns | generator/src/constants_artifact.rs:790-835 | The stream of a valid artifact runs to the end on every machine of its own tap, output and mix sizes, and the return index is the last mix variable |
| SourceTables.Compress | generator/src/constants_artifact.rs:243-265 | Accepts exactly the 29 by 24 tables with zeros in the unused partial-round slots, and the result expands back to the input |
| SourceTables.SparseTableIsExact | generator/src/constants_artifact.rs:243-265 | Sparse and dense tables determine each other: nothing is lost |
| SourceTables.Normalize | generator/src/constants_artifact.rs:999-1024 | Accepts exactly the inputs without BOM, NUL or a bare CR, and returns the input without its CRs |
| SourceTables.NormalizedIsFixed | generator/src/constants_artifact.rs:999-1024 | Accepted output is accepted again, unchanged, and shorter by exactly the number of CRs |
| SourceTables.CrLfNormalizesBack | generator/src/constants_artifact.rs:999-1024 | Expanding every LF of an accepted CR-free input to CRLF normalises back to it |
| SourceTables.ExpandsMeans | generator/src/constants_artifact.rs:243-265 | The sparse table is the dense one without its unused slots, which are zero, in order: 96 words, 21 first words, 96 words |
| SourceTables.NormalizationMeans | generator/src/constants_artifact.rs:999-1024 | The accepted texts and the removal of CR bytes, byte by byte |
| Calibration.Bracket | generator/src/lib.rs:541-556 | The exponential phase asks about the bracket ends in order, each seen below the target but the last, and stops at the first that is not below or cannot be used |
| Calibration.EndsBelowAt | generator/src/lib.rs:541-556 | Each bracket end before the last was asked about at its own place in the log and was seen below |
| Calibration.Bisect | generator/src/lib.rs:558-580 | The binary phase closes the bracket and returns only what the whole run promises |
| Calibration.NextBracketEnd | generator/src/lib.rs:541-556 | The saturating step goes from one bracket end to the next without overflow and reaches the top only at the 33rd |
| Calibration.CostOf | generator/src/lib.rs:527-570 | A result between two powers of two costs exactly the stated number of questions, never more than 65 |
| Calibration.SelectCanonicalIterations | generator/src/lib.rs:518-580 | For any observer: on success the answer at the count was one segment of the target exponent and at its predecessor one of a smaller; a crossing, a malformed answer and an unsupported target are reported exactly as observed; the count lies in the first bracket whose end was not below; no question repeats; each error names its cause in the run |
| Calibration.MonotoneFindsLeast | generator/src/lib.rs:503-580 | Against a monotone observer the search succeeds exactly when an exact count exists, and returns the least |
| Calibration.OutcomeTells | generator/src/lib.rs:518-580 | What each result says about the raw observations the run was given |
| Calibration.MalformedMeans | generator/src/lib.rs:903-919 | A run ends as malformed exactly when it was given an observation whose exponent is present without a single segment or absent with one |
| Calibration.PlateauIsFound | generator/src/lib.rs:503-580 | An observer that goes from one segment of smaller exponents to the exact answer at a, and beyond it later, makes the search return a |
| Calibration.LeastCanBeMissed | generator/src/lib.rs:503-580 | Without monotonicity the result need not be the least: an observer exact at 3 and 8 and below elsewhere makes every run select 8 |
| Calibration.MissLeast | generator/src/lib.rs:503-580 | The search run against that observer returns 8 although 3 is exact |
| Statement.SerializedParts | generator/src/lib.rs:295-363 | Parsing a serialised record gives the record back, with domain, version and little-endian length in their places |
| Statement.SerializationAccepted | generator/src/lib.rs:318-363 | A bounded record is accepted under its own program id and no other |
| Statement.AcceptedIsSerialization | generator/src/lib.rs:318-363 | An accepted statement is the serialisation of its parse |
| Statement.AcceptsExactlySerializations | generator/src/lib.rs:318-363 | Accepted strings are exactly the serialisations of bounded records with that program id, each with one parse |
| Statement.AcceptedBytes | generator/src/lib.rs:318-363 | The accepted strings byte by byte: domain, version, program id, and a length word that counts the rest |
| Statement.OnlySpanChangedMeans | generator/src/lib.rs:438-460 | The span check passes exactly when the statements differ, and only inside the span |
| Statement.DerivationsOnRecords | generator/src/lib.rs:376-436 | Each derivation changes one field of the record and nothing else |
| Statement.DerivationsPassTheirChecks | generator/src/lib.rs:376-460 | On a valid source the derived statements are valid and the final span checks cannot fail, given distinct program ids |
| Statement.DerivationLaws | generator/src/lib.rs:376-436 | The chain derivation is an involution, the program derivation is undone by deriving back, and the two commute |
| Statement.DeriveAlternateChainDomain | generator/src/lib.rs:376-397 | Succeeds exactly on valid statements and returns a valid statement whose byte 27 alone differs, in its lowest bit |
| Statement.DeriveAlternateProgram | generator/src/lib.rs:410-436 | Succeeds exactly on valid statements with a distinct alternate id, and returns a valid statement with bytes 91 to 122 replaced and no other |
| Seal.MontInverse | generator/src/lib.rs:819-825 | Montgomery decoding and encoding are inverse on the field, so decoding is a bijection |
| Seal.DecodeInnerControlRoot | generator/src/lib.rs:781-798 | Every reduced root has one slot, and the slot decodes to it; nothing else decodes |
| Seal.DecodeClaimDigest | generator/src/lib.rs:800-817 | Every 32-byte digest has one accepted slot, and nothing else decodes |
| Seal.ClaimSlotInjective | generator/src/lib.rs:800-817 | Different digests have different slots |
| Seal.DecodeSealWords | reproduction/src/seal.rs:563-579 | Succeeds exactly on the frozen number of bytes, and returns the one list of words whose little-endian encodings they are |
| Seal.ValidateSeal | generator/src/lib.rs:722-769 | Accepts exactly the seals with the given root and digest in their slots, reduced words and the outer exponent; the byte view is the little-endian words |
| Seal.ValidateTerminalShape | generator/src/lib.rs:682-769 | Accepts exactly the described receipt shape |
| Seal.AcceptedSealsArePrefixAndTail | generator/src/lib.rs:722-769 | The accepted seals are exactly one 33-word prefix of a reduced root and a digest followed by any reduced words |
| Seal.SealPrefixUnique | generator/src/lib.rs:727-766 | For a fixed root and digest any two accepted seals agree on their first 33 words |
| Seal.SealBindsRootAndClaim | generator/src/lib.rs:727-766 | A seal is accepted for one root and one digest only |
| Seal.NormalLiftSegmentPo2 | generator/src/lib.rs:846-853 | Finds the one exponent whose frozen lift has the control identity, if any |
| SealMeaning.MontgomeryIs | generator/src/lib.rs:819-825 | Decoding divides by 2^32 modulo the field order and encoding multiplies by it |
| SealMeaning.SealMeans | generator/src/lib.rs:722-769 | A seal is accepted exactly when its words carry the root with zeros between, the halves of the digest words, and the exponent 18, all below the field order |
| SealMeaning.ShapeMeans | generator/src/lib.rs:682-769 | The shape gate accepts exactly the receipts with the terminal control identity and index, depth, parameters and such a seal |
| Plan.JoinPlanIsLeftFold | generator/src/recursive.rs:490-518 | For any segment count the join loop builds the left fold over the lifts |
| Plan.LeftFoldInOrder | generator/src/recursive.rs:490-518 | The leaves of the fold are the segments in order |
| Plan.JoinPlanIsLinear | generator/src/recursive.rs:490-518 | For any segment count every segment is lifted once, every non-final step consumed once, and the last step is the root |
| Plan.PlanLifts | generator/src/recursive.rs:490-501 | Lifts every segment in order whenever the indices fit 32 bits |
| Plan.PlanJoins | generator/src/recursive.rs:490-518 | The join loop, for any segment count that fits, produces the join plan |
| Plan.PlannedSteps | generator/src/recursive.rs:478-547 | Succeeds exactly on the family cardinality, with the plan of that family and matching operations |
| Plan.FamilyPlansAreLinear | generator/src/recursive.rs:478-547 | Each family plan is a linear tree and denotes the family tree |
| Replay.ValidateStep | generator/src/recursive.rs:2949-3023 | Accepts exactly the appended, integral step of the right operation and terminal whose claim digest is that of its inputs |
| Replay.AcceptedBackward | generator/src/recursive.rs:2949-3023 | In any accepted step list every reference is strictly backward |
| Replay.ReplayMeansTreeValue | generator/src/recursive.rs:2949-3023 | In any accepted step list, of whatever shape, step k claims the value of its own lift/join/resolve tree |
| Replay.ValidateNonces | generator/src/recursive.rs:2548-2596 | Accepts exactly two segments with consecutive indices and the nonce fields (0, job, index) |
| Replay.ValidateAssumption | generator/src/recursive.rs:2341-2373 | Accepts exactly a verified, lifted, assumption-free receipt of the exact successful claim |
| Replay.ValidateFinal | generator/src/recursive.rs:2412-2426 | Accepts exactly the successful claim from the family terminal with no assumption left |
| Replay.ReplaySteps | generator/src/recursive.rs:2398-2410 | The replay loop succeeds exactly when the steps have the planned inputs and are accepted one after another |
| Replay.ValidateRecursiveOracle | generator/src/recursive.rs:2306-2427 | Accepts exactly the oracles whose source, nonces, assumption, embedded copy, graph and final receipt all hold |
| Replay.AcceptedOracleProvesItsPlan | generator/src/recursive.rs:2306-2427 | The final claim of an accepted oracle is the value of its plan, is the exact successful claim, and has no assumptions |
| Replay.EveryStepIsGivenInFull | generator/src/recursive.rs:2306-2427 | Every step of an accepted oracle states its claim in full, and it is the value of its tree |
| OracleMeaning.RecordedMeans | generator/src/recursive.rs:3025-3075 | The recorded assumption is accepted exactly when it is the one claim digest under the profile root for a terminal resolve, under the zero root before a join, and none without an assumption |
| OracleMeaning.StatementMeans | generator/src/lib.rs:318-363 | A statement is accepted for an image id exactly when its bytes are those of the id |
| OracleMeaning.StepsAreFamily | generator/src/recursive.rs:2398-2410 | Accepted planned steps are exactly the lifts, the join in its order and the resolve of the family, each with the claim of its inputs |
| OracleMeaning.OracleMeans | generator/src/recursive.rs:2306-2427 | The replay accepts exactly the oracles whose statement, receipts, nonces, recorded and embedded assumption, steps and final receipt are as stated field by field |
| Generator.Preflight | generator/src/recursive.rs:2110-2119 | Succeeds exactly when the execute-only run has the calibrated sequence and it fits family and profile |
| Generator.ValidateTopLevel | generator/src/recursive.rs:2924-2947 | Accepts exactly what the replay accepts of an assumption, restricted to the given exponent and carried claim |
| Generator.ProveAssumption | generator/src/recursive.rs:1091-1148 | Returns the prover receipt exactly when it is an admissible one-segment proof of its own session exponent |
| Generator.ObtainAssumption | generator/src/recursive.rs:2127-2154 | Gives the family its assumption from the chosen source, or fails because there is no admissible one |
| Generator.ObtainSource | generator/src/recursive.rs:2156-2202 | Returns the prover composite exactly when it proves the statement with the calibrated numbers of segments and assumptions |
| Generator.GenerateSteps | generator/src/recursive.rs:2216-2269 | Returns the one list of accepted, calibrated prover answers to the plan, and fails only when there is none |
| Generator.GenerateOracle | generator/src/recursive.rs:2099-2295 | Returns the one oracle the prover answers make, and fails only when they make none |
| Generator.GeneratedPassesReplay | generator/src/recursive.rs:2099-2427 | A generated oracle passes the replay exactly when the nonce fields and the embedded assumption agree, and passes the calibration binding |
| Generator.ValidateCalibration | generator/src/recursive.rs:2449-2497 | Accepts exactly the oracles bound to a report: round trip, family, limit, segment count, and every lift index and exponent |
| Generator.CalibratedLiftsAreBound | generator/src/recursive.rs:2449-2497 | Steps with the planned inputs and calibrated lifts are bound by every valid report of that sequence |
| GeneratorMeaning.StepsFromMean | generator/src/recursive.rs:2216-2269 | The step loop makes exactly the lists of the prover answers, in argument order, that are the family steps with the expected exponents |
| GeneratorMeaning.GeneratedMeans | generator/src/recursive.rs:2099-2295 | The generator returns exactly the oracles so described, from the chosen assumption and the calibrated source |
| GeneratorMeaning.HonestOracle | generator/src/recursive.rs:2099-2295 | An honest prover has an oracle: whatever joins and resolves do, if the claims come to the successful one |
| GeneratorMeaning.GenerateHonestly | generator/src/recursive.rs:2099-2295 | With an honest prover the generator succeeds, and the replay accepts its oracle if nonces and embedded assumption are right |
| GeneratorMeaning.BindingMeans | generator/src/recursive.rs:2449-2497 | The binding accepts exactly the reports and oracles so described, name by name and exponent by exponent |
| AcceptedExample.AcceptanceIsPossible | generator/src/recursive.rs:2099-2427 | In every family, with or without an assumption, the acceptance conditions of generator and replay can all be met together, without a digest collision |
| FileSystem.VerifiedIffHeld | generator/src/local_ancestry_shared_assumption.rs:325-339 | Re-verification of a snapshot succeeds exactly when directory, name, node, bytes, version and link count are what was observed |
| FileSystem.ReadIsHeld | generator/src/local_ancestry_shared_assumption.rs:305-323 | A successful read observes what is there, within its byte bound and with a single link |
| FileSystem.HeldTogether | generator/src/local_ancestry_shared_assumption.rs:305-339 | Two observations of a name that hold in one state agree on node and bytes |
| FileSystem.CreationKeeps | generator/src/local_ancestry_shared_assumption.rs:446-460 | Creating a file keeps everything observed under other names |
| FileSystem.ChainedAppend | generator/src/local_ancestry_alternate_statement_final.rs:257-315 | The state changes of two runs, one after the other, are their events in order |
| FileSystem.World.WriteNew | generator/src/local_ancestry_shared_assumption.rs:446-460 | Creates a new file under a free name or changes nothing; succeeds exactly without a fault, and then the file is held with exactly the bytes |
| FileSystem.FaithfulAt | generator/src/local_ancestry_alternate_statement_final.rs:257-315 | Every event of a run is what the environment does after the events before it |
| FileSystem.VerifyDir | generator/src/local_ancestry_shared_assumption.rs:405-415 | Succeeds exactly when the path leads through the retained chain again, node by node, and none of it is unlinked |
| Publication.VerifyAllIffHeld | generator/src/local_ancestry_alternate_statement_final.rs:247-255 | Checking a list of snapshots succeeds exactly when all are held |
| Publication.ObservationsVerifiedIff | generator/src/local_ancestry_alternate_statement_final.rs:247-255 | The observation check passes exactly when all observed is still there and, if completeness is asked, nothing else is |
| Publication.CompleteTogether | generator/src/local_ancestry_alternate_statement_final.rs:289-315 | Two complete observations held in one state are the same, node for node and byte for byte |
| Publication.WritingHeld | generator/src/local_ancestry_alternate_statement_final.rs:265-267 | The payloads created so far are all held, with nodes of their own, and nothing else is in the directory |
| Publication.WritePayloads | generator/src/local_ancestry_alternate_statement_final.rs:263-268 | Creates the payloads in order, create-only; every retained observation, even of a failing run, is of the file its own creation event made; on success all are there with exactly the bytes |
| Publication.WritingCreations | generator/src/local_ancestry_alternate_statement_final.rs:263-268 | Each observation retained while writing has the node and content of its creation event |
| Publication.ReadPublished | generator/src/local_ancestry_alternate_statement_final.rs:293-304 | Succeeds exactly when the directory is publishable, and then everything read is held |
| Publication.VerifyBody | generator/src/local_ancestry_alternate_statement_final.rs:293-309 | Succeeds exactly when the directory is publishable at entry, the replay answers the manifest checkpoint, and all is still there afterwards |
| Publication.VerifyPublishedRetained | generator/src/local_ancestry_alternate_statement_final.rs:289-315 | Succeeds exactly after one replay of the bytes read and one conserve, with the directory complete before the conserve and at return, and the one found at entry |
| Publication.PublishManifest | generator/src/local_ancestry_alternate_statement_final.rs:271-274 | The manifest is created only after a successful conserve, holds the encoded checkpoint, and its retained observation is of its creation event |
| Publication.PublishRetained | generator/src/local_ancestry_alternate_statement_final.rs:257-288 | With any environment in the callbacks: on success both replays got exactly the payloads, the trace is replay, conserve, replay, conserve, conserve, the directory was flushed after the manifest, and at return the directory stands under its path with exactly those bytes, each file being the node its creation event made, with the bytes and version it then had; every run past entry ends in a conserve; a benign environment makes it succeed |
| Publication.SecondReplayAgrees | generator/src/local_ancestry_alternate_statement_final.rs:289-305 | With an injective encoder the second replay answered with the very checkpoint that was to be published |
| Publication.BenignRunKeeps | generator/src/local_ancestry_alternate_statement_final.rs:257-315 | In a benign environment a whole run keeps what was held when it began |
| Publication.FinalLayoutIsWellFormed | generator/src/local_ancestry_alternate_statement_final.rs:22-27 | The payload names and the manifest name of the final layout are distinct |
| Publication.CreatedIsComplete | generator/src/local_ancestry_alternate_statement_final.rs:257-288 | A directory with just the created files, all of them, is complete |
| Publication.CompleteIsPublishable | generator/src/local_ancestry_alternate_statement_final.rs:289-315 | A complete directory with distinct nodes and suitable contents passes the re-read |
| Publication.PublishableAgain | generator/src/local_ancestry_alternate_statement_final.rs:289-315 | Whether a directory passes the re-read depends only on what is held in it |
| Publication.StandsIffComplete | generator/src/local_ancestry_alternate_statement_final.rs:247-255 | A directory stands, in its path, chain, entries, nodes, bytes and links, exactly when it is complete for some observations with nodes of their own |
| Publication.HeldReads | generator/src/local_ancestry_alternate_statement_final.rs:299-301 | Reading held payloads by name gives back the snapshots of their creation |
| Publication.RunsCreateInOrder | generator/src/local_ancestry_alternate_statement_final.rs:257-315 | In every run past the entry check names appear only as a prefix of the payload list followed by the manifest, and a conserve follows every replay |
| Publication.OwnStepsOnlyAdd | generator/src/local_ancestry_shared_assumption.rs:446-460 | Between callbacks no entry is changed or removed, no file is touched, and everything held stays held |
| SharedPublication.VerifyUntilConserve | generator/src/local_ancestry_shared_assumption.rs:266-281 | Succeeds exactly when the directory is publishable and the replay agrees and leaves everything in place |
| SharedPublication.VerifyPublished | generator/src/local_ancestry_shared_assumption.rs:266-283 | Succeeds exactly when the last callback is reached and succeeds; everything read is held when it is entered |
| SharedPublication.Publish | generator/src/local_ancestry_shared_assumption.rs:245-264 | On success both conserves succeeded, the inventory is right at entry to the last one, each file being the node its creation event made, and both replays got the payloads; it succeeds exactly when the last conserve is reached and does; every run creates in protocol order from an empty directory, the manifest last |
| ReturnGuarantee.GuaranteeIff | generator/src/local_ancestry_shared_assumption.rs:245-283 | The guarantee reaches the return of every successful run ending in a given conserve if and only if that conserve, whenever it succeeds in a published directory, keeps it complete |
| ReturnGuarantee.KeepingConserveReachesReturn | generator/src/local_ancestry_shared_assumption.rs:245-283 | Under a conserve that keeps published directories complete, the guarantee of a successful run reaches its return |
| ReturnGuarantee.LastCallbackDecides | generator/src/local_ancestry_shared_assumption.rs:245-283 | For every published directory and every last conserve some run of publish from an empty directory enters it in that state with those observations, succeeds exactly when it does and leaves what it leaves |
| ReturnGuarantee.LastCallbackCanUndo | generator/src/local_ancestry_shared_assumption.rs:245-283 | From any empty directory with any suitable payloads, publish succeeds in some environment and the directory is empty at return |
| ReturnGuarantee.BenignRunsSucceed | generator/src/local_ancestry_shared_assumption.rs:245-283 | In a benign environment a run that reached its re-read succeeds and is complete at return |
| SharedPublication.SharedLayoutIsWellFormed | generator/src/local_ancestry_shared_assumption.rs:21-27 | The payload names and the manifest name of the shared layout are distinct |
| FinalRun.ProofEntry | generator/src/local_ancestry_alternate_statement_final.rs:116-126 | Proving starts only with the calibration held and after a conserve; once started it is always followed by a re-check and a conserve; success is characterised exactly |
| FinalRun.FinishRun | generator/src/local_ancestry_alternate_statement_final.rs:189-202 | Origin and output checks are both evaluated; success exactly when the result, the origins and the complete output hold at return |
| FinalRun.CloseRun | generator/src/local_ancestry_alternate_statement_final.rs:158-183 | The last two joins of a run succeed exactly when the result did and calibration and complete output are held at return |
| FinalRun.Generate | generator/src/local_ancestry_alternate_statement_final.rs:149-157 | Nothing is created unless proving was properly entered and left and the first replay succeeded; creations are in protocol order with the manifest last, on failing runs too; whatever is retained is of its creation event |
| FinalRun.RunGenerate | generator/src/local_ancestry_alternate_statement_final.rs:128-183 | On success both closing conserves succeeded and the directory at return, after every callback, holds exactly the payloads assembled from the proof and replayed, and the manifest of their checkpoint, each as its creation event made it; the creation order and the entry to proving hold of failing runs too; an untroubled run succeeds |
| FinalRun.RunVerify | generator/src/local_ancestry_alternate_statement_final.rs:128-183 | Creates nothing; on success both closing conserves succeeded, the directory at return is complete and the one found at entry, and the replay got exactly its bytes |

## Left out

- The proof system itself: STARK proving and verification, SHA-256, BLAKE2 and Poseidon2 are arbitrary functions.
- Reading constants out of the upstream Rust sources (`parse_taps`, `parse_operations`, `parse_numeric_macro`, the
  source locks): the pinned upstream files are not part of this model.
- Canonical JSON, borsh and bincode: abstract encoders and parsers that may refuse, with a round trip assumed only
  where a theorem says so.
- Comparisons with compiled upstream constants, such as the verifier-parameter digest and the allowed control root,
  and the proving options, guest identity and session checks around the prover calls.
- The frozen hexadecimal identities are an opaque `Profile`; that the lift identities are distinct is assumed.
- `Seal.MontInverse`: the upstream reduction routine is not part of this model; decoding is multiplication by the
  inverse of 2^32 modulo the field order.
- `Seal.DecodeSealWords`: the self-check of the word layout, which reads only constants, is not modelled.
- `Header.Cursor.Take`: positions are unbounded; overflow of a machine-size offset is not modelled.
- Protocol strings are sequences of ASCII bytes, and `serde` output of the artifact (`write_outputs`) is only its
  binary file.
- The alternate-control-root profile, whose shape gate is the same function with other constants.
- Recursive calibration (`select_recursive_workload`, `classify_observation`): the binding of an oracle to a finished
  report is modelled, the second search over segment sequences is not; it repeats the first one with a fixed observer.
- `Generator.ObtainSource`: what the guest computes is not modelled, so a composite proof is what the prover returns.
- `FinalRun.RunGenerate`: starts at the fresh output directory; opening the shared checkpoint, admission of the inputs
  and creation of the directory come before it. Conservation of the shared checkpoint is the callback itself.
- `FileSystem.World.WriteNew`: descriptors, symbolic links, timestamps and the Windows branches are reduced to paths,
  directory nodes, names, nodes, bytes, one version number and a link count.
- `ReturnGuarantee.GuaranteeIff`: a last conserve that depends on more than the state is covered in one direction
  only, by `KeepingConserveReachesReturn`.
- `Publication.PublishRetained`: which error is returned on failure, beyond the entry check, is not part of the
  contract.
- The near copies of the publication code for the alternate program and the duplicate assumption, the exporters and
  freezers, and the command line are not modelled.
