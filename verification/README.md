# bam2fastq, modelled in Dafny

bam2fastq converts PacBio circular-consensus (CCS) reads from a BAM file into a
FASTQ file. It keeps only the reads whose read quality (RQ) is strictly above
a threshold in [0, 1]. This project models the two pieces of decision logic in
`MainClass.Main`:

- **the argument and validation chain.** From the argument vector it picks
  exactly one outcome: too many arguments, not enough arguments, help, the
  crash on a missing third argument, input not found, threshold unparsable,
  threshold out of range, output already exists, or proceed;
- **the streaming filter loop.** It walks the decoded reads in order. It
  appends each read of quality `> threshold` to the output and counts every
  other read as filtered, keeping the two C# `int` counters.

Modules:

- `Wrappers`: the `Option` datatype.
- `Int32`: C# `int` with unchecked wrap-around on `++`.
- `Arguments`: `Validate` and the lemmas about the order of its checks.
- `QualityFilter`: the `Read` datatype, the specification functions `Kept`,
  `Dropped` and `PassingPositions`, the loop `FilterReads` proved against them,
  and the partition, count, membership and order lemmas.
- `MainClass`: `Run`, the body of `Main`. It runs validation and then the loop.
  Its exception handlers become outcomes.

The environment is passed in as parameters:

- `File.Exists` becomes `files`, the set of paths that exist.
- `Double.TryParse` becomes `tryParse: string -> Option<real>`.
- The BAM reader becomes a `Decoded` value: the reads it yields in order, and
  the exception it throws after them, if any.

Two quirks of the code are kept as written:

- A lone help token (`bam2fastq help`) is reported as "not enough arguments".
  The arity checks come before the help check.
- Two non-help arguments do not get a validation message. Reading `args[2]`
  throws, and the generic handler catches it: `Validate` returns
  `IndexOutOfRange`, and `Run` returns `Crashed(OtherException, None)` before
  the input file is looked up.

## Model

| member | source | states |
|---|---|---|
| `Arguments.Validate` | bam2fastq/Program.cs:20-49 | more than 3 arguments iff "too many"; fewer than 2 iff "not enough", a lone help token included; 2–3 arguments with a help token first iff help only; exactly 2 non-help arguments iff the out-of-range crash; proceed iff 3 arguments, input exists, threshold parses to a value in [0, 1] and output does not exist, and then the decision carries exactly those three values |
| `Arguments.UsageIgnoresEnvironment` | bam2fastq/Program.cs:20-27 | arity and help outcomes show the usage text and do not depend on the file system or the parser |
| `Arguments.FirstFailingCheckDecides` | bam2fastq/Program.cs:32-49 | checks run in the order input, parse, range, output; the first one that fails gives the decision, and a failure before the output check is unaffected by anything not yet consulted |
| `Arguments.ThresholdEndpoints` | bam2fastq/Program.cs:42-45 | thresholds 0.0 and 1.0 are accepted; 1.5 and -0.2 are rejected as out of range |
| `QualityFilter.Kept` | bam2fastq/Program.cs:58-64 | every written read has quality strictly above the threshold, and no more reads are written than were read |
| `QualityFilter.Dropped` | bam2fastq/Program.cs:65-67 | every filtered read has quality at most the threshold |
| `QualityFilter.PassingPositions` | bam2fastq/Program.cs:58-61 | the positions of the passing reads, strictly increasing, and a position is listed iff its read passes |
| `QualityFilter.FilterReads` | bam2fastq/Program.cs:56-68 | the loop writes exactly `Kept` of the input; `numRead` is the number of reads and `numFiltered` the number of `Dropped` reads, both as 32-bit wrapped `int`; below 2^31 reads, `numRead == |written| + numFiltered` |
| `QualityFilter.KeptConcat` | bam2fastq/Program.cs:58-63 | filtering distributes over concatenation of read streams |
| `QualityFilter.KeptPrefix` | bam2fastq/Program.cs:58-63 | the output written before the decoder stops is a prefix of the output of the complete stream |
| `QualityFilter.KeptMembership` | bam2fastq/Program.cs:61-67 | a read is written iff it is in the input and its quality is strictly greater than the threshold |
| `QualityFilter.Partition` | bam2fastq/Program.cs:59-67 | as multisets, written plus filtered equals the input: no read is both, none is neither |
| `QualityFilter.CountsAddUp` | bam2fastq/Program.cs:56-68 | number written plus number filtered equals number read |
| `QualityFilter.KeptFollowsInput` | bam2fastq/Program.cs:58-63 | the j-th written read is the input read at the j-th passing position, so the output keeps input order |
| `QualityFilter.EqualQualityFiltered` | bam2fastq/Program.cs:61-67 | a read whose quality equals the threshold is filtered, not written |
| `QualityFilter.ThreeReadScenario` | bam2fastq/Program.cs:56-68 | qualities 0.95, 0.80, 0.50 with threshold 0.8: only the first read is written, two are filtered |
| `Int32.Wrap` | bam2fastq/Program.cs:56-57 | the 32-bit `int` value of an unbounded count: in range, congruent modulo 2^32, and unchanged when already in range |
| `Int32.Increment` | bam2fastq/Program.cs:59 | unchecked `++` on an `int` is the wrapped successor |
| `Int32.IncrementWrap` | bam2fastq/Program.cs:59-66 | incrementing a wrapped count gives the wrapped next count |
| `MainClass.Run` | bam2fastq/Program.cs:15-90 | an output file exists at the end iff validation proceeded; usage and validation outcomes stop with nothing created; two arguments crash in the generic handler with no output; a clean run writes `Kept` with the wrapped counts and a threshold in [0, 1]; a decoder exception leaves the `Kept` prefix in the output and is reported as DLL-missing or generic |

## Left out

- BAM decoding (`PacBioCCSBamReader.Parse`) is an external library. It is modelled only as the `Decoded` value: the reads it yields and the exception that stops it.
- The `read as PacBioCCSRead` cast (line 60) is not modelled: every read is a CCS read. A non-CCS read would throw a null reference exception in the generic handler.
- A `Read` holds only its identifier and read quality. Bases and per-base qualities pass through to the FASTQ encoder unchanged, so they play no part in any decision.
- FASTQ text encoding (`FastQFormatter`, Sanger quality offset) is an external library. Writing a read is modelled as appending it to the output sequence.
- `File.Exists`, `FileStream` creation and `Close` are file-system I/O. Existence is the `files` set, taken once for the whole validation chain. Creating the output is the `CreatesOutput` flag of the result. A `FileMode.CreateNew` failure, caused by a file appearing after the check, is not modelled.
- Buffering in the output stream is not modelled. On a crash, `Crashed.output` is what had been appended, whether or not it reached the disk.
- `Double.TryParse` (locale, number formats) and IEEE floating point are not modelled. The threshold and the qualities are `real`, so NaN and infinities are not covered. A NaN threshold would pass the range check and then filter every read.
- `PlatformManager.Services` settings (lines 16-18) are process-wide library configuration with no visible behaviour here.
- Console output is not modelled: message wording, usage text (`DisplayHelp`, lines 93-98), the summary line, stack traces and the inner-exception loop (lines 73-90). Outcomes are datatype tags that say which message would be printed.
