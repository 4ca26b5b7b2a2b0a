/**
 * One run of bam2fastq: validate the arguments, create the output file,
 * stream the decoded records through the quality filter and report the
 * counts, with the two top-level exception handlers as outcomes.
 */
module MainClass {
  import opened Wrappers
  import Arguments
  import QualityFilter
  import Int32

  /** The exceptions the top-level handlers tell apart. */
  datatype Fault =
    | DllNotFound      // the native decoding library could not be loaded
    | OtherException   // any other exception, reported with its inner exceptions

  /**
   * What the BAM reader yields for the input file: the reads it produces,
   * in order, and the exception it throws after them, if any.
   */
  datatype Decoded = Decoded(records: seq<QualityFilter.Read>, fault: Option<Fault>)

  /** How a run ends. */
  datatype RunResult =
    | Stopped(decision: Arguments.Decision)
      // usage text or a validation message; no output file is created
    | Completed(written: seq<QualityFilter.Read>, numRead: int, numFiltered: int, minRq: real)
      // output closed, summary line printed
    | Crashed(fault: Fault, output: Option<seq<QualityFilter.Read>>)
      // caught at top level; `output` is what had been appended to the
      // output file, or None when no output file had been created
  {
    predicate CreatesOutput() {
      Completed? || (Crashed? && output.Some?)
    }
  }

  /** The body of `Main`: the decision chain, then the filter loop. */
  method Run(args: seq<string>, files: set<string>, tryParse: string -> Option<real>, decoded: Decoded)
    returns (r: RunResult)
    // the output file is created only when every check passed
    ensures r.CreatesOutput() <==> Arguments.Validate(args, files, tryParse).Proceed?
    ensures Arguments.Validate(args, files, tryParse).ShowsUsage() ||
            Arguments.Validate(args, files, tryParse).IsValidationError() ==>
      r == Stopped(Arguments.Validate(args, files, tryParse))
    // two arguments: the absent output argument throws, caught by the generic handler
    ensures Arguments.Validate(args, files, tryParse) == Arguments.IndexOutOfRange ==>
      r == Crashed(OtherException, None)
    ensures Arguments.Validate(args, files, tryParse).Proceed? && decoded.fault.None? ==>
      var t := Arguments.Validate(args, files, tryParse).minRq;
      r.Completed? && r.minRq == t && 0.0 <= t <= 1.0 &&
      r.written == QualityFilter.Kept(decoded.records, t) &&
      r.numRead == Int32.Wrap(|decoded.records|) &&
      r.numFiltered == Int32.Wrap(|QualityFilter.Dropped(decoded.records, t)|)
    ensures Arguments.Validate(args, files, tryParse).Proceed? && decoded.fault.Some? ==>
      r == Crashed(decoded.fault.value,
                   Some(QualityFilter.Kept(decoded.records, Arguments.Validate(args, files, tryParse).minRq)))
  {
    var d := Arguments.Validate(args, files, tryParse);
    if d == Arguments.IndexOutOfRange {
      return Crashed(OtherException, None);
    }
    if !d.Proceed? {
      return Stopped(d);
    }
    var written, numRead, numFiltered := QualityFilter.FilterReads(decoded.records, d.minRq);
    if decoded.fault.Some? {
      return Crashed(decoded.fault.value, Some(written));
    }
    r := Completed(written, numRead, numFiltered, d.minRq);
  }
}
