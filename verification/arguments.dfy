/**
 * The argument and validation chain of bam2fastq: from the argument
 * vector it decides on exactly one outcome before any output is created.
 * The file system and the decimal parser are not modelled; they appear
 * as `files`, the set of paths for which `File.Exists` answers true, and
 * `tryParse`, the result `Double.TryParse` gives for a token.
 */
module Arguments {
  import opened Wrappers

  /** The tokens that ask for the usage text in first position. */
  predicate IsHelpToken(s: string) {
    s == "h" || s == "help" || s == "?" || s == "-h"
  }

  /** The outcome of the validation chain. */
  datatype Decision =
    | TooManyArguments                  // message, then usage text
    | NotEnoughArguments                // message, then usage text
    | Help                              // usage text only
    | IndexOutOfRange                   // two arguments: reading the third one throws
    | InputNotFound(input: string)
    | ThresholdUnparsable(token: string)
    | ThresholdOutOfRange(minRq: real)
    | OutputExists(output: string)
    | Proceed(input: string, minRq: real, output: string)
  {
    /** The usage text is displayed. */
    predicate ShowsUsage() {
      TooManyArguments? || NotEnoughArguments? || Help?
    }

    /** A single diagnostic line is printed and the program returns. */
    predicate IsValidationError() {
      InputNotFound? || ThresholdUnparsable? || ThresholdOutOfRange? || OutputExists?
    }
  }

  /** A parsed threshold is accepted when it lies in the closed interval [0, 1]. */
  predicate InUnitInterval(minRq: real) {
    !(minRq < 0.0 || minRq > 1.0)
  }

  /** The decision chain of the program, checked in the order the code checks it. */
  function Validate(args: seq<string>, files: set<string>, tryParse: string -> Option<real>): (d: Decision)
    // the arity checks come first, so a lone help token is "not enough arguments"
    ensures d == TooManyArguments <==> |args| > 3
    ensures d == NotEnoughArguments <==> |args| < 2
    ensures d == Help <==> 2 <= |args| <= 3 && IsHelpToken(args[0])
    ensures d == IndexOutOfRange <==> |args| == 2 && !IsHelpToken(args[0])
    // the output may only be created once every check has passed
    ensures d.Proceed? <==>
      |args| == 3 && !IsHelpToken(args[0]) && args[0] in files &&
      tryParse(args[1]).Some? && InUnitInterval(tryParse(args[1]).value) && args[2] !in files
    ensures d.Proceed? ==>
      d.input == args[0] && tryParse(args[1]) == Some(d.minRq) && d.output == args[2] &&
      0.0 <= d.minRq <= 1.0 && d.input in files && d.output !in files
    ensures d.ShowsUsage() || d.IsValidationError() || d == IndexOutOfRange || d.Proceed?
  {
    if |args| > 3 then TooManyArguments
    else if |args| < 2 then NotEnoughArguments
    else if IsHelpToken(args[0]) then Help
    else if |args| < 3 then IndexOutOfRange
    else
      var input, threshold, output := args[0], args[1], args[2];
      if input !in files then InputNotFound(input)
      else match tryParse(threshold)
        case None => ThresholdUnparsable(threshold)
        case Some(minRq) =>
          if minRq < 0.0 || minRq > 1.0 then ThresholdOutOfRange(minRq)
          else if output in files then OutputExists(output)
          else Proceed(input, minRq, output)
  }

  /**
   * Usage outcomes consult neither the file system nor the parser: two
   * environments that differ in every respect give the same decision.
   */
  lemma UsageIgnoresEnvironment(args: seq<string>, files: set<string>, tryParse: string -> Option<real>,
                                files': set<string>, tryParse': string -> Option<real>)
    requires |args| > 3 || |args| < 2 || IsHelpToken(args[0])
    ensures Validate(args, files, tryParse).ShowsUsage()
    ensures Validate(args, files, tryParse) == Validate(args, files', tryParse')
  {
  }

  /**
   * The checks run in the order input, threshold parse, threshold range,
   * output. Once one fails, the later ones do not influence the decision:
   * an environment that agrees only on what was consulted so far decides
   * the same.
   */
  lemma FirstFailingCheckDecides(args: seq<string>, files: set<string>, tryParse: string -> Option<real>,
                                 files': set<string>, tryParse': string -> Option<real>)
    requires |args| == 3 && !IsHelpToken(args[0])
    requires args[0] in files <==> args[0] in files'
    requires args[0] in files ==> tryParse(args[1]) == tryParse'(args[1])
    ensures args[0] !in files ==> Validate(args, files, tryParse) == InputNotFound(args[0])
    ensures args[0] in files && tryParse(args[1]).None? ==>
      Validate(args, files, tryParse) == ThresholdUnparsable(args[1])
    ensures args[0] in files && tryParse(args[1]).Some? && !InUnitInterval(tryParse(args[1]).value) ==>
      Validate(args, files, tryParse) == ThresholdOutOfRange(tryParse(args[1]).value)
    ensures args[0] in files && tryParse(args[1]).Some? && InUnitInterval(tryParse(args[1]).value) && args[2] in files ==>
      Validate(args, files, tryParse) == OutputExists(args[2])
    ensures var d := Validate(args, files, tryParse);
      d.InputNotFound? || d.ThresholdUnparsable? || d.ThresholdOutOfRange? ==>
        Validate(args, files', tryParse') == d
  {
  }

  /** Both ends of the threshold interval are accepted, and values just outside it are not. */
  lemma ThresholdEndpoints(input: string, token: string, output: string, files: set<string>,
                           tryParse: string -> Option<real>)
    requires !IsHelpToken(input) && input in files && output !in files
    ensures tryParse(token) == Some(0.0) ==> Validate([input, token, output], files, tryParse) == Proceed(input, 0.0, output)
    ensures tryParse(token) == Some(1.0) ==> Validate([input, token, output], files, tryParse) == Proceed(input, 1.0, output)
    ensures tryParse(token) == Some(1.5) ==> Validate([input, token, output], files, tryParse) == ThresholdOutOfRange(1.5)
    ensures tryParse(token) == Some(-0.2) ==> Validate([input, token, output], files, tryParse) == ThresholdOutOfRange(-0.2)
  {
  }
}
