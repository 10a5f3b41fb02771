/** The argument handling of the command-line entry point
    `verbaflow [download model_dir] | [convert model_dir] | [inference model_dir] [debug_level]`,
    and the decoding options the `inference` subcommand passes to the
    generator. Parsing a debug level is an abstract partial function; the
    type of levels is a parameter. */
module Dispatch {
  import opened Wrappers

  datatype Command = Download | Convert | Inference

  /** What `main` does with its arguments. */
  datatype Action<+L> =
    | PrintUsage                         // no arguments, or an unknown subcommand
    | InvalidDebugLevel(arg: string)     // "Error: invalid debug level argument: %s"
    | MissingModelDir                    // "Error: missing model dir argument"
    | Run(command: Command, modelDir: string, level: L)

  function CommandNamed(name: string): (c: Option<Command>)
    ensures c == Some(Download) <==> name == "download"
    ensures c == Some(Convert) <==> name == "convert"
    ensures c == Some(Inference) <==> name == "inference"
  {
    if name == "download" then Some(Download)
    else if name == "convert" then Some(Convert)
    else if name == "inference" then Some(Inference)
    else None
  }

  /** `main`'s decision on `args` (the process arguments after the program
      name). The debug level is read only from a third argument, and is
      checked before the subcommand; without it the level is `traceLevel`.
      Arguments after the third are ignored. */
  function Dispatch<L>(args: seq<string>, parseLevel: string -> Option<L>, traceLevel: L): (a: Action<L>)
    ensures a.PrintUsage? <==>
              args == [] || (CommandNamed(args[0]).None? && (|args| <= 2 || parseLevel(args[2]).Some?))
    ensures a.InvalidDebugLevel? <==> |args| > 2 && parseLevel(args[2]).None?
    ensures a.InvalidDebugLevel? ==> a.arg == args[2]
    ensures a.MissingModelDir? <==> |args| == 1 && CommandNamed(args[0]).Some?
    ensures a.Run? <==>
              |args| >= 2 && CommandNamed(args[0]).Some? && (|args| == 2 || parseLevel(args[2]).Some?)
    ensures a.Run? ==> && Some(a.command) == CommandNamed(args[0])
                       && a.modelDir == args[1]
                       && a.level == (if |args| > 2 then parseLevel(args[2]).value else traceLevel)
  {
    if |args| == 0 then PrintUsage
    else
      var level :=
        if |args| > 2 then parseLevel(args[2]) else Some(traceLevel);
      if level.None? then InvalidDebugLevel(args[2])
      else
        match CommandNamed(args[0])
        case None => PrintUsage
        case Some(command) =>
          if |args| < 2 then MissingModelDir else Run(command, args[1], level.value)
  }

  /** The options literal of the `inference` subcommand. Floating-point
      knobs are kept as reals. */
  datatype DecodingOptions = DecodingOptions(
    minLen: int,
    maxLen: int,
    endTokenID: int,
    skipEndTokenID: bool,
    temp: real,
    topP: real,
    topK: int,
    useSampling: bool,
    endThreshold: real,
    stopSequencesIDs: seq<seq<int>>)

  const INFERENCE_OPTIONS := DecodingOptions(
    minLen := 0,
    maxLen := 200,
    endTokenID := 0,
    skipEndTokenID := true,
    temp := 1.0,
    topP := 0.8,
    topK := 120,
    useSampling := true,
    endThreshold := 1.0,
    stopSequencesIDs := [
      [187, 23433, 27],      // "\nQuestion:"
      [187, 50, 708, 329],   // "\nQ & A:"
      [187, 50, 27]          // "\nQ:"
    ])
}
