/** The code-generator flags the ReadyToRun compilation asks for, chosen by the
    optimization mode. */
module JitFlagSelection {

  /** The optimization policy of a compilation; any value other than the first three
      stands for blended code. */
  datatype OptimizationMode = None | PreferSize | PreferSpeed | Blended

  /** The code-generator flags this builder can request. */
  datatype CorJitFlag = DebugInfo | DebugCode | SizeOpt | SpeedOpt

  /** Debug information is always requested; then at most one flag selects the kind of
      code. Blended code is asked for by setting none of the other three. */
  function JitFlags(mode: OptimizationMode): (r: seq<CorJitFlag>)
    ensures 1 <= |r| <= 2 && r[0] == DebugInfo
    ensures DebugInfo !in r[1..]
    ensures DebugCode in r <==> mode == None
    ensures SizeOpt in r <==> mode == PreferSize
    ensures SpeedOpt in r <==> mode == PreferSpeed
    ensures |r| == 1 <==> mode == Blended
  {
    [DebugInfo] +
    match mode
    case None => [DebugCode]
    case PreferSize => [SizeOpt]
    case PreferSpeed => [SpeedOpt]
    case Blended => []
  }

  /** The mode a code generator reads back from the flags: debug code, size, speed,
      and blended when none of those three is set. */
  function ModeOf(flags: seq<CorJitFlag>): OptimizationMode {
    if DebugCode in flags then None
    else if SizeOpt in flags then PreferSize
    else if SpeedOpt in flags then PreferSpeed
    else Blended
  }

  /** The flag list never asks for both size- and speed-optimised code, and it carries
      the mode through to the code generator unchanged. */
  lemma JitFlagsDetermineMode(mode: OptimizationMode)
    ensures !(SizeOpt in JitFlags(mode) && SpeedOpt in JitFlags(mode))
    ensures ModeOf(JitFlags(mode)) == mode
  {
  }

  /** Distinct modes give distinct flag lists. */
  lemma JitFlagsInjective(a: OptimizationMode, b: OptimizationMode)
    requires JitFlags(a) == JitFlags(b)
    ensures a == b
  {
  }
}
