/** The ReadyToRun code-generation compilation builder: it keeps the parsed backend
    options and the optimization mode, and hands both to the code generator's
    configuration when the compilation is built. */
module CompilationBuilder {

  import BackendOptions
  import JitFlagSelection

  /** What the compilation passes to the code generator: the flag list and the
      backend options, in that order. */
  datatype JitConfigProvider = JitConfigProvider(
    flags: seq<JitFlagSelection.CorJitFlag>,
    options: seq<BackendOptions.KeyValuePair>)

  /** The parts of the built compilation that this model covers. */
  datatype Compilation = Compilation(jitConfig: JitConfigProvider, inputFilePath: string)

  class ReadyToRunCodegenCompilationBuilder {
    const inputFilePath: string
    /** Set by the base builder's configuration; read when the compilation is built. */
    var optimizationMode: JitFlagSelection.OptimizationMode
    var ryujitOptions: seq<BackendOptions.KeyValuePair>

    /** Every stored option has a name the code generator accepts. */
    predicate Valid()
      reads this
    {
      forall i :: 0 <= i < |ryujitOptions| ==> BackendOptions.ValidName(ryujitOptions[i].key)
    }

    /** A fresh builder has no backend options, so a caller may skip configuring them. */
    constructor (inputFilePath: string, mode: JitFlagSelection.OptimizationMode)
      ensures Valid()
      ensures ryujitOptions == []
      ensures this.inputFilePath == inputFilePath && optimizationMode == mode
    {
      this.inputFilePath := inputFilePath;
      optimizationMode := mode;
      ryujitOptions := [];
    }

    /** Replaces the stored options by those parsed from `options`; earlier options are
        discarded, not extended. */
    method UseBackendOptions(options: seq<string>) returns (self: ReadyToRunCodegenCompilationBuilder)
      modifies this
      ensures self == this && Valid()
      ensures ryujitOptions == BackendOptions.ParseOptions(options)
      ensures optimizationMode == old(optimizationMode)
    {
      var builder: seq<BackendOptions.KeyValuePair> := [];
      var i := 0;
      while i < |options|
        invariant 0 <= i <= |options|
        invariant builder == BackendOptions.ParseOptions(options[..i])
      {
        var param := options[i];
        assert options[..i + 1][..i] == options[..i];
        var indexOfEquals := BackendOptions.IndexOf(param, '=');
        if indexOfEquals >= 1 {
          var name := param[..indexOfEquals];
          var value := param[indexOfEquals + 1..];
          builder := builder + [BackendOptions.KeyValuePair(name, value)];
        }
        i := i + 1;
      }
      assert options[..i] == options;
      ryujitOptions := builder;
      self := this;
    }

    /** The code-generator configuration of the compilation: debug information always,
        the mode's own flag, and the stored backend options unchanged. */
    method ToCompilation() returns (c: Compilation)
      requires Valid()
      ensures forall i :: 0 <= i < |c.jitConfig.options| ==>
        BackendOptions.ValidName(c.jitConfig.options[i].key)
      ensures c.jitConfig.flags == JitFlagSelection.JitFlags(optimizationMode)
      ensures c.jitConfig.options == ryujitOptions
      ensures c.inputFilePath == inputFilePath
    {
      var corJitFlags := [JitFlagSelection.DebugInfo];
      match optimizationMode {
        case None =>
          corJitFlags := corJitFlags + [JitFlagSelection.DebugCode];
        case PreferSize =>
          corJitFlags := corJitFlags + [JitFlagSelection.SizeOpt];
        case PreferSpeed =>
          corJitFlags := corJitFlags + [JitFlagSelection.SpeedOpt];
        case Blended =>
      }
      var jitConfig := JitConfigProvider(corJitFlags, ryujitOptions);
      c := Compilation(jitConfig, inputFilePath);
    }
  }
}
