# ReadyToRun code-generation compilation builder

This project models the two self-contained parts of the ReadyToRun compilation
builder of the ahead-of-time compiler, and proves what they promise:

- **Backend-option parsing** (`UseBackendOptions`). Each raw option string is split at
  its first `=` into a `(name, value)` pair. A string with no `=`, or with `=` as its
  first character (an empty name), is skipped without any report. The parsed pairs,
  in input order, replace the builder's stored options; a fresh builder has none.
- **JIT-flag selection** (`ToCompilation`). The flag list handed to the code generator
  always starts with the debug-information flag. Then the optimization mode adds one
  flag: debug code for `None`, size optimisation for `PreferSize`, speed optimisation
  for `PreferSpeed`. Every other mode adds nothing, which the code generator reads as
  blended code.

Modules:

- `BackendOptions` (`backend_options.dfy`): the pair type, `IndexOf`, the parser of one
  option (`ParseOption`) and of a sequence (`ParseOptions`), and the lemmas about them.
- `JitFlagSelection` (`jit_flags.dfy`): the optimization modes, the flags, the mode-to-flags
  function `JitFlags` and its lemmas.
- `CompilationBuilder` (`compilation_builder.dfy`): the builder class with its mutable
  option field, the parsing loop `UseBackendOptions` proved against `ParseOptions`, and
  `ToCompilation` proved against `JitFlags`.

## Model

| member | source | states |
|---|---|---|
| `BackendOptions.IndexOf` | src/ILCompiler.ReadyToRun/src/Compiler/ReadyToRunCodegenCompilationBuilder.cs:44 | the result is -1 exactly when the character is absent; otherwise it is an index of that character with no earlier occurrence |
| `BackendOptions.ParseOption` | src/ILCompiler.ReadyToRun/src/Compiler/ReadyToRunCodegenCompilationBuilder.cs:44-55 | an option is kept exactly when it contains `=` and does not start with `=`; a kept pair has a non-empty name without `=`, and name + "=" + value is the raw option |
| `BackendOptions.ParseOptions` | src/ILCompiler.ReadyToRun/src/Compiler/ReadyToRunCodegenCompilationBuilder.cs:40-58 | the result is no longer than the input, and every kept name is non-empty and free of `=` |
| `BackendOptions.FormatThenParse` | src/ILCompiler.ReadyToRun/src/Compiler/ReadyToRunCodegenCompilationBuilder.cs:52-53 | parsing name + "=" + value gives back exactly that pair whenever the name is valid, even if the value contains `=` (split at the first `=`) |
| `BackendOptions.ParseOptionInjective` | src/ILCompiler.ReadyToRun/src/Compiler/ReadyToRunCodegenCompilationBuilder.cs:52-53 | two raw options that parse to the same pair are the same string: the split loses nothing |
| `BackendOptions.ParseOptionsAppend` | src/ILCompiler.ReadyToRun/src/Compiler/ReadyToRunCodegenCompilationBuilder.cs:42-55 | parsing a concatenation is the concatenation of the parses: order is preserved and options do not affect one another |
| `BackendOptions.ParseOptionsSingle` | src/ILCompiler.ReadyToRun/src/Compiler/ReadyToRunCodegenCompilationBuilder.cs:49-55 | one raw option yields exactly one pair when accepted and none otherwise |
| `BackendOptions.ParseOptionsSkipsRejected` | src/ILCompiler.ReadyToRun/src/Compiler/ReadyToRunCodegenCompilationBuilder.cs:49-50 | a rejected option (no `=`, or `=` at index 0) can be removed from anywhere in the input without changing the result |
| `BackendOptions.ParseOptionsMembership` | src/ILCompiler.ReadyToRun/src/Compiler/ReadyToRunCodegenCompilationBuilder.cs:42-55 | a pair is in the result if and only if some raw option parses to it |
| `BackendOptions.ParseOptionsKeepsAll` | src/ILCompiler.ReadyToRun/src/Compiler/ReadyToRunCodegenCompilationBuilder.cs:42-55 | the result is as long as the input if and only if every raw option is accepted |
| `BackendOptions.ParseOptionsFromInputs` | src/ILCompiler.ReadyToRun/src/Compiler/ReadyToRunCodegenCompilationBuilder.cs:42-55 | the i-th pair, formatted back, is a raw option at position i or later |
| `BackendOptions.ExampleOptionsParse` | src/ILCompiler.ReadyToRun/src/Compiler/ReadyToRunCodegenCompilationBuilder.cs:44-53 | `"opt=1"` and `"x=y=z"` split into `("opt", "1")` and `("x", "y=z")`; `"bad"` (no `=`) and `"=novalue"` (`=` at index 0) are rejected |
| `BackendOptions.ParseOptionsExample` | src/ILCompiler.ReadyToRun/src/Compiler/ReadyToRunCodegenCompilationBuilder.cs:38-61 | `["opt=1", "bad", "=novalue", "x=y=z"]` parses to `[("opt", "1"), ("x", "y=z")]` |
| `JitFlagSelection.JitFlags` | src/ILCompiler.ReadyToRun/src/Compiler/ReadyToRunCodegenCompilationBuilder.cs:94-113 | the list has one or two flags and starts with debug info, which does not recur; debug code, size and speed flags are present exactly for None, PreferSize and PreferSpeed; the list has one flag exactly for blended mode |
| `JitFlagSelection.JitFlagsDetermineMode` | src/ILCompiler.ReadyToRun/src/Compiler/ReadyToRunCodegenCompilationBuilder.cs:96-113 | size and speed flags never appear together, and reading the mode back from the flags (none of the three means blended) gives the original mode |
| `JitFlagSelection.JitFlagsInjective` | src/ILCompiler.ReadyToRun/src/Compiler/ReadyToRunCodegenCompilationBuilder.cs:96-113 | distinct modes give distinct flag lists |
| `CompilationBuilder.ReadyToRunCodegenCompilationBuilder.constructor` | src/ILCompiler.ReadyToRun/src/Compiler/ReadyToRunCodegenCompilationBuilder.cs:26-36 | a new builder has no backend options and keeps its input path and mode |
| `CompilationBuilder.ReadyToRunCodegenCompilationBuilder.UseBackendOptions` | src/ILCompiler.ReadyToRun/src/Compiler/ReadyToRunCodegenCompilationBuilder.cs:38-61 | the loop's result equals `ParseOptions` of the input; it replaces the stored options rather than appending to them, leaves the mode alone and returns the builder itself |
| `CompilationBuilder.ReadyToRunCodegenCompilationBuilder.ToCompilation` | src/ILCompiler.ReadyToRun/src/Compiler/ReadyToRunCodegenCompilationBuilder.cs:94-126 | the configuration passed to the code generator carries `JitFlags` of the builder's mode and the stored options unchanged, every one of them with a non-empty name free of `=`, and the compilation keeps the input path |

## Left out

- UseBackendOptions: a null option list or a null element makes the source throw
  before the stored options are assigned, so the previous options stay in place; the
  model's strings and sequences have no null, so the call always succeeds and always
  replaces the options.
- Constructor: loading the input module from its path, the devirtualization manager and
  the name mangler are type-system loading and collaborators outside this file; the
  model keeps only the input path and the default empty option list.
- The optimization mode is state of the base builder class, whose configuration methods
  are not part of this model; it is a constructor argument here.
- `UseILProvider` and `GetILProvider`: a setter and getter of an opaque IL provider, with
  nothing to state.
- The rest of `ToCompilation`: the interop stub manager, token resolver, signature
  context, node factory, dependency graph and the compilation object are collaborators
  whose code is not part of this model; only the flag list, the options and the input
  path handed on are modelled.
- `OptimizationMode` and `CorJitFlag` hold only the values this file uses. An out-of-range
  enum value reaches the `default` branch exactly as `Blended` does, so it is modelled by
  `Blended`.
- The stored option array is a `seq`: the source replaces it wholesale and never updates
  it in place, so nothing about aliasing is lost.
- `String.IndexOf(char)` is modelled by `IndexOf` as an ordinal character search.
