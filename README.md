# Dart PSI visitor dispatch and the Karma debug runner, in Dafny

This project models four small pieces of the IntelliJ Dart and Karma
plugins and proves properties of them.

- **The Dart PSI visitor** (`DartVisitor`). Every `visitX` method of the
  generated visitor has a body made of one forwarding call. A node kind
  forwards to one of eight categories (Expression, Component, Class,
  ExecutionScope, NamedElement, QNamedElement, Operator, Reference) or
  straight to `visitPsiCompositeElement`. Each category forwards to
  `visitPsiCompositeElement`, which forwards to the platform's
  `visitElement`. The table is `CategoryOf`, `ParentOf` and `Forward`.
  A visitor subclass is the map of operations it overrides, each either
  intercepting the call or calling `super`. `Run` is the sequence of
  operations a call executes. The lemmas show four things:
  - each chain has at most three steps, has no repeats and ends at the root;
  - the most specific override fires first;
  - a single override fires exactly once for the calls that reach it;
  - the commented-out secondary forwardings (`// visitReference(o);`,
    `// visitComponent(o);`) are never dispatched.
- **`DartFinalVarOrTypeImpl`** (`DartFinalVarOrType`). `getType` returns
  the first child of kind `Type`. `accept` sends a DartVisitor into
  `visitFinalVarOrType` and hands any other visitor to the base class.
- **The Karma reporter's `ideConfig.js`** (`KarmaIdeConfig`).
  - `parseArguments` is a loop over `argv` from index 2. It is proved
    equal to a recursive specification. The lemmas about that
    specification cover:
    - failure exactly on a malformed argument, with the first such
      argument's error;
    - later arguments overriding earlier ones;
    - `--__proto__=` being ignored;
    - a round trip from options to arguments and back.
  - The three getters are modelled, with `getRunnerPort` going through
    ECMAScript 5.1 `parseInt(s, 10)` (section 15.1.2.2).
- **`KarmaDebugProgramRunner`** (`KarmaDebugRunner`).
  - `canRun`.
  - `getDebugEngine`: nested loops that collect the engines whose
    browser family name occurs in a captured browser's name, then pick
    one of them.
  - `getDebuggableFileFinder`: the `/base` and `/absolute` URL mappings,
    collected in a bidirectional map whose `put` throws when the value is
    already bound to another key.

`Decimal` holds the decimal rendering of integers used in URLs and its
round trip with digit strings. `Wrappers` holds `Option` and `Result`.
An exception thrown by the source is an `Err` result. Java's `null` and
JavaScript's `undefined` and `NaN` are `None`.

## Model

| member | source | states |
|---|---|---|
| DartVisitor.CategoryOf | Dart/gen/com/jetbrains/lang/dart/psi/DartVisitor.java:9-565 | a kind's operation forwards to a category other than the platform root |
| DartVisitor.ParentOf | Dart/gen/com/jetbrains/lang/dart/psi/DartVisitor.java:567-597 | only the root has no forwarding target; every category forwards one level closer to the root |
| DartVisitor.Forward | Dart/gen/com/jetbrains/lang/dart/psi/DartVisitor.java:9-597 | every operation but `visitElement` forwards to exactly one operation, one step closer to the root |
| DartVisitor.DefaultChain | Dart/gen/com/jetbrains/lang/dart/psi/DartVisitor.java:9-597 | the default chain starts at the called operation, ends at `visitElement` and has at most four operations |
| DartVisitor.DefaultChainSteps | Dart/gen/com/jetbrains/lang/dart/psi/DartVisitor.java:9-597 | each chain element forwards to the next, heights drop by one per step, and no operation repeats |
| DartVisitor.KindChainShape | Dart/gen/com/jetbrains/lang/dart/psi/DartVisitor.java:9-565 | a kind's chain is the kind, its category, `visitPsiCompositeElement` (once) and `visitElement` |
| DartVisitor.CategoryChainShape | Dart/gen/com/jetbrains/lang/dart/psi/DartVisitor.java:567-597 | every category chain passes through `visitPsiCompositeElement` to `visitElement` |
| DartVisitor.KindChainMembers | Dart/gen/com/jetbrains/lang/dart/psi/DartVisitor.java:9-565 | a category is on a kind's chain iff it is the kind's category, PsiCompositeElement or the root |
| DartVisitor.SecondaryCategory | Dart/gen/com/jetbrains/lang/dart/psi/DartVisitor.java:13-16 | the commented-out second target exists only for expression kinds and is Reference or Component |
| DartVisitor.Run | Dart/gen/com/jetbrains/lang/dart/psi/DartVisitor.java:9-597 | a call runs a prefix of its default chain, cut right after the first override that does not call `super`, or at the root |
| DartVisitor.DefaultVisitorRunsWholeChain | Dart/gen/com/jetbrains/lang/dart/psi/DartVisitor.java:595-597 | with no overrides the whole chain runs and `visitElement` runs once, at its end |
| DartVisitor.MostSpecificOverrideFiresFirst | Dart/gen/com/jetbrains/lang/dart/psi/DartVisitor.java:9-597 | the first override to fire is the first overridden operation on the default chain |
| DartVisitor.SingleOverrideFiresOnce | Dart/gen/com/jetbrains/lang/dart/psi/DartVisitor.java:9-597 | a lone override fires exactly once when it is on the call's chain and never otherwise |
| DartVisitor.ComponentOverrideFiresForComponents | Dart/gen/com/jetbrains/lang/dart/psi/DartVisitor.java:571-573 | overriding `visitComponent` fires for exactly the kinds forwarding to Component, and not for FunctionExpression |
| DartVisitor.KindOverrideShadowsCategories | Dart/gen/com/jetbrains/lang/dart/psi/DartVisitor.java:9-565 | an intercepting kind override runs alone, hiding all category overrides |
| DartVisitor.SecondaryCategoryNeverDispatched | Dart/gen/com/jetbrains/lang/dart/psi/DartVisitor.java:206-209 | the commented-out secondary category is not on the chain, and overriding it never fires for that kind |
| DartFinalVarOrType.FirstChildOfKind | Dart/gen/com/jetbrains/lang/dart/psi/impl/DartFinalVarOrTypeImpl.java:22-24 | the result is the position of a child of the kind with none of that kind before it; `None` iff no child has it |
| DartFinalVarOrType.GetType | Dart/gen/com/jetbrains/lang/dart/psi/impl/DartFinalVarOrTypeImpl.java:20-24 | null iff no child is a Type; otherwise the first Type child |
| DartFinalVarOrType.Accept | Dart/gen/com/jetbrains/lang/dart/psi/impl/DartFinalVarOrTypeImpl.java:26-29 | only non-Dart visitors go to `super.accept`; a DartVisitor gets exactly the operations `Run` gives for `visitFinalVarOrType` under its overrides, in order, each on the node itself, starting with `visitFinalVarOrType` and followed only by category operations |
| DartFinalVarOrType.AcceptWithDefaultVisitor | Dart/gen/com/jetbrains/lang/dart/psi/impl/DartFinalVarOrTypeImpl.java:26-29 | a plain DartVisitor runs `visitFinalVarOrType`, `visitPsiCompositeElement`, `visitElement` on the node |
| DartFinalVarOrType.AcceptReachesSingleOverride | Dart/gen/com/jetbrains/lang/dart/psi/impl/DartFinalVarOrTypeImpl.java:26-29 | through `accept`, a lone override is called on the node iff it is `visitFinalVarOrType`, `visitPsiCompositeElement` or `visitElement`, and then it fires exactly once |
| DartFinalVarOrType.AcceptVisitsKindOnce | Dart/gen/com/jetbrains/lang/dart/psi/impl/DartFinalVarOrTypeImpl.java:26-29 | whatever the visitor overrides, `visitFinalVarOrType` runs exactly once |
| KarmaIdeConfig.MessageIdentifiesError | js-karma/src/js_reporter/karma-intellij/lib/ideConfig.js:11-43 | the thrown messages tell the four errors apart, and the argument errors name the offending argument |
| KarmaIdeConfig.HasDoubleDashPrefix | js-karma/src/js_reporter/karma-intellij/lib/ideConfig.js:11 | `indexOf('--') === 0` holds iff the argument's first two characters are `--` |
| KarmaIdeConfig.IndexOf | js-karma/src/js_reporter/karma-intellij/lib/ideConfig.js:14-15 | `indexOf` finds the first occurrence, and gives -1 iff the character is absent |
| KarmaIdeConfig.ParseArgument | js-karma/src/js_reporter/karma-intellij/lib/ideConfig.js:10-19 | fails iff the `--` prefix or the `=` is missing, with the matching error; otherwise the argument is exactly `--key=value` with no `=` in the key |
| KarmaIdeConfig.SetOption | js-karma/src/js_reporter/karma-intellij/lib/ideConfig.js:19 | the assignment adds or overwrites the key and leaves every other option unchanged, except that `__proto__` changes nothing |
| KarmaIdeConfig.ParseArgumentList | js-karma/src/js_reporter/karma-intellij/lib/ideConfig.js:9-20 | the options never hold `__proto__`, and a failure is one of the two argument errors |
| KarmaIdeConfig.OptionArguments | js-karma/src/js_reporter/karma-intellij/lib/ideConfig.js:9 | the loop reads `argv` from index 2 on, and nothing when there are two or fewer entries |
| KarmaIdeConfig.ParseArguments | js-karma/src/js_reporter/karma-intellij/lib/ideConfig.js:7-22 | the loop's result is the recursive parse of the option arguments |
| KarmaIdeConfig.ParsedArgumentsWellFormed | js-karma/src/js_reporter/karma-intellij/lib/ideConfig.js:9-20 | when parsing succeeds, every argument is well formed |
| KarmaIdeConfig.ParsedPrefix | js-karma/src/js_reporter/karma-intellij/lib/ideConfig.js:9-20 | every prefix of arguments that parse also parses |
| KarmaIdeConfig.FirstBadArgumentDecides | js-karma/src/js_reporter/karma-intellij/lib/ideConfig.js:11-17 | the error thrown is that of the first malformed argument, whatever follows |
| KarmaIdeConfig.ParseFailsIffSomeArgumentMalformed | js-karma/src/js_reporter/karma-intellij/lib/ideConfig.js:9-20 | parsing throws iff some argument is malformed |
| KarmaIdeConfig.AllWellFormedArgumentsParse | js-karma/src/js_reporter/karma-intellij/lib/ideConfig.js:9-20 | well-formed arguments never throw |
| KarmaIdeConfig.ParseListStep | js-karma/src/js_reporter/karma-intellij/lib/ideConfig.js:18-19 | the last argument updates the options of those before it |
| KarmaIdeConfig.ParseListSnoc | js-karma/src/js_reporter/karma-intellij/lib/ideConfig.js:18-19 | appending a well-formed argument sets its key to its value |
| KarmaIdeConfig.KeysComeFromArguments | js-karma/src/js_reporter/karma-intellij/lib/ideConfig.js:9-20 | a key that no argument names is absent from the options |
| KarmaIdeConfig.ConfigFileMissingNotSpecified | js-karma/src/js_reporter/karma-intellij/lib/ideConfig.js:39-43 | without a `--configFile=` argument `getConfigFile` throws |
| KarmaIdeConfig.KarmaPackageDirMissingNotSpecified | js-karma/src/js_reporter/karma-intellij/lib/ideConfig.js:26-30 | without a `--karmaPackageDir=` argument `getKarmaPackageDir` throws |
| KarmaIdeConfig.LastArgumentWins | js-karma/src/js_reporter/karma-intellij/lib/ideConfig.js:19 | a key's value comes from its last argument |
| KarmaIdeConfig.ProtoArgumentIgnored | js-karma/src/js_reporter/karma-intellij/lib/ideConfig.js:19 | `--__proto__=v` is accepted but leaves the options unchanged |
| KarmaIdeConfig.RenderOptions | js-karma/src/js_reporter/karma-intellij/lib/ideConfig.js:18-19 | one `--key=value` argument per key, in the keys' order |
| KarmaIdeConfig.ParseArgumentRoundTrip | js-karma/src/js_reporter/karma-intellij/lib/ideConfig.js:14-19 | `--key=value` with no `=` in the key parses back to that key and value, even when the value contains `=` |
| KarmaIdeConfig.RenderedKeysParse | js-karma/src/js_reporter/karma-intellij/lib/ideConfig.js:7-22 | rendered arguments parse to the options of the rendered keys |
| KarmaIdeConfig.OptionsRoundTrip | js-karma/src/js_reporter/karma-intellij/lib/ideConfig.js:7-22 | any options map with renderable keys, written in any key order, parses back to itself |
| KarmaIdeConfig.ProgramArgumentsIgnored | js-karma/src/js_reporter/karma-intellij/lib/ideConfig.js:9 | `argv[0]` and `argv[1]` (node and script) do not affect the result, and vectors of at most two entries all give the empty options |
| KarmaIdeConfig.GetKarmaPackageDir | js-karma/src/js_reporter/karma-intellij/lib/ideConfig.js:26-32 | returns the option iff it is present and non-empty; otherwise throws the matching error |
| KarmaIdeConfig.EmptyKarmaPackageDirNotSpecified | js-karma/src/js_reporter/karma-intellij/lib/ideConfig.js:26-32 | a last `--karmaPackageDir=` with an empty value makes the getter throw |
| KarmaIdeConfig.GetConfigFile | js-karma/src/js_reporter/karma-intellij/lib/ideConfig.js:39-45 | returns the option iff it is present and non-empty; otherwise throws the matching error |
| KarmaIdeConfig.ConfigFileFromCommandLine | js-karma/src/js_reporter/karma-intellij/lib/ideConfig.js:39-45 | the last `--configFile=f` with a non-empty `f` is what the getter returns |
| KarmaIdeConfig.GetRunnerPort | js-karma/src/js_reporter/karma-intellij/lib/ideConfig.js:47-54 | `undefined` when the option is absent; otherwise `parseInt` of the option |
| KarmaIdeConfig.RunnerPortFromCommandLine | js-karma/src/js_reporter/karma-intellij/lib/ideConfig.js:47-54 | the last `--runnerPort=<p>` gives port p |
| KarmaIdeConfig.RunnerPortUndefinedWhenUnset | js-karma/src/js_reporter/karma-intellij/lib/ideConfig.js:48-52 | an absent or empty option gives `undefined` |
| KarmaIdeConfig.ParseInt | js-karma/src/js_reporter/karma-intellij/lib/ideConfig.js:49-50 | NaN iff no digit follows the leading white space and optional sign; a negative result needs a leading `-` |
| KarmaIdeConfig.Sign | js-karma/src/js_reporter/karma-intellij/lib/ideConfig.js:49 | the sign is -1 iff the trimmed text starts with `-`, and 1 otherwise |
| KarmaIdeConfig.AfterSign | js-karma/src/js_reporter/karma-intellij/lib/ideConfig.js:49 | exactly one leading `+` or `-` is dropped; text starting otherwise is kept whole |
| KarmaIdeConfig.ParseIntReadsDigits | js-karma/src/js_reporter/karma-intellij/lib/ideConfig.js:49 | white space, then no sign, `+` or `-`, then digits (leading zeros allowed) ending at a non-digit: the value is the digits' value with that sign |
| KarmaIdeConfig.ParseIntOfSignedLeadingZeros | js-karma/src/js_reporter/karma-intellij/lib/ideConfig.js:49 | "+080" gives 80 |
| KarmaIdeConfig.TrimLeadingWhiteSpace | js-karma/src/js_reporter/karma-intellij/lib/ideConfig.js:49 | `parseInt` drops a prefix made only of white space and stops at the first other character |
| KarmaIdeConfig.LeadingDigits | js-karma/src/js_reporter/karma-intellij/lib/ideConfig.js:49 | `parseInt` reads the longest digit prefix |
| KarmaIdeConfig.ParseIntReadsRenderedInteger | js-karma/src/js_reporter/karma-intellij/lib/ideConfig.js:49 | `parseInt` gives back any rendered integer, with leading white space and trailing non-digit text allowed |
| KarmaIdeConfig.ParseIntOfRendering | js-karma/src/js_reporter/karma-intellij/lib/ideConfig.js:49 | `parseInt` inverts the decimal rendering |
| KarmaIdeConfig.ParseIntWithoutDigits | js-karma/src/js_reporter/karma-intellij/lib/ideConfig.js:49-51 | a string without digits is NaN |
| KarmaIdeConfig.ParseIntOfTrailingText | js-karma/src/js_reporter/karma-intellij/lib/ideConfig.js:49 | "80x" gives 80 |
| KarmaIdeConfig.ParseIntOfLeadingLetter | js-karma/src/js_reporter/karma-intellij/lib/ideConfig.js:49-51 | "x80" is NaN |
| KarmaIdeConfig.ParseIntWithoutLeadingDigit | js-karma/src/js_reporter/karma-intellij/lib/ideConfig.js:49-51 | text starting with a character that is not white space, a sign or a digit is NaN |
| KarmaDebugRunner.CanRun | js-karma/src/com/intellij/javascript/karma/debug/KarmaDebugProgramRunner.java:53-56 | true iff the executor is the debug executor and the profile is a Karma run configuration |
| KarmaDebugRunner.Contains | js-karma/src/com/intellij/javascript/karma/debug/KarmaDebugProgramRunner.java:151 | `contains` is true iff the text occurs at some position |
| KarmaDebugRunner.ContainsInfix | js-karma/src/com/intellij/javascript/karma/debug/KarmaDebugProgramRunner.java:151 | a browser name contains every part of it |
| KarmaDebugRunner.QualifyingEngines | js-karma/src/com/intellij/javascript/karma/debug/KarmaDebugProgramRunner.java:148-156 | the engines added are exactly the registered engines that match a captured browser, each added at most as often as it is registered |
| KarmaDebugRunner.NoEngineWithoutBrowsers | js-karma/src/com/intellij/javascript/karma/debug/KarmaDebugProgramRunner.java:145-159 | with no captured browsers nothing is added |
| KarmaDebugRunner.MatchesCapturedBrowser | js-karma/src/com/intellij/javascript/karma/debug/KarmaDebugProgramRunner.java:150-155 | the inner loop breaks iff some captured browser name contains the engine's family name |
| KarmaDebugRunner.GetDebugEngine | js-karma/src/com/intellij/javascript/karma/debug/KarmaDebugProgramRunner.java:144-161 | null iff no engine matches; otherwise a registered engine that matches a captured browser |
| KarmaDebugRunner.UrlFileBiMap.Put | js-karma/src/com/intellij/javascript/karma/debug/KarmaDebugProgramRunner.java:135-140 | `put` binds the key, unless another key already holds the value, in which case it throws and changes nothing; the map stays injective |
| KarmaDebugRunner.ServerUrl | js-karma/src/com/intellij/javascript/karma/debug/KarmaDebugProgramRunner.java:135 | the server address is `http://localhost:` followed by the decimal rendering of the port itself (which `parseInt` reads back and which differs for different ports), with a minus sign iff the port is negative |
| KarmaDebugRunner.BaseUrl | js-karma/src/com/intellij/javascript/karma/debug/KarmaDebugProgramRunner.java:135 | the `/base` mapping key is the server address followed by `/base`; `MappingUrlsDistinct` is its partner |
| KarmaDebugRunner.AbsoluteUrl | js-karma/src/com/intellij/javascript/karma/debug/KarmaDebugProgramRunner.java:139 | the `/absolute` mapping key is the server address followed by `/absolute`; `MappingUrlsDistinct` is its partner |
| KarmaDebugRunner.BaseDirectory | js-karma/src/com/intellij/javascript/karma/debug/KarmaDebugProgramRunner.java:130-134 | a base directory exists iff there is a config whose base path resolves to a valid file, and it is that file |
| KarmaDebugRunner.GetDebuggableFileFinder | js-karma/src/com/intellij/javascript/karma/debug/KarmaDebugProgramRunner.java:128-142 | fails iff the base directory is the file system root; otherwise `/absolute` maps to the root, `/base` to the base directory when there is one, and there are no other keys |
| KarmaDebugRunner.MappingUrlsDistinct | js-karma/src/com/intellij/javascript/karma/debug/KarmaDebugProgramRunner.java:135-139 | the `/base` and `/absolute` URLs never collide, and each determines its port |
| Decimal.NatToDecimal | js-karma/src/com/intellij/javascript/karma/debug/KarmaDebugProgramRunner.java:135-139 | a natural number renders as one or more digits, with no leading zero |
| Decimal.IntToDecimal | js-karma/src/com/intellij/javascript/karma/debug/KarmaDebugProgramRunner.java:135-139 | an `int` in a string concatenation renders as a minus sign iff it is negative, then digits only |
| Decimal.NatToDecimalRoundTrip | js-karma/src/js_reporter/karma-intellij/lib/ideConfig.js:49 | reading back the decimal digits of a number gives the number |
| Decimal.IntToDecimalInjective | js-karma/src/com/intellij/javascript/karma/debug/KarmaDebugProgramRunner.java:135-139 | distinct ports render as distinct strings |

## Left out

- The other members of `KarmaDebugProgramRunner` are out of scope: `getRunnerId` is a constant, and `doExecute`, `doStart` and `resumeTestRunning` drive IDE sessions, processes and console views.
- `requireKarmaModule` (ideConfig.js) loads a Node module from disk.
- The read of `process.argv` when the module loads is replaced by an argument-vector parameter. The getters take the parsed options as a parameter.
- `DefaultDebugExecutor.EXECUTOR_ID` comes from the platform. Its value `"Debug"` is a constant here.
- `JSDebugEngine.getEngines()` and the server's captured browser names are parameters. An engine is a value here (an id and a browser family name), not an object with identity.
- KarmaDebugRunner.GetDebugEngine: the element returned from the hash set depends on `HashSet` iteration order. The model picks an arbitrary candidate and states only that it qualifies.
- The same nondeterminism applies to the order in which the inner loop visits the captured-browser set. It affects only when the loop stops, not its result.
- The virtual file system lookup (`VfsUtil.findFileByIoFile`), the `File` normalisation of the base path and the local file system root are parameters: a map from path to virtual file and a root file.
- The `RemoteDebuggingFileFinder` built from the mappings is out of scope; the result is the mappings themselves.
- KarmaIdeConfig.GetRunnerPort: JavaScript numbers are doubles. Precision loss above 2^53 and the value `-0` (for "-0") are not modelled; the model gives the exact integer, so "-0" gives 0.
- KarmaIdeConfig.SetOption: of the names JavaScript objects inherit, only `__proto__` changes what an assignment does. Other inherited names would only matter to a getter reading that name, and the getters read fixed names.
- DartFinalVarOrType.GetType: `findChildByClass(DartType.class)` matches any child whose class implements `DartType`. The model takes that to be exactly the children of kind Type.
- Leaf children (tokens) of a PSI node are not modelled, since `findChildByClass` never returns them for a composite interface.
- The platform's `PsiElementVisitor.visitElement` and the base class's `accept` are out of scope. The first is the no-op root of the chain; the second is the `DelegatedToSuper` outcome.
- DartVisitor.OverrideBody: an override either does its own work and stops, or does its own work and then calls `super` once. An override that calls `super` more than once, calls another `visitX(o)` directly, or chooses at run time whether to call `super` is not represented, so `Run` and the lemmas about it say nothing about such visitors.
- The node passed along the chain is the same at every step, so `Run` records only operations; `Accept` pairs each with the node.
- `cucumber-java/src/org/jetbrains/plugins/cucumber/java/JavaCucumberExtension.java` is not part of this model.
