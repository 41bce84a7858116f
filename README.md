# cas-service core, modelled in Dafny

cas-service is a small HTTP service that checks LaTeX formulas with several
computer-algebra engines (SymPy, Maxima, MATLAB, SageMath, GAP and the
WolframAlpha web API) and runs template computations on the engines that
support them. This project models its core and proves properties of the
model:

- the engine abstraction: capabilities, validation and compute results, the
  compute request, and the defaults every engine inherits (`base.dfy`);
- the ordered admission checks of template compute (engine unavailable,
  unknown template, missing input, rejected input) and the per-engine
  blocked-token sanitizers (`admission.dfy`, `patterns.dfy`);
- equation detection and splitting (`equations.dfy`);
- the LaTeX preprocessing pipeline (`preprocessing.dfy`);
- each engine's validate and compute paths, including the output parsers of
  Maxima, MATLAB, Sage and WolframAlpha (`*_engine.dfy`);
- the subprocess executor and its job registry, with eviction of the oldest
  finished jobs (`executor.dfy`);
- the setup wizard's `.env` file store, its step runner and the SymPy and
  Maxima version gates (`setup_*.dfy`);
- the HTTP handler's routing, request checking and reply shapes
  (`handler.dfy`);
- the Python built-ins the above rely on: `strip`, `split`, `splitlines`,
  `find`, `replace`, `lower`, `int`, `str` and slicing (`strings.dfy`).

Processes, the network, the clock, the file system and the engines' own
mathematics are parameters of the model: a `ProcessOutcome` stands for what
a subprocess run ended with, a host record supplies `shutil.which` and the
process runner, and the SymPy parser and simplifier are functions passed in.
Classes model the objects whose fields the source updates in place: the
executor's job registry, the GAP and Sage engines' cached availability and
version, the `.env` file, and the Maxima setup step's found path.

## Model

| member | source | states |
|---|---|---|
| Base.ErrorCodeNamesDistinct | cas_service/engines/base.py:43-53 | distinct error codes have distinct wire strings |
| Base.EngineFailure | cas_service/engines/base.py:18-28 | a failed EngineResult carries the engine, the error and no validity, simplified or parsed text |
| Base.Lookup | cas_service/engines/base.py:31-39 | `inputs.get(key)` is present exactly when the key is supplied, and then holds that key's value |
| Base.NewComputeRequest | cas_service/engines/base.py:31-39 | a request built without inputs or timeout has no inputs and a 5-second timeout |
| Base.Failure | cas_service/engines/base.py:42-53 | a failure result is well formed: error and error code present, no value, empty output |
| Base.FailureWithOutput | cas_service/engines/base.py:42-53 | a failure that keeps the captured stdout and stderr is well formed |
| Base.Success | cas_service/engines/base.py:42-53 | a success result is well formed: a value, no error and no error code |
| Base.DefaultCompute | cas_service/engines/base.py:66-73 | the inherited compute fails with NOT_IMPLEMENTED and "Engine '<name>' does not support compute" |
| Base.DefaultCapabilitiesOnlyValidate | cas_service/engines/base.py:83-86 | the inherited capability list is exactly `[validate]` |
| Admission.MissingKeys | cas_service/engines/gap_engine.py:143-154 | the missing list holds exactly the required keys not supplied, in template order |
| Admission.Admit | cas_service/engines/gap_engine.py:121-165 | the ordered checks of `compute`: an unknown template is refused with "Unknown template: " and its name, missing inputs with "Missing required inputs: " and the missing keys joined by ", " (the order and the admitted case are stated by `AdmittedIff` and `RefusalOrder`) |
| Admission.FirstRejected | cas_service/engines/gap_engine.py:156-165 | the index found is the first input, in insertion order, whose value the sanitizer rejects; None when it accepts all |
| Admission.FindRejected | cas_service/engines/gap_engine.py:156-165 | the sanitize loop stops at the first rejected value, as FirstRejected |
| Admission.AdmittedIff | cas_service/engines/gap_engine.py:121-171 | a request is executed iff the engine is available, the template known, every required input supplied and every value accepted |
| Admission.RefusalOrder | cas_service/engines/gap_engine.py:121-165 | each refusal code is returned exactly when its check is the first one to fail |
| Admission.InvalidNamesFirstRejected | cas_service/engines/gap_engine.py:156-165 | INVALID_INPUT names the first rejected key in insertion order |
| Admission.EffectiveTimeout | cas_service/engines/gap_engine.py:171 | the run timeout is the smaller of the request's and the engine's |
| Admission.Refused | cas_service/engines/gap_engine.py:124-130 | a refusal becomes a well-formed failure with its code and message |
| Equations.FindStandalone | cas_service/engines/sympy_engine.py:111-114 | the match found is the leftmost "=" not preceded by a look-behind character and not followed by "=" |
| Equations.FindIffHas | cas_service/engines/sympy_engine.py:106-109 | `re.search` finds a match iff a standalone "=" exists |
| Equations.WiderBeforeFindsLess | cas_service/engines/matlab_engine.py:285-287 | a wider look-behind set recognises only texts the narrower one recognises |
| Equations.DoubleEquals | cas_service/engines/maxima_engine.py:170-172 | "a==b" is an equation for SymPy's and Maxima's patterns (at its second "=") but not for MATLAB's and Sage's |
| Equations.SplitAtFirstEquals | cas_service/engines/maxima_engine.py:104-105 | `split("=", 1)` gives the text before the first "=" and the rest, rejoined by "=" |
| Patterns.LiteralBlocks | cas_service/engines/gap_engine.py:78-83 | any occurrence of a literal alternative, in any letter case, blocks the value |
| Patterns.SpreadBlocks | cas_service/engines/sage_engine.py:65-71 | `first\s.*last` blocks a value where `first`, a blank and later on the same line `last` occur |
| Patterns.UnblockedWithoutLeads | cas_service/engines/gap_engine.py:78-83 | a value holding no alternative's leading text is never blocked |
| Patterns.SkipSpaces | cas_service/engines/gap_engine.py:78-83 | `\s*` takes the longest run of whitespace from the given position: every character skipped is whitespace and the next one is not |
| Patterns.UnblockedHasNoLiteral | cas_service/engines/gap_engine.py:78-83 | a value the pattern does not block holds no literal alternative at any position of its lower-cased text |
| Executor.Shape | cas_service/runtime/executor.py:100-137 | `run`'s result: output cut to the cap, `truncated` iff either stream exceeded it, `timed_out` iff the timeout expired, return code -1 with stderr "Process timed out after {timeout}s" on timeout and "Command not found: {command[0]}" for a missing program |
| Executor.FinalStatus | cas_service/runtime/executor.py:228-233 | a finished run leaves its job terminal and never cancelled: timeout exactly when the run timed out, completed exactly when it did not and exited 0, failed otherwise |
| Executor.Victims | cas_service/runtime/executor.py:235-252 | below the limit nothing is evicted; at or above it at most `len(jobs) - max_jobs + 1` jobs are |
| Executor.Insert | cas_service/runtime/executor.py:239-252 | one step of the stable sort: the result is one entry longer and holds the inserted entry (its permutation, membership and order facts are `InsertPermutes`, `InsertMembers` and `InsertSorted`) |
| Executor.SortByAge | cas_service/runtime/executor.py:239-252 | the stable `sorted` by `created_at` keeps the number of entries (it is a sorted permutation by `SortByAgeCorrect`) |
| Executor.InsertPermutes | cas_service/runtime/executor.py:239-252 | inserting into the age order adds exactly the inserted entry |
| Executor.InsertMembers | cas_service/runtime/executor.py:239-252 | inserting into the age order brings in no entry but the inserted one |
| Executor.SortedCons | cas_service/runtime/executor.py:239-252 | an entry no younger than a sorted sequence's entries may go first |
| Executor.InsertSorted | cas_service/runtime/executor.py:239-252 | stable insertion keeps the sequence sorted by creation time |
| Executor.SortByAgeCorrect | cas_service/runtime/executor.py:239-252 | the stable sort by `created_at` is a permutation and is sorted |
| Executor.TerminalEntries | cas_service/runtime/executor.py:239-250 | the candidates are exactly the jobs in a terminal status, with their creation times |
| Executor.Ids | cas_service/runtime/executor.py:253-254 | the ids deleted are those of the chosen entries, in order |
| Executor.VictimsAreOldestTerminal | cas_service/runtime/executor.py:235-254 | eviction deletes nothing below `max_jobs` jobs, only terminal jobs, `len(jobs) - max_jobs + 1` of them when there are that many, and none younger than a terminal job it keeps |
| Executor.TerminalSorted | cas_service/runtime/executor.py:239-252 | the eviction order holds every terminal job once, with its creation time, oldest first |
| Executor.Without | cas_service/runtime/executor.py:253-254 | the registry order after deletion keeps exactly the ids not deleted |
| Executor.WithoutKeepsDistinct | cas_service/runtime/executor.py:253-254 | deleting keys keeps every id listed at most once |
| Executor.WithoutMore | cas_service/runtime/executor.py:253-254 | deleting one more id equals deleting the larger set at once |
| Executor.AsSetGrows | cas_service/runtime/executor.py:253-254 | the deleted set grows by one id per deletion |
| Executor.WithoutNothing | cas_service/runtime/executor.py:237-238 | deleting nothing leaves the order unchanged |
| Executor.AppendFresh | cas_service/runtime/executor.py:155-157 | appending a fresh id keeps the order free of duplicates |
| Executor.WithoutKeepsWellFormed | cas_service/runtime/executor.py:253-254 | deletion keeps the registry invariant: each job listed once, keyed by its id, status consistent with its fields |
| Executor.AddKeepsWellFormed | cas_service/runtime/executor.py:155-157 | adding a consistent job under a fresh id keeps the registry invariant |
| Executor.DeleteJobs | cas_service/runtime/executor.py:253-254 | the deletion loop removes exactly the victims from the jobs and from their order |
| Executor.SubprocessExecutor.constructor | cas_service/runtime/executor.py:80-90 | a new executor has no jobs and keeps its default timeout, output cap and job limit |
| Executor.SubprocessExecutor.Run | cas_service/runtime/executor.py:92-137 | a None or 0 timeout or cap falls back to the executor's; the output never exceeds the cap in use |
| Executor.SubprocessExecutor.GetJob | cas_service/runtime/executor.py:167-170 | the job under the id when there is one, else None |
| Executor.SubprocessExecutor.Poll | cas_service/runtime/executor.py:172-185 | `wait` answers None for an unknown id, the result once the job is terminal (None for a cancelled job, present for every other terminal job), and polls again otherwise |
| Executor.SubprocessExecutor.EvictOldJobs | cas_service/runtime/executor.py:235-254 | removes exactly the victims from the registry and its order, keeps the invariant and moves no job backwards |
| Executor.SubprocessExecutor.Submit | cas_service/runtime/executor.py:139-165 | evicts, then adds a Pending job at the end with the defaulted timeout and the executor's cap |
| Executor.SubprocessExecutor.Cancel | cas_service/runtime/executor.py:187-194 | cancels iff the job exists and is Pending; nothing else changes |
| Executor.SubprocessExecutor.StartJob | cas_service/runtime/executor.py:212-216 | a cancelled job is left alone; a pending one becomes Running with its start time |
| Executor.SubprocessExecutor.FinishJob | cas_service/runtime/executor.py:225-233 | records the result and completion time; the status is TIMEOUT, COMPLETED or FAILED from the result |
| Executor.SubprocessExecutor.ExecuteJob | cas_service/runtime/executor.py:210-233 | a cancelled job is untouched; a pending job ends holding `run`'s result with the matching final status when `run` returns, and stays Running with its start time and no result when `run` raises, so `wait` polls it forever; no job moves backwards in its lifecycle |
| Executor.SubprocessExecutor.RunStartedJob | cas_service/runtime/executor.py:218-233 | after the job is marked Running: a raising `run` changes nothing more, otherwise the job takes `run`'s result, the completion time and the matching final status; nothing else changes |
| GapEngine.SanitizerBlocksExec | cas_service/engines/gap_engine.py:78-83 | "Exec(1)" and "EXEC(1)" are both refused: the block list ignores case |
| GapEngine.SanitizerBlocksSeparators | cas_service/engines/gap_engine.py:86-95 | an empty, over-long, ";"- or newline-holding value is refused |
| GapEngine.InputOk | cas_service/engines/gap_engine.py:86-95 | an accepted value is non-empty, at most 200 characters, holds no ";" or newline, and no blocked literal in any letter case |
| GapEngine.Generate | cas_service/engines/gap_engine.py:34-50 | the script is the template's fixed prefix, the group expression verbatim, and the fixed suffix |
| GapEngine.Script | cas_service/engines/gap_engine.py:166-168 | the script of an admitted request is the template's fixed prefix and suffix around the supplied `group_expr` value, verbatim |
| GapEngine.SanitizedScriptIsOneStatement | cas_service/engines/gap_engine.py:86-95 | with an accepted group expression the generated script's only ";" and newline are its final ";;\n" |
| GapEngine.RunGap | cas_service/engines/gap_engine.py:174-238 | success iff the process exited 0, with the stripped stdout as value; TIMEOUT, ENGINE_UNAVAILABLE and ENGINE_ERROR exactly for expiry, missing binary, and a non-zero exit or other error; output capped at 64 KB |
| GapEngine.ComputeSpec | cas_service/engines/gap_engine.py:121-172 | a refused request returns the refusal's code and runs nothing; every error code is one of the six compute can produce |
| GapEngine.AdmittedComputeIsRun | cas_service/engines/gap_engine.py:166-172 | an admitted request returns exactly `_run_gap` of GAP's run of the template script, under `min(request.timeout_s, self.timeout)` |
| GapEngine.AdmittedRunsSanitizedScript | cas_service/engines/gap_engine.py:152-172 | an admitted request has a known template, its group expression supplied and accepted, and a timeout no larger than the engine's |
| GapEngine.Validate | cas_service/engines/gap_engine.py:113-119 | GAP refuses LaTeX validation with a fixed error and no validity |
| GapEngine.ChoosePath | cas_service/engines/gap_engine.py:103-111 | the argument path if non-empty, else `CAS_GAP_PATH`, else "gap" |
| GapEngine.DetectedVersion | cas_service/engines/gap_engine.py:247-259 | the version becomes the stripped probe output only when the probe exited 0 with non-blank output |
| GapEngine.GapEngine.constructor | cas_service/engines/gap_engine.py:103-111 | availability unknown, version "unknown", path chosen as ChoosePath |
| GapEngine.GapEngine.IsAvailable | cas_service/engines/gap_engine.py:239-245 | the PATH lookup and version probe run once; later calls answer from the cache without change |
| GapEngine.GapEngine.GetVersion | cas_service/engines/gap_engine.py:261-265 | the version after availability has been settled: on the first call availability becomes whether GAP is on PATH, and the version is then detected from the version probe, or left as it was when GAP is absent |
| GapEngine.GapEngine.Compute | cas_service/engines/gap_engine.py:121-172 | equals ComputeSpec, and runs GAP exactly once for an admitted request and never for a refused one |
| SageEngine.SanitizerBlocksImport | cas_service/engines/sage_engine.py:65-71 | "__IMPORT__(1)" is refused: the block list ignores case |
| SageEngine.SanitizerBlocksEvalCall | cas_service/engines/sage_engine.py:65-71 | "Eval (1)" is refused: `eval\s*\(` allows blanks before the parenthesis |
| SageEngine.SanitizerBlocksFromImport | cas_service/engines/sage_engine.py:65-71 | "from m import f" is refused by `from\s.*import` |
| SageEngine.InputOk | cas_service/engines/sage_engine.py:75-83 | an accepted value is non-empty, at most 500 characters, holds no NUL, and no blocked literal in any letter case |
| SageEngine.FromImportLayout | cas_service/engines/sage_engine.py:65-71 | "from m import f" has "from", a blank, and "import" later on the same line |
| SageEngine.TemplateNames | cas_service/engines/sage_engine.py:193-248 | the template table holds exactly the eleven listed names |
| SageEngine.TagOf | cas_service/engines/sage_engine.py:518-522 | a `SAGE_` line splits at its first colon into key and value, which rejoin to the line |
| SageEngine.TagsOf | cas_service/engines/sage_engine.py:515-524 | the `_parse_tags` fold: every key and value in it comes from one `SAGE_` line split at its first colon (the last line for a key wins by `TagsLastWins`) |
| SageEngine.ParseTags | cas_service/engines/sage_engine.py:515-524 | the parse loop yields the tags of the output's lines, later lines overwriting earlier ones |
| SageEngine.TagsStep | cas_service/engines/sage_engine.py:517-522 | one more line adds its tag, if it has one, over those before it |
| SageEngine.LastTagged | cas_service/engines/sage_engine.py:515-524 | the last line before the bound carrying the key, and no later one carries it |
| SageEngine.TagsLastWins | cas_service/engines/sage_engine.py:515-524 | each key's value is that of the last line carrying it; a key no line carries is absent |
| SageEngine.LastTaggedPrefix | cas_service/engines/sage_engine.py:515-524 | the last tagged line below a bound does not depend on later lines |
| SageEngine.TagKeysArePrefixed | cas_service/engines/sage_engine.py:518-521 | every key starts with `SAGE_` and holds no colon |
| SageEngine.ParseValidateOutput | cas_service/engines/sage_engine.py:315-356 | success iff no timeout, exit 0 and no `SAGE_ERROR` tag; then validity is `SAGE_VALID == "1"` and the simplified and parsed texts are the tags; a timeout reports "SageMath timed out after <n>s" |
| SageEngine.ParseComputeOutput | cas_service/engines/sage_engine.py:419-467 | TIMEOUT iff timed out, ENGINE_ERROR iff a non-zero exit or a `SAGE_ERROR` tag; on success the value is the `SAGE_RESULT` tag or "" |
| SageEngine.Doubled | cas_service/engines/sage_engine.py:297 | `re.sub` of a standalone "=" by "==" never shortens the text and leaves a text without a standalone "=" unchanged (it is undone by collapsing "==", `DoubledUndo`) |
| SageEngine.DetectEquation | cas_service/engines/sage_engine.py:289-298 | a text not treated as an equation is sent unchanged; a changed text is the rewrite of one without "==" that has a standalone "=" (the equation test itself is `EquationHasDoubleEquals`) |
| SageEngine.KeepsDoubleEquals | cas_service/engines/sage_engine.py:291-293 | an expression holding "==" is sent untouched and treated as an equation |
| SageEngine.DoubledUndo | cas_service/engines/sage_engine.py:296-297 | collapsing "==" back to "=" undoes the rewrite of standalone "=" |
| SageEngine.RewriteRoundTrip | cas_service/engines/sage_engine.py:289-297 | on input without "==", the sent text with "==" replaced by "=" is the input |
| SageEngine.DoubledHasDoubleEquals | cas_service/engines/sage_engine.py:296-297 | a standalone "=" yields a "==" in the rewritten text |
| SageEngine.EquationHasDoubleEquals | cas_service/engines/sage_engine.py:289-298 | an expression is treated as an equation iff it holds "==" or a standalone "=", and then the sent text holds the "==" the script splits on |
| SageEngine.Exec | cas_service/engines/sage_engine.py:261-263 | the engine's executor caps output at 64 KiB |
| SageEngine.ParsableAnyTime | cas_service/engines/sage_engine.py:315-356 | whether an output parses does not depend on the elapsed time recorded |
| SageEngine.ValidateSpec | cas_service/engines/sage_engine.py:269-314 | an unavailable engine reports "SageMath binary not found"; a converted expression the sanitizer rejects reports "Expression rejected by input validation" |
| SageEngine.ComputeSpec | cas_service/engines/sage_engine.py:357-418 | a refused request returns the refusal's code; every error code is one compute can produce; output at most 64 KiB |
| SageEngine.AdmittedComputeIsRun | cas_service/engines/sage_engine.py:405-418 | an admitted request returns exactly `_parse_compute_output` of the executor's run of the compute script, under `min(request.timeout_s, self.timeout)`, and that output is parsable |
| SageEngine.DetectedVersion | cas_service/engines/sage_engine.py:476-486 | a probe that exits 0 with non-blank output sets the version to the first line of its stripped output; anything else keeps the old version |
| SageEngine.ChoosePath | cas_service/engines/sage_engine.py:259 | the argument path if non-empty, else `CAS_SAGE_PATH`, else "sage" |
| SageEngine.SageEngine.constructor | cas_service/engines/sage_engine.py:254-265 | availability unknown, version "unknown", path chosen as ChoosePath |
| SageEngine.SageEngine.IsAvailable | cas_service/engines/sage_engine.py:468-474 | the PATH lookup and version probe run once; later calls answer from the cache without change |
| SageEngine.SageEngine.GetVersion | cas_service/engines/sage_engine.py:488-491 | the version after availability has been settled: on the first call availability becomes whether Sage is on PATH, and the version is then detected from the version run, or left as it was when Sage is absent |
| SageEngine.SageEngine.AvailabilityReason | cas_service/engines/sage_engine.py:494-499 | a message naming the path exactly when the engine is unavailable |
| SageEngine.SageEngine.Validate | cas_service/engines/sage_engine.py:269-314 | equals ValidateSpec, and runs Sage iff the engine is available and the expression passes the sanitizer |
| SageEngine.SageEngine.Compute | cas_service/engines/sage_engine.py:357-418 | equals ComputeSpec, and runs Sage exactly once for an admitted request and never for a refused one |
| MatlabEngine.BangIsBlocked | cas_service/engines/matlab_engine.py:102-108 | any value holding "!" (MATLAB's shell escape) matches the blocked pattern |
| MatlabEngine.InputOk | cas_service/engines/matlab_engine.py:112-120 | an accepted value is non-empty, at most 500 characters, holds no NUL, newline, carriage return or "!", and no blocked literal in any letter case |
| MatlabEngine.SingleQuoted | cas_service/engines/matlab_engine.py:123-125 | the literal is quote, the value with every quote doubled, quote |
| MatlabEngine.ReadEscaped | cas_service/engines/matlab_engine.py:123-125 | a MATLAB reader of the escaped body stops at the closing quote and gives the value back |
| MatlabEngine.QuotedLiteralReadsBack | cas_service/engines/matlab_engine.py:123-125 | the quoted literal, followed by any text not starting with a quote, reads back as exactly the value |
| MatlabEngine.UnescapeRoundTrip | cas_service/engines/matlab_engine.py:123-125 | collapsing doubled quotes in the escaped body recovers the value |
| MatlabEngine.EvaluateQuotesExpression | cas_service/engines/matlab_engine.py:367-410 | the `evaluate` script passes the expression to `str2sym` only as a quoted literal that reads back as the expression |
| MatlabEngine.SolveDefaultsToX | cas_service/engines/matlab_engine.py:367-410 | `solve` without a `variable` input solves for x |
| MatlabEngine.FirstWhere | cas_service/engines/matlab_engine.py:413-437 | the index found is the first line accepted at or after the start; None when no line is |
| MatlabEngine.FromLine | cas_service/engines/matlab_engine.py:413-437 | a decisive line gives a well-formed result that succeeds iff it is the result tag, keeping the whole output |
| MatlabEngine.ParseComputeSpec | cas_service/engines/matlab_engine.py:411-444 | the first result or error line decides; the result is well formed, keeps the output, and fails only with ENGINE_ERROR |
| MatlabEngine.ParseComputeOutput | cas_service/engines/matlab_engine.py:411-444 | the line loop returns what ParseComputeSpec describes |
| MatlabEngine.ScanForward | cas_service/engines/matlab_engine.py:413-437 | the loop stops at the first accepted line, as FirstWhere |
| MatlabEngine.ResultLineReadBack | cas_service/engines/matlab_engine.py:411-444 | an output whose first line is the result tag and a value parses to success with exactly that value |
| MatlabEngine.FirstLineDecides | cas_service/engines/matlab_engine.py:413-437 | a decisive first line decides the parse whatever follows |
| MatlabEngine.TaggedLine | cas_service/engines/matlab_engine.py:414-416 | a printed result line strips to itself and its tag-stripped remainder is the value |
| MatlabEngine.RunMatlab | cas_service/engines/matlab_engine.py:258-283 | stdout is returned unless the exit is non-zero with blank stdout, which raises; a timeout raises TimeoutExpired |
| MatlabEngine.IsAvailable | cas_service/engines/matlab_engine.py:289-294 | an absolute path must be an executable file; any other name is looked up on PATH |
| MatlabEngine.BuildComputeCode | cas_service/engines/matlab_engine.py:367-410 | a known template gives a script that opens with the `syms` header and ends by printing the result tag, assigning the raw expression (simplify, factor) or equation (solve) first; simplify, factor and solve end with their own operation line (`simplify(expr)`, `factor(expr)`, `solve(expr, variable)` with `x` by default) before the print; an unknown one gives a one-line script printing the error tag |
| MatlabEngine.EvaluateScript | cas_service/engines/matlab_engine.py:371-382 | the `evaluate` script opens with the `syms` header, passes the expression as a quoted `str2sym` literal and ends by printing the result as a string |
| MatlabEngine.ResultScript | cas_service/engines/matlab_engine.py:383-406 | a `simplify`, `solve` or `factor` script opens with the `syms` header, then the given assignment, and ends by printing the result tag |
| MatlabEngine.ComputeOutcome | cas_service/engines/matlab_engine.py:344-366 | TIMEOUT exactly for an expired run; any other raise is ENGINE_ERROR "MATLAB error: ..."; output is parsed as ParseComputeSpec |
| MatlabEngine.ComputeSpec | cas_service/engines/matlab_engine.py:298-366 | a refused request returns the refusal's code; every error code is one compute can produce |
| MatlabEngine.AdmittedComputeIsRun | cas_service/engines/matlab_engine.py:342-366 | an admitted request has a known template and returns exactly the outcome of one `_run_matlab` of the built script, under the engine's own timeout |
| MatlabEngine.Compute | cas_service/engines/matlab_engine.py:298-366 | equals ComputeSpec, and runs MATLAB iff the request is admitted |
| MatlabEngine.AnyLineExists | cas_service/engines/matlab_engine.py:206-213 | the fold over the lines finds a line iff one exists |
| MatlabEngine.ScanLineSimplified | cas_service/engines/matlab_engine.py:207-209 | one loop step sets the simplified text exactly on a tagged line and never unsets it |
| MatlabEngine.ScanSimplifiedAny | cas_service/engines/matlab_engine.py:206-213 | after the loop the simplified text is set iff some line carried its tag |
| MatlabEngine.ScanSeesSimplified | cas_service/engines/matlab_engine.py:206-213 | the simplified text is seen exactly when some stripped line starts with `MATLAB_SIMPLIFIED:` |
| MatlabEngine.ScanOutput | cas_service/engines/matlab_engine.py:203-213 | the validate loop computes the fold of its line steps |
| MatlabEngine.Verdict | cas_service/engines/matlab_engine.py:215-220 | an equation takes the identity verdict, else `simplified == "0"`; a plain expression is valid once simplified |
| MatlabEngine.ValidateScript | cas_service/engines/matlab_engine.py:178-199 | with a standalone "=" the script compares the converted stripped sides around the first "=", otherwise it simplifies the whole converted text |
| MatlabEngine.ValidateCode | cas_service/engines/matlab_engine.py:184-199 | the script opens with the `syms` header, assigns `lhs` (equation) or `expr` (expression) first, and ends by printing the identity tag or the simplified tag |
| MatlabEngine.ScanLine | cas_service/engines/matlab_engine.py:206-212 | a simplified-tag line sets only the simplified text, an identity-tag line that is not one sets only the verdict, any other line changes nothing |
| MatlabEngine.ScanLines | cas_service/engines/matlab_engine.py:203-212 | after the loop the simplified text comes from the last simplified-tag line and the verdict from the last identity-tag line; without tags both stay unset |
| MatlabEngine.VerdictSet | cas_service/engines/matlab_engine.py:214-219 | once a simplified text is seen there is a verdict |
| MatlabEngine.ValidateOutcome | cas_service/engines/matlab_engine.py:201-257 | output: success iff a simplified text was scanned, with that text, the verdict and the converted text, else "no output from MATLAB"; the timeout, a missing binary and any other exception each give their own message |
| MatlabEngine.ValidateSucceedsIffSimplifiedLine | cas_service/engines/matlab_engine.py:205-222 | with output, `validate` succeeds exactly when some stripped line starts with the simplified tag, and reports the text of the last such line |
| MatlabEngine.ValidateSpec | cas_service/engines/matlab_engine.py:166-257 | an empty conversion fails with "empty expression after conversion"; otherwise the result of the run is that of the scanned output (success iff a simplified text was seen, that text, the verdict, the converted text as parsed, else "no output from MATLAB") or of the exception ("timeout (Ns)", "MATLAB binary not found", "matlab error: ...") |
| MatlabEngine.Validate | cas_service/engines/matlab_engine.py:166-257 | runs the script and the line loop with the result ValidateSpec describes |
| MatlabEngine.VersionFrom | cas_service/engines/matlab_engine.py:454-458 | "MATLAB (version unknown)" iff no stripped line starts with digits "." digits; otherwise "MATLAB " and the first such line |
| MatlabEngine.VersionOfExitedProbe | cas_service/engines/matlab_engine.py:446-458 | a probe that exits, whatever its code, gives "MATLAB (version unknown)" exactly when no stripped line of its stdout starts with digits "." digits, and otherwise "MATLAB " and the first such line |
| MatlabEngine.GetVersion | cas_service/engines/matlab_engine.py:446-460 | a probe that raises gives "MATLAB (unavailable)"; a probe that exits is read by `VersionOfExitedProbe` |
| MaximaEngine.DigitRun | cas_service/engines/maxima_engine.py:164 | the leading run of digits is maximal: all digits, followed by a non-digit or the end |
| MaximaEngine.LabelLength | cas_service/engines/maxima_engine.py:164 | a leading `(%oN)` label is at least five characters and lies inside the line |
| MaximaEngine.LastKept | cas_service/engines/maxima_engine.py:157-162 | the index found is the last line before the bound that is not skipped; None when every line is skipped |
| MaximaEngine.ExtractLoop | cas_service/engines/maxima_engine.py:152-168 | the reversed scan returns the cleaned text of the last usable line, or nothing ("no parseable output") |
| MaximaEngine.ScanBack | cas_service/engines/maxima_engine.py:158-162 | the backward loop stops at the last line not skipped, as LastKept |
| MaximaEngine.LastKeptStep | cas_service/engines/maxima_engine.py:158-162 | one backward step: a kept line is the answer, a skipped one passes the search on |
| MaximaEngine.LabelledLineGivesValue | cas_service/engines/maxima_engine.py:164-166 | an output line `(%oN) value` gives back the value |
| MaximaEngine.LabelOf | cas_service/engines/maxima_engine.py:164 | a line starting `(%o`, digits, `)` has a label of that length |
| MaximaEngine.DigitRunOf | cas_service/engines/maxima_engine.py:164 | the digit run of digits followed by a non-digit is exactly those digits |
| MaximaEngine.TrailingSkippedIgnored | cas_service/engines/maxima_engine.py:158-162 | input echoes and blank lines after the last output line do not change what is read |
| MaximaEngine.LastKeptPrefix | cas_service/engines/maxima_engine.py:158-162 | the last kept line below a bound does not depend on later lines |
| MaximaEngine.Skipped | cas_service/engines/maxima_engine.py:159-162 | blank lines and input echoes `(%i` are skipped, and a skipped line never carries an output label |
| MaximaEngine.EchoIsNoLabel | cas_service/engines/maxima_engine.py:161-164 | a line starting `(%i` has no `(%oN)` label |
| MaximaEngine.Cleaned | cas_service/engines/maxima_engine.py:159-168 | the value read from a line has no surrounding whitespace; a line without a label gives itself stripped, a labelled one something at least five characters shorter |
| MaximaEngine.LastValue | cas_service/engines/maxima_engine.py:157-168 | a value is found exactly when some line is not skipped, and it is the cleaned text of a kept line after which every line is skipped |
| MaximaEngine.Extract | cas_service/engines/maxima_engine.py:152-168 | a blank stdout gives nothing; a value found has no surrounding whitespace |
| MaximaEngine.RunMaxima | cas_service/engines/maxima_engine.py:142-168 | a text is returned only for exit 0 and a usable line, and then it is what Extract reads; TimeoutExpired exactly on expiry |
| MaximaEngine.RunOutputIffKeptLine | cas_service/engines/maxima_engine.py:142-168 | a clean exit gives a text exactly when some line of the stripped stdout is neither blank nor an input echo |
| MaximaEngine.RunReadsLastOutputLine | cas_service/engines/maxima_engine.py:152-168 | the text of a clean exit is the cleaned last line of the stripped stdout that is neither blank nor an input echo |
| MaximaEngine.BlankHasNothing | cas_service/engines/maxima_engine.py:152-154 | a blank stdout has no usable line |
| MaximaEngine.Command | cas_service/engines/maxima_engine.py:101-108 | an equation is sent as `ratsimp(lhs - (rhs));` of the stripped parts around the first "=", any other expression as `ratsimp(expr);` |
| MaximaEngine.ValidateSpec | cas_service/engines/maxima_engine.py:90-140 | success iff the conversion is non-empty and the run returns text; then the simplified text is that text stripped, an equation is valid iff it is "0", a plain expression always is, and the converted text is reported as parsed; the timeout gives "timeout" and a failed run "maxima error: " and its message |
| MaximaEngine.IsAvailable | cas_service/engines/maxima_engine.py:174-175 | available iff the binary is found on PATH |
| MaximaEngine.GetVersion | cas_service/engines/maxima_engine.py:177-185 | the first line of the stripped stdout, whatever the exit code; "unknown" when the probe raised |
| MaximaEngine.FirstPieceIsPrefix | cas_service/engines/maxima_engine.py:183 | the first piece of a split is a prefix of the text |
| WolframAlphaEngine.NewEngine | cas_service/engines/wolframalpha_engine.py:51-56 | the application id is the argument when given, else `CAS_WOLFRAMALPHA_APPID`, else "" |
| WolframAlphaEngine.IsAvailable | cas_service/engines/wolframalpha_engine.py:228-229 | available exactly when `availability_reason` gives no reason |
| WolframAlphaEngine.AvailabilityReason | cas_service/engines/wolframalpha_engine.py:234-239 | "missing CAS_WOLFRAMALPHA_APPID" exactly when no application id is set |
| WolframAlphaEngine.Validate | cas_service/engines/wolframalpha_engine.py:58-64 | WolframAlpha refuses validation with a fixed error and no validity |
| WolframAlphaEngine.BuildQuery | cas_service/engines/wolframalpha_engine.py:27-43 | `evaluate` sends the expression, `solve` and `simplify` prefix the input with their name |
| WolframAlphaEngine.FirstPod | cas_service/engines/wolframalpha_engine.py:193-209 | the index found is the first pod at or after the start that the selector accepts; None when there is none |
| WolframAlphaEngine.ResultText | cas_service/engines/wolframalpha_engine.py:191-209 | the response yields no text exactly when no pod other than Input has a first subpod with non-empty text |
| WolframAlphaEngine.ParseSpec | cas_service/engines/wolframalpha_engine.py:173-226 | QUERY_FAILED with the tips as stdout when the query failed; NO_RESULT when no pod gives text; otherwise success with that text as value and stdout |
| WolframAlphaEngine.ParseResponse | cas_service/engines/wolframalpha_engine.py:173-226 | the primary-pod loop and the fallback loop return what ParseSpec describes |
| WolframAlphaEngine.PrimaryWins | cas_service/engines/wolframalpha_engine.py:193-199 | the first Result, Decimal approximation or Solution pod's non-empty text wins over every other pod |
| WolframAlphaEngine.EmptyPrimaryFallsBack | cas_service/engines/wolframalpha_engine.py:201-209 | an empty primary text falls through to the first non-Input pod's text |
| WolframAlphaEngine.TextComesFromAPod | cas_service/engines/wolframalpha_engine.py:191-209 | any text found is the plaintext of the first subpod of some pod that is not the Input pod |
| WolframAlphaEngine.CallApi | cas_service/engines/wolframalpha_engine.py:102-172 | a response is parsed as ParseSpec; HTTP 403 is AUTH_ERROR and other HTTP errors REMOTE_ERROR; a URL error is NETWORK_ERROR; a timeout TIMEOUT; anything else REMOTE_ERROR with its message |
| WolframAlphaEngine.ComputeSpec | cas_service/engines/wolframalpha_engine.py:66-100 | a refused request returns the code of the first failing check (unavailable, unknown template, missing input); there is no sanitizer, so INVALID_INPUT never occurs |
| WolframAlphaEngine.AdmittedComputeIsRun | cas_service/engines/wolframalpha_engine.py:97-99 | an admitted request returns exactly `_call_api` of the one API call, whose timeout is `min(request.timeout_s, self.timeout)` |
| WolframAlphaEngine.Compute | cas_service/engines/wolframalpha_engine.py:66-100 | equals ComputeSpec, and calls the API exactly once for an admitted request, under the smaller timeout, and never for a refused one |
| WolframAlphaEngine.EvaluateSendsExpressionVerbatim | cas_service/engines/wolframalpha_engine.py:28-32 | an available engine admits any `evaluate` request with an expression and sends that expression unchanged |
| SympyEngine.IsEquationStr | cas_service/engines/sympy_engine.py:106-109 | an equation string is one where the leftmost search finds a standalone "="; it then holds an "=" |
| SympyEngine.SplitEquation | cas_service/engines/sympy_engine.py:111-120 | the sides are the stripped texts around the leftmost standalone "=", and both are non-empty |
| SympyEngine.SplitNoneIff | cas_service/engines/sympy_engine.py:111-120 | the split fails exactly when there is no standalone "=" or a side of the first one is blank |
| SympyEngine.ComparisonsAreNotEquations | cas_service/engines/sympy_engine.py:106-109 | "a<=b", "a>=b" and "a!=b" are not equations |
| SympyEngine.Parse | cas_service/engines/sympy_engine.py:64-79 | the ANTLR parse when it succeeds; any exception from it falls back to Lark |
| SympyEngine.RouteOf | cas_service/engines/sympy_engine.py:88-100 | a parsed `Eq` takes the equality route; otherwise a successful text split takes the split route, and everything else the plain route |
| SympyEngine.FailedSplitIsPlain | cas_service/engines/sympy_engine.py:91-100 | a text that looks like an equation but whose split fails takes the plain route |
| SympyEngine.Evaluate | cas_service/engines/sympy_engine.py:80-104 | the plain route simplifies and always judges the expression valid |
| SympyEngine.PlainIsValid | cas_service/engines/sympy_engine.py:99-100 | a plain expression is valid whenever simplification succeeds |
| SympyEngine.EquationValidIffZeroDifference | cas_service/engines/sympy_engine.py:88-90 | an equation is valid exactly when the simplified difference of its sides is zero |
| SympyEngine.Difference | cas_service/engines/sympy_engine.py:89-90 | `simplify(lhs - rhs)` paired with whether it is zero; a failure or the alarm in simplifying passes through unchanged |
| SympyEngine.Validate | cas_service/engines/sympy_engine.py:36-62 | success iff parsing and evaluation both complete; the alarm gives "timeout" and any other exception "parse failed: ..." |
| SympyEngine.ValidatedEquationVerdict | cas_service/engines/sympy_engine.py:36-100 | a parsed equality whose difference simplifies succeeds, valid iff the difference is zero, reporting the difference and the parsed text |
| SympyEngine.ValidatedPlainVerdict | cas_service/engines/sympy_engine.py:36-100 | a plain expression that simplifies succeeds, always valid, reporting the simplified text |
| SympyEngine.GetVersion | cas_service/engines/sympy_engine.py:129-134 | the installed version, or "not installed" |
| Preprocessing.MatchAt | cas_service/preprocessing.py:13-42 | a match of a table pattern at the start of a text is non-empty, lies inside it and is longer than its group |
| Preprocessing.GroupInside | cas_service/preprocessing.py:34-42 | a font pattern's group is brace content: characters of the text, never "}" |
| Preprocessing.Sub | cas_service/preprocessing.py:64-75 | `re.sub` of a table pattern never lengthens the text, since a match is longer than its group |
| Preprocessing.SubKeepsAbsent | cas_service/preprocessing.py:64-75 | one `re.sub` of a table pattern brings in no character that was not there |
| Preprocessing.SubRemovesChar | cas_service/preprocessing.py:20 | removing a one-character pattern such as `\$` removes every occurrence of it |
| Preprocessing.UnwrapsFont | cas_service/preprocessing.py:74-75 | a font command wrapped round brace content is replaced by the content |
| Preprocessing.SubAll | cas_service/preprocessing.py:64-75 | folding a table of substitutions never lengthens the text |
| Preprocessing.SubAllKeepsAbsent | cas_service/preprocessing.py:64-75 | a whole table of substitutions brings in no new character |
| Preprocessing.SubAllAfterRemoval | cas_service/preprocessing.py:64-65 | once a table prefix has removed a character, the rest of the table cannot bring it back |
| Preprocessing.StripEnvironments | cas_service/preprocessing.py:61-66 | no "$" survives environment stripping |
| Preprocessing.RemoveTypographical | cas_service/preprocessing.py:69-76 | no "&" survives the typographical phase |
| Preprocessing.ReplaceAllKeepsAbsent | cas_service/preprocessing.py:79-84 | a synonym table whose replacements lack a character brings none in |
| Preprocessing.ReplaceAll | cas_service/preprocessing.py:79-84 | the fold of `str.replace` over the table; a text without two consecutive backslashes passes unchanged through a table whose keys all hold them |
| Preprocessing.ReplaceUntouched | cas_service/preprocessing.py:83 | one `str.replace` with a key holding two backslashes leaves a text without them unchanged |
| Preprocessing.SynonymKeysDoubled | cas_service/preprocessing.py:45-58 | every synonym key is non-empty and holds two consecutive backslashes |
| Preprocessing.ContainsNarrower | cas_service/preprocessing.py:45-58 | a text holding a key holds every piece of that key |
| Preprocessing.NormalizeSynonyms | cas_service/preprocessing.py:79-84 | single-backslash LaTeX such as `\dfrac` is left exactly as it is by the synonym phase, since every key holds two backslashes |
| Preprocessing.Collapse | cas_service/preprocessing.py:89 | each whitespace run becomes one space: the first character is kept, or is a space when it was whitespace |
| Preprocessing.CollapseKeepsAbsent | cas_service/preprocessing.py:89 | collapsing brings in no character but the space |
| Preprocessing.CollapseNoDoubleSpace | cas_service/preprocessing.py:89 | the collapsed text has no two adjacent whitespace characters |
| Preprocessing.SliceNoDoubleSpace | cas_service/preprocessing.py:91 | a slice of such a text has none either |
| Preprocessing.StripNoDoubleSpace | cas_service/preprocessing.py:89 | stripping keeps that property |
| Preprocessing.CleanWhitespace | cas_service/preprocessing.py:87-94 | the collapsed, stripped text, without its outer brace pair exactly when it has one whose inside counts as many "{" as "}"; never two adjacent whitespace characters |
| Preprocessing.NormalizeKeepsDelimiters | cas_service/preprocessing.py:45-58 | no synonym replacement holds "$" or "&", so the synonym phase brings neither in |
| Preprocessing.CleanKeepsAbsent | cas_service/preprocessing.py:87-94 | the whitespace phase brings in no character but the space |
| Preprocessing.BracedIff | cas_service/preprocessing.py:90 | `startswith("{") and endswith("}")` iff the text has at least two characters, "{" first and "}" last |
| Preprocessing.Collapsed | cas_service/preprocessing.py:89 | the collapsed, stripped text and its inside have no two adjacent whitespace characters |
| Preprocessing.UnbalancedInsideStillUnwrapped | cas_service/preprocessing.py:90-93 | "{x} + {y}" loses its outer braces, because only the counts are compared |
| Preprocessing.Preprocess | cas_service/preprocessing.py:97-104 | the pipeline's output has no two adjacent whitespace characters |
| Preprocessing.PreprocessDropsDelimiters | cas_service/preprocessing.py:97-104 | no "$" and no "&" survives the four phases |
| SetupConfig.ParseLine | cas_service/setup/_config.py:24-31 | a key read from a raw line is valid, the stripped line starts with `KEY=`, and the value has no surrounding quote |
| SetupConfig.ConfigOf | cas_service/setup/_config.py:23-32 | every key read from the lines is valid |
| SetupConfig.EntriesKeysValid | cas_service/setup/_config.py:23-32 | every key of the map read line by line is valid |
| SetupConfig.ReadSpec | cas_service/setup/_config.py:18-32 | a missing file reads as the empty map; every key read is valid |
| SetupConfig.ParseStripped | cas_service/setup/_config.py:27-31 | a stripped line that matches `^([A-Z_][A-Z0-9_]*)=(.*)$` gives a valid key |
| SetupConfig.Entries | cas_service/setup/_config.py:23-31 | the `read_config` loop: every key and value in the map comes from some line that parses to them (membership and the last line winning are `KeyInEntries` and `LastLineWins`) |
| SetupConfig.EntriesStep | cas_service/setup/_config.py:23-31 | one more line adds its entry, if it has one, over those before it |
| SetupConfig.EntriesSnoc | cas_service/setup/_config.py:23-31 | the same for a line appended at the end |
| SetupConfig.KeyInEntries | cas_service/setup/_config.py:23-31 | a key is read exactly when some line parses to it |
| SetupConfig.LastLineWins | cas_service/setup/_config.py:23-31 | a key's value is the one on the last line that parses to it |
| SetupConfig.KeyHasNoEquals | cas_service/setup/_config.py:27 | a valid key holds no "=" |
| SetupConfig.AssignmentParts | cas_service/setup/_config.py:42 | `KEY=value` is the key, the first "=", then the value |
| SetupConfig.AssignmentStripped | cas_service/setup/_config.py:42 | `KEY=value` with a storable value is already stripped |
| SetupConfig.AssignmentIsOneLine | cas_service/setup/_config.py:42 | `KEY=value` with a storable value holds no line boundary |
| SetupConfig.ParseAssignment | cas_service/setup/_config.py:23-31 | `KEY=value` with a storable value is read back as that key and value |
| SetupConfig.StrippedMatchParses | cas_service/setup/_config.py:27-29 | a stripped line starting with `KEY=` is read as that key |
| SetupConfig.StrippedParseMatches | cas_service/setup/_config.py:27-29 | a stripped line read as a key starts with `KEY=` |
| SetupConfig.ParsedKeyBeforeEquals | cas_service/setup/_config.py:27-29 | the key read is the text before the first "=" |
| SetupConfig.PrefixThenChar | cas_service/setup/_config.py:41 | a line whose first characters are the key and then "=" starts with `KEY=` |
| SetupConfig.Matches | cas_service/setup/_config.py:41 | the corrected line test (the stripped line starts with `KEY=`): for a valid key it holds exactly when `read_config` reads that key from the line |
| SetupConfig.StrippedMatchIffParses | cas_service/setup/_config.py:27-29 | for a valid key, a stripped line starts with `KEY=` exactly when it is read as that key |
| SetupConfig.RewriteAll | cas_service/setup/_config.py:40-45 | every line passing the test becomes `KEY=value`, every other line is kept, in order |
| SetupConfig.RewriteAllStep | cas_service/setup/_config.py:40-45 | one more line extends the rewrite by its own rewrite and the found flag by its test |
| SetupConfig.WriteWith | cas_service/setup/_config.py:37-47 | each line passing the test becomes `KEY=value`, every other line stays in place, and `KEY=value` is appended exactly when no line passed |
| SetupConfig.WriteLines | cas_service/setup/_config.py:37-47 | the corrected `write_key` on lines: for a valid key, exactly the lines `read_config` reads the key from are replaced, and a line is appended exactly when the key was absent |
| SetupConfig.WriteText | cas_service/setup/_config.py:37-48 | the text written always ends with "\n", and is the lone line `KEY=value` when the file was missing |
| SetupConfig.RewriteAllEntries | cas_service/setup/_config.py:40-45 | when the test matches exactly the lines read as the key, rewriting sets that key in the map read back |
| SetupConfig.WriteLinesAreLines | cas_service/setup/_config.py:37-48 | every line written is a single line |
| SetupConfig.RewriteConfig | cas_service/setup/_config.py:40-45 | rewriting sets the key where it was present, and the found flag is set iff the key was present |
| SetupConfig.WriteLinesConfig | cas_service/setup/_config.py:35-47 | on lines, the corrected `write_key` (testing the stripped line) sets the key and leaves every other key as it was |
| SetupConfig.WriteTextLines | cas_service/setup/_config.py:48 | the text written splits back into the lines written |
| SetupConfig.WriteThenRead | cas_service/setup/_config.py:35-48 | after the corrected `write_key(k, v)` (testing the stripped line), `read_config` gives the old map with k set to v |
| SetupConfig.MatchesAsWritten | cas_service/setup/_config.py:41 | the raw-line test of `write_key` as written: for a valid key, a line it matches also passes the corrected test |
| SetupConfig.RawMatchIsStrippedMatch | cas_service/setup/_config.py:41 | a line starting with `KEY=` still starts with it once stripped |
| SetupConfig.WriteLinesAsWritten | cas_service/setup/_config.py:37-47 | `write_key` as written, on lines: every line the corrected test leaves alone is left alone |
| SetupConfig.IndentedDuplicateSurvives | cas_service/setup/_config.py:41 | with the raw-line test, `CAS_PORT=1` and ` CAS_PORT=3` written with 2 still read back as 3 |
| SetupConfig.IndentedLineIsKept | cas_service/setup/_config.py:41 | the raw-line test leaves the indented line untouched |
| SetupConfig.IndentedLineIsRead | cas_service/setup/_config.py:24-31 | `read_config` reads the indented line as `CAS_PORT=3` |
| SetupConfig.IndentedLiteral | cas_service/setup/_config.py:41 | the indented line is a blank before `CAS_PORT=3` |
| SetupConfig.EnvFile.constructor | cas_service/setup/_config.py:10-15 | the file holds the given text, or does not exist |
| SetupConfig.EnvFile.ReadConfig | cas_service/setup/_config.py:18-32 | the loop over the lines reads the map described by the parse of each stripped line, the last one winning; an absent file reads as empty |
| SetupConfig.EnvFile.WriteKey | cas_service/setup/_config.py:35-48 | the corrected `write_key` (testing the stripped line): the file afterwards holds the written lines, joined with "\n" and terminated by "\n" |
| SetupConfig.GetKey | cas_service/setup/_config.py:51-54 | the file's value if non-empty, else the environment's if non-empty, else None |
| SetupRunner.StepSpec | cas_service/setup/_runner.py:23-60 | one step's status and calls: the check comes first, only an explicit Abort after a failed install aborts, a step fails only after a failed retry, verify is called only on a step ending ok or warn, and a step whose check passes is ok with no other call |
| SetupRunner.RunSpec | cas_service/setup/_runner.py:20-63 | at most one result per step, fewer when aborted, and a non-empty run always makes calls |
| SetupRunner.RunOne | cas_service/setup/_runner.py:23-60 | the loop body for one step gives exactly StepSpec's status and calls |
| SetupRunner.AbortIsFinal | cas_service/setup/_runner.py:39-41 | once the run is aborted, later steps change nothing |
| SetupRunner.RunStep | cas_service/setup/_runner.py:23-60 | one more step extends the results and the calls by what that step does, or ends the run on Abort |
| SetupRunner.RunSteps | cas_service/setup/_runner.py:20-63 | the loop over the steps gives the results and calls of the run, and returns false on abort, else whether no step failed |
| SetupRunner.OneResultPerStep | cas_service/setup/_runner.py:23-60 | a run that is not aborted has one result per step, named after the step, in order |
| SetupRunner.CallsInStepOrder | cas_service/setup/_runner.py:23-60 | the calls go through the steps in order, never returning to an earlier one |
| SetupRunner.AbortTouchesNothingLater | cas_service/setup/_runner.py:39-41 | the aborting step is the last one touched; the run fails and records only the earlier steps |
| SetupRunner.CallsOfStep | cas_service/setup/_runner.py:24-60 | every call on a step is one the step's own answers lead to |
| SetupRunner.ConfiguredStepOnlyChecked | cas_service/setup/_runner.py:25-28 | a step whose check passes is only checked, never installed or verified |
| SetupRunner.InstallAndVerify | cas_service/setup/_runner.py:29-60 | a step is checked first; installed at most twice, twice only after a failure answered with Retry; verified iff confirmed and installed, and then ok or warn by the verify result |
| SetupRunner.AllConfiguredSucceeds | cas_service/setup/_runner.py:23-28 | when every check passes, the run succeeds with one check per step and every result ok |
| SetupSympy.CheckVersion | cas_service/setup/_sympy.py:47-73 | passes only for exit 0 with at least two dot fields whose integers are at least (1, 12) |
| SetupSympy.Check | cas_service/setup/_sympy.py:19-21 | passes exactly for exit 0 with at least two dot fields whose first two integers are at least (1, 12) |
| SetupSympy.Verify | cas_service/setup/_sympy.py:43-45 | the same verdict as `check` on the same probe outcome |
| SetupSympy.FirstTwoFields | cas_service/setup/_sympy.py:67-69 | splitting "a.b..." at dots gives `a` and `b` as the first two fields |
| SetupSympy.SecondField | cas_service/setup/_sympy.py:67-69 | the first field of "b..." before a dot is `b` |
| SetupSympy.VersionStripped | cas_service/setup/_sympy.py:66 | a printed version is already stripped |
| SetupSympy.VersionGate | cas_service/setup/_sympy.py:64-71 | a printed "major.minor..." passes exactly when (major, minor) >= (1, 12) |
| SetupSympy.SingleFieldFails | cas_service/setup/_sympy.py:68-71 | a version with a single field fails, whatever the number |
| SetupMaxima.RunEnd | cas_service/setup/_maxima.py:126 | the end of the maximal run of digits starting at a position |
| SetupMaxima.SearchFrom | cas_service/setup/_maxima.py:126 | a match found is a `digits.digits` match at or after the start |
| SetupMaxima.SearchFromLeftmost | cas_service/setup/_maxima.py:126 | the search finds none exactly when there is no match, and otherwise the leftmost one |
| SetupMaxima.SkipNonDigits | cas_service/setup/_maxima.py:126 | text holding no digit in front of the version is skipped over |
| SetupMaxima.RunEndOf | cas_service/setup/_maxima.py:126 | a run of digits followed by no digit ends where the run does |
| SetupMaxima.MatchLayout | cas_service/setup/_maxima.py:126-128 | digits, a dot and digits, with no digit right after, are a match whose groups read as those numbers |
| SetupMaxima.LayoutRuns | cas_service/setup/_maxima.py:126 | both digit runs of that layout end where the digits do |
| SetupMaxima.FirstRun | cas_service/setup/_maxima.py:126 | the first run ends at the dot |
| SetupMaxima.SecondRun | cas_service/setup/_maxima.py:126 | the second run ends at the first non-digit |
| SetupMaxima.LayoutChars | cas_service/setup/_maxima.py:126 | the layout's pieces sit where expected |
| SetupMaxima.MatchAt | cas_service/setup/_maxima.py:126-128 | two maximal runs around a dot form a match whose groups are the two runs' values |
| SetupMaxima.SearchVersion | cas_service/setup/_maxima.py:126-128 | a version is found exactly when the text holds a `digits.digits` match, and it is the groups of the leftmost one |
| SetupMaxima.GetVersion | cas_service/setup/_maxima.py:115-131 | None when the probe raised; otherwise a version exactly when the stripped stdout holds a match, whatever the exit code |
| SetupMaxima.Passes | cas_service/setup/_maxima.py:112 | `version >= (5, 44)` on tuples: a larger major passes, major 5 passes iff the minor is at least 44, a smaller major or no version fails |
| SetupMaxima.ReadsPrintedVersion | cas_service/setup/_maxima.py:116-131 | a version printed after digit-free text is read back as exactly (major, minor) |
| SetupMaxima.CheckSpec | cas_service/setup/_maxima.py:24-38 | the configured path wins when found and new enough, else the `maxima` on PATH; a path is chosen only if its version passes 5.44, and none exactly when neither qualifies |
| SetupMaxima.MaximaStep.constructor | cas_service/setup/_maxima.py:21-22 | no path is remembered |
| SetupMaxima.MaximaStep.Check | cas_service/setup/_maxima.py:24-38 | passes iff CheckSpec finds a path, which is then remembered; a failure keeps the old one |
| SetupMaxima.MaximaStep.Verify | cas_service/setup/_maxima.py:108-113 | a remembered path is probed again and checked against 5.44 and stays remembered; without one, `check` runs and remembers the path it finds, keeping the old value on failure |
| Handler.Get | cas_service/main.py:82 | a key is found exactly when some field carries it, and the value returned is the one on the last field carrying it, as a decoded JSON object keeps the last duplicate |
| Handler.Deployed | cas_service/main.py:188-206 | the service registers sympy, maxima and matlab in that order and cleans every text with the preprocessing pipeline |
| Handler.ReadJson | cas_service/main.py:172-182 | a request is refused exactly when its body is empty or does not decode, and then with a 400 INVALID_JSON error |
| Handler.Listed | cas_service/main.py:87 | the registered names become JSON strings, one per name, in order |
| Handler.Chars | cas_service/main.py:89 | iterating over a string gives its characters, one string each |
| Handler.Keys | cas_service/main.py:89 | iterating over a dict gives its keys, in order |
| Handler.Texts | cas_service/main.py:102 | the requested names are the texts of the JSON strings, in order |
| Handler.Unknown | cas_service/main.py:89 | the unknown names are requested names that are not registered, and there are none exactly when every requested name is registered |
| Handler.Admit | cas_service/main.py:82-96 | a refused request never gets a 200 reply |
| Handler.AdmitNames | cas_service/main.py:87-96 | a refused list of names never gets a 200 reply |
| Handler.Results | cas_service/main.py:101-113 | one result per requested engine, in request order, each the engine's verdict on the same cleaned text |
| Handler.ValidateSpec | cas_service/main.py:77-120 | an unreadable body gets the INVALID_JSON refusal; the reply is 200 exactly when the body reads and is admitted, and then it carries the preprocessed text and one result per requested engine, in order, each that engine's verdict on the preprocessed text |
| Handler.HandleValidate | cas_service/main.py:77-120 | the loop gives the reply of the specification; engines are called only on a 200 reply, exactly the admitted names in order, and none otherwise |
| Handler.EmptyBodyIsInvalidJson | cas_service/main.py:173-176 | a POST to /validate with no body gets 400 INVALID_JSON |
| Handler.MissingLatexIsInvalidRequest | cas_service/main.py:82-85 | a missing or falsy "latex" gets 400 INVALID_REQUEST, whatever "engines" holds |
| Handler.UnknownEngineRefused | cas_service/main.py:89-96 | one unregistered name in the list gets 422 UNKNOWN_ENGINE with the registered names as available |
| Handler.ResultsFollowRequest | cas_service/main.py:98-120 | a request naming registered engines gets 200 with the cleaned text and one result per requested engine, in request order |
| Handler.ListedTexts | cas_service/main.py:87 | the names listed as JSON read back as the same names |
| Handler.AdmitDefault | cas_service/main.py:87 | without "engines" every registered name is admitted, in registration order |
| Handler.ListedNamesAdmitted | cas_service/main.py:87-96 | the default list passes the name checks unchanged |
| Handler.DefaultIsEveryEngine | cas_service/main.py:87-120 | without "engines" every registered engine runs once, in registration order |
| Handler.EmptyEngineStringRunsNothing | cas_service/main.py:87-102 | "engines" given as "" iterates over nothing, so the request passes with no engine to run |
| Handler.DeployedEnginesSeeCleanText | cas_service/main.py:99-118 | with the deployed preprocessing, the text returned and given to the engines has no two whitespace characters in a row |
| Handler.EnginesList | cas_service/main.py:147-155 | a 200 reply listing every registered engine, in order, with its availability and its class description |
| Handler.StatusReply | cas_service/main.py:129-145 | a 200 reply naming the service and version 0.1.0, with each registered engine's availability and version, in order |
| Handler.Handle | cas_service/main.py:61-75 | POST /validate goes to the validate handler; GET /health answers 200 with status "ok", the service name and the uptime; GET /status and GET /engines reach their handlers; POST to any other path and GET to any other path get 404 NOT_FOUND; other methods get the server's 501 |

## Where the code and its tests differ

The model follows the code in each of these cases:

- `tests/test_preprocessing.py:29-32` and `:44-46`: the synonym table's keys
  (`cas_service/preprocessing.py:45-57`) are raw strings holding two
  backslashes, so `str.replace` finds them only in text that has two
  backslashes. `\ge` and `\cdot` are left as they are (`Preprocessing.NormalizeSynonyms`).
- `tests/test_preprocessing.py:39`: `clean_whitespace("{x} + {y}")` drops
  the outer braces because the counts of `{` and `}` inside are equal. The
  result is `x} + {y`.
- `tests/test_setup_config.py:57-60`: `get_key` uses `or`, so an empty value
  in `.env` falls back to the environment (`SetupConfig.GetKey`).
- `tests/test_setup_wizard.py:866-875` and `:899-908`: a cancelled prompt
  answers `None`. A cancelled confirmation counts as "no", so the step is
  skipped. A cancelled failure prompt takes the `else` branch, so the step
  is also skipped. The run still succeeds in both cases (`SetupRunner.InstallAndVerify`).

## Left out

- Processes, HTTP, `shutil.which`, environment variables, the clock and
  temporary files are parameters of the model. What a subprocess or an API
  call ends with is given as an outcome value. Elapsed times are given as
  numbers.
- The engines' LaTeX conversion tables (`_LATEX_TO_SAGE`, `_LATEX_TO_MATLAB`,
  `_LATEX_TO_MAXIMA` and the SymPy `parse_latex` path) are function
  parameters (`toSage`, `toMatlab`, `toMaxima`). Their regular expressions are
  not modelled.
- The mathematics of SymPy, Maxima, MATLAB, Sage and GAP is not modelled;
  their answers arrive as process output or as parameter functions.
- Threads and the executor's lock: the job registry is a class whose
  methods run one at a time, so concurrent access is not modelled.
- `SubprocessExecutor.list_jobs` (cas_service/runtime/executor.py:196-208)
  only formats the registry for display and is not modelled.
- Executor.Shape: `run` does not catch exceptions other than
  `TimeoutExpired` and `FileNotFoundError`. Such exceptions propagate, so
  `Shape` and `Run` require that the outcome is not `Raised`. The job
  thread's side of a raising `run` is modelled by
  `Executor.SubprocessExecutor.ExecuteJob`.
- Executor.VictimsAreOldestTerminal: does not state that terminal jobs with
  equal `created_at` are evicted in registry order (the stability of
  `sorted`). `Executor.Insert` places an entry after every entry that is not
  younger, but stability is not proved.
- SageEngine.ValidateSpec: requires `WellBehaved` (no Sage run raises, and
  every `SAGE_` line of a successful run has a colon). Without a colon,
  `_parse_tags` raises `ValueError`, and the model does not follow the
  exception. Its own contract states only the two refusal paths. The
  verdicts on output are stated by `SageEngine.ParseValidateOutput`.
- SageEngine.ComputeSpec: requires `WellBehaved`, for the same reason.
- Character classes: `lower`, `re.IGNORECASE`, `\d` and `int()` see only
  ASCII letters and digits. Whitespace (`\s`, `str.strip`, `str.split`) is
  Python's full `str.isspace()` set: the ASCII whitespace, U+001C to U+001F,
  U+0085, U+00A0, U+1680, U+2000 to U+200A, U+2028, U+2029, U+202F, U+205F
  and U+3000.
- SymPy's `signal.alarm` timeout is an outcome of the parameter functions
  (the `_Timeout` case). The signal handler itself is not modelled.
- WolframAlpha JSON decoding and URL query encoding: the decoded pods arrive
  as values, and the query is kept as the parameters it encodes.
- The HTTP body's JSON encoding and decoding: a request body arrives already
  decoded or marked malformed. JSON numbers are integers, so float values
  and `NaN` are not modelled. A decoded object keeps every field in order;
  lookups take the last field with a key, as Python's dict does, but
  iterating an object (`Handler.Keys`) lists a repeated key once per field,
  where Python's dict lists it once.
- A `Content-Length` header that is not a number makes `int()` raise in
  `_read_json`. This is not modelled: the header arrives as an integer.
- The uptime in `/health` and `/status` is given as an integer; the rounding
  to one decimal is not modelled.
- The `path` entry `_handle_status` adds for an engine with a `maxima_path`
  attribute is not modelled.
- The Sage payload is a value (`SageEngine.Payload`); its JSON and base64
  encoding for the script's standard input is not modelled.
- Interactive prompts in the setup wizard are answers given up front, one
  script per step. `_print_summary` is display only and is not modelled.
- `MaximaStep.install`, `SympyStep.install` and the other setup steps (GAP,
  MATLAB, Python, Sage, service, verify, WolframAlpha) run installers or
  edit system files. They are steps whose answers the runner model takes
  as given.
- The GAP and Sage `available_templates` class methods only list template
  descriptions and are not modelled.
- Strings.ParseSigned: reading a signed number is modelled, but the
  round trip is proved only for non-negative numbers (`Strings.PyIntOfNat`).

## Findings

| source | as written | input that shows it | evidently intended | confidence | as-written member | corrected member |
|---|---|---|---|---|---|---|
| cas_service/setup/_config.py:41 | `write_key` matches `^KEY=` on the raw line, while `read_config` strips each line first | a file with lines `CAS_PORT=1` and ` CAS_PORT=3`, written with `CAS_PORT=2`, keeps ` CAS_PORT=3`, so `read_config` still gives `3` | reading after `write_key(k, v)` gives `v` for `k` and leaves other keys unchanged | not executed | SetupConfig.IndentedDuplicateSurvives | SetupConfig.WriteThenRead |

The model's `.env` store (`SetupConfig.EnvFile.WriteKey`) uses the corrected
match, which tests the stripped line.
