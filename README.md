# verbaflow: command-line front end and recurrent encoder, modelled in Dafny

verbaflow generates text with an RWKV recurrent language model. This project
models two sequential parts of it and proves properties of the models.

1. **The command-line front end** (`cmd/main.go`):
   - `separateModelName` splits a download target `.../organization/model`
     into a models directory and the name `organization/model`;
   - `forEachInput` turns input lines into prompts: blank lines are skipped,
     each literal `\n` escape becomes a line break, and the first callback
     error stops the loop;
   - `processBuffer` writes the surface text of each decoded token, then one
     line break, and closes its `done` channel on every way out;
   - `main` dispatches on its arguments.
2. **The encoder of the language model** (`rwkvlm/rwkvlm.go`):
   - `New` builds a model from its `Config`;
   - `Model.Encode` either folds the recurrent cell over the whole embedded
     context, or applies it once, to the last token.

Files (one Dafny module each):

- `wrappers.dfy`: `Option` and `Result`.
- `go_strings.dfy`: the Go library functions the front end uses, for the
  inputs it gives them: `strings.Split`, `strings.Join`, `strings.TrimSuffix`,
  `strings.Replace` of the escape, and `filepath.Join` of two slash-free
  elements. `filepath.Join` includes `Clean`'s handling of empty, `.` and
  `..` elements, with the Unix separator.
- `model_name.dfy`: `separateModelName`.
- `input.dfy`: `forEachInput` and what `inference` does with its error.
- `render.dfy`: `processBuffer`, with standard output as a `Writer` class that
  accumulates text and the `done` channel as a `Done` class.
- `dispatch.dfy`: `main`'s argument dispatch and the decoding-options
  literal of `inference`.
- `rwkvlm.dfy`: `New` and `Encode`.

Modelling choices:

- The scanner is modelled by the lines it yields, followed by the error it
  reports, if any.
- The callback is a function from the prompt to an optional error. The
  method returns the texts the callback was invoked with.
- The decoding-step channel is the finite sequence of steps delivered before
  it is closed.
- `tokenByID` is a partial function. `processBuffer` drops the lookup's own
  error, so the model keeps only whether the lookup succeeded.
- `zerolog.ParseLevel` is an abstract partial function. The level type is a
  type parameter.
- The embedding lookup and the recurrent cell `rwkv.Model.Forward` are
  function values with no further properties.
- The library's encoder constructor is also a function value. It maps an
  encoder configuration to a cell.
- The embeddings of a context are taken to be the embeddings of its tokens,
  one by one.

A failed `Generate` ends the process through `log.Fatal().Err(err).Send()`
at `cmd/main.go:147`. Only a failed token lookup in `processBuffer` is
logged (`cmd/main.go:141`) without stopping the next prompt. That call sits
in a goroutine, which is not modelled.

## Model

| member | source | states |
|---|---|---|
| GoStrings.Split | cmd/main.go:208 | `strings.Split` on `/`: one more piece than there are separators, no piece holds `/`, and joining the pieces with `/` gives the input back |
| GoStrings.SplitJoin | cmd/main.go:208-215 | splitting undoes joining for non-empty lists of slash-free pieces, so the three properties of `Split` determine it |
| GoStrings.TrimSuffix | cmd/main.go:208 | exactly one trailing `/` is removed when present; otherwise the path is unchanged |
| GoStrings.UnescapeNewlines | cmd/main.go:188 | replacing every `\n` escape leaves no escape, shortens the text by one per escape in the input, and keeps a non-empty text non-empty |
| GoStrings.UnescapeSplit | cmd/main.go:188 | each escape becomes exactly one line break, and the text before and after it is unescaped on its own, so every other character is kept in place |
| GoStrings.UnescapeIdentity | cmd/main.go:188 | a line with no escape is passed on unchanged |
| GoStrings.JoinPath | cmd/main.go:216 | `filepath.Join(a, b)` is `a/b` when both are plain (non-empty, not `.` or `..`), is empty exactly when both are empty, and has no `/` when one of them is empty; an empty element is skipped, so joining a plain element with an empty one gives the plain element |
| ModelName.SeparateModelName | cmd/main.go:207-211 | fails, with the too-few-levels error, exactly when the path has fewer than two `/` after one trailing `/` is removed |
| ModelName.SeparateDecomposes | cmd/main.go:212-216 | on success the trimmed path is directory, `/`, second-to-last level, `/`, last level; the directory is all levels but the last two joined with `/`; the name is `filepath.Join` of the last two |
| ModelName.SeparateComposed | cmd/main.go:207-216 | separating `dir/org/model` (or with a trailing `/`, where `model` may be empty) gives back `dir` and `filepath.Join(org, model)`, for slash-free `org` and `model` |
| ModelName.SeparateRoundTrip | cmd/main.go:208-216 | when the last two levels are plain, directory + `/` + name rebuilds the path without its trailing `/` |
| ModelName.SeparateRoundTripFails | cmd/main.go:208-216 | when one of the last two levels is empty (a doubled `/`), directory + `/` + name differs from the trimmed path |
| Input.Prompts | cmd/main.go:183-188 | none of the prompts is empty and none still holds the escape; there are at most as many as lines |
| Input.ForEachInput | cmd/main.go:181-197 | the loop invokes the callback with exactly the prompts `Deliver` hands out, never on an empty or escaped text; it returns the callback's first error as it is, else the scanner's error, else nil |
| Input.DeliverPrefix | cmd/main.go:183-192 | the callback sees a prefix of the prompts in input order, and every call before the last succeeded |
| Input.DeliverStopsAtFirstError | cmd/main.go:189-191 | the loop stops exactly at the first failing prompt and returns that same error; with no error every prompt was handed over, and no error happens exactly when every prompt succeeds |
| Input.PromptsCount | cmd/main.go:184-187 | there is exactly one prompt per non-empty line |
| Input.PromptsAppend | cmd/main.go:183-192 | the prompts of more input follow the earlier prompts |
| Input.PromptOfPlainLine | cmd/main.go:184-188 | a non-empty line without the escape reaches the callback verbatim |
| Input.InferenceEndsFatallyIff | cmd/main.go:155-158 | as intended, for every input, scanner error and callback: `inference` ends fatally exactly when the scanner failed or some prompt's callback failed; a callback failure is the cause when there is one, otherwise the scanner's error is |
| Input.ScannerErrorIsDropped | cmd/main.go:127-160 | for every input, with the callback `inference` passes (nil on every prompt), a scanner error reaches `inference` wrapped, and as written ends it as if the input had run out, where the intended ending is a fatal exit with that error |
| Render.Writer.WriteString | cmd/main.go:171 | writing appends the text to what standard output already holds |
| Render.Done.Close | cmd/main.go:165 | closing the channel marks it closed; closing it twice is excluded, because Go panics on that |
| Render.ProcessBuffer | cmd/main.go:164-178 | the writer gains exactly the text `Render` gives, the error is the one `Render` gives, and `done` is closed on every return |
| Render.RenderAllKnown | cmd/main.go:166-177 | when every lookup succeeds, the output is the tokens' surface texts in channel order followed by exactly one line break, with no error |
| Render.RenderFirstUnknown | cmd/main.go:166-170 | when the first failed lookup is at step k, the error names that step's token ID, and the output is the texts of the steps before it, with no line break |
| Render.RenderFailsIff | cmd/main.go:166-177 | an error is returned exactly when some token has no surface form |
| Dispatch.CommandNamed | cmd/main.go:48-83 | the three subcommand names map to their commands, and only those names do |
| Dispatch.Dispatch | cmd/main.go:27-84 | usage for no arguments or an unknown subcommand; the invalid-debug-level error exactly when a third argument does not parse, and before the subcommand is looked at; missing model dir exactly when a known subcommand stands alone; otherwise the subcommand runs on the second argument, at the parsed level or the trace level |
| Rwkvlm.New | rwkvlm/rwkvlm.go:45-57 | the model stores the given `Config` unchanged; the output projection is `VocabSize` × `DModel`; the encoder gets `DModel`, `NumHiddenLayers` and `RescaleLayer`; the layer norm has size `DModel` and epsilon 1e-6 |
| Rwkvlm.Encoding | rwkvlm/rwkvlm.go:110-124 | a full encode of an empty context returns a nil node and the input state unchanged; a single-token encode always returns a node, and needs a non-empty context |
| Rwkvlm.Encode | rwkvlm/rwkvlm.go:110-124 | the loop over the embeddings returns exactly the left fold of the cell from the given state; the single-token branch returns one cell step on the last token |
| Rwkvlm.FoldSnoc | rwkvlm/rwkvlm.go:115-117 | folding over one more embedding is one more cell step on the state already reached |
| Rwkvlm.FullEncodeNode | rwkvlm/rwkvlm.go:114-118 | a full encode of a non-empty context returns a non-nil node: the node the cell gives for the last token's embedding and the state reached by encoding the tokens before it |
| Rwkvlm.StepIgnoresHistory | rwkvlm/rwkvlm.go:121-123 | the single-token encode depends only on the last token and the state |
| Rwkvlm.IncrementalEncode | rwkvlm/rwkvlm.go:110-123 | a full encode of `ctx ++ [t]` equals a single-token encode of `ctx ++ [t]` from the state of the full encode of `ctx` |
| Rwkvlm.SingleTokenModesAgree | rwkvlm/rwkvlm.go:110-123 | on a one-token context both modes return the same node and state |
| Rwkvlm.ExtendMatchesFull | rwkvlm/rwkvlm.go:110-123 | a full encode of the prompt followed by one single-token encode per appended token equals the full encode of the whole context (one cell step per token) |

## Left out

- `Load`, `Dump`, gob encoding, the disk-backed embeddings repository, and `applyEmbeddings`: file I/O and a reflective walk over library types.
- `Predict`: a floating-point matrix product and a layer normalisation.
- The internals of the recurrent cell and of the embedding lookup: library code, kept abstract.
- `download` and `convert`: a network download and a checkpoint conversion by external packages. `download` calls `separateModelName`; its fatal exit on a failed split is not modelled.
- The signal-based cancellation, the goroutine and the `done` handshake in `inference`, and the timing and logging around `Generate`: concurrency, clocks and logging. `processBuffer` is modelled over a finite sequence of steps.
- The prompt `> ` that `promptScan` prints, and the scanner's own line splitting: console output and library behaviour. The lines are given as the scanner yields them.
- The usage and error messages `main` prints, and the logger set-up: console output. The dispatch returns which message or action applies.
- The sampling policy, the stop conditions and the decode loop: their code is in packages that are not part of this model. Only the decoding-options literal of `inference` is recorded, as `Dispatch.INFERENCE_OPTIONS`.
- Render.ProcessBuffer: a failing `WriteString` (its error returned at cmd/main.go:171-177) is not modelled. The writer always accepts text.
- Rwkvlm.Encoding: assumes that `Embeddings.Encode` maps each token to its own embedding.
- Rwkvlm.New: the encoder, layer norm and projection weights are shapes and configurations only. Their values are not modelled, and neither is the library's behaviour on negative sizes.
- Strings are sequences of Unicode characters, whereas Go strings are bytes. Every character the model matches (`/`, `\`, `n`) is ASCII, so results agree on valid UTF-8; invalid UTF-8 read from standard input cannot be represented.
- GoStrings.JoinPath: covers only two slash-free elements (all that `separateModelName` passes) on a Unix separator.

## Findings

| source | as written | input that shows it | evidently intended | confidence | as-written member | corrected member |
|---|---|---|---|---|---|---|
| cmd/main.go:155-158 | `log.Fatal().Err(err)` builds a zerolog event but never sends it, so at the default trace level (and any level up to fatal) nothing is logged, the process does not exit, and `inference` returns nil | standard input that makes the scanner fail, such as a line longer than its buffer: `forEachInput` returns `scanner error: ...` and it is dropped | end the process fatally with that error (proved end to end in `Input.InferenceEndsFatallyIff`), as every other `log.Fatal()` call in the file does with `.Send()` | high; not executed | Input.EndInferenceAsWritten | Input.EndInference |
