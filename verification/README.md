# GGUF repo suite: a Dafny model of the naming and command core

Two Gradio applications turn a model on the Hugging Face Hub into GGUF files. They are
`gguf_repo_suite.py` (the suite) and `gguf_my_repo.py` (GGUF-my-repo). Each one:

1. downloads the model;
2. converts it to an fp16 GGUF file;
3. optionally computes an importance matrix;
4. quantizes the fp16 file;
5. optionally splits the result into shards;
6. uploads everything to a new repository.

The suite does the upload in a second action (`upload_and_cleanup`). That action only sees
what the first action left in a temporary directory.

This project models the pure part of that work:

- the HTML escape applied to error messages, together with a decoder that inverts it;
- the argument vectors handed to `convert_hf_to_gguf.py`, `llama-imatrix`, `llama-quantize`
  and `llama-gguf-split`, together with decoders that read each vector back the way the tool
  would;
- the names derived along the way: the model name, the fp16 and quantized file names, the
  repository id, the cache directory, the split prefix and the shard filter;
- the marker files that carry the split options from the suite's quantize action to its
  upload action;
- the upload action's re-derivation of the repository id from the file name it finds;
- the tag update of GGUF-my-repo's model card.

The modules are:

- `Wrappers`: `Option` and `Result`.
- `PyStr`: Python's `split` with a one-character separator, `join`, `split(c)[-1]`,
  `c.join(split(c)[:-1])`, ASCII `lower`/`upper` and one-character `replace`, with their
  round trips.
- `Decimal`: `str(n)` and `int(text)` for non-negative integers.
- `Paths`:
  - `os.path.join` and `basename`, using posix rules with the separator as a parameter;
  - the extension strip;
  - `get_platform_executable`;
  - the shard filter.
- `Html`: `escape_html`, a per-character reference definition of it, and the decoder.
- `Commands`: the argument vectors both applications build, and their decoders.
- `Request`: the form's request, the model name, the fp16 name and the calibration default.
- `RepoSuite`: `gguf_repo_suite.py`, with its upload both as written and corrected.
- `MyRepo`: `gguf_my_repo.py`.

Everything outside the modules' control is a parameter:

- the host platform and path separator;
- the answer of `whoami`;
- the temporary directory names;
- directory listings, in the order `os.listdir` returns them;
- which files exist;
- the tags of the loaded model card.

## Model

| member | source | states |
|---|---|---|
| PyStr.Split | gguf_repo_suite.py:124-125 | `s.split(c)` has at least one piece, and no piece contains the separator |
| PyStr.JoinSplit | gguf_repo_suite.py:70 | joining the pieces of `s.split(c)` with `c` gives back `s` |
| PyStr.Join | gguf_repo_suite.py:70 | `c.join` of a single piece is that piece; with separator-free pieces, `c` occurs in the result exactly when there are two or more pieces |
| PyStr.SplitJoin | gguf_repo_suite.py:70 | splitting the join of separator-free pieces gives back the pieces |
| PyStr.SeparatorSplits | gguf_repo_suite.py:125 | `s.split(c)` has a second piece exactly when `c` occurs in `s` |
| PyStr.SplitFirstTwo | gguf_repo_suite.py:124-125 | the first two pieces of `s.split(c)` with `c` between them begin `s`, and the second piece ends at the next `c` or at the end of `s` |
| PyStr.LastField | gguf_repo_suite.py:180 | `s.split(c)[-1]` is free of `c` and is a suffix of `s`; it is all of `s` when `c` does not occur, and otherwise it directly follows the last `c` |
| PyStr.DropLastField | gguf_repo_suite.py:70 | `c.join(s.split(c)[:-1])` followed by `c` and the last field restores `s`; it is empty when `s` has no `c` |
| PyStr.Lower | gguf_repo_suite.py:236 | `lower()` on ASCII keeps the length, leaves no upper-case letter, moves no other character, and maps each upper-case letter to its lower-case form |
| PyStr.Upper | gguf_repo_suite.py:235 | `upper()` on ASCII keeps the length, leaves no lower-case letter, moves no other character, and maps each lower-case letter to its upper-case form |
| PyStr.LowerAbsorbs | gguf_repo_suite.py:235-236 | lower-casing is idempotent, and lower-casing the upper-cased method gives the lower-cased method |
| PyStr.ReplaceChar | gguf_repo_suite.py:207 | after `replace(c, t)` only characters of `t` and characters of `s` other than `c` remain; every other character of `s` survives; `t` appears when `c` occurred |
| PyStr.ReplaceCharAppend | gguf_repo_suite.py:24-28 | `replace` distributes over concatenation |
| Decimal.ToDecimal | gguf_repo_suite.py:253 | `str(n)` is non-empty, all digits, with no leading zero except in `"0"` |
| Decimal.ParseInt | gguf_repo_suite.py:133 | `int(text)` succeeds exactly on non-empty digit text; on text without a superfluous leading zero, `str` of the result is the text itself |
| Decimal.ParseIntToDecimal | gguf_repo_suite.py:253 | `int(str(n)) == n` for every `n >= 0` |
| Decimal.ToDecimalOfValue | gguf_repo_suite.py:133 | digit text without a superfluous leading zero is the decimal text of the number it denotes |
| Decimal.ParseIntAppendDigit | gguf_repo_suite.py:133 | appending a digit `d` to parsable text `t` gives `int(t + d) == 10 * int(t) + d` |
| Decimal.ParseIntLeadingZero | gguf_repo_suite.py:133 | a leading zero changes nothing: `int("0" + t)` equals `int(t)`, and fails exactly when that fails |
| Paths.PathJoin | gguf_repo_suite.py:34 | `os.path.join(a, b)` is `b` when `b` is absolute; otherwise it is `a + b` when `a` is empty or ends in the separator, and `a`, one separator and `b` in every other case |
| Paths.Basename | gguf_repo_suite.py:88 | `os.path.basename(p)` is the separator-free text after the last separator of `p`, and all of `p` when `p` has no separator |
| Paths.BasenameOfJoin | gguf_repo_suite.py:112-123 | the base name of `os.path.join(d, f)` is `f` for any name `f` without a separator |
| Paths.StripExtension | gguf_repo_suite.py:70 | with a `.` in the path, prefix + `.` + last field restores the path; without one the prefix is empty |
| Paths.StripGguf | gguf_repo_suite.py:70 | dropping the extension of `<stem>.gguf` gives back the stem, whatever dots the stem holds |
| Paths.BaseStemOfJoin | gguf_repo_suite.py:70-88 | the shard prefix of `join(dir, stem + ".gguf")` is `stem`, whatever dots `dir` holds |
| Paths.PlatformExecutable | gguf_repo_suite.py:31-34 | `get_platform_executable(b)` is `.`, `llama.cpp`, `e` joined by the separator, where `e` is `b + ".exe"` exactly on win32; its base name is `e` |
| Paths.PosixExecutableIsLiteral | gguf_my_repo.py:30 | off win32 and with `/` as separator, the suite's executable path is GGUF-my-repo's literal `./llama.cpp/<b>` |
| Paths.SelectShards | gguf_repo_suite.py:89 | the shard list holds exactly the listed files that start with the prefix and end in `.gguf`, each as often as it is listed |
| Html.EscapeHtml | gguf_repo_suite.py:21-29 | the escaped text contains no `"` and no newline, and every character outside `&<>"\n` survives |
| Html.EscapeHtmlIsEscapeEach | gguf_repo_suite.py:24-28 | the chain of five replacements equals escaping each character on its own, which is correct only because `&` is replaced first |
| Html.EscapeHtmlEscaped | gguf_repo_suite.py:24-28 | in the escaped text every `&` begins `&amp;`, `&lt;`, `&gt;` or `&quot;`, and every `<` begins `<br/>` |
| Html.UnescapeEscapeHtml | gguf_repo_suite.py:24-28 | decoding the four entities and `<br/>` recovers the original message |
| Html.EscapeHtmlInjective | gguf_repo_suite.py:24-28 | two different messages never escape to the same text |
| Commands.PairsFlatten | gguf_repo_suite.py:39 | reading back a vector that lists flag/value pairs gives exactly those pairs, in order |
| Commands.FlattenPairs | gguf_repo_suite.py:223 | an even-length vector is nothing but its pairs: relisting them gives back every argument in its place |
| Commands.PairsOfFour | gguf_repo_suite.py:39 | eight arguments read back as four flag/value pairs in the order written |
| Commands.PairsOfFive | gguf_my_repo.py:29-36 | ten arguments read back as five flag/value pairs in the order written |
| Commands.ConvertCommand | gguf_repo_suite.py:223 | the conversion vector has 7 elements: `python`, the script and the model directory, then the pairs `--outtype f16` and `--outfile <fp16>`, read back in that order |
| Commands.SplitCommand | gguf_repo_suite.py:72-77 | the split vector has 6 elements, with `--split-max-size` exactly when a non-empty size is given and `--split-max-tensors` otherwise; the split tool reads back the program, the one limit, the model and the prefix |
| Commands.QuantizeCommand | gguf_repo_suite.py:239-243 | the quantize vector has 6 elements with the importance matrix and 4 without; the quantize tool reads back the program, `--imatrix <file>` exactly when used, the input, the output and the type |
| Request.ModelName | gguf_repo_suite.py:180 | the model name is the last `/`-segment of the model id: the whole id without a `/`, otherwise what follows the owner part |
| Request.ModelNameOfOwnedId | gguf_my_repo.py:127 | the model id `owner/name` gives the model name `name` |
| Request.Fp16Name | gguf_repo_suite.py:201 | the fp16 file name is the model name as given followed by exactly `.fp16.gguf`: it starts with the one, ends in the other, and is no longer than both together |
| Request.Fp16IsNeverShard | gguf_repo_suite.py:89 | the fp16 file never passes the shard filter for a prefix of the form lower-cased model name, `-`, anything |
| RepoSuite.ImatrixCommand | gguf_repo_suite.py:36-39 | the imatrix vector has 9 elements: the platform executable, then the pairs `-m <model>`, `-f <data>`, `-o <output>` and `-ngl 0`, read back in that order |
| RepoSuite.ShardSplitCommand | gguf_repo_suite.py:67-77 | the split tool reads back the platform executable; the size limit when a non-empty size is given, otherwise `str(max_tensors)`; the model; and its extension-stripped path |
| RepoSuite.ShardFilePrefix | gguf_repo_suite.py:88 | the shard prefix is the separator-free text after the last separator of the extension-stripped path, and that whole path when it has no separator |
| RepoSuite.ShardPrefixOfQuantizedFile | gguf_repo_suite.py:70-89 | splitting the quantized file gives the prefix lower-cased model name + `-` + method; the fp16 file beside the shards is never uploaded as one |
| Paths.ShardsToUpload | gguf_repo_suite.py:89-91 | the "no sharded files" error (the caller's value, as in gguf_my_repo.py:97-113 too) is returned exactly when no listed file passes the filter; otherwise the shards are exactly the passing files |
| RepoSuite.ShardsOfQuantizedFile | gguf_repo_suite.py:85-91 | after the quantized file is split, "No sharded files found" is raised exactly when no listed file starts with `<lower-cased model>-<Q>` and ends in `.gguf`, and the fp16 file is never among the shards |
| RepoSuite.QuantMethod | gguf_repo_suite.py:235 | the method is the chosen one (imatrix method when the matrix is used) upper-cased: same length, no lower-case letter, same lower-case form |
| RepoSuite.QuantizedName | gguf_repo_suite.py:236 | the quantized file name starts with the lower-cased model name and `-` and ends in `.gguf` |
| RepoSuite.QuantizedNameFields | gguf_repo_suite.py:236 | dropping `.gguf` from the quantized name gives `<lower-cased model>-<Q>`; for a `-`-free method its last `-`-field is the method and what precedes it the lower-cased model name, whatever `-` or `.` the model name holds |
| RepoSuite.RepoId | gguf_repo_suite.py:258 | the repository id's owner part is the user name, and its name part is model name + `-` + method + `-GGUF` |
| RepoSuite.SanitizedModelId | gguf_repo_suite.py:206-207 | the cache directory name has no `/`, keeps every other character of the model id, and is the id itself when it has no `/`; SanitizedOwnedId fixes each `/` as `__` |
| RepoSuite.SanitizedOwnedId | gguf_repo_suite.py:206-207 | the id `owner/name` is cached under `owner__name`, as in `google/gemma-2b` to `google__gemma-2b` |
| RepoSuite.SanitizedModelIdCollides | gguf_repo_suite.py:205-212 | the model ids `x/y__z` and `x__y/z` differ but share one cache directory, so one's download sentinel marks the other as cached |
| RepoSuite.WriteMarkers | gguf_repo_suite.py:250-255 | the private flag is written as asked; the tensor count is written exactly when splitting; the size is written exactly when splitting with a non-empty size |
| RepoSuite.ProcessCommands | gguf_repo_suite.py:223-243 | convert (`python` with the conversion script), imatrix when used (the platform `llama-imatrix`), quantize: the converter's output is the imatrix tool's model and the quantizer's input; the imatrix output is the quantizer's matrix |
| RepoSuite.ProcessModel | gguf_repo_suite.py:180-258 | fails exactly when the importance matrix is used and the calibration file is missing, naming that file; otherwise the converter reads `model_cache/<sanitized id>` and writes `<outdir>/<model>.fp16.gguf`; the imatrix tool reads that file and the calibration file, writes `<outdir>/imatrix.dat` and runs with `-ngl 0`; the quantizer reads both and writes the quantized name of the lower-cased model name and upper-cased method; the repository is that of the model name; the markers are written |
| RepoSuite.ReadSplitSettings | gguf_repo_suite.py:132-134 | the tensor count is 256 when the marker is absent; otherwise the number the marker's digits denote, and a `ValueError` naming the text exactly when that text is not plain non-empty digit text; the size is the size marker's text as written |
| RepoSuite.MarkersRoundTrip | gguf_repo_suite.py:253-255 | the split settings read back by the upload are the tensor count written, and the size exactly when a non-empty size was given |
| RepoSuite.FloatTensorCountRejected | gguf_repo_suite.py:133 | as written, the float text `str(n) + ".0"` of a tensor count is refused by `int()`: the split upload stops with `ValueError` naming that text |
| RepoSuite.FinishUpload | gguf_repo_suite.py:127-138 | a field error or an unreadable tensor count propagates, and nothing else fails; otherwise the repository is `user/field0-field1-GGUF`, private when flagged, with the given model path and file name; a split command is present exactly when the split marker is, and the split tool reads back the size or tensor count read from the markers, the model and its extension-stripped path |
| RepoSuite.FirstGguf | gguf_repo_suite.py:112 | as written: the listed `*.gguf` file that no other `*.gguf` precedes, and none exactly when no listed file ends in `.gguf` |
| RepoSuite.SourceFields | gguf_repo_suite.py:123-125 | as written: `split('-')[0]` and `[1]` are `-`-free and, joined by `-`, begin the name, and field 1 runs to the next `-` or to the end; they are an `IndexError` exactly when the name has no `-` |
| RepoSuite.UploadAsWritten | gguf_repo_suite.py:112-138 | as written: "could not find" is raised exactly when no listed file ends in `.gguf`; otherwise the upload fails exactly when the picked name has no `-` (`IndexError`) or the split tensor count cannot be read, and else the first listed `*.gguf`, joined to the temporary directory, is uploaded under its base name to the repository built from that name's first two `-`-fields, private exactly when flagged, with a split command exactly when the split marker is present that the split tool reads back as the count or size read from the markers, that path and its extension-stripped prefix |
| RepoSuite.SourceFieldsKeepExtension | gguf_repo_suite.py:123-125 | for the quantized file `<model>-<Q>.gguf` the re-parse gives the lower-cased model name and `Q + ".gguf"`, not `Q` |
| RepoSuite.SourceFieldsCutModelName | gguf_repo_suite.py:124 | a model name with a `-` is cut at its first `-` |
| RepoSuite.UploadAsWrittenMissesRepoId | gguf_repo_suite.py:123-128 | as written, the upload goes to `user/<model>-<Q>.gguf-GGUF`, never to the repository named at line 258 |
| RepoSuite.UploadAsWrittenMayPickFp16 | gguf_repo_suite.py:112 | as written, when the fp16 file is listed first it is the file picked, and for a model name without `-` the upload fails with `IndexError` |
| RepoSuite.FirstQuantized | gguf_repo_suite.py:112 | corrected: the listed `*.gguf` file that is not an fp16 file and that no other such file precedes, and none exactly when there is no such file |
| RepoSuite.IntendedFields | gguf_repo_suite.py:123-125 | corrected: the fields are the extension-stripped name cut at its last `-`, and they rebuild it |
| RepoSuite.Upload | gguf_repo_suite.py:112-138 | corrected: "could not find" is raised exactly when no listed file is a quantized GGUF; otherwise the upload fails exactly when the picked name has no `-` before its extension or the split tensor count cannot be read, and else the first quantized file listed, joined to the temporary directory, is uploaded under its base name to the repository built from its corrected fields, private exactly when flagged, with the split command read back as for the as-written upload |
| RepoSuite.IntendedFieldsRoundTrip | gguf_repo_suite.py:236 | the corrected fields of `<model>-<Q>.gguf` are the lower-cased model name and `Q`, also for model names containing `-` |
| RepoSuite.Fp16IsNotQuantized | gguf_repo_suite.py:201 | the fp16 file ends in `.gguf` but is never taken for the quantized file |
| RepoSuite.QuantizedNameIsQuantized | gguf_repo_suite.py:236 | the quantized file name, whose method has no lower-case letter, never looks like an fp16 file |
| RepoSuite.FirstQuantizedFinds | gguf_repo_suite.py:112 | for any listing order, the corrected pick is the quantized file |
| RepoSuite.UploadFindsQuantizedModel | gguf_repo_suite.py:123-138 | end to end, for an upload without the split marker: the corrected upload sends the quantized file under its own name to `user/<lower-cased model>-<Q>-GGUF`, whatever the listing order |
| RepoSuite.UploadFindsQuantizedModelSplit | gguf_repo_suite.py:123-138 | end to end, with the split marker and a readable tensor count: the same repository, visibility, path and name, and a split command whose input is the quantized file and whose prefix is its extension-stripped path |
| MyRepo.Escape | gguf_my_repo.py:20-26 | `escape` is the same function as `escape_html`: no `"` or newline remains, and the output decodes back to the message |
| MyRepo.ImatrixCommand | gguf_my_repo.py:28-36 | the imatrix vector has 11 elements: `./llama.cpp/llama-imatrix`, then the pairs `-m <model>`, `-f <data>`, `-ngl 99`, `--output-frequency 10` and `-o <output>`, read back in that order |
| MyRepo.ShardSplitCommand | gguf_my_repo.py:64-78 | the split tool reads back `./llama.cpp/llama-gguf-split`; the size when a non-empty one is given, otherwise `str(max_tensors)`; the model; and its extension-stripped path |
| MyRepo.ShardFilePrefix | gguf_my_repo.py:95 | the file prefix is the `/`-free text after the last `/` of the extension-stripped path, and that whole path when it has no `/` |
| MyRepo.QuantizeCommand | gguf_my_repo.py:201-210 | `./llama.cpp/llama-quantize` reads back `--imatrix <file>` exactly when used, the fp16 input, the output, and the method exactly as chosen |
| MyRepo.QuantizedName | gguf_my_repo.py:199 | the quantized name starts with the lower-cased model name and `-`, ends in `.gguf`, and ends in `-imat.gguf` with the importance matrix |
| MyRepo.QuantizedNameMarksImatrix | gguf_my_repo.py:199 | for a method without `-` other than `imat`, the name ends in `-imat.gguf` exactly when the matrix is used |
| MyRepo.QuantizedNameFields | gguf_my_repo.py:199 | the quantized name parses back: without `.gguf`, the last `-`-field is the lower-cased method; with the importance matrix it is `imat`, preceded by the lower-cased importance-matrix method; what precedes these is the lower-cased model name |
| MyRepo.RequestedRepoId | gguf_my_repo.py:220 | the repository asked for has the user as owner, and the model name, the method as chosen and `-GGUF` as name |
| MyRepo.RepoAndFileDisagreeInCase | gguf_my_repo.py:199-220 | for every plain method with an upper-case letter, such as `Q4_K_M`, the repository name ends in `<model>-<method>-GGUF` while the method field of the file name is the lower-cased method, a different text |
| MyRepo.ShardPrefixOfQuantizedFile | gguf_my_repo.py:76-97 | the shard prefix of the quantized file is its stem, and the fp16 file in the same directory never passes the filter |
| MyRepo.UpdateTags | gguf_my_repo.py:228-231 | a missing tag list counts as empty; the result is the old tags in order followed by exactly `llama-cpp` and `gguf-my-repo` |
| MyRepo.UpdateTagsContents | gguf_my_repo.py:228-231 | the new tags are the old ones plus one `llama-cpp` and one `gguf-my-repo`: nothing lost, nothing else added |
| MyRepo.UpdateTagsDuplicates | gguf_my_repo.py:228-231 | the tags are appended unconditionally, so a card already tagged `llama-cpp` ends up with it twice |
| MyRepo.ProcessCommands | gguf_my_repo.py:171-210 | convert (`python` with the conversion script), imatrix when used (`./llama.cpp/llama-imatrix`), quantize, split when splitting: the fp16 file, the matrix and the quantized file flow from each command to the next |
| MyRepo.ProcessModel | gguf_my_repo.py:166-231 | an adapter without `config.json` is refused first; a missing calibration file fails only with the matrix; otherwise it gives the fp16 path, the matrix path `<outdir>/imatrix.dat`, the quantized name and path, the requested repository, the updated tags and the command sequence |
| MyRepo.ProcessModelShards | gguf_my_repo.py:95-97 | the shards uploaded after the split never include the fp16 file |

## Left out

- Subprocess execution, exit codes and the captured output are not modelled. The command
  vectors are modelled; running them is I/O.
- GGUF-my-repo's imatrix timeout (wait 60 s, then `SIGINT`, then kill) is process control
  and timing.
- The suite hides and restores `ggml-rpc.dll` around the imatrix run. This is file renaming.
- All registry calls are left out, because they are network clients. The answer of `whoami`
  is a parameter. These calls include:
  - `whoami`;
  - `list_repo_tree`, including the choice between safetensors and bin files;
  - `snapshot_download`;
  - `create_repo`;
  - `upload_file`;
  - `ModelCard.load`/`save`;
  - `restart_space`.
- MyRepo.RequestedRepoId: the id GGUF-my-repo finally uses is `create_repo`'s answer. The
  model states the requested id, because the answer comes from the registry.
- The login and token checks are not modelled. They only decide whether the modelled code
  runs at all.
- The file system is represented only by inputs, for the same reason. These cover:
  - temporary directories and their deletion;
  - the download sentinel of the cache;
  - whether the calibration file, `adapter_config.json` and `config.json` exist;
  - directory listings.
- The upload of `imatrix.dat` and `README.md` is left out. It depends only on those files
  existing.
- The suite's `delete_files` is left out. It only removes the temporary directory.
- The model-card prose is left out. It is free text; only the tags and the repository id are
  modelled.
- The Gradio layout, event wiring, visibility toggles and the restart scheduler are UI and
  timers, and are left out.
- Paths.PathJoin: models posixpath only.
  - Windows drive letters and the `ntpath` handling of `/` next to `\\` are not modelled.
  - `pathlib` normalisation (collapsing `//`, dropping `.` segments) is not modelled.
- PyStr.Lower: models ASCII letters only. Python's Unicode case mapping is not modelled,
  because model ids are ASCII.
- PyStr.Upper: models ASCII letters only, for the same reason.
- PyStr.Split: models only a one-character separator, which is the only kind the source
  uses.
- PyStr.ReplaceChar: models only a one-character pattern, which is the only kind the source
  uses.
- Decimal.ParseInt: weaker than Python's `int()`. It accepts only plain digit text, while
  `int()` also accepts surrounding whitespace, a sign and underscores.
- RepoSuite.ReadSplitSettings: reads the tensor count with the plain-digit reading of
  Decimal.ParseInt. Text that Python's `int()` also accepts (surrounding whitespace, a sign,
  underscores between digits) is an error in the model, not a count. The model's own
  marker writer produces plain digit text; the float text of the form is covered under
  RepoSuite.MarkersRoundTrip below.
- RepoSuite.MarkersRoundTrip: treats the tensor count as a non-negative integer. The form's
  `gr.Number` may deliver a float, and `str(256.0)` is `"256.0"`, which `int()` rejects (the
  third finding below). Whether the widget delivers a float is Gradio's behaviour, which is
  not part of this model.
- RepoSuite.ShardSplitCommand: takes the tensor count as a non-negative integer. A float
  from `gr.Number` would reach `--split-max-tensors` as `"256.0"`; that formatting is not
  modelled.
- MyRepo.ShardSplitCommand: takes the tensor count as a non-negative integer, for the same
  reason: the `"256.0"` text a float from `gr.Number` would produce is not modelled.
- MyRepo.ProcessModel: the check in `generate_importance_matrix` that the fp16 model file
  exists (gguf_my_repo.py:38-39) is not modelled. The converter is assumed to have written
  its output, so that error never arises in the model.
- RepoSuite.ProcessModel: does not model the `pathlib` string of the fp16 and quantized
  paths; they are built with `os.path.join` rules.
- The conversion, quantization, imatrix and split algorithms live in llama.cpp and are not
  part of this model.

## Findings

| source | as written | input that shows it | evidently intended | confidence | as-written member | corrected member |
|---|---|---|---|---|---|---|
| gguf_repo_suite.py:123-128 | the upload rebuilds the repository id from `name.split('-')[0]` and `name.split('-')[1]` of the quantized file name | model `openai-community/gpt2`, method `Q4_K_M`: the file `gpt2-Q4_K_M.gguf` yields `user/gpt2-Q4_K_M.gguf-GGUF`; model `meta-llama/Llama-3.2-1B` yields `user/llama-3.2-GGUF` | upload to the repository named at line 258, `user/<model>-<Q>-GGUF`: drop `.gguf` and cut at the last `-` | high; not executed | RepoSuite.UploadAsWrittenMissesRepoId | RepoSuite.UploadFindsQuantizedModel |
| gguf_repo_suite.py:112 | the upload takes the first `*.gguf` file in `os.listdir` order, and the fp16 file `<model>.fp16.gguf` is still in that directory | listing `["gpt2.fp16.gguf", "gpt2-Q4_K_M.gguf"]`: the fp16 file is picked, and `split('-')[1]` raises `IndexError` | upload the quantized file and skip the fp16 conversion output | medium, because it depends on the listing order of the file system; not executed | RepoSuite.UploadAsWrittenMayPickFp16 | RepoSuite.FirstQuantizedFinds |
| gguf_repo_suite.py:253 | the tensor-count marker is written as `str(split_max_tensors)` of the form's `gr.Number` value and read back with `int()` at line 133 | a `gr.Number` that delivers the float `256.0`: the marker holds `"256.0"`, `int("256.0")` raises `ValueError`, and every split upload fails | write the count as an integer, `str(int(split_max_tensors))`, so that the upload reads back the count asked for | low, because it depends on Gradio delivering a float, which the repository's code does not show; not executed | RepoSuite.FloatTensorCountRejected | RepoSuite.MarkersRoundTrip |

The second finding depends on the file system. `os.listdir` returns entries in the
directory's own order. On NTFS that order is sorted by name, and `<model>-<Q>.gguf` sorts
before `<model>.fp16.gguf` because `-` precedes `.`, so the quantized file is picked there.
The fp16 file can come first on a file system with unsorted listings, such as ext4. The
model takes the listing as a parameter and covers every order.

The corrected upload still lower-cases the model name. The quantized file name does not keep
the original case, so nothing on disk can recover it. `RepoSuite.UploadFindsQuantizedModel`
therefore targets the lower-cased model name. That name matches line 258 exactly when the
model name has no upper-case letter.
