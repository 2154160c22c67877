/**
 The pure core of gguf_my_repo.py: its copy of the HTML escape, the argument vectors of
 the importance-matrix, split and quantize steps (with the llama.cpp paths written out
 for a posix host), the quantized file name and the repository it asks for, the tag
 update of the model card, and the order in which `process_model` runs its commands.
 Paths are joined with `/`, as `pathlib` does on the hosts this application runs on.
 */
module MyRepo {
  import opened Wrappers
  import opened PyStr
  import opened Decimal
  import opened Paths
  import opened Commands
  import opened Request
  import Html

  /** The exceptions of the modelled steps. */
  datatype RepoError =
    | AdapterWithoutConfig                 // process_model: a LoRA adapter without config.json
    | TrainingDataNotFound(path: string)   // process_model: the calibration file is missing
    | NoShardsFound                        // split_upload_model: nothing matched the shard filter

  const ImatrixProgram := "./llama.cpp/llama-imatrix"
  const SplitProgram := "./llama.cpp/llama-gguf-split"
  const QuantizeProgram := "./llama.cpp/llama-quantize"

  /** The two tags every converted model card receives, in this order. */
  const AddedTags := ["llama-cpp", "gguf-my-repo"]

  // ---------------------------------------------------------------------------
  // escape

  /**
   `escape(s)`: the same chain of replacements as the suite's `escape_html`, in the same
   order, so it is the same function; its output has no double quote or newline and
   decodes back to the message.
   */
  function Escape(s: string): (r: string)
    ensures r == Html.EscapeHtml(s)
    ensures '"' !in r && '\n' !in r
    ensures Html.Unescape(r) == s
  {
    var s1 := ReplaceChar(s, '&', "&amp;");
    var s2 := ReplaceChar(s1, '<', "&lt;");
    var s3 := ReplaceChar(s2, '>', "&gt;");
    var s4 := ReplaceChar(s3, '"', "&quot;");
    var r := ReplaceChar(s4, '\n', "<br/>");
    Html.UnescapeEscapeHtml(s);
    r
  }

  // ---------------------------------------------------------------------------
  // argument vectors

  /**
   `generate_importance_matrix`: the imatrix tool with model, data and output, all layers
   offloaded (`-ngl 99`) and an intermediate save every ten chunks.
   */
  function ImatrixCommand(modelPath: string, trainDataPath: string, outputPath: string): (r: seq<string>)
    ensures |r| == 11 && r[0] == ImatrixProgram
    ensures Pairs(r[1..]) == [("-m", modelPath), ("-f", trainDataPath), ("-ngl", "99"),
                              ("--output-frequency", "10"), ("-o", outputPath)]
  {
    var pairs := ["-m", modelPath, "-f", trainDataPath, "-ngl", "99", "--output-frequency", "10", "-o", outputPath];
    PairsOfFive("-m", modelPath, "-f", trainDataPath, "-ngl", "99", "--output-frequency", "10", "-o", outputPath);
    var r := [ImatrixProgram] + pairs;
    assert r[1..] == pairs;
    r
  }

  /**
   `split_upload_model`: the split tool with the size limit when a non-empty size is given
   and otherwise `str(split_max_tensors)`, then the model and its extension-stripped path.
   */
  function ShardSplitCommand(modelPath: string, maxTensors: nat, maxSize: Option<string>): (r: seq<string>)
    ensures |r| == 6
    ensures DecodeSplit(r) == Some(SplitRequest(SplitProgram,
      if SizeGiven(maxSize) then MaxSize(maxSize.value) else MaxTensors(ToDecimal(maxTensors)),
      modelPath, StripExtension(modelPath)))
  {
    SplitCommand(SplitProgram, ToDecimal(maxTensors), maxSize, modelPath, StripExtension(modelPath))
  }

  /** `model_path_prefix.split('/')[-1]`: the last `/`-segment of the extension-stripped model path. */
  function ShardFilePrefix(modelPath: string): (r: string)
    ensures '/' !in r && EndsWith(StripExtension(modelPath), r)
    ensures var stem := StripExtension(modelPath);
      && ('/' !in stem ==> r == stem)
      && ('/' in stem ==> |r| < |stem| && stem[|stem| - |r| - 1] == '/')
  {
    Basename(StripExtension(modelPath), '/')
  }

  /** The method chosen by the form: the importance-matrix method when the matrix is used. */
  function Method(useImatrix: bool, imatrixQMethod: string, qMethod: string): string {
    if useImatrix then imatrixQMethod else qMethod
  }

  /**
   `process_model`'s quantize step: `./llama.cpp/llama-quantize [--imatrix <file>] <fp16> <out> <method>`,
   with the method exactly as chosen (not case-changed).
   */
  function QuantizeCommand(useImatrix: bool, imatrixPath: string, fp16: string, output: string,
                           imatrixQMethod: string, qMethod: string): (r: seq<string>)
    ensures |r| == if useImatrix then 6 else 4
    ensures DecodeQuantize(r) == Some(QuantizeRequest(QuantizeProgram, if useImatrix then Some(imatrixPath) else None,
      fp16, output, if useImatrix then imatrixQMethod else qMethod))
  {
    Commands.QuantizeCommand(QuantizeProgram, useImatrix, imatrixPath, fp16, output, Method(useImatrix, imatrixQMethod, qMethod))
  }

  // ---------------------------------------------------------------------------
  // names

  /** The file name without its `.gguf`: model name and method, both lower-cased, and `-imat` with the importance matrix. */
  function QuantizedStem(modelName: string, useImatrix: bool, imatrixQMethod: string, qMethod: string): string {
    Lower(modelName) + "-" + Lower(Method(useImatrix, imatrixQMethod, qMethod)) + (if useImatrix then "-imat" else "")
  }

  /**
   `quantized_gguf_name`: `<model>-<imatrix method>-imat.gguf` with the importance matrix and
   `<model>-<method>.gguf` without, everything lower-cased; it always starts with the
   lower-cased model name and `-` and always ends in `.gguf`.
   */
  function QuantizedName(modelName: string, useImatrix: bool, imatrixQMethod: string, qMethod: string): (r: string)
    ensures StartsWith(r, Lower(modelName) + "-")
    ensures EndsWith(r, ".gguf")
    ensures useImatrix ==> EndsWith(r, "-imat.gguf")
  {
    var p := Lower(modelName) + "-";
    var m := Lower(Method(useImatrix, imatrixQMethod, qMethod));
    var stem := QuantizedStem(modelName, useImatrix, imatrixQMethod, qMethod);
    var r := stem + ".gguf";
    StartsWithAppend(p, m + (if useImatrix then "-imat" else "") + ".gguf");
    assert r == p + (m + (if useImatrix then "-imat" else "") + ".gguf");
    EndsWithAppend(stem, ".gguf");
    if useImatrix then
      ImatSuffix(p + m);
      r
    else
      r
  }

  lemma ImatSuffix(a: string)
    ensures EndsWith(a + "-imat" + ".gguf", "-imat.gguf")
  {
    assert a + "-imat" + ".gguf" == a + "-imat.gguf";
    EndsWithAppend(a, "-imat.gguf");
  }

  /**
   The name marks the importance matrix: it ends in `-imat.gguf` exactly when the matrix is
   used, for any plain method (one without `-` that is not `imat` itself).
   */
  lemma QuantizedNameMarksImatrix(modelName: string, useImatrix: bool, imatrixQMethod: string, qMethod: string)
    requires '-' !in qMethod && Lower(qMethod) != "imat"
    ensures EndsWith(QuantizedName(modelName, useImatrix, imatrixQMethod, qMethod), "-imat.gguf") <==> useImatrix
  {
    if !useImatrix {
      CaseChangeKeepsOtherChars(qMethod, '-');
      assert QuantizedName(modelName, false, imatrixQMethod, qMethod) == (Lower(modelName) + "-") + Lower(qMethod) + "" + ".gguf";
      assert (Lower(modelName) + "-") + Lower(qMethod) + "" == (Lower(modelName) + "-") + Lower(qMethod);
      NotImatSuffix(Lower(modelName) + "-", Lower(qMethod));
    }
  }

  /** A name `p + m + ".gguf"`, where `p` ends in `-` and `m` is a plain method, does not end in `-imat.gguf`. */
  lemma NotImatSuffix(p: string, m: string)
    requires |p| > 0 && p[|p| - 1] == '-' && '-' !in m && m != "imat"
    ensures !EndsWith(p + m + ".gguf", "-imat.gguf")
  {
    var r, x := p + m + ".gguf", "-imat.gguf";
    var n, q := |r|, |m|;
    if n >= 10 {
      var tail := r[n - 10..];
      if q >= 5 {
        assert tail[0] == m[q - 5] && x[0] == '-';
      } else if q == 4 {
        var k :| 0 <= k < 4 && m[k] != "imat"[k];
        assert tail[1 + k] == m[k] && x[1 + k] == "imat"[k];
      } else {
        assert tail[4 - q] == p[|p| - 1] && x[4 - q] != '-';
      }
      assert tail != x;
    }
  }

  /**
   `f"{username}/{model_name}-{method}-GGUF"`: the repository asked for, named with the method
   as chosen. Its owner part is the user and its name part the model name, the method and
   `-GGUF`, whenever neither name nor method holds a `/`.
   */
  function RequestedRepoId(username: string, modelName: string, useImatrix: bool, imatrixQMethod: string, qMethod: string): (r: string)
    ensures var m := Method(useImatrix, imatrixQMethod, qMethod);
      '/' !in modelName + m ==> DropLastField(r, '/') == username && LastField(r, '/') == modelName + "-" + m + "-GGUF"
  {
    var m := Method(useImatrix, imatrixQMethod, qMethod);
    var name := modelName + "-" + m + "-GGUF";
    if '/' !in modelName + m then
      assert '/' !in name by {
        assert forall x :: x in name ==> x in modelName + m || x in "-GGUF";
      }
      LastFieldAfterSeparator(username, name, '/');
      username + "/" + name
    else
      username + "/" + name
  }

  /**
   The quantized file name parses back. After `.gguf` is dropped, the last `-`-field is the
   lower-cased method without the importance matrix; with it, the last field is `imat`, the
   field before it the lower-cased importance-matrix method, and what precedes both the
   lower-cased model name, whatever `-` or `.` the model name holds.
   */
  lemma QuantizedNameFields(modelName: string, useImatrix: bool, imatrixQMethod: string, qMethod: string)
    requires var m := Method(useImatrix, imatrixQMethod, qMethod); '-' !in m && '.' !in m
    ensures var stem := StripExtension(QuantizedName(modelName, useImatrix, imatrixQMethod, qMethod));
      !useImatrix ==> LastField(stem, '-') == Lower(qMethod) && DropLastField(stem, '-') == Lower(modelName)
    ensures var stem := StripExtension(QuantizedName(modelName, useImatrix, imatrixQMethod, qMethod));
      useImatrix ==>
        && LastField(stem, '-') == "imat"
        && LastField(DropLastField(stem, '-'), '-') == Lower(imatrixQMethod)
        && DropLastField(DropLastField(stem, '-'), '-') == Lower(modelName)
  {
    var m := Method(useImatrix, imatrixQMethod, qMethod);
    var lm, lq := Lower(modelName), Lower(m);
    CaseChangeKeepsOtherChars(m, '-');
    var stem := QuantizedStem(modelName, useImatrix, imatrixQMethod, qMethod);
    assert QuantizedName(modelName, useImatrix, imatrixQMethod, qMethod) == stem + ".gguf";
    StripGguf(stem);
    if useImatrix {
      assert stem == lm + "-" + lq + "-imat";
      ImatFields(lm, lq);
    } else {
      assert stem == lm + ['-'] + lq;
      LastFieldAfterSeparator(lm, lq, '-');
    }
  }

  /** The fields of `<a>-<q>-imat` read from the right, for a `-`-free `q`. */
  lemma ImatFields(a: string, q: string)
    requires '-' !in q
    ensures var stem := a + "-" + q + "-imat";
      && LastField(stem, '-') == "imat"
      && LastField(DropLastField(stem, '-'), '-') == q
      && DropLastField(DropLastField(stem, '-'), '-') == a
  {
    var inner := a + ['-'] + q;
    assert a + "-" + q + "-imat" == inner + ['-'] + "imat";
    LastFieldAfterSeparator(inner, "imat", '-');
    LastFieldAfterSeparator(a, q, '-');
  }

  /**
   The repository keeps the method's case while the file name lower-cases it: for any plain
   method with an upper-case letter, such as `Q4_K_M`, the repository name ends in
   `-<method>-GGUF` while the method field of the file name is a different text.
   */
  lemma RepoAndFileDisagreeInCase(username: string, modelName: string, qMethod: string)
    requires '/' !in modelName + qMethod && '-' !in qMethod && '.' !in qMethod
    requires exists i :: 0 <= i < |qMethod| && IsAsciiUpper(qMethod[i])
    ensures LastField(RequestedRepoId(username, modelName, false, "", qMethod), '/') == modelName + "-" + qMethod + "-GGUF"
    ensures var field := LastField(StripExtension(QuantizedName(modelName, false, "", qMethod)), '-');
      field == Lower(qMethod) && field != qMethod
  {
    QuantizedNameFields(modelName, false, "", qMethod);
    var i :| 0 <= i < |qMethod| && IsAsciiUpper(qMethod[i]);
    assert Lower(qMethod)[i] != qMethod[i];
  }

  /**
   Splitting the quantized file gives shards named after its stem; the fp16 file left in
   the same directory never passes the shard filter.
   */
  lemma ShardPrefixOfQuantizedFile(outdir: string, modelName: string, useImatrix: bool, imatrixQMethod: string, qMethod: string)
    requires '/' !in modelName && '/' !in Method(useImatrix, imatrixQMethod, qMethod)
    ensures ShardFilePrefix(PathJoin(outdir, QuantizedName(modelName, useImatrix, imatrixQMethod, qMethod), '/'))
      == QuantizedStem(modelName, useImatrix, imatrixQMethod, qMethod)
    ensures !IsShard(Fp16Name(modelName), QuantizedStem(modelName, useImatrix, imatrixQMethod, qMethod))
  {
    var m := Method(useImatrix, imatrixQMethod, qMethod);
    var suffix := if useImatrix then "-imat" else "";
    var stem := QuantizedStem(modelName, useImatrix, imatrixQMethod, qMethod);
    StemHasNoSlash(modelName, m, suffix);
    assert stem == Lower(modelName) + "-" + Lower(m) + suffix;
    assert QuantizedName(modelName, useImatrix, imatrixQMethod, qMethod) == stem + ".gguf";
    BaseStemOfJoin(outdir, stem, '/');
    Fp16IsNotShardOfStem(modelName, useImatrix, imatrixQMethod, qMethod);
  }

  lemma Fp16IsNotShardOfStem(modelName: string, useImatrix: bool, imatrixQMethod: string, qMethod: string)
    ensures !IsShard(Fp16Name(modelName), QuantizedStem(modelName, useImatrix, imatrixQMethod, qMethod))
  {
    var rest := Lower(Method(useImatrix, imatrixQMethod, qMethod)) + (if useImatrix then "-imat" else "");
    assert QuantizedStem(modelName, useImatrix, imatrixQMethod, qMethod) == Lower(modelName) + "-" + rest;
    Fp16IsNeverShard(modelName, rest);
  }

  lemma StemHasNoSlash(modelName: string, m: string, suffix: string)
    requires '/' !in modelName && '/' !in m && '/' !in suffix
    ensures '/' !in Lower(modelName) + "-" + Lower(m) + suffix
  {
    CaseChangeKeepsOtherChars(modelName, '/');
    CaseChangeKeepsOtherChars(m, '/');
    var stem := Lower(modelName) + "-" + Lower(m) + suffix;
    assert forall x :: x in stem ==> x in Lower(modelName) || x == '-' || x in Lower(m) || x in suffix;
  }

  // ---------------------------------------------------------------------------
  // model card

  /**
   The tag update: a card without tags starts from none; `llama-cpp` and then `gguf-my-repo`
   are appended after the existing tags, which keep their order.
   */
  function UpdateTags(tags: Option<seq<string>>): (r: seq<string>)
    ensures |r| == |tags.GetOr([])| + 2
    ensures r[..|r| - 2] == tags.GetOr([]) && r[|r| - 2..] == AddedTags
  {
    var existing := if tags.None? then [] else tags.value;
    existing + ["llama-cpp"] + ["gguf-my-repo"]
  }

  /**
   The updated tags are the old ones plus one `llama-cpp` and one `gguf-my-repo`: no tag is
   lost and nothing else is added.
   */
  lemma UpdateTagsContents(tags: Option<seq<string>>)
    ensures multiset(UpdateTags(tags)) == multiset(tags.GetOr([])) + multiset(AddedTags)
    ensures forall t :: t in UpdateTags(tags) <==> t in tags.GetOr([]) || t in AddedTags
  {
    var r, before := UpdateTags(tags), tags.GetOr([]);
    assert r == before + AddedTags by {
      assert r[..|r| - 2] + r[|r| - 2..] == r;
    }
  }

  /** The tags are appended unconditionally: a card that already has them gets them twice. */
  lemma UpdateTagsDuplicates(tags: seq<string>)
    requires "llama-cpp" in tags
    ensures multiset(UpdateTags(Some(tags)))["llama-cpp"] >= 2
  {
    UpdateTagsContents(Some(tags));
    assert multiset(tags)["llama-cpp"] >= 1;
  }

  // ---------------------------------------------------------------------------
  // process_model

  /** What `process_model` does with the request: the commands in order, its files, the repository and the tags. */
  datatype Outputs = Outputs(
    commands: seq<seq<string>>,
    fp16Path: string,
    imatrixPath: string,
    quantizedName: string,
    quantizedPath: string,
    repoId: string,
    tags: seq<string>)

  /**
   The commands `process_model` runs, in order: convert to fp16, compute the importance
   matrix when it is used, quantize, and split when splitting. The files flow through them:
   the converter writes what the imatrix tool and the quantizer read, the imatrix tool writes
   the matrix the quantizer is given, and the split tool cuts the quantizer's output.
   */
  function ProcessCommands(localDir: string, fp16: string, trainData: string, imatrixPath: string, quantizedPath: string,
                           job: Job): (r: seq<seq<string>>)
    ensures |r| == 2 + (if job.useImatrix then 1 else 0) + (if job.splitModel then 1 else 0)
    ensures |r[0]| == 7 && r[0][0] == "python" && r[0][1] == ConversionScript
    ensures r[0][2] == localDir && Pairs(r[0][3..]) == [("--outtype", "f16"), ("--outfile", fp16)]
    ensures job.useImatrix ==> |r[1]| == 11 && r[1][0] == ImatrixProgram
    ensures job.useImatrix ==>
      Pairs(r[1][1..]) == [("-m", fp16), ("-f", trainData), ("-ngl", "99"), ("--output-frequency", "10"), ("-o", imatrixPath)]
    ensures DecodeQuantize(r[if job.useImatrix then 2 else 1]) == Some(QuantizeRequest(QuantizeProgram,
      if job.useImatrix then Some(imatrixPath) else None, fp16, quantizedPath, Method(job.useImatrix, job.imatrixQMethod, job.qMethod)))
    ensures job.splitModel ==> DecodeSplit(r[|r| - 1]) == Some(SplitRequest(SplitProgram,
      if SizeGiven(job.splitMaxSize) then MaxSize(job.splitMaxSize.value) else MaxTensors(ToDecimal(job.splitMaxTensors)),
      quantizedPath, StripExtension(quantizedPath)))
  {
    var convert := ConvertCommand(localDir, fp16);
    var imatrix := if job.useImatrix then [ImatrixCommand(fp16, trainData, imatrixPath)] else [];
    var quantize := QuantizeCommand(job.useImatrix, imatrixPath, fp16, quantizedPath, job.imatrixQMethod, job.qMethod);
    var split := if job.splitModel then [ShardSplitCommand(quantizedPath, job.splitMaxTensors, job.splitMaxSize)] else [];
    [convert] + imatrix + [quantize] + split
  }

  /**
   `process_model` after authentication and download. `outdir` and `tmpdir` are the fresh
   output and download directories, `username` the registry's answer to `whoami`, `cardTags`
   the tags of the loaded card, and the booleans what the file system holds: the adapter
   and model configs of the download and the calibration file. A LoRA adapter without a
   model config is refused before anything runs; a missing calibration file is an error
   only with the importance matrix. The quantized file is written into the output directory
   under its lower-cased name, the repository is asked for under the method as chosen.
   */
  function ProcessModel(outdir: string, tmpdir: string, username: string, job: Job, cardTags: Option<seq<string>>,
                        hasAdapterConfig: bool, hasConfig: bool, trainDataExists: bool): (r: Result<Outputs, RepoError>)
    ensures r == Err(AdapterWithoutConfig) <==> hasAdapterConfig && !hasConfig
    ensures r.Err? <==> (hasAdapterConfig && !hasConfig) || (job.useImatrix && !trainDataExists)
    ensures r.Err? && r != Err(AdapterWithoutConfig) ==> r.error == TrainingDataNotFound(TrainDataPath(job.trainDataFile))
    ensures r.Ok? ==>
      var modelName := ModelName(job.modelId);
      && r.value.quantizedName == QuantizedName(modelName, job.useImatrix, job.imatrixQMethod, job.qMethod)
      && r.value.quantizedPath == PathJoin(outdir, r.value.quantizedName, '/')
      && r.value.fp16Path == PathJoin(outdir, Fp16Name(modelName), '/')
      && r.value.imatrixPath == PathJoin(outdir, "imatrix.dat", '/')
      && r.value.repoId == RequestedRepoId(username, modelName, job.useImatrix, job.imatrixQMethod, job.qMethod)
      && r.value.tags == UpdateTags(cardTags)
      && r.value.commands == ProcessCommands(PathJoin(tmpdir, modelName, '/'), r.value.fp16Path,
           TrainDataPath(job.trainDataFile), r.value.imatrixPath, r.value.quantizedPath, job)
  {
    var modelName := ModelName(job.modelId);
    var fp16 := PathJoin(outdir, Fp16Name(modelName), '/');
    var localDir := PathJoin(tmpdir, modelName, '/');
    var imatrixPath := PathJoin(outdir, "imatrix.dat", '/');
    var trainData := TrainDataPath(job.trainDataFile);
    if hasAdapterConfig && !hasConfig then
      Err(AdapterWithoutConfig)
    else if job.useImatrix && !trainDataExists then
      Err(TrainingDataNotFound(trainData))
    else
      var name := QuantizedName(modelName, job.useImatrix, job.imatrixQMethod, job.qMethod);
      var path := PathJoin(outdir, name, '/');
      Ok(Outputs(ProcessCommands(localDir, fp16, trainData, imatrixPath, path, job), fp16, imatrixPath, name, path,
        RequestedRepoId(username, modelName, job.useImatrix, job.imatrixQMethod, job.qMethod), UpdateTags(cardTags)))
  }

  /**
   The shards `process_model` uploads after splitting are the listed files named after the
   quantized file's stem; the fp16 file in the same directory is never among them.
   */
  lemma ProcessModelShards(outdir: string, tmpdir: string, username: string, job: Job, cardTags: Option<seq<string>>,
                           hasAdapterConfig: bool, hasConfig: bool, trainDataExists: bool, listing: seq<string>)
    requires '/' !in Method(job.useImatrix, job.imatrixQMethod, job.qMethod)
    requires hasAdapterConfig ==> hasConfig
    requires job.useImatrix ==> trainDataExists
    ensures var out := ProcessModel(outdir, tmpdir, username, job, cardTags, hasAdapterConfig, hasConfig, trainDataExists).value;
      var shards := ShardsToUpload(listing, ShardFilePrefix(out.quantizedPath), NoShardsFound);
      shards.Ok? ==> Fp16Name(ModelName(job.modelId)) !in shards.value
  {
    ShardPrefixOfQuantizedFile(outdir, ModelName(job.modelId), job.useImatrix, job.imatrixQMethod, job.qMethod);
  }
}
