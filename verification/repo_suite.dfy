/**
 The pure core of gguf_repo_suite.py: the argument vectors of the importance-matrix,
 split and quantize steps, the names derived from the model id, the marker files that
 carry the split options from the quantize action to the upload action, and the upload
 action's re-derivation of the repository id from the file it finds on disk.

 The host is described by `platform` (`sys.platform`) and `sep` (its path separator);
 directory listings are given in the order `os.listdir` returns them.
 */
module RepoSuite {
  import opened Wrappers
  import opened PyStr
  import opened Decimal
  import opened Paths
  import opened Commands
  import opened Request

  /** The exceptions of the modelled steps. */
  datatype SuiteError =
    | TrainingDataNotFound(path: string)   // process_model: the calibration file is missing
    | NoShardsFound                        // split_and_upload_shards: nothing matched the shard filter
    | NoQuantizedFile                      // upload_and_cleanup: no *.gguf in the temporary directory
    | QuantFieldMissing                    // upload_and_cleanup: `split('-')[1]` raises IndexError
    | InvalidTensorCount(text: string)     // upload_and_cleanup: `int(...)` raises ValueError

  /** Tensor count used when `split_tensors.dat` is absent. */
  const DefaultMaxTensors: nat := 256

  // ---------------------------------------------------------------------------
  // argument vectors

  /** `generate_importance_matrix`: the imatrix tool with model, data and output, on the CPU (`-ngl 0`). */
  function ImatrixCommand(platform: string, sep: char, modelPath: string, trainDataPath: string, outputPath: string): (r: seq<string>)
    requires IsSeparator(sep)
    ensures |r| == 9 && r[0] == PlatformExecutable("llama-imatrix", platform, sep)
    ensures Pairs(r[1..]) == [("-m", modelPath), ("-f", trainDataPath), ("-o", outputPath), ("-ngl", "0")]
  {
    var pairs := ["-m", modelPath, "-f", trainDataPath, "-o", outputPath, "-ngl", "0"];
    PairsOfFour("-m", modelPath, "-f", trainDataPath, "-o", outputPath, "-ngl", "0");
    var r := [PlatformExecutable("llama-imatrix", platform, sep)] + pairs;
    assert r[1..] == pairs;
    r
  }

  /**
   `split_and_upload_shards`: the split tool with the size limit when a non-empty size is
   given and otherwise `str(split_max_tensors)`, then the model and its extension-stripped path.
   */
  function ShardSplitCommand(platform: string, sep: char, modelPath: string, maxTensors: nat, maxSize: Option<string>): (r: seq<string>)
    requires IsSeparator(sep)
    ensures |r| == 6
    ensures DecodeSplit(r) == Some(SplitRequest(PlatformExecutable("llama-gguf-split", platform, sep),
      if SizeGiven(maxSize) then MaxSize(maxSize.value) else MaxTensors(ToDecimal(maxTensors)),
      modelPath, StripExtension(modelPath)))
  {
    SplitCommand(PlatformExecutable("llama-gguf-split", platform, sep), ToDecimal(maxTensors), maxSize, modelPath, StripExtension(modelPath))
  }

  /** `model_file_prefix`: the base name of the extension-stripped model path. */
  function ShardFilePrefix(modelPath: string, sep: char): (r: string)
    ensures sep !in r && EndsWith(StripExtension(modelPath), r)
    ensures var stem := StripExtension(modelPath);
      && (sep !in stem ==> r == stem)
      && (sep in stem ==> |r| < |stem| && stem[|stem| - |r| - 1] == sep)
  {
    Basename(StripExtension(modelPath), sep)
  }

  /**
   Splitting the quantized file gives shards named after its stem, the lower-cased model
   name and the method; the fp16 file left beside them never passes the shard filter.
   */
  lemma ShardPrefixOfQuantizedFile(outdir: string, modelName: string, quant: string, sep: char)
    requires IsSeparator(sep) && sep !in modelName && sep !in quant
    ensures ShardFilePrefix(PathJoin(outdir, QuantizedName(modelName, quant), sep), sep) == Lower(modelName) + "-" + quant
    ensures !IsShard(Fp16Name(modelName), ShardFilePrefix(PathJoin(outdir, QuantizedName(modelName, quant), sep), sep))
  {
    var stem := Lower(modelName) + "-" + quant;
    CaseChangeKeepsOtherChars(modelName, sep);
    assert sep !in stem by {
      assert forall x :: x in stem ==> x in Lower(modelName) || x == '-' || x in quant;
    }
    BaseStemOfJoin(outdir, stem, sep);
    Fp16IsNeverShard(modelName, quant);
  }

  /**
   The shards uploaded after splitting the quantized file: the "No sharded files found after
   splitting" error exactly when no listed file starts with its stem and ends in `.gguf`, and
   never the fp16 file, which stays in the same directory.
   */
  lemma ShardsOfQuantizedFile(outdir: string, modelName: string, quant: string, sep: char, listing: seq<string>)
    requires IsSeparator(sep) && sep !in modelName && sep !in quant
    ensures var shards := ShardsToUpload(listing, ShardFilePrefix(PathJoin(outdir, QuantizedName(modelName, quant), sep), sep), NoShardsFound);
      && (shards == Err(NoShardsFound) <==> forall f :: f in listing ==> !IsShard(f, Lower(modelName) + "-" + quant))
      && (shards.Ok? ==> Fp16Name(modelName) !in shards.value)
  {
    ShardPrefixOfQuantizedFile(outdir, modelName, quant, sep);
  }

  // ---------------------------------------------------------------------------
  // names

  /** `(imatrix_q_method if use_imatrix else q_method).upper()`. */
  function QuantMethod(useImatrix: bool, imatrixQMethod: string, qMethod: string): (r: string)
    ensures |r| == |if useImatrix then imatrixQMethod else qMethod|
    ensures forall i :: 0 <= i < |r| ==> !IsAsciiLower(r[i])
    ensures Lower(r) == Lower(if useImatrix then imatrixQMethod else qMethod)
  {
    var m := if useImatrix then imatrixQMethod else qMethod;
    LowerAbsorbs(m);
    Upper(m)
  }

  /** `f"{model_name.lower()}-{quant}.gguf"`: a `.gguf` file that starts with the lower-cased model name and `-`. */
  function QuantizedName(modelName: string, quant: string): (r: string)
    ensures StartsWith(r, Lower(modelName) + "-") && EndsWith(r, ".gguf")
  {
    var stem := Lower(modelName) + "-" + quant;
    StartsWithAppend(Lower(modelName) + "-", quant + ".gguf");
    assert stem + ".gguf" == Lower(modelName) + "-" + (quant + ".gguf");
    EndsWithAppend(stem, ".gguf");
    stem + ".gguf"
  }

  /**
   The quantized file name parses back: its extension-stripped name is the lower-cased model
   name, `-` and the method, and for a `-`-free method the last `-`-field is the method and
   what precedes it the lower-cased model name, whatever `-` or `.` the model name holds.
   */
  lemma QuantizedNameFields(modelName: string, quant: string)
    ensures StripExtension(QuantizedName(modelName, quant)) == Lower(modelName) + "-" + quant
    ensures '-' !in quant ==>
      var stem := StripExtension(QuantizedName(modelName, quant));
      LastField(stem, '-') == quant && DropLastField(stem, '-') == Lower(modelName)
  {
    var stem := Lower(modelName) + "-" + quant;
    StripGguf(stem);
    if '-' !in quant {
      assert stem == Lower(modelName) + ['-'] + quant;
      LastFieldAfterSeparator(Lower(modelName), quant, '-');
    }
  }

  /** `f"{username}/{model_name}-{quant}-GGUF"`: the repository named in the model card. */
  function RepoId(username: string, modelName: string, quant: string): (r: string)
    ensures '/' !in modelName + quant ==> DropLastField(r, '/') == username && LastField(r, '/') == modelName + "-" + quant + "-GGUF"
  {
    var name := modelName + "-" + quant + "-GGUF";
    if '/' !in modelName + quant then
      assert '/' !in name by {
        assert forall x :: x in name ==> x in modelName + quant || x in "-GGUF";
      }
      LastFieldAfterSeparator(username, name, '/');
      username + "/" + name
    else
      username + "/" + name
  }

  /** `model_id.replace("/", "__")`: the cache directory name of a model. */
  function SanitizedModelId(modelId: string): (r: string)
    ensures '/' !in r
    ensures forall x :: x in modelId && x != '/' ==> x in r
    ensures '/' !in modelId ==> r == modelId
  {
    if '/' !in modelId then
      ReplaceCharAbsent(modelId, '/', "__");
      ReplaceChar(modelId, '/', "__")
    else
      ReplaceChar(modelId, '/', "__")
  }

  /** The usual `owner/name` id: its `/` becomes `__`, as in `google/gemma-2b` to `google__gemma-2b`. */
  lemma SanitizedOwnedId(owner: string, name: string)
    requires '/' !in owner && '/' !in name
    ensures SanitizedModelId(owner + "/" + name) == owner + "__" + name
  {
    assert owner + "/" + name == owner + ['/'] + name;
    ReplaceAtSingleSeparator(owner, name, '/', "__");
  }

  /**
   The cache directory name is not injective: `x/y__z` and `x__y/z` are different model ids
   that share one cache directory, so the sentinel of one marks the other as downloaded.
   */
  lemma SanitizedModelIdCollides(x: string, y: string, z: string)
    requires '/' !in x && '/' !in y && '/' !in z
    ensures x + "/" + y + "__" + z != x + "__" + y + "/" + z
    ensures SanitizedModelId(x + "/" + y + "__" + z) == SanitizedModelId(x + "__" + y + "/" + z)
  {
    var a, b := x + "/" + y + "__" + z, x + "__" + y + "/" + z;
    assert a[|x|] == '/' && b[|x|] == '_';
    var u, v := y + "__" + z, x + "__" + y;
    assert '/' !in u && '/' !in v by {
      assert forall c :: c in u ==> c in y || c == '_' || c in z;
      assert forall c :: c in v ==> c in x || c == '_' || c in y;
    }
    assert a == x + "/" + u && b == v + "/" + z;
    SanitizedOwnedId(x, u);
    SanitizedOwnedId(v, z);
    assert x + "__" + u == v + "__" + z;
  }

  /** Replacing the only occurrence of `c` in `a + c + b` puts `t` in its place. */
  lemma ReplaceAtSingleSeparator(a: string, b: string, c: char, t: string)
    requires c !in a && c !in b
    ensures ReplaceChar(a + [c] + b, c, t) == a + t + b
  {
    ReplaceCharAppend(a + [c], b, c, t);
    ReplaceCharAppend(a, [c], c, t);
    assert ReplaceChar([c], c, t) == t by {
      assert [c][1..] == [];
    }
    ReplaceCharAbsent(a, c, t);
    ReplaceCharAbsent(b, c, t);
    assert ReplaceChar(a + [c], c, t) == a + t;
  }

  // ---------------------------------------------------------------------------
  // process_model

  /** The marker files the quantize action leaves for the upload action: two flags and two texts. */
  datatype Markers = Markers(privateRepo: bool, splitModel: bool, tensorsText: Option<string>, sizeText: Option<string>)

  /** What the quantize action leaves behind: the commands it ran, in order, its files and the markers. */
  datatype Outputs = Outputs(
    commands: seq<seq<string>>,
    fp16Path: string,
    imatrixPath: string,
    quantizedPath: string,
    repoId: string,
    markers: Markers)

  /**
   The marker files: the private flag as asked; when splitting, the split flag, the tensor
   count as `str(n)`, and the size only when a non-empty size was given.
   */
  function WriteMarkers(job: Job): (m: Markers)
    ensures m.privateRepo == job.privateRepo && m.splitModel == job.splitModel
    ensures m.tensorsText.Some? <==> job.splitModel
    ensures m.sizeText.Some? <==> job.splitModel && SizeGiven(job.splitMaxSize)
  {
    Markers(job.privateRepo, job.splitModel,
      if job.splitModel then Some(ToDecimal(job.splitMaxTensors)) else None,
      if job.splitModel && SizeGiven(job.splitMaxSize) then job.splitMaxSize else None)
  }

  /**
   The commands `process_model` runs, in order: convert to fp16, compute the importance
   matrix when it is used, quantize. The files flow through them: the converter writes the
   file the imatrix tool and the quantizer read, and the imatrix tool writes the matrix the
   quantizer is given.
   */
  function ProcessCommands(platform: string, sep: char, localDir: string, fp16: string, trainData: string,
                           imatrixPath: string, quantizedPath: string, quant: string, useImatrix: bool): (r: seq<seq<string>>)
    requires IsSeparator(sep)
    ensures |r| == (if useImatrix then 3 else 2) && |r[0]| == 7 && (useImatrix ==> |r[1]| == 9)
    ensures r[0][0] == "python" && r[0][1] == ConversionScript
    ensures r[0][2] == localDir && Pairs(r[0][3..]) == [("--outtype", "f16"), ("--outfile", fp16)]
    ensures useImatrix ==> r[1][0] == PlatformExecutable("llama-imatrix", platform, sep)
    ensures useImatrix ==> Pairs(r[1][1..]) == [("-m", fp16), ("-f", trainData), ("-o", imatrixPath), ("-ngl", "0")]
    ensures DecodeQuantize(r[|r| - 1]) == Some(QuantizeRequest(PlatformExecutable("llama-quantize", platform, sep),
      if useImatrix then Some(imatrixPath) else None, fp16, quantizedPath, quant))
  {
    var convert := ConvertCommand(localDir, fp16);
    var quantize := QuantizeCommand(PlatformExecutable("llama-quantize", platform, sep), useImatrix, imatrixPath, fp16, quantizedPath, quant);
    if useImatrix then [convert, ImatrixCommand(platform, sep, fp16, trainData, imatrixPath), quantize]
    else [convert, quantize]
  }

  /**
   `process_model` after authentication and download: convert, optionally compute the
   importance matrix, quantize, and leave the markers. `outdir` is the fresh temporary
   directory, `username` the registry's answer to `whoami`, and `trainDataExists` whether
   the calibration file is on disk. A missing calibration file is an error only with the
   importance matrix. The quantizer writes the quantized file of the model name and the
   upper-cased method, inside the temporary directory, and the repository is named after
   the model name as given.
   */
  function ProcessModel(platform: string, sep: char, outdir: string, username: string, job: Job, trainDataExists: bool): (r: Result<Outputs, SuiteError>)
    requires IsSeparator(sep)
    ensures r.Err? <==> job.useImatrix && !trainDataExists
    ensures r.Err? ==> r.error == TrainingDataNotFound(TrainDataPath(job.trainDataFile))
    ensures r.Ok? ==> |r.value.commands| == (if job.useImatrix then 3 else 2) && |r.value.commands[0]| == 7
    ensures r.Ok? && job.useImatrix ==> |r.value.commands[1]| == 9
    ensures r.Ok? ==> r.value.markers == WriteMarkers(job)
    ensures r.Ok? ==>
      && r.value.fp16Path == PathJoin(outdir, Fp16Name(ModelName(job.modelId)), sep)
      && r.value.imatrixPath == PathJoin(outdir, "imatrix.dat", sep)
      && r.value.commands[0][2] == PathJoin("model_cache", SanitizedModelId(job.modelId), sep)
    ensures r.Ok? ==> r.value.commands[0][0] == "python" && r.value.commands[0][1] == ConversionScript
    ensures r.Ok? ==> Pairs(r.value.commands[0][3..]) == [("--outtype", "f16"), ("--outfile", r.value.fp16Path)]
    ensures r.Ok? && job.useImatrix ==> r.value.commands[1][0] == PlatformExecutable("llama-imatrix", platform, sep)
    ensures r.Ok? ==>
      var quant := QuantMethod(job.useImatrix, job.imatrixQMethod, job.qMethod);
      && DecodeQuantize(r.value.commands[|r.value.commands| - 1]) == Some(QuantizeRequest(PlatformExecutable("llama-quantize", platform, sep),
           if job.useImatrix then Some(r.value.imatrixPath) else None, r.value.fp16Path, r.value.quantizedPath, quant))
      && r.value.quantizedPath == PathJoin(outdir, QuantizedName(ModelName(job.modelId), quant), sep)
      && r.value.repoId == RepoId(username, ModelName(job.modelId), quant)
    ensures r.Ok? && job.useImatrix ==>
      Pairs(r.value.commands[1][1..]) == [("-m", r.value.fp16Path), ("-f", TrainDataPath(job.trainDataFile)), ("-o", r.value.imatrixPath), ("-ngl", "0")]
  {
    var modelName := ModelName(job.modelId);
    var fp16 := PathJoin(outdir, Fp16Name(modelName), sep);
    var localDir := PathJoin("model_cache", SanitizedModelId(job.modelId), sep);
    var imatrixPath := PathJoin(outdir, "imatrix.dat", sep);
    var trainData := TrainDataPath(job.trainDataFile);
    if job.useImatrix && !trainDataExists then
      Err(TrainingDataNotFound(trainData))
    else
      var quant := QuantMethod(job.useImatrix, job.imatrixQMethod, job.qMethod);
      var quantizedPath := PathJoin(outdir, QuantizedName(modelName, quant), sep);
      var commands := ProcessCommands(platform, sep, localDir, fp16, trainData, imatrixPath, quantizedPath, quant, job.useImatrix);
      Ok(Outputs(commands, fp16, imatrixPath, quantizedPath, RepoId(username, modelName, quant), WriteMarkers(job)))
  }

  // ---------------------------------------------------------------------------
  // upload_and_cleanup

  /** The upload performed: target repository, visibility, the model file and, when splitting, the split command. */
  datatype UploadPlan = UploadPlan(repoId: string, isPrivate: bool, modelPath: string, fileName: string, splitCommand: Option<seq<string>>)

  predicate IsGguf(f: string) { EndsWith(f, ".gguf") }

  /** An fp16 conversion output, which is not a quantized model. */
  predicate IsFp16(f: string) { EndsWith(f, ".fp16.gguf") }

  /** Index of the first `*.gguf` entry, or the length of the listing when there is none. */
  function GgufIndex(listing: seq<string>): (k: nat)
    ensures k <= |listing|
    ensures forall j :: 0 <= j < k ==> !IsGguf(listing[j])
    ensures k < |listing| ==> IsGguf(listing[k])
    decreases |listing|
  {
    if |listing| == 0 || IsGguf(listing[0]) then 0 else 1 + GgufIndex(listing[1..])
  }

  /**
   `next(f for f in os.listdir(temp_dir) if f.endswith('.gguf'))`: the first `*.gguf` entry
   in listing order, whatever it is.
   */
  function FirstGguf(listing: seq<string>): (r: Option<string>)
    ensures r.None? <==> forall f :: f in listing ==> !IsGguf(f)
    ensures r.Some? ==> r.value in listing && IsGguf(r.value)
    ensures r.Some? ==> r.value == listing[GgufIndex(listing)]
  {
    var k := GgufIndex(listing);
    if k < |listing| then Some(listing[k]) else None
  }

  /**
   `name.split('-')[0]` and `name.split('-')[1]` (IndexError without a `-`): the text before
   the first `-` and the `-`-free text after it.
   */
  function SourceFields(name: string): (r: Result<(string, string), SuiteError>)
    ensures r.Ok? <==> '-' in name
    ensures r.Err? ==> r.error == QuantFieldMissing
    ensures r.Ok? ==> '-' !in r.value.0 && '-' !in r.value.1 && StartsWith(name, r.value.0 + "-" + r.value.1)
    ensures r.Ok? ==> var k := |r.value.0| + 1 + |r.value.1|; k == |name| || name[k] == '-'
  {
    var fields := Split(name, '-');
    SeparatorSplits(name, '-');
    if |fields| < 2 then
      Err(QuantFieldMissing)
    else
      SplitFirstTwo(name, '-');
      Ok((fields[0], fields[1]))
  }

  /** `split_tensors.dat` read with `int()` (256 when absent) and `split_size.dat` read as text (None when absent). */
  function ReadSplitSettings(m: Markers): (r: Result<(nat, Option<string>), SuiteError>)
    ensures m.tensorsText.None? ==> r == Ok((DefaultMaxTensors, m.sizeText))
    ensures r.Err? <==> m.tensorsText.Some? && !(|m.tensorsText.value| >= 1 && AllDigits(m.tensorsText.value))
    ensures r.Err? ==> r.error == InvalidTensorCount(m.tensorsText.value)
    ensures r.Ok? ==> r.value.1 == m.sizeText
    ensures r.Ok? && m.tensorsText.Some? ==> AllDigits(m.tensorsText.value) && r.value.0 == DigitsValue(m.tensorsText.value)
  {
    if m.tensorsText.None? then Ok((DefaultMaxTensors, m.sizeText))
    else
      match ParseInt(m.tensorsText.value)
      case None => Err(InvalidTensorCount(m.tensorsText.value))
      case Some(n) => Ok((n, m.sizeText))
  }

  /**
   The split options survive the trip through the marker files: what the upload action
   reads back is the tensor count asked for and the size exactly when a non-empty size was given.
   */
  lemma MarkersRoundTrip(job: Job)
    requires job.splitModel
    ensures ReadSplitSettings(WriteMarkers(job)) == Ok((job.splitMaxTensors, if SizeGiven(job.splitMaxSize) then job.splitMaxSize else None))
  {
    ParseIntToDecimal(job.splitMaxTensors);
  }

  /**
   The marker as written when the form delivers the tensor count as a float: `str(256.0)` is
   `"256.0"`, and `int()` rejects that text, so the split upload stops with ValueError. For a
   count `n` the float's text is `str(n) + ".0"` (up to the magnitude where Python switches
   to exponent notation, which the text here does not need).
   */
  lemma FloatTensorCountRejected(privateRepo: bool, n: nat, sizeText: Option<string>)
    ensures var text := ToDecimal(n) + ".0";
      ReadSplitSettings(Markers(privateRepo, true, Some(text), sizeText)) == Err(InvalidTensorCount(text))
  {
    var text := ToDecimal(n) + ".0";
    assert text[|ToDecimal(n)|] == '.' && !IsDigit('.');
  }

  /** The common tail of the upload: repository id from the two fields, then split or single upload. */
  function FinishUpload(platform: string, sep: char, username: string, modelPath: string, fileName: string,
                        fields: Result<(string, string), SuiteError>, markers: Markers): (r: Result<UploadPlan, SuiteError>)
    requires IsSeparator(sep)
    ensures fields.Err? ==> r == Err(fields.error)
    ensures fields.Ok? && markers.splitModel && ReadSplitSettings(markers).Err? ==> r == Err(ReadSplitSettings(markers).error)
    ensures r.Err? <==> fields.Err? || (markers.splitModel && ReadSplitSettings(markers).Err?)
    ensures r.Ok? ==> r.value.repoId == username + "/" + fields.value.0 + "-" + fields.value.1 + "-GGUF"
    ensures r.Ok? ==> r.value.isPrivate == markers.privateRepo && r.value.modelPath == modelPath && r.value.fileName == fileName
    ensures r.Ok? ==> (r.value.splitCommand.Some? <==> markers.splitModel)
    ensures r.Ok? && markers.splitModel ==>
      var settings := ReadSplitSettings(markers).value;
      DecodeSplit(r.value.splitCommand.value) == Some(SplitRequest(PlatformExecutable("llama-gguf-split", platform, sep),
        if SizeGiven(settings.1) then MaxSize(settings.1.value) else MaxTensors(ToDecimal(settings.0)),
        modelPath, StripExtension(modelPath)))
  {
    if fields.Err? then Err(fields.error)
    else
      var repoId := username + "/" + fields.value.0 + "-" + fields.value.1 + "-GGUF";
      if !markers.splitModel then Ok(UploadPlan(repoId, markers.privateRepo, modelPath, fileName, None))
      else
        match ReadSplitSettings(markers)
        case Err(e) => Err(e)
        case Ok(settings) =>
          Ok(UploadPlan(repoId, markers.privateRepo, modelPath, fileName,
            Some(ShardSplitCommand(platform, sep, modelPath, settings.0, settings.1))))
  }

  /**
   `upload_and_cleanup` as written: the first `*.gguf` in the listing is uploaded, and the
   repository id is rebuilt from the first two `-`-fields of its name.
   */
  function UploadAsWritten(platform: string, sep: char, username: string, tempDir: string, listing: seq<string>, markers: Markers): (r: Result<UploadPlan, SuiteError>)
    requires IsSeparator(sep)
    ensures r == Err(NoQuantizedFile) <==> forall f :: f in listing ==> !IsGguf(f)
    ensures r.Ok? ==>
      && FirstGguf(listing).Some?
      && r.value.modelPath == PathJoin(tempDir, FirstGguf(listing).value, sep)
      && r.value.fileName == Basename(r.value.modelPath, sep)
      && SourceFields(r.value.fileName).Ok?
      && r.value.repoId == username + "/" + SourceFields(r.value.fileName).value.0 + "-" + SourceFields(r.value.fileName).value.1 + "-GGUF"
    ensures FirstGguf(listing).Some? && '-' !in Basename(PathJoin(tempDir, FirstGguf(listing).value, sep), sep) ==>
      r == Err(QuantFieldMissing)
    ensures r.Ok? ==> r.value.isPrivate == markers.privateRepo && (r.value.splitCommand.Some? <==> markers.splitModel)
    ensures r.Ok? && markers.splitModel ==>
      && ReadSplitSettings(markers).Ok?
      && var settings := ReadSplitSettings(markers).value;
         DecodeSplit(r.value.splitCommand.value) == Some(SplitRequest(PlatformExecutable("llama-gguf-split", platform, sep),
           if SizeGiven(settings.1) then MaxSize(settings.1.value) else MaxTensors(ToDecimal(settings.0)),
           r.value.modelPath, StripExtension(r.value.modelPath)))
    ensures FirstGguf(listing).Some? ==>
      var name := Basename(PathJoin(tempDir, FirstGguf(listing).value, sep), sep);
      && (r.Err? <==> SourceFields(name).Err? || (markers.splitModel && ReadSplitSettings(markers).Err?))
      && (SourceFields(name).Ok? && markers.splitModel && ReadSplitSettings(markers).Err? ==>
            r == Err(ReadSplitSettings(markers).error))
  {
    match FirstGguf(listing)
    case None => Err(NoQuantizedFile)
    case Some(f) =>
      var path := PathJoin(tempDir, f, sep);
      var name := Basename(path, sep);
      FinishUpload(platform, sep, username, path, name, SourceFields(name), markers)
  }

  /**
   The re-parse keeps `.gguf` on the quant field: for a model name and method without `-`,
   the fields of the quantized file name are the lower-cased model name and `method + ".gguf"`.
   */
  lemma SourceFieldsKeepExtension(modelName: string, quant: string)
    requires '-' !in modelName && '-' !in quant
    ensures SourceFields(QuantizedName(modelName, quant)) == Ok((Lower(modelName), quant + ".gguf"))
  {
    var low := Lower(modelName);
    CaseChangeKeepsOtherChars(modelName, '-');
    assert QuantizedName(modelName, quant) == low + ['-'] + (quant + ".gguf");
    SplitAtSeparator(low, quant + ".gguf", '-');
    SplitNoSeparator(low, '-');
    SplitNoSeparator(quant + ".gguf", '-');
  }

  /** A model name with a `-` is cut at its first `-`: only the text before it names the repository. */
  lemma SourceFieldsCutModelName(before: string, after: string, quant: string)
    requires '-' !in before
    ensures SourceFields(QuantizedName(before + "-" + after, quant)).Ok?
    ensures SourceFields(QuantizedName(before + "-" + after, quant)).value.0 == Lower(before)
  {
    var low := Lower(before);
    CaseChangeKeepsOtherChars(before, '-');
    LowerConcat(before, "-" + after);
    LowerConcat("-", after);
    assert Lower("-") == "-";
    var rest := Lower(after) + "-" + quant + ".gguf";
    assert QuantizedName(before + "-" + after, quant) == low + ['-'] + rest;
    SplitAtSeparator(low, rest, '-');
    SplitNoSeparator(low, '-');
  }

  /** With one `*.gguf` file in the directory, that file is the one uploaded and its base name is re-parsed. */
  lemma UploadAsWrittenSingle(platform: string, sep: char, username: string, tempDir: string, name: string, markers: Markers)
    requires IsSeparator(sep) && sep !in name && IsGguf(name)
    ensures UploadAsWritten(platform, sep, username, tempDir, [name], markers)
      == FinishUpload(platform, sep, username, PathJoin(tempDir, name, sep), name, SourceFields(name), markers)
  {
    assert GgufIndex([name]) == 0;
    BasenameOfJoin(tempDir, name, sep);
  }

  /**
   As written, the upload targets `user/<model>-<method>.gguf-GGUF`, never the repository
   `user/<Model>-<method>-GGUF` that the quantize action names in the model card.
   */
  lemma UploadAsWrittenMissesRepoId(platform: string, sep: char, username: string, tempDir: string, modelName: string, quant: string, markers: Markers)
    requires IsSeparator(sep)
    requires '-' !in modelName && '-' !in quant && sep !in modelName && sep !in quant
    requires !markers.splitModel
    ensures UploadAsWritten(platform, sep, username, tempDir, [QuantizedName(modelName, quant)], markers)
      == Ok(UploadPlan(username + "/" + Lower(modelName) + "-" + quant + ".gguf" + "-GGUF", markers.privateRepo,
                   PathJoin(tempDir, QuantizedName(modelName, quant), sep), QuantizedName(modelName, quant), None))
    ensures username + "/" + Lower(modelName) + "-" + quant + ".gguf" + "-GGUF" != RepoId(username, modelName, quant)
  {
    var name := QuantizedName(modelName, quant);
    QuantizedNameHasNoSeparator(modelName, quant, sep);
    EndsWithAppend(Lower(modelName) + "-" + quant, ".gguf");
    UploadAsWrittenSingle(platform, sep, username, tempDir, name, markers);
    SourceFieldsKeepExtension(modelName, quant);
    var asWritten := username + "/" + Lower(modelName) + "-" + quant + ".gguf" + "-GGUF";
    RegroupAsWritten(username, Lower(modelName), quant);
    var path := PathJoin(tempDir, name, sep);
    assert FinishUpload(platform, sep, username, path, name, Ok((Lower(modelName), quant + ".gguf")), markers)
      == Ok(UploadPlan(asWritten, markers.privateRepo, path, name, None));
    assert |asWritten| == |RepoId(username, modelName, quant)| + 5;
  }

  lemma RegroupAsWritten(user: string, name: string, quant: string)
    ensures user + "/" + name + "-" + (quant + ".gguf") + "-GGUF" == user + "/" + name + "-" + quant + ".gguf" + "-GGUF"
  {
  }

  /**
   The fp16 file stays in the temporary directory and also ends in `.gguf`: when the listing
   returns it first it is the file picked, and for a model name without `-` the upload fails
   with IndexError.
   */
  lemma UploadAsWrittenMayPickFp16(platform: string, sep: char, username: string, tempDir: string, modelName: string, quant: string, markers: Markers)
    requires IsSeparator(sep)
    requires '-' !in modelName && sep !in modelName
    ensures FirstGguf([Fp16Name(modelName), QuantizedName(modelName, quant)]) == Some(Fp16Name(modelName))
    ensures UploadAsWritten(platform, sep, username, tempDir, [Fp16Name(modelName), QuantizedName(modelName, quant)], markers)
      == Err(QuantFieldMissing)
  {
    var fp16 := Fp16Name(modelName);
    FirstGgufOfFp16First(modelName, QuantizedName(modelName, quant));
    Fp16NameLacks(modelName, sep);
    Fp16NameLacks(modelName, '-');
    BasenameOfJoin(tempDir, fp16, sep);
  }

  /** The fp16 file is a `*.gguf`, so a listing that starts with it picks it. */
  lemma FirstGgufOfFp16First(modelName: string, other: string)
    ensures FirstGguf([Fp16Name(modelName), other]) == Some(Fp16Name(modelName))
  {
    var listing := [Fp16Name(modelName), other];
    assert IsGguf(listing[0]);
    assert GgufIndex(listing) == 0;
  }

  /** The fp16 name holds no character the model name lacks, other than those of `.fp16.gguf`. */
  lemma Fp16NameLacks(modelName: string, c: char)
    requires c !in modelName && c !in ".fp16.gguf"
    ensures c !in Fp16Name(modelName)
  {
    var fp16 := Fp16Name(modelName);
    assert forall x :: x in fp16 ==> x in modelName || x in ".fp16.gguf";
  }

  lemma QuantizedNameHasNoSeparator(modelName: string, quant: string, c: char)
    requires c !in modelName && c !in quant && c != '-' && c != '.' && !IsAsciiLower(c) && !IsAsciiUpper(c)
    ensures c !in QuantizedName(modelName, quant)
  {
    CaseChangeKeepsOtherChars(modelName, c);
    var name := QuantizedName(modelName, quant);
    assert forall x :: x in name ==> x in Lower(modelName) || x in quant || x in "-.gguf";
  }

  // ---------------------------------------------------------------------------
  // upload_and_cleanup, corrected

  /** A file the upload should consider: a `*.gguf` that is not the fp16 conversion output. */
  predicate IsQuantized(f: string) { IsGguf(f) && !IsFp16(f) }

  /** Index of the first quantized entry, or the length of the listing when there is none. */
  function QuantizedIndex(listing: seq<string>): (k: nat)
    ensures k <= |listing|
    ensures forall j :: 0 <= j < k ==> !IsQuantized(listing[j])
    ensures k < |listing| ==> IsQuantized(listing[k])
    decreases |listing|
  {
    if |listing| == 0 || IsQuantized(listing[0]) then 0 else 1 + QuantizedIndex(listing[1..])
  }

  /** The first `*.gguf` entry that is not an fp16 file, in listing order. */
  function FirstQuantized(listing: seq<string>): (r: Option<string>)
    ensures r.None? <==> forall f :: f in listing ==> !IsQuantized(f)
    ensures r.Some? ==> r.value in listing && IsQuantized(r.value)
    ensures r.Some? ==> r.value == listing[QuantizedIndex(listing)]
  {
    var k := QuantizedIndex(listing);
    if k < |listing| then Some(listing[k]) else None
  }

  /**
   The fields of a quantized file name as the quantize action wrote them: the extension is
   dropped and the stem is cut at its last `-`, so a model name may itself contain `-`.
   */
  function IntendedFields(name: string): (r: Result<(string, string), SuiteError>)
    ensures r.Ok? <==> '-' in StripExtension(name)
    ensures r.Err? ==> r.error == QuantFieldMissing
    ensures r.Ok? ==> '-' !in r.value.1 && r.value.0 + "-" + r.value.1 == StripExtension(name)
  {
    var stem := StripExtension(name);
    if '-' in stem then Ok((DropLastField(stem, '-'), LastField(stem, '-'))) else Err(QuantFieldMissing)
  }

  /**
   The upload with both defects removed: the fp16 file is skipped, and the repository id is
   rebuilt from the quantized file name by `IntendedFields`.
   */
  function Upload(platform: string, sep: char, username: string, tempDir: string, listing: seq<string>, markers: Markers): (r: Result<UploadPlan, SuiteError>)
    requires IsSeparator(sep)
    ensures r == Err(NoQuantizedFile) <==> forall f :: f in listing ==> !IsQuantized(f)
    ensures r.Ok? ==>
      && FirstQuantized(listing).Some?
      && r.value.modelPath == PathJoin(tempDir, FirstQuantized(listing).value, sep)
      && r.value.fileName == Basename(r.value.modelPath, sep)
      && IntendedFields(r.value.fileName).Ok?
      && r.value.repoId == username + "/" + IntendedFields(r.value.fileName).value.0 + "-" + IntendedFields(r.value.fileName).value.1 + "-GGUF"
    ensures r.Ok? ==> r.value.isPrivate == markers.privateRepo && (r.value.splitCommand.Some? <==> markers.splitModel)
    ensures r.Ok? && markers.splitModel ==>
      && ReadSplitSettings(markers).Ok?
      && var settings := ReadSplitSettings(markers).value;
         DecodeSplit(r.value.splitCommand.value) == Some(SplitRequest(PlatformExecutable("llama-gguf-split", platform, sep),
           if SizeGiven(settings.1) then MaxSize(settings.1.value) else MaxTensors(ToDecimal(settings.0)),
           r.value.modelPath, StripExtension(r.value.modelPath)))
    ensures FirstQuantized(listing).Some? ==>
      var name := Basename(PathJoin(tempDir, FirstQuantized(listing).value, sep), sep);
      && (r.Err? <==> IntendedFields(name).Err? || (markers.splitModel && ReadSplitSettings(markers).Err?))
      && (IntendedFields(name).Err? ==> r == Err(QuantFieldMissing))
      && (IntendedFields(name).Ok? && markers.splitModel && ReadSplitSettings(markers).Err? ==>
            r == Err(ReadSplitSettings(markers).error))
  {
    match FirstQuantized(listing)
    case None => Err(NoQuantizedFile)
    case Some(f) =>
      var path := PathJoin(tempDir, f, sep);
      var name := Basename(path, sep);
      FinishUpload(platform, sep, username, path, name, IntendedFields(name), markers)
  }

  /** The fields of a quantized file name are the lower-cased model name and the method, whatever `-` the model name holds. */
  lemma IntendedFieldsRoundTrip(modelName: string, quant: string)
    requires '-' !in quant
    ensures IntendedFields(QuantizedName(modelName, quant)) == Ok((Lower(modelName), quant))
  {
    QuantizedNameFields(modelName, quant);
    var stem := StripExtension(QuantizedName(modelName, quant));
    assert stem[|Lower(modelName)|] == '-';
  }

  /** The fp16 file is never taken for a quantized file. */
  lemma Fp16IsNotQuantized(modelName: string)
    ensures IsGguf(Fp16Name(modelName)) && IsFp16(Fp16Name(modelName)) && !IsQuantized(Fp16Name(modelName))
  {
    EndsWithAppend(modelName, ".fp16.gguf");
    assert Fp16Name(modelName) == modelName + ".fp16" + ".gguf";
    EndsWithAppend(modelName + ".fp16", ".gguf");
  }

  /**
   The quantized file is never mistaken for an fp16 file when the method has no lower-case
   letter, which `QuantMethod` guarantees: its name cannot end in `.fp16.gguf`.
   */
  lemma QuantizedNameIsQuantized(modelName: string, quant: string)
    requires forall i :: 0 <= i < |quant| ==> !IsAsciiLower(quant[i])
    ensures IsQuantized(QuantizedName(modelName, quant))
  {
    var name := QuantizedName(modelName, quant);
    var prefix := Lower(modelName) + "-";
    assert name == prefix + quant + ".gguf";
    EndsWithAppend(prefix + quant, ".gguf");
    var n, q := |name|, |quant|;
    if n >= 10 {
      var tail := name[n - 10..];
      var fp16 := ".fp16.gguf";
      if q == 0 {
        assert name[n - 6] == '-' && tail[4] == name[n - 6] && fp16[4] == '6';
      } else if q == 1 {
        assert name[n - 7] == '-' && tail[3] == name[n - 7] && fp16[3] == '1';
      } else if q == 2 {
        assert name[n - 8] == '-' && tail[2] == name[n - 8] && fp16[2] == 'p';
      } else {
        assert name[n - 8] == quant[q - 3] && tail[2] == name[n - 8] && fp16[2] == 'p';
      }
      assert tail != fp16;
    }
  }

  /**
   The corrected upload picks the quantized file from any listing of the temporary directory
   that holds it, whatever the listing order and whether or not the fp16 file is listed.
   */
  lemma FirstQuantizedFinds(listing: seq<string>, modelName: string, quant: string)
    requires forall i :: 0 <= i < |quant| ==> !IsAsciiLower(quant[i])
    requires QuantizedName(modelName, quant) in listing
    requires forall f :: f in listing && IsGguf(f) ==> f == Fp16Name(modelName) || f == QuantizedName(modelName, quant)
    ensures FirstQuantized(listing) == Some(QuantizedName(modelName, quant))
  {
    QuantizedNameIsQuantized(modelName, quant);
    Fp16IsNotQuantized(modelName);
  }

  /**
   End to end: after the quantize action, the corrected upload sends the quantized file to
   the repository of the lower-cased model name and the method, also for model names with `-`
   and whatever the listing order.
   */
  lemma UploadFindsQuantizedModel(platform: string, sep: char, username: string, tempDir: string, listing: seq<string>, modelName: string, quant: string, markers: Markers)
    requires IsSeparator(sep)
    requires sep !in modelName && sep !in quant && '-' !in quant && '.' !in quant
    requires forall i :: 0 <= i < |quant| ==> !IsAsciiLower(quant[i])
    requires QuantizedName(modelName, quant) in listing
    requires forall f :: f in listing && IsGguf(f) ==> f == Fp16Name(modelName) || f == QuantizedName(modelName, quant)
    requires !markers.splitModel
    ensures Upload(platform, sep, username, tempDir, listing, markers)
      == Ok(UploadPlan(RepoId(username, Lower(modelName), quant), markers.privateRepo,
                   PathJoin(tempDir, QuantizedName(modelName, quant), sep), QuantizedName(modelName, quant), None))
  {
    var name := QuantizedName(modelName, quant);
    FirstQuantizedFinds(listing, modelName, quant);
    QuantizedNameHasNoSeparator(modelName, quant, sep);
    BasenameOfJoin(tempDir, name, sep);
    IntendedFieldsRoundTrip(modelName, quant);
    RegroupRepoId(username, Lower(modelName), quant);
  }

  /**
   The same with the split marker set and a readable tensor count: the plan is the same
   repository, visibility, path and name, and the split tool is given the quantized file.
   */
  lemma UploadFindsQuantizedModelSplit(platform: string, sep: char, username: string, tempDir: string, listing: seq<string>, modelName: string, quant: string, markers: Markers)
    requires IsSeparator(sep)
    requires sep !in modelName && sep !in quant && '-' !in quant && '.' !in quant
    requires forall i :: 0 <= i < |quant| ==> !IsAsciiLower(quant[i])
    requires QuantizedName(modelName, quant) in listing
    requires forall f :: f in listing && IsGguf(f) ==> f == Fp16Name(modelName) || f == QuantizedName(modelName, quant)
    requires markers.splitModel && ReadSplitSettings(markers).Ok?
    ensures var r := Upload(platform, sep, username, tempDir, listing, markers);
      var path := PathJoin(tempDir, QuantizedName(modelName, quant), sep);
      && r.Ok?
      && r.value.repoId == RepoId(username, Lower(modelName), quant)
      && r.value.isPrivate == markers.privateRepo
      && r.value.modelPath == path
      && r.value.fileName == QuantizedName(modelName, quant)
      && r.value.splitCommand.Some?
      && DecodeSplit(r.value.splitCommand.value).Some?
      && DecodeSplit(r.value.splitCommand.value).value.input == path
      && DecodeSplit(r.value.splitCommand.value).value.outputPrefix == StripExtension(path)
  {
    var name := QuantizedName(modelName, quant);
    FirstQuantizedFinds(listing, modelName, quant);
    QuantizedNameHasNoSeparator(modelName, quant, sep);
    BasenameOfJoin(tempDir, name, sep);
    IntendedFieldsRoundTrip(modelName, quant);
    RegroupRepoId(username, Lower(modelName), quant);
  }

  lemma RegroupRepoId(user: string, name: string, quant: string)
    ensures user + "/" + name + "-" + quant + "-GGUF" == RepoId(user, name, quant)
  {
  }
}
