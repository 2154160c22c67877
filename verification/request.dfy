/**
 What both applications share: the quantize request as the form submits it, the model
 name taken from the model id, the fp16 conversion output named after it, and the
 fallback calibration data.
 */
module Request {
  import opened Wrappers
  import opened PyStr
  import opened Paths

  /** The arguments of `process_model`, without the login token. */
  datatype Job = Job(
    modelId: string,
    qMethod: string,
    useImatrix: bool,
    imatrixQMethod: string,
    trainDataFile: Option<string>,
    privateRepo: bool,
    splitModel: bool,
    splitMaxTensors: nat,
    splitMaxSize: Option<string>)

  /** Calibration data used when no training file is uploaded. */
  const DefaultTrainData := "llama.cpp/groups_merged.txt"

  /** `train_data_file.name if train_data_file else "llama.cpp/groups_merged.txt"`. */
  function TrainDataPath(file: Option<string>): (r: string)
    ensures file.Some? ==> r == file.value
    ensures file.None? ==> r == DefaultTrainData
  {
    file.GetOr(DefaultTrainData)
  }

  /**
   `model_id.split('/')[-1]`: the last `/`-segment of the model id; the whole id when it
   has no `/`, and otherwise what follows the owner part.
   */
  function ModelName(modelId: string): (r: string)
    ensures '/' !in r && EndsWith(modelId, r)
    ensures '/' !in modelId ==> r == modelId
    ensures '/' in modelId ==> modelId == DropLastField(modelId, '/') + "/" + r
  {
    LastField(modelId, '/')
  }

  /** `owner/name` names the model `name`. */
  lemma ModelNameOfOwnedId(owner: string, name: string)
    requires '/' !in name
    ensures ModelName(owner + "/" + name) == name
  {
    LastFieldAfterSeparator(owner, name, '/');
  }

  /**
   `f"{model_name}.fp16.gguf"`: the converted, unquantized model, a `.gguf` file whose
   extension-stripped name is the model name with `.fp16`.
   */
  function Fp16Name(modelName: string): (r: string)
    ensures StartsWith(r, modelName) && EndsWith(r, ".fp16.gguf")
    ensures |r| == |modelName| + |".fp16.gguf"|
  {
    StartsWithAppend(modelName, ".fp16.gguf");
    EndsWithAppend(modelName, ".fp16.gguf");
    modelName + ".fp16.gguf"
  }

  /**
   The fp16 file is never taken for a shard of a quantized file: the quantized names of
   both applications start with the lower-cased model name and `-`, where the fp16 name
   has a `.`.
   */
  lemma Fp16IsNeverShard(modelName: string, rest: string)
    ensures !IsShard(Fp16Name(modelName), Lower(modelName) + "-" + rest)
  {
    var f, prefix := Fp16Name(modelName), Lower(modelName) + "-" + rest;
    var k := |modelName|;
    assert prefix[k] == '-';
    if |prefix| <= |f| {
      assert f[..|prefix|][k] == f[k] == '.';
      assert f[..|prefix|] != prefix;
    }
  }
}
