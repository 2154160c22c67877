/**
 The argument vectors both applications hand to the llama.cpp tools, and decoders that
 read such a vector back positionally: flag/value pairs in order, the split tool's
 `--split <limit flag> <limit> <input> <output prefix>` and the quantize tool's
 `[--imatrix <file>] <input> <output> <type>`. The decoders are the partners of the
 builders: a builder is right when decoding its vector returns what it was given.
 */
module Commands {
  import opened Wrappers

  /** The HF-to-GGUF conversion script both applications run under `python`. */
  const ConversionScript := "./llama.cpp/convert_hf_to_gguf.py"

  /**
   Flag/value pairs read left to right, in order: `-m model -f data ...` gives
   `[("-m", model), ("-f", data), ...]`; an unpaired last argument is ignored.
   */
  function Pairs(args: seq<string>): (r: seq<(string, string)>)
    ensures |r| == |args| / 2
    decreases |args|
  {
    if |args| < 2 then [] else [(args[0], args[1])] + Pairs(args[2..])
  }

  /** The argument vector that lists the given flag/value pairs in order. */
  function Flatten(pairs: seq<(string, string)>): (r: seq<string>)
    ensures |r| == 2 * |pairs|
    decreases |pairs|
  {
    if |pairs| == 0 then [] else [pairs[0].0, pairs[0].1] + Flatten(pairs[1..])
  }

  /** Reading back a listed sequence of pairs returns those pairs, in their order. */
  lemma {:induction false} PairsFlatten(pairs: seq<(string, string)>)
    ensures Pairs(Flatten(pairs)) == pairs
    decreases |pairs|
  {
    if |pairs| > 0 {
      var f := Flatten(pairs);
      assert f[2..] == Flatten(pairs[1..]);
      PairsFlatten(pairs[1..]);
      assert pairs == [pairs[0]] + pairs[1..];
    }
  }

  /** An even-length vector is nothing but its pairs: reading them loses no argument and no order. */
  lemma {:induction false} FlattenPairs(args: seq<string>)
    requires |args| % 2 == 0
    ensures Flatten(Pairs(args)) == args
    decreases |args|
  {
    if |args| >= 2 {
      var p := Pairs(args);
      assert p[1..] == Pairs(args[2..]);
      FlattenPairs(args[2..]);
      assert args == [args[0], args[1]] + args[2..];
    }
  }

  /** Reading four flag/value pairs gives them in the order written. */
  lemma PairsOfFour(f1: string, v1: string, f2: string, v2: string, f3: string, v3: string, f4: string, v4: string)
    ensures Pairs([f1, v1, f2, v2, f3, v3, f4, v4]) == [(f1, v1), (f2, v2), (f3, v3), (f4, v4)]
  {
    var args := [f1, v1, f2, v2, f3, v3, f4, v4];
    assert args[2..] == [f2, v2, f3, v3, f4, v4];
    assert args[2..][2..] == [f3, v3, f4, v4];
    assert args[2..][2..][2..] == [f4, v4];
    assert args[2..][2..][2..][2..] == [];
    assert Pairs(args[2..][2..][2..]) == [(f4, v4)];
    assert Pairs(args[2..][2..]) == [(f3, v3), (f4, v4)];
    assert Pairs(args[2..]) == [(f2, v2), (f3, v3), (f4, v4)];
  }

  /** Reading five flag/value pairs gives them in the order written. */
  lemma PairsOfFive(f1: string, v1: string, f2: string, v2: string, f3: string, v3: string, f4: string, v4: string, f5: string, v5: string)
    ensures Pairs([f1, v1, f2, v2, f3, v3, f4, v4, f5, v5]) == [(f1, v1), (f2, v2), (f3, v3), (f4, v4), (f5, v5)]
  {
    var args := [f1, v1, f2, v2, f3, v3, f4, v4, f5, v5];
    assert args[2..] == [f2, v2, f3, v3, f4, v4, f5, v5];
    PairsOfFour(f2, v2, f3, v3, f4, v4, f5, v5);
  }

  /**
   The conversion command of both applications:
   `python ./llama.cpp/convert_hf_to_gguf.py <model dir> --outtype f16 --outfile <fp16>`.
   */
  function ConvertCommand(localDir: string, fp16: string): (r: seq<string>)
    ensures |r| == 7 && r[0] == "python" && r[1] == ConversionScript && r[2] == localDir
    ensures Pairs(r[3..]) == [("--outtype", "f16"), ("--outfile", fp16)]
  {
    var r := ["python", ConversionScript, localDir, "--outtype", "f16", "--outfile", fp16];
    var pairs := r[3..];
    assert pairs[2..] == ["--outfile", fp16];
    assert pairs[2..][2..] == [];
    assert Pairs(pairs[2..]) == [("--outfile", fp16)];
    r
  }

  // ---------------------------------------------------------------------------
  // llama-gguf-split

  /** `if split_max_size:` — a size is used only when one was given and it is not empty. */
  predicate SizeGiven(maxSize: Option<string>) {
    maxSize.Some? && |maxSize.value| > 0
  }

  /** The one limit the split tool is given: a maximum file size or a maximum tensor count. */
  datatype SplitLimit = MaxSize(size: string) | MaxTensors(count: string)

  datatype SplitRequest = SplitRequest(program: string, limit: SplitLimit, input: string, outputPrefix: string)

  /** How the split tool reads `<program> --split <limit flag> <limit> <input> <output prefix>`. */
  function DecodeSplit(argv: seq<string>): Option<SplitRequest> {
    if |argv| != 6 || argv[1] != "--split" then None
    else if argv[2] == "--split-max-size" then Some(SplitRequest(argv[0], MaxSize(argv[3]), argv[4], argv[5]))
    else if argv[2] == "--split-max-tensors" then Some(SplitRequest(argv[0], MaxTensors(argv[3]), argv[4], argv[5]))
    else None
  }

  /**
   The split vector of both applications: the size option when a non-empty size is given,
   otherwise the tensor-count option, never both; then the model and its output prefix.
   */
  function SplitCommand(program: string, maxTensorsText: string, maxSize: Option<string>, modelPath: string, prefix: string): (r: seq<string>)
    ensures |r| == 6
    ensures r[2] == "--split-max-size" <==> SizeGiven(maxSize)
    ensures r[2] == "--split-max-tensors" <==> !SizeGiven(maxSize)
    ensures DecodeSplit(r) == Some(SplitRequest(program,
      if SizeGiven(maxSize) then MaxSize(maxSize.value) else MaxTensors(maxTensorsText), modelPath, prefix))
  {
    if SizeGiven(maxSize) then [program, "--split", "--split-max-size", maxSize.value, modelPath, prefix]
    else [program, "--split", "--split-max-tensors", maxTensorsText, modelPath, prefix]
  }

  // ---------------------------------------------------------------------------
  // llama-quantize

  datatype QuantizeRequest = QuantizeRequest(program: string, imatrix: Option<string>, input: string, output: string, qtype: string)

  /** How the quantize tool reads `<program> [--imatrix <file>] <input> <output> <type>`. */
  function DecodeQuantize(argv: seq<string>): Option<QuantizeRequest> {
    if |argv| == 6 && argv[1] == "--imatrix" then Some(QuantizeRequest(argv[0], Some(argv[2]), argv[3], argv[4], argv[5]))
    else if |argv| == 4 then Some(QuantizeRequest(argv[0], None, argv[1], argv[2], argv[3]))
    else None
  }

  /**
   The quantize vector of both applications: `--imatrix <file>` is present exactly when the
   importance matrix is used (six elements, else four), followed by input, output and type.
   */
  function QuantizeCommand(program: string, useImatrix: bool, imatrixPath: string, fp16: string, output: string, qtype: string): (r: seq<string>)
    ensures |r| == if useImatrix then 6 else 4
    ensures DecodeQuantize(r) == Some(QuantizeRequest(program, if useImatrix then Some(imatrixPath) else None, fp16, output, qtype))
  {
    if useImatrix then [program, "--imatrix", imatrixPath, fp16, output, qtype]
    else [program, fp16, output, qtype]
  }
}
