/** `Phi4MiniFiles` of the example package: the fixed list of model files and
    the URL each is fetched from. */
module Phi4MiniFiles {
  import opened Text
  import opened Sorting

  const HF_SUBFOLDER := "cpu_and_mobile/cpu-int4-rtn-block-32-acc-level-4"

  /** The repository's `resolve/main/` URL followed by the subfolder. */
  const HF_BASE_URL := "https://huggingface.co/microsoft/Phi-4-mini-instruct-onnx/resolve/main/" + HF_SUBFOLDER

  const REQUIRED_FILES: seq<string> := [
    "config.json",
    "genai_config.json",
    "merges.txt",
    "model.onnx",
    "model.onnx.data",
    "special_tokens_map.json",
    "tokenizer.json",
    "tokenizer_config.json",
    "vocab.json"
  ]

  /** `getDownloadUrl`: the base URL, a slash, and the file name; the name is
      recovered by stripping that prefix. */
  function GetDownloadUrl(fileName: string): (r: string)
    ensures StartsWith(r, HF_BASE_URL + "/")
    ensures RemovePrefix(r, HF_BASE_URL + "/") == fileName
  {
    HF_BASE_URL + "/" + fileName
  }

  /** Distinct file names give distinct URLs. */
  lemma GetDownloadUrlInjective(a: string, b: string)
    requires GetDownloadUrl(a) == GetDownloadUrl(b)
    ensures a == b
  {
    assert RemovePrefix(GetDownloadUrl(a), HF_BASE_URL + "/") == a;
  }

  lemma RequiredFilesDistinct()
    ensures |REQUIRED_FILES| == 9
    ensures Distinct(REQUIRED_FILES)
  {
  }
}
