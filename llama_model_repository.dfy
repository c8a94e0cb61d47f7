/**
 * `LlamaModelRepository`: a single GGUF file under `cacheDir/models/llama`,
 * fetched from one fixed URL whatever repository the caller names.
 */
module LlamaModelRepository {
  import opened Text
  import opened LocalFiles

  const MODEL_NAME := "gemma-3n-E2B-it-Q4_0.gguf"
  const MODEL_URL := "https://huggingface.co/unsloth/gemma-3n-E2B-it-GGUF/resolve/main/gemma-3n-E2B-it-Q4_0.gguf"

  /** `getModelDirectory`: `File(cacheDir, "models/llama")`. */
  function ModelDirectory(cacheDir: string): (r: string)
    ensures StartsWith(r, cacheDir + "/")
    ensures EndsWith(r, "/models/llama")
  {
    Join(cacheDir, "models/llama")
  }

  /** `getModelPath`: the model file inside the model directory. */
  function GetModelPath(cacheDir: string): (r: string)
    ensures StartsWith(r, ModelDirectory(cacheDir) + "/")
    ensures RemovePrefix(r, ModelDirectory(cacheDir) + "/") == MODEL_NAME
  {
    Join(ModelDirectory(cacheDir), MODEL_NAME)
  }

  /** `isModelAvailable`: the file at the model path exists and is non-empty. */
  function IsModelAvailable(cacheDir: string, d: Disk): (r: bool)
    ensures r <==> IsComplete(d, GetModelPath(cacheDir))
  {
    var modelFile := Join(ModelDirectory(cacheDir), MODEL_NAME);
    modelFile in d.files && d.files[modelFile] > 0
  }

  /** The single-file transfer `downloadAllInSubfolderFlow` hands to the data
      source: the URL to fetch and the file to write. */
  datatype FileRequest = FileRequest(url: string, destFile: string)

  /** `downloadAllInSubfolderFlow`: the repository, branch and subfolder are
      ignored. */
  function DownloadAllInSubfolderFlow(repoId: string, branch: string, subfolder: string,
                                      cacheDir: string): (r: FileRequest)
    ensures r.destFile == GetModelPath(cacheDir)
    ensures r.url == MODEL_URL
  {
    FileRequest(MODEL_URL, Join(ModelDirectory(cacheDir), MODEL_NAME))
  }

  /** Whatever the arguments, the same file is requested into the same place. */
  lemma DownloadIgnoresArguments(repoId: string, branch: string, subfolder: string,
                                 repoId': string, branch': string, subfolder': string, cacheDir: string)
    ensures DownloadAllInSubfolderFlow(repoId, branch, subfolder, cacheDir)
         == DownloadAllInSubfolderFlow(repoId', branch', subfolder', cacheDir)
  {
  }

  /** Availability is about exactly the file the download writes. */
  lemma AvailableIffRequestedFileComplete(repoId: string, branch: string, subfolder: string,
                                          cacheDir: string, d: Disk)
    ensures IsModelAvailable(cacheDir, d)
        <==> IsComplete(d, DownloadAllInSubfolderFlow(repoId, branch, subfolder, cacheDir).destFile)
  {
  }
}
