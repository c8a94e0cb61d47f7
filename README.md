# Local assistant: a verified model of its core

This project models the core of an Android app that runs a small language model on the device. The app:

- fetches the Phi-4-mini ONNX model files from a Hugging Face repository;
- checks whether the model is complete and follows the download on a progress screen;
- builds the chat prompt from a conversation stored newest-first;
- streams the model's reply into a placeholder message and cleans it;
- drives the llama.cpp sampling loop, and maps camera rotations to EXIF orientation tags.

The model states and proves:

- the progress-event protocol of a download;
- that only the expected local files are written, and a second run fetches nothing;
- the exact shape of every prompt builder;
- what the reply extraction keeps;
- how the conversation list changes;
- the bounds and feedback of the generation loop;
- the round trips of the rotation maps.

The network, the file-system contents, the native runtimes and the JSON files are oracles: parameters of the operations.

The modules follow the source files:

- `ModelDownloader`, `Phi4ModelRepository`, `LlamaModelRepository`, `DownloadViewModel` and `DownloadProgress` cover model acquisition.
- `ExamplePhi4Repository` and `Phi4MiniFiles` cover the older fixed-file-list variant.
- `PromptTemplate` holds the one prompt renderer, shared by the four builders. `ChatPrompt`, `OnnxInferenceEngine` and `LlamaCppInferenceEngine` instantiate it.
- `ChatReply` models reply extraction.
- `Messages` models the conversation's messages.
- `ChatViewModel` and `ExampleChatViewModel` model the two chat view models.
- `Llama` models the native generation loop.
- `CameraActivity` and `MainActivity` model the rotation maps.
- `Text`, `Sorting`, `LocalFiles` and `Wrappers` model the parts of Kotlin's and Java's libraries that the core relies on:
  - `isBlank`, `trim`, `removePrefix`, `lastIndexOf` and `replace`;
  - `filter`, and `sortedBy` with `String.compareTo`;
  - `java.io.File` existence and length;
  - nullable values.

Where the code and its comments disagree, the model follows the code:

- **Special tokens map.** `OnnxInferenceEngine.loadChatTemplateTokens` reads `special_tokens_map.json` and uses nothing from it.
- **Text messages.** The sample package's `Message.kt` declares `TextMessage.text` as an immutable `val` with a `text` constructor parameter. Both view models construct it with `initialText` and assign `text`. `TextMessage` is modelled as the view models use it: an object whose `text` is rewritten in place. The `com.localassistant.model` message file is not part of this model.

## Model

| member | source | states |
|---|---|---|
| ModelDownloader.ListRepoFiles | app/src/main/java/com/localassistant/data/ModelDownloader.kt:53-68 | the listing succeeds exactly for a 2xx status with a decodable body; otherwise it fails with "Failed listing repo files: code", "Empty response." or the decoder's message |
| ModelDownloader.DownloadSingleFile | app/src/main/java/com/localassistant/data/ModelDownloader.kt:128-156 | a transfer stores the whole body exactly for a 2xx response whose body is streamed to the end into a file whose directory exists; a failed connection, a non-2xx status, a null body or a missing directory throws before any byte is written, the first with the connection exception's message and the last with the open failure's |
| ModelDownloader.ConnectionFailureWritesNothing | app/src/main/java/com/localassistant/data/ModelDownloader.kt:137 | a request that gets no response leaves the disk unchanged and reports the exception's message, or "Unknown error" |
| ModelDownloader.NameOfFileUrl | app/src/main/java/com/localassistant/data/ModelDownloader.kt:107-108 | the entry a file URL was built for is recovered from it |
| ModelDownloader.TransferOfEntry | app/src/main/java/com/localassistant/data/ModelDownloader.kt:107-114 | the transfer of an entry's URL writes that entry's local file |
| ModelDownloader.TransferSucceedsIff | app/src/main/java/com/localassistant/data/ModelDownloader.kt:137-152 | an entry's transfer succeeds iff the answer is 2xx, the body arrives in full and the local file's directory exists |
| ModelDownloader.SyncFiles | app/src/main/java/com/localassistant/data/ModelDownloader.kt:98-116 | the loop over the files stops, if at all, inside the list, at the index of the failing transfer |
| ModelDownloader.Announcements | app/src/main/java/com/localassistant/data/ModelDownloader.kt:99-105 | one `DownloadingFile` event per file |
| ModelDownloader.DownloadSubfolderFlow | app/src/main/java/com/localassistant/data/ModelDownloader.kt:77-123 | the flow, step by step, yields exactly the run of the specification function `SyncRun` |
| ModelDownloader.DownloadEach | app/src/main/java/com/localassistant/data/ModelDownloader.kt:98-116 | the `forEachIndexed` loop yields the loop result and the events of `SyncFiles` |
| ModelDownloader.DownloadFile | app/src/main/java/com/localassistant/data/ModelDownloader.kt:106-115 | the body for one file: a complete local file is skipped and one ending in a failed transfer stops the loop with its message, as the specification `SyncFiles` says |
| ModelDownloader.SyncFilesReports | app/src/main/java/com/localassistant/data/ModelDownloader.kt:107-115 | each requested URL belongs to a file that needed a download, in order; the loop completes iff no request failed; a failing loop ends at its last request |
| ModelDownloader.ReportsAfterTransfer | app/src/main/java/com/localassistant/data/ModelDownloader.kt:107-116 | a failing transfer is the failure the loop reports; a successful one keeps what the rest of the loop reports |
| ModelDownloader.LoopEventsShape | app/src/main/java/com/localassistant/data/ModelDownloader.kt:95-122 | after ListingFiles come the announcements up to where the loop stopped, then `Success` exactly for a completed loop, else the failure's `Error` |
| ModelDownloader.SyncRunListingFailure | app/src/main/java/com/localassistant/data/ModelDownloader.kt:60-64 | a failing listing gives a lone `Error` with its message, touches no file and requests nothing |
| ModelDownloader.SyncRunEvents | app/src/main/java/com/localassistant/data/ModelDownloader.kt:84-123 | `ListingFiles(n)` first, with n the number of prefix-filtered entries; then announcements in sorted order; `Success` iff every request succeeded, and then the events are exactly ListingFiles, all n announcements, Success; else the `Error` of the last request |
| ModelDownloader.SyncRunFollowsProtocol | app/src/main/java/com/example/localassistant/data/DownloadProgress.kt:6-30 | every run follows the documented emission protocol `IsRun` |
| ModelDownloader.TransferFailureEndsInError | app/src/main/java/com/localassistant/data/ModelDownloader.kt:120-123 | a failing transfer ends the run with one `Error`, and nothing terminal comes before it |
| ModelDownloader.SyncFilesFrame | app/src/main/java/com/localassistant/data/ModelDownloader.kt:109-115 | the loop writes only the local targets of the remaining entries, and never the directories |
| ModelDownloader.SyncRunOnlyWritesTargets | app/src/main/java/com/localassistant/data/ModelDownloader.kt:92-115 | a run adds the destination directory and changes no file except the local targets of the filtered entries |
| ModelDownloader.SyncFilesMonotone | app/src/main/java/com/localassistant/data/ModelDownloader.kt:112-115 | existing files stay, and complete files are never rewritten |
| ModelDownloader.SyncFilesCompletedLeavesTargets | app/src/main/java/com/localassistant/data/ModelDownloader.kt:107-116 | a loop that completes leaves every local target present |
| ModelDownloader.SyncRunSuccessLeavesTargets | app/src/main/java/com/localassistant/data/ModelDownloader.kt:92-119 | after `Success` the destination directory exists and every expected local file exists, non-empty when bodies are non-empty |
| ModelDownloader.SyncFilesIdle | app/src/main/java/com/localassistant/data/ModelDownloader.kt:113-115 | when every remaining target is complete, the loop requests nothing and changes nothing |
| ModelDownloader.PopulatedDestinationFetchesNothing | app/src/main/java/com/localassistant/data/ModelDownloader.kt:84-119 | on a fully populated destination a run makes zero transfers and gives the full ListingFiles, announcements, Success sequence |
| ModelDownloader.SecondRunIsIdle | app/src/main/java/com/localassistant/data/ModelDownloader.kt:113-115 | a second run after a successful one fetches nothing and yields the same events and disk |
| ModelDownloader.Urls | app/src/main/java/com/localassistant/data/ModelDownloader.kt:107-108 | the j-th request URL is the file URL of the j-th remaining entry |
| ModelDownloader.SyncFilesFresh | app/src/main/java/com/localassistant/data/ModelDownloader.kt:107-115 | on an empty destination with distinct targets and transfers that succeed on its directories, every file is requested in order and the loop completes |
| ModelDownloader.TargetsLocalPathsDistinct | app/src/main/java/com/localassistant/data/ModelDownloader.kt:87-110 | distinct manifest entries under the subfolder have distinct local files |
| ModelDownloader.FreshDestinationFetchesEverything | app/src/main/java/com/localassistant/data/ModelDownloader.kt:84-119 | a fresh destination whose transfers succeed once `mkdirs` has run fetches every filtered entry in ascending order and ends in `Success` |
| ModelDownloader.FlatEntryHasDirectory | app/src/main/java/com/localassistant/data/ModelDownloader.kt:92-110 | an entry directly under the subfolder is written into the destination directory, which the run has created |
| ModelDownloader.NestedEntryFails | app/src/main/java/com/localassistant/data/ModelDownloader.kt:92-150 | an entry `subfolder/a/b` goes to `destDir/a/b`; without `destDir/a` its transfer fails, writes nothing, and reports the open failure when a 2xx response with a body arrived |
| ModelDownloader.NestedEntryEndsInError | app/src/main/java/com/localassistant/data/ModelDownloader.kt:84-123 | a listing of one nested entry on a destination without its folder gives ListingFiles(1), its announcement, and the open failure's `Error`, with no file written |
| ModelDownloader.FreshFlatDestinationFetchesEverything | app/src/main/java/com/localassistant/data/ModelDownloader.kt:84-156 | with distinct entries all directly under the subfolder, none present locally, and every answer 2xx with a complete body, the run fetches each entry in ascending order and ends in `Success` |
| Phi4ModelRepository.ModelDirectory | app/src/main/java/com/localassistant/data/Phi4ModelRepository.kt:18-19 | the model directory and model path lie inside `filesDir` |
| Phi4ModelRepository.IsModelAvailable | app/src/main/java/com/localassistant/data/Phi4ModelRepository.kt:37-64 | the loop's answer is the specification's; false without the directory; false, not an error, when the listing throws |
| Phi4ModelRepository.DownloadAllInSubfolderFlow | app/src/main/java/com/localassistant/data/Phi4ModelRepository.kt:25-31 | the caller's arguments are passed unchanged, with the model directory as destination |
| Phi4ModelRepository.AvailabilityIgnoresOtherFiles | app/src/main/java/com/localassistant/data/Phi4ModelRepository.kt:47-60 | extra local files are irrelevant to availability |
| Phi4ModelRepository.EmptySubfolderIsAvailable | app/src/main/java/com/localassistant/data/Phi4ModelRepository.kt:51-60 | an empty filtered manifest makes an existing directory vacuously complete |
| Phi4ModelRepository.DownloadSuccessMakesAvailable | app/src/main/java/com/localassistant/data/Phi4ModelRepository.kt:47-56 | after a `Success` download with non-empty bodies, the check over the same manifest answers true |
| Phi4ModelRepository.AvailableDownloadIsIdle | app/src/main/java/com/localassistant/data/Phi4ModelRepository.kt:25-31 | downloading an available model requests nothing, changes nothing and ends in `Success` |
| LlamaModelRepository.ModelDirectory | app/src/main/java/com/localassistant/data/LlamaModelRepository.kt:13-15 | the directory is `cacheDir/models/llama` |
| LlamaModelRepository.GetModelPath | app/src/main/java/com/localassistant/data/LlamaModelRepository.kt:43-45 | the model path is the GGUF name directly inside the model directory |
| LlamaModelRepository.IsModelAvailable | app/src/main/java/com/localassistant/data/LlamaModelRepository.kt:32-37 | available iff the model file exists with positive length |
| LlamaModelRepository.DownloadAllInSubfolderFlow | app/src/main/java/com/localassistant/data/LlamaModelRepository.kt:19-30 | the request is always the fixed URL into the model path |
| LlamaModelRepository.DownloadIgnoresArguments | app/src/main/java/com/localassistant/data/LlamaModelRepository.kt:21-30 | repository, branch and subfolder do not change the request |
| LlamaModelRepository.AvailableIffRequestedFileComplete | app/src/main/java/com/localassistant/data/LlamaModelRepository.kt:29-37 | availability is about exactly the file the download writes |
| DownloadProgress.RunShape | app/src/main/java/com/example/localassistant/data/DownloadProgress.kt:7-29 | in a protocol run only the last event is terminal, `ListingFiles` comes first and once, and indices strictly increase |
| DownloadViewModel.Started | app/src/main/java/com/localassistant/viewmodel/DownloadViewModel.kt:46 | downloading with no error, every other field unchanged |
| DownloadViewModel.DownloadViewModel.constructor | app/src/main/java/com/localassistant/viewmodel/DownloadViewModel.kt:29-41 | the initial screen state, with availability as the repository answered |
| DownloadViewModel.DownloadViewModel.OnProgress | app/src/main/java/com/localassistant/viewmodel/DownloadViewModel.kt:54-81 | one collected event updates the two state fields as the reducer `Step` says |
| DownloadViewModel.DownloadViewModel.DownloadModel | app/src/main/java/com/localassistant/viewmodel/DownloadViewModel.kt:43-84 | the state is the fold of the events over the started state; after a protocol run it is not downloading, and it shows no error iff the run ended in `Success` |
| DownloadViewModel.CollectProgress | app/src/main/java/com/localassistant/viewmodel/DownloadViewModel.kt:55-68 | mid-run the state shows the listed total, index i-1, and "" right after listing, else the announced name; availability and error untouched |
| DownloadViewModel.CollectRun | app/src/main/java/com/localassistant/viewmodel/DownloadViewModel.kt:55-80 | after a run: not downloading; available iff it was or the run succeeded; error message iff it failed; on success the index equals the total |
| DownloadViewModel.ScreenAfterSync | app/src/main/java/com/localassistant/viewmodel/DownloadViewModel.kt:43-84 | over a real download: no error iff listing and all transfers succeeded, and then available with index = total = filtered count |
| DownloadViewModel.ScreenSuccessMeansRepositoryAvailable | app/src/main/java/com/localassistant/viewmodel/DownloadViewModel.kt:69-73 | a screen that shows success agrees with the repository's availability check afterwards |
| ExamplePhi4Repository.ModelDir | app/src/main/java/com/example/localassistant/data/Phi4ModelRepository.kt:9-13 | the model directory lies inside `filesDir` |
| ExamplePhi4Repository.GetFilePath | app/src/main/java/com/example/localassistant/data/Phi4ModelRepository.kt:57-59 | the file path is `modelDir/fileName` |
| ExamplePhi4Repository.DownloadModelFiles | app/src/main/java/com/example/localassistant/data/Phi4ModelRepository.kt:31-44 | the method's result is that of the specification `DownloadModelFilesRun` |
| ExamplePhi4Repository.FetchEach | app/src/main/java/com/example/localassistant/data/Phi4ModelRepository.kt:37-43 | the `forEach` over any file list yields the result of the specification `FetchMissing` |
| ExamplePhi4Repository.NeedingDownload | app/src/main/java/com/example/localassistant/data/Phi4ModelRepository.kt:37-40 | the URLs of files that are missing or empty, in list order |
| ExamplePhi4Repository.NeedingDownloadFrame | app/src/main/java/com/example/localassistant/data/Phi4ModelRepository.kt:37-43 | writing another file does not change which files need fetching |
| ExamplePhi4Repository.FetchMissingRequests | app/src/main/java/com/example/localassistant/data/Phi4ModelRepository.kt:37-43 | the loop requests exactly the needing files in order, up to the first that throws |
| ExamplePhi4Repository.RequestsStep | app/src/main/java/com/example/localassistant/data/Phi4ModelRepository.kt:39-41 | one successful fetch step keeps the request order |
| ExamplePhi4Repository.DownloadModelFilesRequests | app/src/main/java/com/example/localassistant/data/Phi4ModelRepository.kt:31-44 | the directory is created, and the requests are the needing files in list order, up to a failure that propagates and skips the rest |
| ExamplePhi4Repository.FetchMissingDirs | app/src/main/java/com/example/localassistant/data/Phi4ModelRepository.kt:37-43 | the loop never changes the directories |
| ExamplePhi4Repository.NeedingDownloadDirs | app/src/main/java/com/example/localassistant/data/Phi4ModelRepository.kt:33-35 | creating the directory does not change which files need fetching |
| ExamplePhi4Repository.AvailableDownloadIsIdle | app/src/main/java/com/example/localassistant/data/Phi4ModelRepository.kt:18-44 | with all files present nothing is downloaded and the disk is unchanged |
| ExamplePhi4Repository.FetchMissingIdle | app/src/main/java/com/example/localassistant/data/Phi4ModelRepository.kt:37-43 | complete files are skipped |
| ExamplePhi4Repository.FetchMissingDoneCompletes | app/src/main/java/com/example/localassistant/data/Phi4ModelRepository.kt:37-43 | a loop that returns normally leaves every file complete |
| ExamplePhi4Repository.FetchMissingKeepsComplete | app/src/main/java/com/example/localassistant/data/Phi4ModelRepository.kt:39 | a complete file is never rewritten |
| ExamplePhi4Repository.DownloadMakesAvailable | app/src/main/java/com/example/localassistant/data/Phi4ModelRepository.kt:18-44 | a download that returns normally makes the model available |
| Phi4MiniFiles.GetDownloadUrl | app/src/main/java/com/example/localassistant/data/Phi4MiniFiles.kt:25-27 | the URL is `HF_BASE_URL + "/" + name`, and the name is recovered by stripping that prefix |
| Phi4MiniFiles.GetDownloadUrlInjective | app/src/main/java/com/example/localassistant/data/Phi4MiniFiles.kt:25-27 | distinct file names give distinct URLs |
| Phi4MiniFiles.RequiredFilesDistinct | app/src/main/java/com/example/localassistant/data/Phi4MiniFiles.kt:10-20 | nine required files, no duplicates |
| PromptTemplate.BuildWith | app/src/main/java/com/localassistant/viewmodel/ChatViewModel.kt:106-143 | the `StringBuilder` loop over the reversed conversation yields exactly `Render` of the conversation's snapshot |
| PromptTemplate.BodyIsOldestFirst | app/src/main/java/com/localassistant/viewmodel/ChatViewModel.kt:116-117 | the body is the concatenation of the message blocks, oldest first |
| PromptTemplate.EndsWithTail | app/src/main/java/com/localassistant/inference/OnnxInferenceEngine.kt:165-171 | every prompt ends with the assistant token and the optional EOS token |
| PromptTemplate.PrependMessage | app/src/main/java/com/localassistant/viewmodel/ChatViewModel.kt:117-142 | a newer message adds exactly its block in front of the tail |
| PromptTemplate.BlankSystemPromptOmitted | app/src/main/java/com/localassistant/viewmodel/ChatViewModel.kt:111 | a blank system prompt is the same as none |
| PromptTemplate.PlainRender | app/src/main/java/com/localassistant/inference/LlamaCppInferenceEngine.kt:47-95 | without BOS and EOS tokens a prompt is the optional system block, the body and the assistant token |
| PromptTemplate.HeaderComesFirst | app/src/main/java/com/localassistant/inference/OnnxInferenceEngine.kt:123-133 | a non-blank BOS comes first, then a non-blank system prompt's block |
| PromptTemplate.EmptyConversation | app/src/main/java/com/localassistant/inference/OnnxInferenceEngine.kt:120-174 | without messages the prompt is header and tail only |
| ChatPrompt.EntryShape | app/src/main/java/com/localassistant/viewmodel/ChatViewModel.kt:119-137 | USER and ASSISTANT texts render as `token + "\n" + text + " <\|end\|>\n"`; image and audio as nothing |
| ChatPrompt.PromptHeader | app/src/main/java/com/localassistant/viewmodel/ChatViewModel.kt:111-117 | the system block `"<\|system\|>\n" + prompt + " <\|end\|>\n"` comes iff the system prompt is not blank |
| ChatPrompt.PromptEnds | app/src/main/java/com/localassistant/viewmodel/ChatViewModel.kt:141 | the prompt ends with `"<\|assistant\|>"`, and is exactly that for an empty conversation and a blank system prompt |
| ChatPrompt.PromptPrepend | app/src/main/java/com/localassistant/viewmodel/ChatViewModel.kt:117-142 | prepending a message inserts its block just before the final assistant token |
| ChatReply.CleanResponse | app/src/main/java/com/localassistant/viewmodel/ChatViewModel.kt:145-151 | the cleaned text neither starts nor ends with whitespace |
| ChatReply.ExtractAssistantReply | app/src/main/java/com/localassistant/viewmodel/ChatViewModel.kt:153-162 | without the marker, the whole text is cleaned |
| ChatReply.ExtractEmpty | app/src/main/java/com/localassistant/viewmodel/ChatViewModel.kt:172 | before any text the reply is empty |
| ChatReply.MarkerHasNoBorder | app/src/main/java/com/localassistant/viewmodel/ChatViewModel.kt:154-155 | two occurrences of the assistant marker cannot overlap |
| ChatReply.ExtractAfterLastMarker | app/src/main/java/com/localassistant/viewmodel/ChatViewModel.kt:153-162 | for a text `p + marker + rest` with no marker in `rest`, the reply is `rest`, cleaned |
| ChatReply.CleanResponseIsTrimmed | app/src/main/java/com/localassistant/viewmodel/ChatViewModel.kt:150 | cleaning is stable under trimming |
| ChatReply.CleanMarkerFree | app/src/main/java/com/localassistant/viewmodel/ChatViewModel.kt:145-151 | without any marker, cleaning is exactly trimming |
| ChatReply.LongMarkerAbsent | app/src/main/java/com/localassistant/viewmodel/ChatViewModel.kt:147-148 | the longer markers cannot occur in a marker-free text closed by the end marker |
| ChatReply.CleanClosedReply | app/src/main/java/com/localassistant/viewmodel/ChatViewModel.kt:145-151 | a reply closed by the end marker cleans to its trimmed text |
| ChatReply.ExtractOneTurn | app/src/main/java/com/localassistant/viewmodel/ChatViewModel.kt:145-162 | a user turn followed by a closed assistant turn yields the assistant's text, trimmed |
| ChatReply.ExtractExample | app/src/main/java/com/localassistant/viewmodel/ChatViewModel.kt:145-162 | `<\|user\|>hi<\|end\|><\|assistant\|>hello<\|end\|>` yields `hello` |
| Messages.TextMessage.constructor | app/src/main/java/com/localassistant/viewmodel/ChatViewModel.kt:169-170 | a text message holds its initial text and type |
| Messages.SnapshotsCons | app/src/main/java/com/localassistant/viewmodel/ChatViewModel.kt:95 | a message inserted at index 0 comes first in the conversation's content |
| ChatViewModel.ChatViewModel.constructor | app/src/main/java/com/localassistant/viewmodel/ChatViewModel.kt:44-69 | the conversation is the one welcome message from the assistant, the default system prompt is set, and an engine exists only when the model is available and the engine started |
| ChatViewModel.ChatViewModel.BuildPrompt | app/src/main/java/com/localassistant/viewmodel/ChatViewModel.kt:106-143 | the prompt is `Prompt` of the conversation's content with the current system prompt |
| ChatViewModel.ChatViewModel.GenerateAssistantResponse | app/src/main/java/com/localassistant/viewmodel/ChatViewModel.kt:164-187 | the prompt is built before the placeholder goes in at index 0; the others shift unchanged; the placeholder ends as the reply extracted from all fragments joined, or "" without an engine |
| ChatViewModel.ChatViewModel.SendMessage | app/src/main/java/com/localassistant/viewmodel/ChatViewModel.kt:94-100 | the message goes in at index 0; a USER text message, and only that, starts a generation |
| ChatViewModel.ChatViewModel.ResetChat | app/src/main/java/com/localassistant/viewmodel/ChatViewModel.kt:193-195 | the list is emptied and the system prompt kept |
| ChatViewModel.Stream | app/src/main/java/com/localassistant/viewmodel/ChatViewModel.kt:172-184 | after every fragment the placeholder holds the reply extracted from the text accumulated so far, so it ends holding the reply extracted from all fragments joined |
| ExampleChatViewModel.Cleared | app/src/main/java/com/example/localassistant/viewmodel/ChatViewModel.kt:194-200 | the context is dropped; a held context is unloaded once through the engine |
| ExampleChatViewModel.UnloadAtMostOnce | app/src/main/java/com/example/localassistant/viewmodel/ChatViewModel.kt:194-200 | however often it is cleared, the model is unloaded at most once, and only the held context |
| ExampleChatViewModel.ChatViewModel.constructor | app/src/main/java/com/example/localassistant/viewmodel/ChatViewModel.kt:44-89 | the welcome message, the default system prompt, and a context only when the model is available |
| ExampleChatViewModel.ChatViewModel.BuildPrompt | app/src/main/java/com/example/localassistant/viewmodel/ChatViewModel.kt:108-145 | the same prompt as the other package |
| ExampleChatViewModel.ChatViewModel.GenerateAssistantResponse | app/src/main/java/com/example/localassistant/viewmodel/ChatViewModel.kt:166-181 | the prompt is built before the `"..."` placeholder goes in at index 0; the placeholder ends as the reply extracted from the response |
| ExampleChatViewModel.ChatViewModel.SendMessage | app/src/main/java/com/example/localassistant/viewmodel/ChatViewModel.kt:96-102 | insertion at index 0; only a USER text message is answered |
| ExampleChatViewModel.ChatViewModel.ResetChat | app/src/main/java/com/example/localassistant/viewmodel/ChatViewModel.kt:187-189 | all messages are cleared |
| ExampleChatViewModel.ChatViewModel.OnCleared | app/src/main/java/com/example/localassistant/viewmodel/ChatViewModel.kt:194-200 | the held resources become `Cleared` of the old ones |
| OnnxInferenceEngine.AfterLoad | app/src/main/java/com/localassistant/inference/OnnxInferenceEngine.kt:55-83 | role tokens never change; a missing or unreadable config keeps all tokens; a parsed one sets bos (never `<\|endoftext\|>`) and eos, "" for missing keys |
| OnnxInferenceEngine.LoadIdempotent | app/src/main/java/com/localassistant/inference/OnnxInferenceEngine.kt:55-65 | loading the same file again changes nothing |
| OnnxInferenceEngine.LoadOverwrites | app/src/main/java/com/localassistant/inference/OnnxInferenceEngine.kt:58-65 | a parsed config determines bos and eos regardless of the tokens held before |
| OnnxInferenceEngine.OnnxInferenceEngine.constructor | app/src/main/java/com/localassistant/inference/OnnxInferenceEngine.kt:30-53 | the tokens are the defaults after one load of the tokenizer configuration |
| OnnxInferenceEngine.OnnxInferenceEngine.LoadChatTemplateTokens | app/src/main/java/com/localassistant/inference/OnnxInferenceEngine.kt:55-83 | the tokens after loading are `AfterLoad` of the tokens before |
| OnnxInferenceEngine.EntryShape | app/src/main/java/com/localassistant/inference/OnnxInferenceEngine.kt:136-157 | USER, ASSISTANT and SYSTEM render as `roleToken + "\n" + text + endToken` |
| OnnxInferenceEngine.FormatShape | app/src/main/java/com/localassistant/inference/OnnxInferenceEngine.kt:124-171 | BOS first iff non-blank; the system block without a trailing newline; the end is assistantToken plus eos iff non-blank |
| OnnxInferenceEngine.DefaultEmptyPrompt | app/src/main/java/com/localassistant/inference/OnnxInferenceEngine.kt:30-35 | with defaults, no messages and a blank system prompt the output is `"<\|assistant\|>"` |
| OnnxInferenceEngine.OnnxInferenceEngine.FormatChat | app/src/main/java/com/localassistant/inference/OnnxInferenceEngine.kt:120-174 | the prompt is the shared render with the engine's current tokens, for text-only conversations |
| OnnxInferenceEngine.Decoded | app/src/main/java/com/localassistant/inference/OnnxInferenceEngine.kt:105-110 | one decoded text per token, the i-th being the decode of the i-th token |
| OnnxInferenceEngine.OnnxInferenceEngine.GenerateResponse | app/src/main/java/com/localassistant/inference/OnnxInferenceEngine.kt:89-114 | the loop sends the decode of each generated token as it comes; the fragments are exactly `Sent` of the run |
| OnnxInferenceEngine.SentShape | app/src/main/java/com/localassistant/inference/OnnxInferenceEngine.kt:105-114 | one fragment per token, each the decode of its token, plus one error fragment when the run faults |
| OnnxInferenceEngine.FaultAddsOneFragment | app/src/main/java/com/localassistant/inference/OnnxInferenceEngine.kt:112-114 | a fault keeps the fragments of the tokens before it and adds exactly one, which starts with `"Error during generation: "` |
| OnnxInferenceEngine.SentExtends | app/src/main/java/com/localassistant/inference/OnnxInferenceEngine.kt:105-110 | the fragments sent for the tokens generated so far begin whatever the whole run sends |
| LlamaCppInferenceEngine.FormatChat | app/src/main/java/com/localassistant/inference/LlamaCppInferenceEngine.kt:44-98 | the prompt is the shared render with `<end_of_turn>` plus newline after each block |
| LlamaCppInferenceEngine.EntryShape | app/src/main/java/com/localassistant/inference/LlamaCppInferenceEngine.kt:60-81 | every text message, SYSTEM included, is `roleToken + "\n" + text + "<end_of_turn>\n"` |
| LlamaCppInferenceEngine.FormatShape | app/src/main/java/com/localassistant/inference/LlamaCppInferenceEngine.kt:47-95 | no BOS; the system block iff the prompt is not blank; the prompt ends with the assistant token and no EOS |
| LlamaCppInferenceEngine.GenerateResponse | app/src/main/java/com/localassistant/inference/LlamaCppInferenceEngine.kt:38-42 | no fragment equal to the end token remains, and every other fragment keeps its count |
| LlamaCppInferenceEngine.FilterAppend | app/src/main/java/com/localassistant/inference/LlamaCppInferenceEngine.kt:41 | the filter distributes over concatenation, so order is preserved |
| LlamaCppInferenceEngine.FilterOne | app/src/main/java/com/localassistant/inference/LlamaCppInferenceEngine.kt:41 | exactly the fragment equal to the end token is dropped; one that merely contains it is kept |
| LlamaCppInferenceEngine.FilterClean | app/src/main/java/com/localassistant/inference/LlamaCppInferenceEngine.kt:41 | a stream without the end token passes unchanged |
| Llama.Generate | llama-binding/src/main/kotlin/com/example/localassistant/llamacpp/Llama.kt:14-37 | the loop with `break` and `finally` makes exactly the calls and outcome of `Generation` |
| Llama.PiecesAppend | llama-binding/src/main/kotlin/com/example/localassistant/llamacpp/Llama.kt:30 | the emitted pieces of joined runs are the joined pieces |
| Llama.EmitsSamplesCons | llama-binding/src/main/kotlin/com/example/localassistant/llamacpp/Llama.kt:26-30 | a non-EOS sample's piece in front of consecutive emissions is consecutive emissions |
| Llama.LoopStep | llama-binding/src/main/kotlin/com/example/localassistant/llamacpp/Llama.kt:25-32 | one ordinary iteration emits one piece and leaves the outcome to the rest |
| Llama.LoopEmits | llama-binding/src/main/kotlin/com/example/localassistant/llamacpp/Llama.kt:25-31 | fragments are the texts of consecutive samples in sampling order, never the EOS, at most the iterations left |
| Llama.LoopStops | llama-binding/src/main/kotlin/com/example/localassistant/llamacpp/Llama.kt:25-29 | the loop stops early only at the first EOS or when the collector throws on the last piece |
| Llama.LoopFeedsBack | llama-binding/src/main/kotlin/com/example/localassistant/llamacpp/Llama.kt:30-31 | every emitted token is evaluated right after its emission, unless the collector threw; the loop never frees |
| Llama.NoContextFailsFirst | llama-binding/src/main/kotlin/com/example/localassistant/llamacpp/Llama.kt:16-19 | a zero context throws before any call or emission |
| Llama.GenerationShape | llama-binding/src/main/kotlin/com/example/localassistant/llamacpp/Llama.kt:14-37 | prompt evaluated first, context freed exactly once and last, at most `maxTokens` fragments, consecutive non-EOS samples, early completion only at EOS |
| CameraActivity.Bucket | app/src/main/java/com/example/localassistant/CameraActivity.kt:62-68 | the bucket is a quarter turn, and 0 outside 0..360 |
| CameraActivity.BucketRanges | app/src/main/java/com/example/localassistant/CameraActivity.kt:62-66 | 315..360 or 0..45 give 90, 46..135 give 180, 136..225 give 270, 226..314 give 0, in both directions |
| CameraActivity.DegreesToSurface | app/src/main/java/com/example/localassistant/CameraActivity.kt:152-158 | always a `Surface` rotation; anything but a quarter turn gives `ROTATION_0` |
| CameraActivity.SurfaceToDegrees | app/src/main/java/com/example/localassistant/CameraActivity.kt:174-180 | always a quarter turn; anything else gives 0 |
| CameraActivity.DegreesToExif | app/src/main/java/com/example/localassistant/CameraActivity.kt:183-189 | always one of the four EXIF orientations; anything but a quarter turn gives `NORMAL` |
| CameraActivity.SurfaceRoundTrip | app/src/main/java/com/example/localassistant/CameraActivity.kt:174-180 | the two `Surface` maps invert each other on the quarter turns and on the four rotations |
| CameraActivity.ExifInjective | app/src/main/java/com/example/localassistant/CameraActivity.kt:183-189 | distinct quarter turns get distinct EXIF orientations |
| CameraActivity.CameraScreen.constructor | app/src/main/java/com/example/localassistant/CameraActivity.kt:38 | rotation 0 and no capture use case yet |
| CameraActivity.CameraScreen.OnOrientationChanged | app/src/main/java/com/example/localassistant/CameraActivity.kt:60-71 | the state becomes the bucket, and is not written when the bucket is the same |
| CameraActivity.CameraScreen.BuildImageCapture | app/src/main/java/com/example/localassistant/CameraActivity.kt:103-114 | the capture use case is created with the live rotation |
| CameraActivity.CameraScreen.TakePhoto | app/src/main/java/com/example/localassistant/CameraActivity.kt:150-194 | without a capture use case nothing happens; otherwise it is retargeted and the photo gets the EXIF orientation of the rotation |
| CameraActivity.CaptureEncodesBucket | app/src/main/java/com/example/localassistant/CameraActivity.kt:152-189 | the photo's EXIF orientation is that of the bucket the device was in |
| MainActivity.ExifToDegrees | app/src/main/java/com/example/localassistant/MainActivity.kt:60-65 | the result is always a quarter turn |
| MainActivity.ImageRotation | app/src/main/java/com/example/localassistant/MainActivity.kt:56-65 | a missing orientation tag gives 0 |
| MainActivity.ExifRoundTrip | app/src/main/java/com/example/localassistant/MainActivity.kt:60-65 | reading back what the camera wrote gives the same quarter turn |
| MainActivity.ExifToDegreesCases | app/src/main/java/com/example/localassistant/MainActivity.kt:60-64 | only ROTATE_90, ROTATE_180 and ROTATE_270 rotate; every other value gives 0 |
| MainActivity.CapturedPhotoRotation | app/src/main/java/com/example/localassistant/MainActivity.kt:56-65 | a photo taken in bucket b is shown rotated by b |
| Text.RemovePrefix | app/src/main/java/com/localassistant/data/ModelDownloader.kt:109 | strips the prefix exactly when present |
| Text.LastIndexOf | app/src/main/java/com/localassistant/viewmodel/ChatViewModel.kt:155 | -1 iff absent; otherwise an occurrence with none after it |
| Text.RemoveAllWithoutOccurrence | app/src/main/java/com/localassistant/viewmodel/ChatViewModel.kt:147-149 | a `replace` of an absent pattern changes nothing |
| Text.RemoveAllUpTo | app/src/main/java/com/localassistant/viewmodel/ChatViewModel.kt:147-149 | `replace` copies up to the first occurrence, deletes it, and goes on after it |
| Text.Trim | app/src/main/java/com/localassistant/viewmodel/ChatViewModel.kt:150 | the result neither starts nor ends with whitespace |
| Text.TrimPadded | app/src/main/java/com/localassistant/viewmodel/ChatViewModel.kt:150 | trim removes exactly the whitespace around a core that neither starts nor ends with whitespace |
| Text.TrimIdempotent | app/src/main/java/com/localassistant/viewmodel/ChatViewModel.kt:150 | trimming twice is trimming once |
| Text.BlankIffTrimsToEmpty | app/src/main/java/com/localassistant/viewmodel/ChatViewModel.kt:111 | a string is blank iff it trims to nothing |
| Sorting.Sort | app/src/main/java/com/localassistant/data/ModelDownloader.kt:89 | `sortedBy { it }` gives a sorted permutation |
| Sorting.FilterPrefix | app/src/main/java/com/localassistant/data/ModelDownloader.kt:88 | exactly the entries with the prefix are kept, each as many times as it occurs |
| Sorting.FilterPrefixAppend | app/src/main/java/com/localassistant/data/ModelDownloader.kt:88 | filtering distributes over concatenation, so the kept entries keep their order |
| Sorting.SortKeepsDistinct | app/src/main/java/com/localassistant/data/ModelDownloader.kt:87-89 | sorting keeps distinct entries distinct |
| LocalFiles.ParentOfJoin | app/src/main/java/com/localassistant/data/ModelDownloader.kt:110 | the parent of `File(dir, child)` is `dir` for a child without '/' |
| LocalFiles.JoinInjective | app/src/main/java/com/localassistant/data/ModelDownloader.kt:110 | `File(dir, a)` and `File(dir, b)` coincide only for a = b |
| LocalFiles.MkDirs | app/src/main/java/com/localassistant/data/ModelDownloader.kt:92 | the directory exists afterwards, no other directory is added, and files are untouched |
| LocalFiles.Store | app/src/main/java/com/localassistant/data/ModelDownloader.kt:150-152 | a transfer writes only its destination file: the whole body, the partial output, or nothing |

## Left out

- HTTP and JSON. The OkHttp transport, `HubModelInfo` decoding and byte copying are oracles.
  - A listing response holds the entry names or the failure. A listing request that gets no response has the same outcome as a 2xx response whose body is `Undecodable` with that exception's message, and is written that way.
  - A file response holds the status, the body length or the point where it broke off, or `Unreachable`: `execute()` threw before any response, with the exception's message.
- Coroutines. `viewModelScope.launch`, the dispatcher hops and Compose state are sequential steps. The streaming callbacks run to completion in order. Main-thread updates posted from a fragment are applied before the next fragment arrives.
- Native runtimes.
  - The ONNX Runtime GenAI model and generator are an oracle: a `GeneratorRun` holds the tokens produced and the fault, if any. The tokenizer's `decode` is the parameter `decode`. The llama.cpp JNI bridge is an oracle too; its `evalTokens` with an empty array indexes before the logits buffer.
  - `Llama.generate` takes `tokenEOS()` as one value.
  - Native failures other than a zero context are not modelled.
  - The EOS-token and `maxTokens` behaviour of the ONNX generator (`max_length` 2048) belongs to the generator and is not modelled.
- ONNX engine: flow and initialisation.
  - OnnxInferenceEngine.OnnxInferenceEngine.GenerateResponse: its `callbackFlow` is never closed (`awaitClose` waits for a close that nothing sends), so the flow never completes. The model gives only the fragments sent.
  - The constructor's wrapping of a GenAI failure in a `RuntimeException` is not modelled.
- JSON values. A parsed JSON file maps each key to the text `optString` gives for its value. The rendering of JSON `null` and of non-string values is left to that oracle.
- Image and audio messages.
  - The two engines' `formatChat` hit `TODO()` on image and audio messages. The precondition `AllText` excludes them.
  - The view models' builders hit `TODO()` on a SYSTEM text message. The precondition `NoSystemText` excludes it.
  - The view models' `sendMessage` imposes no precondition yet: only the input screen keeps blank text out.
- Initialisation.
  - Both view models check availability and load the engine asynchronously in `init`. Both outcomes are constructor parameters: availability and engine presence for one, the context `loadModelFromFile` returned for the other.
  - An exception while creating the llama.cpp context leaves the context null, which is the same as a `None` parameter.
- Sample package generation. In the sample package's `generateAssistantResponse`, the name `response` is not defined in the code. It is modelled as the engine's full response, a parameter.
- `LlamaModelRepository.downloadAllInSubfolderFlow` calls the data source's `downloadFile`. `RemoteModelDataSource` declares it, but `ModelDownloader`, the only implementation, does not provide it. The model gives the request it makes (URL and destination file), not a progress flow.
- ExamplePhi4Repository.DownloadModelFiles: `ModelDownloader.downloadFile` of the sample package is an oracle, `fetch`. Its own transport is not modelled.
- `mkdirs` is assumed to succeed. A run creates only the destination directory, so a manifest entry in a nested folder of the subfolder cannot be opened unless that folder exists already: `NestedEntryFails` and `NestedEntryEndsInError` state this. The open failure's message is Android's `FileOutputStream` text, `path: open failed: ENOENT (No such file or directory)`.
- ChatReply.CleanResponse: Kotlin's `replace` is one left-to-right pass per marker. A marker can therefore reappear once another is deleted inside it. The contracts state what holds for any input (the result is trimmed) and what holds for marker-free replies closed by the end marker. They do not claim the cleaned text is free of markers.
- Sorting.LexLeq orders by UTF-16 code unit, like `String.compareTo`, with one character per code unit. Supplementary characters are outside this model.
- ChatReply.ExtractExample: the concrete example is stated on parameters `question` and `answer` constrained to `"hi"` and `"hello"`. This lets the proof go through `ExtractOneTurn` rather than unfold the literal.
- UI: the composables, camera binding and preview, bitmap rotation with a float `Matrix`, settings persistence and dependency injection.
- The camera map is as written: readings 0..45 map to 90, and readings 226..314 together with anything out of range map to 0. These are the source's own choices, and the model does not alter them.
