/** Process-wide configuration. The constants are the repository's literals; the
    values it reads from the environment at start-up are fields of `Settings`. */
module Config {

  const ApiUrl: string := "https://openrouter.AI/api/v1/chat/completions"
  const ModelsUrl: string := "https://openrouter.ai/api/v1/models"
  const ModelName: string := "openai/gpt-4o-mini"
  const MaxTokens: int := 50

  /** Upload file-name suffixes, without a leading dot. */
  const AllowedExtensions: seq<string> := ["png", "jpg", "jpeg", "gif", "webp"]

  /** The MIME types both format validators accept. */
  const AllowedMimeList: seq<string> := ["image/jpeg", "image/png", "image/gif", "image/webp"]
  const AllowedMimeTypes: set<string> := set t | t in AllowedMimeList

  /** Values taken from the environment once at start-up. */
  datatype Settings = Settings(
    apiKey: string,
    uploadFolder: string,
    maxContentLength: int,
    requestTimeout: int)

  /** The headers sent with every chat-completion request. */
  function ApiHeaders(apiKey: string): map<string, string> {
    map["Authorization" := "Bearer " + apiKey,
        "Content-Type" := "application/json",
        "HTTP-Referer" := "http://localhost:5000"]
  }
}
