/** The chat-completion service, seen only through the outcome of one request. */
module Service {
  /** What one `chat.completions.create` call gives back: the first choice's
      message content, or the exception it raised (with its message). */
  datatype Reply = Completion(content: string) | Failure(message: string)
}
