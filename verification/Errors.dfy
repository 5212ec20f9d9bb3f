/** GitHub errors, and which of them end the process (src/github_client.hpp:24-40, src/watcher.cpp:33-42, src/main.cpp:123-124). */
module Errors {

  datatype Error = GithubError(status: int, transient: bool) | OtherError

  /** Errors that no retry can clear; the watcher rethrows them and main() exits on them. */
  predicate IsFatalGithub(e: Error) {
    e.GithubError? && (e.status == 401 || e.status == 422 || (e.status == 403 && !e.transient))
  }
}
