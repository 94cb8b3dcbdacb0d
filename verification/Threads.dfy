/** Comments as GitHub lists them. */
module Threads {
  import opened Text

  /** The longest body GitHub takes. */
  const MAX_BODY := 65536

  datatype Comment = Comment(id: int, author: Option<string>, body: string)

  /** Whether a comment passes as this client's own, as every comment does for a client without a login. */
  predicate Ours(c: Comment, login: Option<string>) { login.None? || c.author == login }
}
