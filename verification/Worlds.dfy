/** What the engine asks of code outside it: object hashing, patch application,
    diff text, regular expressions, text encoding.  Each is a function; nothing
    about it is assumed unless a lemma says so. */
module Worlds {
  import opened Wrappers
  import opened Trees
  import opened Trailers

  datatype Signature = Signature(name: string, email: string, when: int)

  /** A commit object.  Its parents are commits that existed before it, so
      histories are finite and acyclic by construction. */
  datatype Commit = Commit(tree: Tree, parents: seq<Commit>, author: Signature, committer: Signature, message: string)

  /** The engine-derived variables of an agent prompt. */
  datatype PromptContext = PromptContext(
    originCommit: string, originMessage: string, changedFiles: string, incomingDiff: string, repoContext: string)

  datatype World = World(
    id: Commit -> Oid,
    applyPatch: (Tree, Bytes) -> Option<Tree>,
    diff: (Tree, Tree) -> Bytes,
    regexValid: string -> bool,
    regexReplace: (string, string, string) -> string,
    decode: Bytes -> Option<string>,
    encode: string -> Bytes,
    context: (string, Commit) -> PromptContext)
}
