# Anonydog commit-chain anonymizer, modelled in Dafny

Anonydog lets a contributor propose a change upstream without revealing who
wrote it. `Anonydog::Local.anonymize` clones the contributor's repository,
fetches the base repository as the remote `upstream`, and finds the merge
base of the head commit and `upstream/<ref>`. It then replays every commit
between that merge base and the head, parents first. Each replayed commit
keeps its message and tree. Its author and committer become
`Anonydog <me@anonydog.org>`, stamped with the original author time. Its
only parent is the previous replayed commit; for the first one, that is the
merge base. A branch is created at the last replayed commit and HEAD is
pointed at `refs/heads/<branch>`. `publish` force-pushes HEAD with the
refspec `+<HEAD ref>`, and `publish_anonymized` runs both steps and returns
the caller's branch name.

The project has four modules:

- `Wrappers` (wrappers.dfy): `Option` and `Result`.
- `Refs` (refs.dfy): the reference names the anonymizer forms as strings.
  Beside each formation is the model's own inverse of it, a small parser, and
  each formation's contract says that its inverse recovers what was put in.
- `CommitGraph` (commit_graph.dfy): commits, signatures and the commit store,
  a map from ids to commit records. It defines `Rewrites`, which says when a
  grown store holds the anonymized replay of a walked range. It also holds the
  lemmas about any such replay: it is linear, it keeps content, it hides
  identity, and, with fresh ids, it leaves the original commits unreachable.
- `Local` (local.dfy): the class `Repository`, whose store, branches, HEAD and
  fresh-id counter are updated in place. It also holds the `Anonymize` loop,
  `Publish`, `PublishAnonymized`, and a client method that replays a
  two-commit example through the contracts.

The merge-base query and the revision walk are libgit2's. They enter as the
two functions of a `Backend` value. `Anonymize` requires what the code takes
for granted of them: a merge base exists and is in the store, and the walk
lists commits of the store once each, leaves out the merge base, and puts
parents before children.

## Model

| member | source | states |
|---|---|---|
| `Refs.UpstreamRef` | lib/anonydog/local.rb:33 | the base ref is `upstream/<ref>`: it splits back into the remote `upstream` and the whole of `<ref>`, slashes in `<ref>` included |
| `Refs.SplitRemoteRef` | lib/anonydog/local.rb:33 | inverse of `UpstreamRef`: splitting at the first slash gives a remote name without a slash and the rest, which rejoin to the input; `None` exactly when there is no slash |
| `Refs.UpstreamRefInjective` | lib/anonydog/local.rb:33 | different base branches give different remote-tracking refs |
| `Refs.HeadRef` | lib/anonydog/local.rb:76 | the ref HEAD is set to, `refs/heads/<branch>`, names exactly the anonymized branch |
| `Refs.BranchOfRef` | lib/anonydog/local.rb:76 | inverse of `HeadRef`: a ref name names a branch exactly when it starts with `refs/heads/`, and it is that prefix followed by the branch |
| `Refs.ForcePushRefspec` | lib/anonydog/local.rb:89 | `'+' + name` reads back as a forced push of exactly `name` |
| `Refs.ParseRefspec` | lib/anonydog/local.rb:89 | inverse of `ForcePushRefspec`: a refspec is forced exactly when it starts with `+`, and it is the optional `+` followed by the source |
| `Refs.BranchRefspec` | lib/anonydog/local.rb:76-89 | the refspec pushed after anonymizing forces `refs/heads/<branch>` and names the anonymized branch |
| `CommitGraph.FakeSignature` | lib/anonydog/local.rb:55-59 | the synthetic signature is named `Anonydog`, has the email `me@anonydog.org`, and carries the given time |
| `CommitGraph.AnonymousCopy` | lib/anonydog/local.rb:61-70 | the copy keeps the original's message and tree, has the given commit as its only parent, and has the synthetic identity as both author and committer at the original author's time |
| `CommitGraph.CopyForgetsIdentity` | lib/anonydog/local.rb:55-70 | commits that agree on message, tree and author time get the same copy, so nothing of the original's signature names and emails, committer or parents is kept |
| `CommitGraph.RewritesNothing` | lib/anonydog/local.rb:47 | before the loop the accumulator is the merge base and the empty replay relates the store to itself |
| `CommitGraph.RewritesStep` | lib/anonydog/local.rb:55-72 | writing the anonymous copy of the next walked commit under a fresh id, on the current tip, extends the replay by exactly that commit |
| `CommitGraph.RewriteIsLinear` | lib/anonydog/local.rb:47-72 | every new commit has exactly one parent; walking back from the new tip meets the new commits newest first and then the merge base, whatever the walked range's shape |
| `CommitGraph.RewriteKeepsContent` | lib/anonydog/local.rb:61-64 | the new commits carry the walked commits' messages and trees in the same order |
| `CommitGraph.RewriteHidesIdentity` | lib/anonydog/local.rb:55-69 | each new commit's author and committer are both `Anonydog <me@anonydog.org>` at the original author's time; that timestamp, UTC offset included, is the one field of the original author's signature that remains; message and tree are copied verbatim, so any name they contain remains too |
| `CommitGraph.RewriteKeepsParentOrder` | lib/anonydog/local.rb:49-72 | when a walked commit is a parent of another, it comes earlier in the walk, and its copy lies on the history walked back from the other's copy |
| `CommitGraph.RewriteDropsOriginalIds` | lib/anonydog/local.rb:61-72 | with fresh ids, no new commit is a walked original and none has a walked original as parent |
| `CommitGraph.RewriteReachesNoOriginal` | lib/anonydog/local.rb:47-75 | with fresh ids, the merge base's ancestor-closed history plus the new commits stays ancestor-closed, contains the new tip and no walked original, so no original of the range is reachable from the new branch |
| `CommitGraph.RewriteKeepsStoreClosed` | lib/anonydog/local.rb:61-70 | when every parent in the store exists before the rewrite, that still holds after it |
| `CommitGraph.EmptyRangeIsNoOp` | lib/anonydog/local.rb:47-75 | an empty range creates no commit, leaves the store as it was and puts the branch target at the merge base |
| `Local.Repository.Clone` | lib/anonydog/local.rb:39-45 | the workspace starts with the cloned store, branches and HEAD, and a fresh-id counter above every id in it |
| `Local.Repository.CreateCommit` | lib/anonydog/local.rb:61-70 | a commit object is added under an id not in the store; no existing commit, branch or HEAD changes |
| `Local.Repository.CreateBranch` | lib/anonydog/local.rb:75 | a new branch is added at the target, or a name equal to an existing branch or colliding with its reference path (`pr` and `pr/1`) is a naming conflict that changes nothing |
| `Local.NestedNamesTaken` | lib/anonydog/local.rb:75 | a branch blocks every name nested under it and every name it is nested under |
| `Local.Repository.SetHead` | lib/anonydog/local.rb:76 | HEAD names the given ref; store and branches are unchanged |
| `Local.Anonymize` | lib/anonydog/local.rb:28-77 | the store grows by exactly the replay of the walked range from the merge base; the branch is created at the new tip and HEAD set to `refs/heads/<branch>`, or on a name conflict the copies stay but branches and HEAD are unchanged |
| `Local.Publish` | lib/anonydog/local.rb:82-92 | the pushed refspec is a forced push of HEAD's ref |
| `Local.PublishAnonymized` | lib/anonydog/local.rb:96-115 | returns the caller's branch name unchanged after force-pushing `refs/heads/<branch>`; a name conflict fails before anything is pushed |

## Left out

- Writing the SSH key files and setting `GITHUB_SSH_KEY_PATH` at load time (lib/anonydog/local.rb:3-10): filesystem and environment side effects.
- The random workspace path, the clone, the `upstream` remote and the fetch (lib/anonydog/local.rb:37-45): disk, randomness and network. `Repository.Clone` receives the resulting store, branches and HEAD.
- The merge-base computation and the topological walk (lib/anonydog/local.rb:47-53): libgit2 internals. They are the functions of `Backend`, and the properties the code relies on are preconditions of `Anonymize`. The code has no check for a missing merge base. A missing merge base is therefore a precondition, not an error result.
- Errors raised inside libgit2 are not modelled: an unresolvable head or base ref, an invalid branch name, a failed object write. `CreateBranch`'s name conflict, an equal name or a colliding reference path, is the only error result.
- Commit ids are SHA-1 hashes of commit content; here they are fresh numbers drawn from a counter. The model relies only on their being new and distinct.
- CommitGraph.RewriteDropsOriginalIds, CommitGraph.RewriteReachesNoOriginal: in git, a copy byte-identical to an existing commit keeps that commit's id, so these properties hold of the fresh-id model only. Re-anonymizing an earlier anonymized branch is such a case: a walked commit whose parent is the merge base and whose author and committer are already `Anonydog <me@anonydog.org>` at its author time is its own copy, and the new branch then points at that original commit.
- `ParseRefspec` reads only the force flag and the source. A git refspec may also carry a `:<dst>` part; the anonymizer never forms one, and the model does not separate it.
- `SplitRemoteRef` splits at the first slash. Git resolves `upstream/<ref>` by revision parsing instead, trying `refs/remotes/upstream/<ref>` among other candidates. Remote names may contain slashes. The model's inverse only shows that the formation loses nothing.
- Credentials and the push itself (lib/anonydog/local.rb:83-91): SSH network I/O. `Publish` returns the refspec it would hand to `push`, and its remote URL is not used.
- The `puts` and the removal of the workspace directory (lib/anonydog/local.rb:111-112): output and filesystem.
- `publish_anonymized_sync` (lib/anonydog/local.rb:120-139) is a copy of `publish_anonymized`; `Local.PublishAnonymized` models both.
- Local.PublishAnonymized: states the branch, HEAD and pushed refspec but not the rewritten store; that is stated once, by `Local.Anonymize`.
- The code raises no error of its own for an unresolvable ref; libgit2 raises. The code does not check the merge base: when there is none, `merge_base` returns nil, which the code passes on as `:hide` and as the first copy's parent. That path is not modelled, and `Anonymize` requires a merge base. It drops the original parents of every commit, so a merge commit in the range becomes an ordinary link in the new chain; the TODO at lib/anonydog/local.rb:67 leaves this open. The committer gets the original author time, exactly like the author. The method comment says the returned branch name is randomly generated; the method echoes the caller's argument.
