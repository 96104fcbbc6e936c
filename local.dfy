/**
 * The anonymizer proper (`Anonydog::Local`): a workspace repository whose
 * object store grows as commits are written, the rewrite loop that replays
 * the walked range under the synthetic identity, the force push of HEAD, and
 * the orchestration that runs both and hands back the branch name.
 *
 * The merge-base query and the revision walk belong to the version-control
 * backend; they enter as the functions of a `Backend` value.
 */
module Local {
  import opened Wrappers
  import opened Refs
  import opened CommitGraph

  /** What the caller asks for: the head commit, the base branch, and the name of the new branch. */
  datatype Request = Request(headCommit: CommitId, baseRef: string, branch: string)

  /**
   * The backend's answers for the workspace as fetched: the merge base of a
   * commit and a reference (`None` when they share no history), and the
   * commits reachable from a commit but not from a hidden one, parents first.
   */
  datatype Backend = Backend(
    mergeBase: (CommitId, string) -> Option<CommitId>,
    walk: (CommitId, CommitId) -> seq<CommitId>)

  datatype Error = NamingConflict(branch: string)

  /**
   * Branch names whose references cannot both exist: the same name, or one
   * name a directory of the other's reference path (`pr` and `pr/1`).
   */
  predicate PathsCollide(a: string, b: string)
  {
    a == b || a + "/" <= b || b + "/" <= a
  }

  /** Creating branch `name` would clash with a branch that exists. */
  predicate NameTaken(branches: map<string, CommitId>, name: string)
  {
    exists b | b in branches :: PathsCollide(b, name)
  }

  /**
   * A branch blocks every name nested under it, and every name it is nested
   * under: with `pr` present neither `pr/1` nor, with `pr/1` present, `pr`
   * can be created.
   */
  lemma NestedNamesTaken(branches: map<string, CommitId>, name: string, sub: string)
    ensures name in branches ==> NameTaken(branches, name + "/" + sub)
    ensures name + "/" + sub in branches ==> NameTaken(branches, name)
  {
  }

  /** Merge base of the head commit and the base branch as fetched from `upstream`. */
  function MergeBaseOf(backend: Backend, req: Request): Option<CommitId>
  {
    backend.mergeBase(req.headCommit, UpstreamRef(req.baseRef))
  }

  /** The merge base exists and the walk from the head, hiding it, is a proper range. */
  predicate Resolvable(store: Store, backend: Backend, req: Request)
  {
    var mb := MergeBaseOf(backend, req);
    mb.Some? && WalkedRange(store, mb.value, backend.walk(req.headCommit, mb.value))
  }

  /** The walked range of a resolvable request. */
  function RangeOf(store: Store, backend: Backend, req: Request): (walk: seq<CommitId>)
    requires Resolvable(store, backend, req)
    ensures AllIn(store, walk)
  {
    backend.walk(req.headCommit, MergeBaseOf(backend, req).value)
  }

  /** An upper bound of a finite set of ids. */
  method IdBound(ids: set<CommitId>) returns (bound: CommitId)
    ensures forall id | id in ids :: id < bound
  {
    bound := 0;
    var rest := ids;
    while rest != {}
      invariant forall id | id in ids && id !in rest :: id < bound
      decreases rest
    {
      var id :| id in rest;
      if bound <= id {
        bound := id + 1;
      }
      rest := rest - {id};
    }
  }

  /** The workspace: a clone of the head repository with the base fetched into it. */
  class Repository {
    var commits: Store
    var branches: map<string, CommitId>
    /** The reference HEAD points at. */
    var head: string
    /** No id at or above this one is taken: the source of fresh commit ids. */
    var nextId: CommitId

    ghost predicate Valid()
      reads this
    {
      && (forall id | id in commits :: id < nextId)
      && Closed(commits)
      && (forall name | name in branches :: branches[name] in commits)
    }

    /** The freshly cloned and fetched workspace. */
    constructor Clone(commits: Store, branches: map<string, CommitId>, head: string)
      requires Closed(commits)
      requires forall name | name in branches :: branches[name] in commits
      ensures Valid()
      ensures this.commits == commits && this.branches == branches && this.head == head
    {
      var bound := IdBound(commits.Keys);
      this.commits := commits;
      this.branches := branches;
      this.head := head;
      this.nextId := bound;
    }

    /** Writes a new commit object under a fresh id; nothing else changes. */
    method CreateCommit(message: string, tree: TreeId, parents: seq<CommitId>,
                        author: Signature, committer: Signature) returns (id: CommitId)
      requires Valid()
      requires forall p | p in parents :: p in commits
      modifies this
      ensures Valid()
      ensures id !in old(commits)
      ensures commits == old(commits)[id := Commit(message, tree, parents, author, committer)]
      ensures branches == old(branches) && head == old(head)
    {
      id := nextId;
      commits := commits[id := Commit(message, tree, parents, author, committer)];
      nextId := nextId + 1;
    }

    /**
     * Creates branch `name` at `target`; a branch of that name, or one whose
     * reference path collides with it, is a conflict.
     */
    method CreateBranch(name: string, target: CommitId) returns (outcome: Result<CommitId, Error>)
      requires Valid() && target in commits
      modifies this
      ensures Valid()
      ensures NameTaken(old(branches), name) ==> outcome == Failure(NamingConflict(name)) && branches == old(branches)
      ensures !NameTaken(old(branches), name) ==> outcome == Success(target) && branches == old(branches)[name := target]
      ensures commits == old(commits) && head == old(head)
    {
      if exists b | b in branches :: PathsCollide(b, name) {
        outcome := Failure(NamingConflict(name));
      } else {
        branches := branches[name := target];
        outcome := Success(target);
      }
    }

    /** Points HEAD at the reference `refName`. */
    method SetHead(refName: string)
      modifies this
      ensures head == refName
      ensures commits == old(commits) && branches == old(branches) && nextId == old(nextId)
    {
      head := refName;
    }
  }

  /**
   * Replays the commits between the merge base and the head onto a new
   * linear chain under the synthetic identity, then creates branch
   * `req.branch` at its tip and points HEAD at it. The store only grows by
   * the copies; when the branch name is taken, the copies stay written and
   * neither the branches nor HEAD change.
   */
  method Anonymize(repo: Repository, backend: Backend, req: Request)
    returns (outcome: Result<CommitId, Error>, created: seq<CommitId>)
    requires repo.Valid()
    requires Resolvable(repo.commits, backend, req)
    modifies repo
    ensures repo.Valid()
    ensures var base := MergeBaseOf(backend, req).value;
            Rewrites(old(repo.commits), repo.commits, base, RangeOf(old(repo.commits), backend, req), created)
    ensures var tip := Tip(MergeBaseOf(backend, req).value, created);
            if NameTaken(old(repo.branches), req.branch) then
              && outcome == Failure(NamingConflict(req.branch))
              && repo.branches == old(repo.branches) && repo.head == old(repo.head)
            else
              && outcome == Success(tip)
              && repo.branches == old(repo.branches)[req.branch := tip]
              && repo.head == HeadRef(req.branch)
  {
    var mergeBase := backend.mergeBase(req.headCommit, UpstreamRef(req.baseRef)).value;
    var walk := backend.walk(req.headCommit, mergeBase);
    ghost var before := repo.commits;
    var newHead := mergeBase;
    created := [];
    RewritesNothing(before, mergeBase);
    assert walk[..0] == [];
    var i := 0;
    while i < |walk|
      invariant 0 <= i <= |walk| && |created| == i
      invariant repo.Valid()
      invariant Rewrites(before, repo.commits, mergeBase, walk[..i], created)
      invariant newHead == Tip(mergeBase, created) && newHead in repo.commits
      invariant repo.branches == old(repo.branches) && repo.head == old(repo.head)
    {
      var commit := repo.commits[walk[i]];
      assert commit == before[walk[i]];
      var fakeAuthorSig := FakeSignature(commit.author.time);
      ghost var mid := repo.commits;
      var current := repo.CreateCommit(commit.message, commit.tree, [newHead], fakeAuthorSig, fakeAuthorSig);
      RewritesStep(before, mid, mergeBase, walk, created, current);
      created := created + [current];
      newHead := current;
      i := i + 1;
    }
    assert walk[..i] == walk;
    outcome := repo.CreateBranch(req.branch, newHead);
    if outcome.Success? {
      repo.SetHead(HeadRef(req.branch));
    }
  }

  /**
   * The refspec that pushes HEAD's reference to the remote at `remoteUrl`,
   * forced so that the remote ref is overwritten.
   */
  method Publish(repo: Repository, remoteUrl: string) returns (refspec: string)
    ensures ParseRefspec(refspec) == Refspec(true, repo.head)
  {
    refspec := ForcePushRefspec(repo.head);
  }

  /**
   * Anonymizes the request's range, force-pushes the new branch, and returns
   * the caller's branch name unchanged. A naming conflict stops it before
   * anything is pushed.
   */
  method PublishAnonymized(repo: Repository, backend: Backend, req: Request, publishUrl: string)
    returns (result: Result<string, Error>, pushed: Option<string>)
    requires repo.Valid()
    requires Resolvable(repo.commits, backend, req)
    modifies repo
    ensures repo.Valid()
    ensures result == if NameTaken(old(repo.branches), req.branch) then Failure(NamingConflict(req.branch))
                      else Success(req.branch)
    ensures result.Failure? ==> pushed == None
    ensures result.Success? ==>
              && pushed.Some?
              && ParseRefspec(pushed.value) == Refspec(true, HeadRef(req.branch))
              && BranchOfRef(ParseRefspec(pushed.value).src) == Some(req.branch)
    ensures result.Success? ==> req.branch in repo.branches && BranchOfRef(repo.head) == Some(req.branch)
  {
    var outcome, created := Anonymize(repo, backend, req);
    if outcome.Failure? {
      return Failure(outcome.error), None;
    }
    var refspec := Publish(repo, publishUrl);
    result, pushed := Success(req.branch), Some(refspec);
  }

  /** History C0 <- C1 <- C2 <- C3, with ids 0 to 3, for the client below. */
  function ExampleStore(): Store
  {
    var sig := Signature("Jane", "jane@example.org", 100);
    map[
      0 := Commit("c0", 10, [], sig, sig),
      1 := Commit("c1", 11, [0], sig, sig),
      2 := Commit("c2", 12, [1], sig.(time := 200), sig),
      3 := Commit("c3", 13, [2], sig.(time := 300), sig)]
  }

  lemma ExampleStoreShape()
    ensures Closed(ExampleStore())
    ensures WalkedRange(ExampleStore(), 1, [2, 3])
  {

  }

  /**
   * A client of the contracts above: the base branch is at C1 and the head
   * at C3. Anonymizing yields two new commits D1 (on C1, with C2's tree) and
   * D2 (on D1, with C3's tree), and the new branch points at D2.
   */
  method TwoCommitExample()
  {
    var store := ExampleStore();
    ExampleStoreShape();
    var main, branch := "main", "pullrequest-1";
    assert !PathsCollide(main, branch) by {
      assert branch[0] != main[0];
    }
    assert !NameTaken(map[main := 3], branch);
    var repo := new Repository.Clone(store, map[main := 3], HeadRef(main));
    var backend := Backend((h: CommitId, r: string) => Some(1), (h: CommitId, hide: CommitId) => [2, 3]);
    var req := Request(3, main, branch);
    assert MergeBaseOf(backend, req) == Some(1) && RangeOf(store, backend, req) == [2, 3];
    var outcome, created := Anonymize(repo, backend, req);
    var d1, d2 := created[0], created[1];
    assert repo.commits[d1] == AnonymousCopy(store[2], 1);
    assert repo.commits[d2] == AnonymousCopy(store[3], d1);
    assert repo.commits[d2].tree == 13 && repo.commits[d2].author == FakeSignature(300);
    assert outcome == Success(d2) && repo.branches[branch] == d2;
    assert BranchOfRef(repo.head) == Some(branch);
  }
}
