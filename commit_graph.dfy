/**
 * Commits as the anonymizer sees them, and what it means for a sequence of
 * new commits to be the anonymized replay of a walked range.
 *
 * A store maps commit ids to commit records. Ids stand for content hashes:
 * the model only needs them to be distinct, and new ones to be fresh.
 */
module CommitGraph {

  type CommitId = nat

  /** A tree snapshot; its content is opaque to the anonymizer and only ever copied. */
  type TreeId = nat

  /**
   * Author or committer signature. `time` stands for the whole timestamp:
   * the instant and the UTC offset it was recorded with, which a copy keeps.
   */
  datatype Signature = Signature(name: string, email: string, time: int)

  datatype Commit = Commit(
    message: string,
    tree: TreeId,
    parents: seq<CommitId>,
    author: Signature,
    committer: Signature)

  type Store = map<CommitId, Commit>

  const AnonName: string := "Anonydog"
  const AnonEmail: string := "me@anonydog.org"

  /** The synthetic signature used for author and committer alike, at time `time`. */
  function FakeSignature(time: int): (s: Signature)
    ensures s.name == "Anonydog" && s.email == "me@anonydog.org" && s.time == time
  {
    Signature(AnonName, AnonEmail, time)
  }

  /**
   * The commit written for `original` on top of `parent`: same message and
   * tree, the synthetic identity stamped with the original author's time,
   * and `parent` as its only parent whatever the original's parents were.
   */
  function AnonymousCopy(original: Commit, parent: CommitId): (c: Commit)
    ensures c.message == original.message && c.tree == original.tree
    ensures c.parents == [parent]
    ensures c.author == c.committer && c.author.time == original.author.time
    ensures c.author.name == "Anonydog" && c.author.email == "me@anonydog.org"
  {
    var sig := FakeSignature(original.author.time);
    Commit(original.message, original.tree, [parent], sig, sig)
  }

  /** The commit the k-th new commit is placed on: the merge base, then each previous new commit. */
  function ParentAt(base: CommitId, created: seq<CommitId>, k: nat): CommitId
    requires k <= |created|
  {
    if k == 0 then base else created[k - 1]
  }

  /** The last new commit, or the merge base when nothing was created. */
  function Tip(base: CommitId, created: seq<CommitId>): CommitId
  {
    ParentAt(base, created, |created|)
  }

  predicate Distinct(ids: seq<CommitId>)
  {
    forall i, j | 0 <= i < j < |ids| :: ids[i] != ids[j]
  }

  /**
   * Nothing of the original's identity or parents survives in its copy:
   * commits that agree on message, tree and author time get the same copy.
   */
  lemma CopyForgetsIdentity(a: Commit, b: Commit, parent: CommitId)
    requires a.message == b.message && a.tree == b.tree && a.author.time == b.author.time
    ensures AnonymousCopy(a, parent) == AnonymousCopy(b, parent)
  {
  }

  /** Every id of `ids` names a commit of `store`. */
  predicate AllIn(store: Store, ids: seq<CommitId>)
  {
    forall i | 0 <= i < |ids| :: ids[i] in store
  }

  /** Parents are listed before their children. */
  predicate ParentsFirst(store: Store, walk: seq<CommitId>)
    requires AllIn(store, walk)
  {
    forall i, j | 0 <= i < |walk| && 0 <= j < |walk| && walk[j] in store[walk[i]].parents :: j < i
  }

  /**
   * What the revision walk from the head, hiding the merge base, hands the
   * rewrite loop: commits of the store, each once, not the merge base
   * itself, parents before children.
   */
  predicate WalkedRange(store: Store, base: CommitId, walk: seq<CommitId>)
  {
    && base in store
    && AllIn(store, walk)
    && base !in walk
    && Distinct(walk)
    && ParentsFirst(store, walk)
  }

  /** `created` are distinct ids, none of them already in `before`. */
  predicate FreshIds(before: Store, created: seq<CommitId>)
  {
    Distinct(created) && forall k | 0 <= k < |created| :: created[k] !in before
  }

  /** `after` holds exactly the commits of `before`, unchanged, and those named in `created`. */
  ghost predicate Extends(before: Store, after: Store, created: seq<CommitId>)
  {
    && (forall id :: id in after <==> id in before || id in created)
    && (forall id | id in before :: after[id] == before[id])
  }

  /** `created[k]` holds the anonymous copy of `walk[k]`, placed on the previous copy. */
  predicate Copies(before: Store, after: Store, base: CommitId, walk: seq<CommitId>, created: seq<CommitId>)
    requires AllIn(before, walk) && |created| == |walk|
  {
    forall k {:trigger created[k] in after} | 0 <= k < |created| ::
      created[k] in after && after[created[k]] == AnonymousCopy(before[walk[k]], ParentAt(base, created, k))
  }

  /**
   * `after` is `before` plus one anonymous copy per walked commit, in walk
   * order: `created[k]` is a fresh id holding the copy of `walk[k]`, placed
   * on the previous copy (the merge base for the first), and every commit of
   * `before` is unchanged.
   */
  ghost predicate Rewrites(before: Store, after: Store, base: CommitId, walk: seq<CommitId>, created: seq<CommitId>)
    requires AllIn(before, walk)
  {
    && |created| == |walk|
    && FreshIds(before, created)
    && Extends(before, after, created)
    && Copies(before, after, base, walk, created)
  }

  /** A store in which every parent of every commit is itself in the store. */
  predicate Closed(store: Store)
  {
    forall id, p | id in store && p in store[id].parents :: p in store
  }

  /** A set of commits of `store` that contains the parents of each of its members. */
  predicate AncestorClosed(store: Store, ids: set<CommitId>)
  {
    forall id | id in ids :: id in store && forall p | p in store[id].parents :: p in ids
  }

  /** Before any commit is written, the empty replay relates a store to itself. */
  lemma RewritesNothing(store: Store, base: CommitId)
    ensures Rewrites(store, store, base, [], [])
  {
  }

  /**
   * One turn of the rewrite loop: writing the copy of the next walked commit
   * under a fresh id, on top of the current tip, extends the replay by one.
   */
  lemma RewritesStep(before: Store, mid: Store, base: CommitId, walk: seq<CommitId>,
                     created: seq<CommitId>, id: CommitId)
    requires AllIn(before, walk) && |created| < |walk|
    requires Rewrites(before, mid, base, walk[..|created|], created)
    requires id !in mid
    ensures Rewrites(before, mid[id := AnonymousCopy(before[walk[|created|]], Tip(base, created))],
                     base, walk[..|created| + 1], created + [id])
  {
    var n := |created|;
    var after := mid[id := AnonymousCopy(before[walk[n]], Tip(base, created))];
    FreshStep(before, mid, created, id);
    ExtendsStep(before, mid, created, id, after[id]);
    CopiesStep(before, mid, base, walk, created, id);
  }

  lemma FreshStep(before: Store, mid: Store, created: seq<CommitId>, id: CommitId)
    requires FreshIds(before, created) && Extends(before, mid, created) && id !in mid
    ensures FreshIds(before, created + [id])
  {

  }

  lemma ExtendsStep(before: Store, mid: Store, created: seq<CommitId>, id: CommitId, c: Commit)
    requires Extends(before, mid, created) && id !in mid
    ensures Extends(before, mid[id := c], created + [id])
  {
    assert forall x :: x in created + [id] <==> x in created || x == id;
  }

  lemma CopiesStep(before: Store, mid: Store, base: CommitId, walk: seq<CommitId>,
                   created: seq<CommitId>, id: CommitId)
    requires AllIn(before, walk) && |created| < |walk|
    requires Copies(before, mid, base, walk[..|created|], created)
    requires id !in mid
    ensures Copies(before, mid[id := AnonymousCopy(before[walk[|created|]], Tip(base, created))],
                   base, walk[..|created| + 1], created + [id])
  {
    var n := |created|;
    var after := mid[id := AnonymousCopy(before[walk[n]], Tip(base, created))];
    var created' := created + [id];
    forall k | 0 <= k < |created'|
      ensures created'[k] in after
      ensures after[created'[k]] == AnonymousCopy(before[walk[..n + 1][k]], ParentAt(base, created', k))
    {
      if k < n {
        assert created'[k] == created[k] && created[k] in mid;
        assert walk[..n + 1][k] == walk[..n][k];
        assert ParentAt(base, created', k) == ParentAt(base, created, k);
      }
    }
  }

  // ---------------------------------------------------------------------
  // Walking back along parents

  /**
   * The ids met following only-parents back from `id` for at most `steps`
   * steps; the walk stops early at a commit that does not have exactly one
   * parent.
   */
  function LinearHistory(store: Store, id: CommitId, steps: nat): (h: seq<CommitId>)
    ensures 1 <= |h| <= steps + 1 && h[0] == id
    decreases steps
  {
    if steps == 0 || id !in store || |store[id].parents| != 1 then [id]
    else [id] + LinearHistory(store, store[id].parents[0], steps - 1)
  }

  function Reversed(ids: seq<CommitId>): (r: seq<CommitId>)
  {
    if ids == [] then [] else [ids[|ids| - 1]] + Reversed(ids[..|ids| - 1])
  }

  /** Message and tree of each commit in `ids`: the part of a commit that anonymizing keeps. */
  function Content(store: Store, ids: seq<CommitId>): (c: seq<(string, TreeId)>)
    requires AllIn(store, ids)
    ensures |c| == |ids|
  {
    if ids == [] then []
    else [(store[ids[0]].message, store[ids[0]].tree)] + Content(store, ids[1..])
  }

  // ---------------------------------------------------------------------
  // Properties of a rewrite

  /**
   * Walking back from the new tip meets every new commit, newest first, each
   * with exactly one parent, and ends at the merge base: the new history is
   * linear and sits on the merge base, whatever the shape of the walked range.
   */
  lemma {:induction false} RewriteIsLinear(before: Store, after: Store, base: CommitId,
                                           walk: seq<CommitId>, created: seq<CommitId>)
    requires AllIn(before, walk)
    requires Rewrites(before, after, base, walk, created)
    ensures LinearHistory(after, Tip(base, created), |created|) == Reversed(created) + [base]
    ensures forall k | 0 <= k < |created| :: |after[created[k]].parents| == 1
  {
    assert Chained(after, base, created);
    LinearPrefix(after, base, created, |created|);
    assert created[..|created|] == created;
  }

  /** Each of `created` is in `store` with the previous one (the merge base for the first) as its only parent. */
  predicate Chained(store: Store, base: CommitId, created: seq<CommitId>)
  {
    forall k {:trigger created[k] in store} | 0 <= k < |created| ::
      created[k] in store && store[created[k]].parents == [ParentAt(base, created, k)]
  }

  lemma {:induction false} LinearPrefix(store: Store, base: CommitId, created: seq<CommitId>, n: nat)
    requires Chained(store, base, created)
    requires n <= |created|
    ensures LinearHistory(store, ParentAt(base, created, n), n) == Reversed(created[..n]) + [base]
  {
    if n == 0 {
      assert created[..0] == [];
    } else {
      var c, p := created[n - 1], ParentAt(base, created, n - 1);
      assert c in store && store[c].parents == [p];
      LinearPrefix(store, base, created, n - 1);
      LinearHistoryStep(store, c, p, n);
      ReversedSnoc(created, n);
    }
  }

  lemma LinearHistoryStep(store: Store, c: CommitId, p: CommitId, n: nat)
    requires c in store && store[c].parents == [p] && n > 0
    ensures LinearHistory(store, c, n) == [c] + LinearHistory(store, p, n - 1)
  {
  }

  lemma ReversedSnoc(ids: seq<CommitId>, n: nat)
    requires 0 < n <= |ids|
    ensures Reversed(ids[..n]) == [ids[n - 1]] + Reversed(ids[..n - 1])
  {
    assert ids[..n][..n - 1] == ids[..n - 1];
  }

  /** The new commits carry the walked commits' messages and trees, in the same order. */
  lemma {:induction false} RewriteKeepsContent(before: Store, after: Store, base: CommitId,
                                               walk: seq<CommitId>, created: seq<CommitId>)
    requires AllIn(before, walk)
    requires Rewrites(before, after, base, walk, created)
    ensures AllIn(after, created)
    ensures Content(after, created) == Content(before, walk)
  {
    ContentFrom(before, after, base, walk, created, 0);
    assert created[0..] == created && walk[0..] == walk;
  }

  lemma {:induction false} ContentFrom(before: Store, after: Store, base: CommitId,
                                       walk: seq<CommitId>, created: seq<CommitId>, i: nat)
    requires AllIn(before, walk)
    requires Rewrites(before, after, base, walk, created)
    requires i <= |created|
    ensures AllIn(after, created[i..])
    decreases |created| - i
    ensures Content(after, created[i..]) == Content(before, walk[i..])
  {
    if i < |created| {
      ContentFrom(before, after, base, walk, created, i + 1);
      assert created[i..][1..] == created[i + 1..];
      assert walk[i..][1..] == walk[i + 1..];
      assert after[created[i]] == AnonymousCopy(before[walk[i]], ParentAt(base, created, i));
    }
  }

  /**
   * No new commit keeps its original's identity: author and committer are
   * both the synthetic identity, stamped with the original author's time.
   */
  lemma RewriteHidesIdentity(before: Store, after: Store, base: CommitId,
                             walk: seq<CommitId>, created: seq<CommitId>, k: nat)
    requires AllIn(before, walk)
    requires Rewrites(before, after, base, walk, created)
    requires k < |created|
    ensures after[created[k]].author == after[created[k]].committer
    ensures after[created[k]].author.name == "Anonydog"
    ensures after[created[k]].author.email == "me@anonydog.org"
    ensures after[created[k]].author.time == before[walk[k]].author.time
  {
  }

  /**
   * The new commits are fresh ids, none of them a walked original, and none
   * points at a walked original: no original id of the range survives in
   * the new chain.
   */
  lemma RewriteDropsOriginalIds(before: Store, after: Store, base: CommitId,
                                walk: seq<CommitId>, created: seq<CommitId>)
    requires WalkedRange(before, base, walk)
    requires Rewrites(before, after, base, walk, created)
    ensures forall k | 0 <= k < |created| :: created[k] !in walk
    ensures forall k, p | 0 <= k < |created| && p in after[created[k]].parents :: p !in walk
  {
  }

  /**
   * Any ancestor-closed history `shared` that holds the merge base and no
   * walked commit stays closed once the new commits are added: everything
   * reachable from the new tip is either a new commit or already in
   * `shared`, so no walked original is reachable from the new branch.
   */
  lemma RewriteReachesNoOriginal(before: Store, after: Store, base: CommitId,
                                 walk: seq<CommitId>, created: seq<CommitId>, shared: set<CommitId>)
    requires WalkedRange(before, base, walk)
    requires Rewrites(before, after, base, walk, created)
    requires AncestorClosed(before, shared) && base in shared
    requires forall k | 0 <= k < |walk| :: walk[k] !in shared
    ensures AncestorClosed(after, shared + set k | 0 <= k < |created| :: created[k])
    ensures Tip(base, created) in shared + set k | 0 <= k < |created| :: created[k]
    ensures forall k | 0 <= k < |walk| :: walk[k] !in shared + set j | 0 <= j < |created| :: created[j]
  {

  }

  /** A closed store stays closed: every new commit's parent exists. */
  lemma RewriteKeepsStoreClosed(before: Store, after: Store, base: CommitId,
                                walk: seq<CommitId>, created: seq<CommitId>)
    requires WalkedRange(before, base, walk) && Closed(before)
    requires Rewrites(before, after, base, walk, created)
    ensures Closed(after)
  {

  }

  /**
   * The walk's parents-first order carries over to the new chain: when a
   * walked commit is a parent of another, it comes earlier in the walk, and
   * its copy lies on the history of the other's copy.
   */
  lemma {:induction false} RewriteKeepsParentOrder(before: Store, after: Store, base: CommitId,
                                                   walk: seq<CommitId>, created: seq<CommitId>, i: nat, j: nat)
    requires WalkedRange(before, base, walk)
    requires Rewrites(before, after, base, walk, created)
    requires i < |walk| && j < |walk| && walk[j] in before[walk[i]].parents
    ensures j < i
    ensures created[j] in LinearHistory(after, created[i], i + 1)
  {
    assert j < i;
    assert Chained(after, base, created);
    ChainReaches(after, base, created, i, j);
  }

  /** The copy `created[j]` lies on the history walked back from any later copy `created[i]`. */
  lemma ChainReaches(store: Store, base: CommitId, created: seq<CommitId>, i: nat, j: nat)
    requires Chained(store, base, created)
    requires j <= i < |created|
    ensures created[j] in LinearHistory(store, created[i], i + 1)
  {
    LinearPrefix(store, base, created, i + 1);
    assert ParentAt(base, created, i + 1) == created[i];
    var prefix := created[..i + 1];
    assert prefix[j] == created[j];
    ReversedMembers(prefix);
    assert created[j] in Reversed(prefix);
  }

  lemma {:induction false} ReversedMembers(ids: seq<CommitId>)
    ensures forall x :: x in Reversed(ids) <==> x in ids
  {
    if ids != [] {
      var n := |ids|;
      ReversedMembers(ids[..n - 1]);
      assert ids == ids[..n - 1] + [ids[n - 1]];
    }
  }

  /** An empty range creates nothing and leaves the branch target at the merge base. */
  lemma EmptyRangeIsNoOp(before: Store, after: Store, base: CommitId, created: seq<CommitId>)
    requires Rewrites(before, after, base, [], created)
    ensures created == [] && after == before && Tip(base, created) == base
  {

  }
}
