/**
 * The reference names and the refspec that the anonymizer forms as strings:
 * the remote-tracking ref of the base branch, the symbolic target of HEAD
 * and the force-push refspec. Beside each formation is the model's own
 * inverse of it, a small parser; each formation's contract says that its
 * inverse recovers exactly what was put in.
 */
module Refs {
  import opened Wrappers

  /** Name of the secondary remote the base repository is fetched as. */
  const UpstreamRemote: string := "upstream"

  /** Prefix of every local branch reference. */
  const HeadsPrefix: string := "refs/heads/"

  /** Remote-tracking reference of the base branch `ref`; the whole of `ref` follows the remote name. */
  function UpstreamRef(ref: string): (r: string)
    ensures SplitRemoteRef(r) == Some((UpstreamRemote, ref))
  {
    var s := UpstreamRemote + "/" + ref;
    assert s[8] == '/' && forall j | 0 <= j < 8 :: s[j] != '/';
    assert IndexOf(s, '/') == 8;
    assert s[..8] == UpstreamRemote && s[9..] == ref;
    s
  }

  /** Full reference name of the local branch `branch`; HEAD is pointed at it. */
  function HeadRef(branch: string): (r: string)
    ensures BranchOfRef(r) == Some(branch)
  {
    var s := HeadsPrefix + branch;
    assert s[..|HeadsPrefix|] == HeadsPrefix && s[|HeadsPrefix|..] == branch;
    s
  }

  /** A push refspec as far as the anonymizer uses one: the source reference and whether the push is forced. */
  datatype Refspec = Refspec(force: bool, src: string)

  /** Refspec that pushes `refName` and overwrites the remote ref unconditionally. */
  function ForcePushRefspec(refName: string): (r: string)
    ensures ParseRefspec(r) == Refspec(true, refName)
  {
    var s := "+" + refName;
    assert s[1..] == refName;
    s
  }

  /** Index of the first occurrence of `c` in `s`, or `|s|` when there is none. */
  function IndexOf(s: string, c: char): (i: nat)
    ensures i <= |s|
    ensures i < |s| ==> s[i] == c
    ensures forall j | 0 <= j < i :: s[j] != c
  {
    if s == [] then 0
    else if s[0] == c then 0
    else 1 + IndexOf(s[1..], c)
  }

  /**
   * Inverse of `UpstreamRef`: splits `remote/branch` at its first slash;
   * `None` when there is no slash.
   */
  function SplitRemoteRef(refName: string): (r: Option<(string, string)>)
    ensures r.None? <==> '/' !in refName
    ensures r.Some? ==> refName == r.value.0 + "/" + r.value.1 && '/' !in r.value.0
  {
    var i := IndexOf(refName, '/');
    if i == |refName| then None
    else
      assert refName == refName[..i] + "/" + refName[i + 1..];
      Some((refName[..i], refName[i + 1..]))
  }

  /** Inverse of `HeadRef`: the branch a full reference name names, `None` unless it lies under `refs/heads/`. */
  function BranchOfRef(refName: string): (r: Option<string>)
    ensures r.Some? <==> |refName| >= |HeadsPrefix| && refName[..|HeadsPrefix|] == HeadsPrefix
    ensures r.Some? ==> refName == HeadsPrefix + r.value
  {
    if |refName| >= |HeadsPrefix| && refName[..|HeadsPrefix|] == HeadsPrefix
    then
      assert refName == refName[..|HeadsPrefix|] + refName[|HeadsPrefix|..];
      Some(refName[|HeadsPrefix|..])
    else None
  }

  /**
   * Inverse of `ForcePushRefspec`: a leading `+` marks a forced push and the
   * rest is the source. A `:<dst>` part is not separated out.
   */
  function ParseRefspec(spec: string): (r: Refspec)
    ensures r.force <==> |spec| > 0 && spec[0] == '+'
    ensures spec == (if r.force then "+" else "") + r.src
  {
    if |spec| > 0 && spec[0] == '+' then
      assert spec == [spec[0]] + spec[1..];
      Refspec(true, spec[1..])
    else Refspec(false, spec)
  }

  /** Distinct base branches give distinct remote-tracking references. */
  lemma UpstreamRefInjective(a: string, b: string)
    ensures UpstreamRef(a) == UpstreamRef(b) ==> a == b
  {
  }

  /** The refspec pushed for the anonymized branch forces `refs/heads/<branch>`. */
  lemma BranchRefspec(branch: string)
    ensures ParseRefspec(ForcePushRefspec(HeadRef(branch))) == Refspec(true, HeadsPrefix + branch)
    ensures BranchOfRef(ParseRefspec(ForcePushRefspec(HeadRef(branch))).src) == Some(branch)
  {
  }
}
