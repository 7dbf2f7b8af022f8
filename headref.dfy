/** Reading the head commit from the git directory (`getHeadSha` and `checkDone`
    in lib/git-fs.js): the symbolic ref in HEAD, the loose ref file it names,
    and the packed-refs summary, with the regular expressions written out. */
module HeadRef {
  import opened Wrappers
  import opened Text
  import opened GitTypes

  /** A 40-character lower-case hex commit id. */
  predicate IsSha(s: string) {
    |s| == 40 && forall k :: 0 <= k < 40 ==> IsLowerHex(s[k])
  }

  /** `head.match(/^ref: (.*)\n$/)[1]`: HEAD must be exactly `ref: `, one line of
      text, and a final newline (without the `m` flag `$` is the end of input). */
  function SymbolicRef(head: string): (r: Option<string>)
    ensures r.Some? ==> head == "ref: " + r.value + "\n" && OneLine(r.value)
  {
    if |head| >= 6 && head[..5] == "ref: " && head[|head| - 1] == '\n' && OneLine(head[5..|head| - 1])
    then
      assert head == head[..5] + head[5..|head| - 1] + [head[|head| - 1]];
      Some(head[5..|head| - 1])
    else None
  }

  /** The converse of `SymbolicRef`'s contract: every one-line ref written as
      `ref: X\n` is read back. */
  lemma SymbolicRefOf(x: string)
    requires OneLine(x)
    ensures SymbolicRef("ref: " + x + "\n") == Some(x)
  {
    var h := "ref: " + x + "\n";
    assert h[..5] == "ref: " && h[5..|h| - 1] == x;
  }

  /** A detached HEAD (a bare commit id) does not match. */
  lemma DetachedHeadDoesNotMatch(sha: string)
    requires IsSha(sha)
    ensures SymbolicRef(sha + "\n") == None
  {
    var h := sha + "\n";
    assert h[4] == sha[4] && IsLowerHex(sha[4]);
  }

  /** The regular expression `([a-f0-9]{40})` followed by `suffix` matches at `i`. */
  predicate ShaThen(s: string, i: nat, suffix: string) {
    Hex40At(s, i) && StartsAt(s, i + 40, suffix)
  }

  /** The leftmost match at or after `from`. */
  function FirstShaThen(s: string, suffix: string, from: nat): (r: Option<nat>)
    requires from <= |s|
    ensures r.Some? ==> from <= r.value && ShaThen(s, r.value, suffix)
    ensures r.Some? ==> forall k :: from <= k < r.value ==> !ShaThen(s, k, suffix)
    ensures r.None? ==> forall k :: from <= k <= |s| ==> !ShaThen(s, k, suffix)
    decreases |s| - from
  {
    if ShaThen(s, from, suffix) then Some(from)
    else if from == |s| then None
    else FirstShaThen(s, suffix, from + 1)
  }

  /** The leftmost match of the sha pattern followed by `suffix` is at `i`. */
  predicate LeftmostShaThen(s: string, suffix: string, i: nat) {
    ShaThen(s, i, suffix) && forall k :: 0 <= k < i ==> !ShaThen(s, k, suffix)
  }

  /** The capture group of the leftmost match: a commit id. */
  function ShaBefore(s: string, suffix: string): (r: Option<string>)
    ensures r.Some? ==> IsSha(r.value)
    ensures r.Some? <==> exists i :: 0 <= i <= |s| && ShaThen(s, i, suffix)
    ensures r.Some? ==> exists i :: 0 <= i <= |s| && LeftmostShaThen(s, suffix, i) && r.value == s[i..i + 40]
    ensures forall i :: 0 <= i <= |s| && LeftmostShaThen(s, suffix, i) ==> r == Some(s[i..i + 40])
  {
    match FirstShaThen(s, suffix, 0)
    case Some(i) =>
      assert LeftmostShaThen(s, suffix, i);
      Some(s[i..i + 40])
    case None => None
  }

  /** `master.match(/([a-f0-9]{40})\n/)[1]` on a loose ref file. */
  function LooseSha(master: string): (r: Option<string>)
    ensures r.Some? <==> exists i :: 0 <= i <= |master| && ShaThen(master, i, "\n")
    ensures r.Some? ==> exists i :: 0 <= i <= |master| && LeftmostShaThen(master, "\n", i) && r.value == master[i..i + 40]
    ensures forall i :: 0 <= i <= |master| && LeftmostShaThen(master, "\n", i) ==> r == Some(master[i..i + 40])
  {
    ShaBefore(master, "\n")
  }

  /** `packedRefs.match(new RegExp("([a-f0-9]{40}) " + head))[1]`, with the ref
      name taken literally. */
  function PackedSha(packedRefs: string, ref: string): (r: Option<string>)
    ensures r.Some? <==> exists i :: 0 <= i <= |packedRefs| && ShaThen(packedRefs, i, " " + ref)
    ensures r.Some? ==> exists i :: 0 <= i <= |packedRefs| && LeftmostShaThen(packedRefs, " " + ref, i) && r.value == packedRefs[i..i + 40]
    ensures forall i :: 0 <= i <= |packedRefs| && LeftmostShaThen(packedRefs, " " + ref, i) ==> r == Some(packedRefs[i..i + 40])
  {
    ShaBefore(packedRefs, " " + ref)
  }

  /** A packed-refs line `<sha> <ref>` gives that sha, unless an earlier
      position already matches. */
  lemma PackedLineFound(before: string, sha: string, ref: string, after: string)
    requires IsSha(sha)
    requires forall k :: 0 <= k < |before| ==> !ShaThen(before + sha + " " + ref + after, k, " " + ref)
    ensures PackedSha(before + sha + " " + ref + after, ref) == Some(sha)
  {
    var s := before + sha + " " + ref + after;
    var i := |before|;
    assert s[i..i + 40] == sha;
    assert s[i + 40..i + 40 + |" " + ref|] == " " + ref;
    assert ShaThen(s, i, " " + ref);
    assert LeftmostShaThen(s, " " + ref, i);
  }

  /** How a resolution of the head commit ends: with the id, with an error for
      every waiter, or never (no callback is ever made). */
  datatype Resolution = Resolved(sha: string) | Failed(error: GitError) | Stalled

  /** The `TypeError` of indexing the `null` result of a failed `match`. */
  const NoMatch: GitError := GitError(ParseFailure, "match failed")

  /** The outcome `getHEAD` and `checkDone` reach from the results of the reads:
      `packed` of packed-refs, `head` of HEAD, `loose` of the ref file HEAD names.
      The first two run in parallel and `packedFirst` says which called back
      first; a failure is reported as soon as its read calls back. An empty HEAD
      ref or an empty packed-refs file is falsy, so `checkDone` never proceeds.
      A loose file with content takes precedence over packed-refs even when it
      holds no id followed by a newline. */
  function Resolve(packed: Result<string, IoError>, head: Result<string, IoError>,
                   loose: Result<string, IoError>, packedFirst: bool): (r: Resolution)
    ensures r.Resolved? ==> IsSha(r.sha)
    ensures r.Resolved? ==> packed.Ok? && head.Ok? && SymbolicRef(head.value).Some?
  {
    var headFailure: Option<GitError> :=
      if head.Err? then Some(FromIo(head.error))
      else if SymbolicRef(head.value).None? then Some(NoMatch)
      else None;
    if packed.Err? && (packedFirst || headFailure.None?) then Failed(FromIo(packed.error))
    else if headFailure.Some? then Failed(headFailure.value)
    else
      var ref := SymbolicRef(head.value).value;
      if ref == "" || packed.value == "" then Stalled
      else if loose.Ok? && loose.value != "" then
        match LooseSha(loose.value)
        case Some(sha) => Resolved(sha)
        case None => Failed(NoMatch)
      else
        match PackedSha(packed.value, ref)
        case Some(sha) => Resolved(sha)
        case None => Failed(NoMatch)
  }

  /** A non-empty loose ref file decides the result whatever packed-refs says. */
  lemma LooseRefWins(packed: string, packed': string, ref: string, master: string, packedFirst: bool)
    requires packed != "" && packed' != "" && ref != "" && OneLine(ref) && master != ""
    ensures Resolve(Ok(packed), Ok("ref: " + ref + "\n"), Ok(master), packedFirst)
         == Resolve(Ok(packed'), Ok("ref: " + ref + "\n"), Ok(master), packedFirst)
    ensures Resolve(Ok(packed), Ok("ref: " + ref + "\n"), Ok(master), packedFirst)
         == if LooseSha(master).Some? then Resolved(LooseSha(master).value) else Failed(NoMatch)
  {
    SymbolicRefOf(ref);
  }

  /** Without a loose ref (a failed read, or an empty file) the id preceding
      `" " + ref` in packed-refs is the result. */
  lemma PackedRefsFallback(packed: string, ref: string, loose: Result<string, IoError>, packedFirst: bool)
    requires packed != "" && ref != "" && OneLine(ref)
    requires loose.Err? || loose.value == ""
    ensures Resolve(Ok(packed), Ok("ref: " + ref + "\n"), loose, packedFirst)
         == if PackedSha(packed, ref).Some? then Resolved(PackedSha(packed, ref).value) else Failed(NoMatch)
  {
    SymbolicRefOf(ref);
  }

  /** A HEAD that is not `ref: X\n` fails the resolution, whatever the other files hold. */
  lemma HeadMismatchFails(packed: Result<string, IoError>, head: string, loose: Result<string, IoError>, packedFirst: bool)
    requires SymbolicRef(head).None?
    ensures Resolve(packed, Ok(head), loose, packedFirst).Failed?
  {
  }
}
