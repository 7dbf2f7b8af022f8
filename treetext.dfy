/** The listing of a tree object as `git show <sha>:<dir>` prints it: a header
    line `tree <name>`, a blank line, then one entry per line, sub-trees marked
    with a trailing "/". The same rule is written twice, in lib/git-fs.js and
    lib/git.js. */
module TreeText {
  import opened Text
  import opened GitTypes

  const TreePrefix: string := "tree "

  /** `/^tree .*\n\n/` matches `text[..end]`: "tree ", a rest of line, and an
      empty line. */
  predicate HeaderAt(text: string, end: nat) {
    && 7 <= end <= |text|
    && text[..5] == TreePrefix
    && OneLine(text[5..end - 2])
    && text[end - 2] == '\n' && text[end - 1] == '\n'
  }

  /** Where the header match ends, if the text has one. `.*` stops at the first
      line terminator after "tree ", so there is at most one place. */
  function HeaderEnd(text: string): (end: Wrappers.Option<nat>)
    ensures end.Some? ==> HeaderAt(text, end.value)
    ensures end.None? ==> forall e :: !HeaderAt(text, e)
  {
    if |text| < 5 || text[..5] != TreePrefix then Wrappers.None
    else
      var t := IndexOfAnyFrom(text, LineTerminators, 5);
      if t + 1 < |text| && text[t] == '\n' && text[t + 1] == '\n' then
        assert text[5..t] == text[5..t + 2 - 2];
        Wrappers.Some(t + 2)
      else
        assert forall e :: !HeaderAt(text, e) by {
          forall e: nat | 7 <= e <= |text| ensures !HeaderAt(text, e) {
            if e - 2 < t {
              assert text[e - 2] !in LineTerminators;
            } else if e - 2 > t {
              assert text[5..e - 2][t - 5] == text[t];
            }
          }
        }
        Wrappers.None
  }

  /** An entry naming a sub-tree: `/\/$/`. */
  predicate IsDirEntry(entry: string) {
    |entry| > 0 && entry[|entry| - 1] == '/'
  }

  /** The entries: the header removed, the rest trimmed and split on "\n". */
  function Entries(text: string, end: nat): (entries: seq<string>)
    requires HeaderAt(text, end)
    ensures |entries| >= 1
    ensures forall k, j :: 0 <= k < |entries| && 0 <= j < |entries[k]| ==> entries[k][j] != '\n'
  {
    SplitOn(Trim(text[end..]), {'\n'})
  }

  /** The listing the `forEach` builds after its first `n` entries. */
  function Classified(entries: seq<string>): (d: DirListing)
    decreases |entries|
  {
    if entries == [] then DirListing([], [])
    else
      var d := Classified(entries[..|entries| - 1]);
      var e := entries[|entries| - 1];
      if IsDirEntry(e) then d.(dirs := d.dirs + [e[..|e| - 1]]) else d.(files := d.files + [e])
  }

  /** The non-directory entries, in order: a reference definition of `files`. */
  function FilesIn(entries: seq<string>): seq<string>
    decreases |entries|
  {
    if entries == [] then []
    else (if IsDirEntry(entries[0]) then [] else [entries[0]]) + FilesIn(entries[1..])
  }

  /** The directory entries without their "/", in order: the same for `dirs`. */
  function DirsIn(entries: seq<string>): seq<string>
    decreases |entries|
  {
    if entries == [] then []
    else (if IsDirEntry(entries[0]) then [entries[0][..|entries[0]| - 1]] else []) + DirsIn(entries[1..])
  }

  lemma FilesInAppend(xs: seq<string>, ys: seq<string>)
    ensures FilesIn(xs + ys) == FilesIn(xs) + FilesIn(ys)
    ensures DirsIn(xs + ys) == DirsIn(xs) + DirsIn(ys)
  {
    FilesAppend(xs, ys);
    DirsAppend(xs, ys);
  }

  lemma {:induction false} FilesAppend(xs: seq<string>, ys: seq<string>)
    ensures FilesIn(xs + ys) == FilesIn(xs) + FilesIn(ys)
    decreases |xs|
  {
    if xs == [] {
      assert xs + ys == ys;
    } else {
      var zs := xs + ys;
      assert zs[0] == xs[0] && zs[1..] == xs[1..] + ys;
      FilesAppend(xs[1..], ys);
    }
  }

  lemma {:induction false} DirsAppend(xs: seq<string>, ys: seq<string>)
    ensures DirsIn(xs + ys) == DirsIn(xs) + DirsIn(ys)
    decreases |xs|
  {
    if xs == [] {
      assert xs + ys == ys;
    } else {
      var zs := xs + ys;
      assert zs[0] == xs[0] && zs[1..] == xs[1..] + ys;
      DirsAppend(xs[1..], ys);
      var head := if IsDirEntry(xs[0]) then [xs[0][..|xs[0]| - 1]] else [];
      assert DirsIn(zs) == head + DirsIn(xs[1..] + ys);
      assert DirsIn(xs) == head + DirsIn(xs[1..]);
    }
  }

  /** The partition keeps both kinds in their original order: `files` is the
      sub-sequence of plain entries and `dirs` that of directory entries. */
  lemma {:induction false} ClassifiedKeepsOrder(entries: seq<string>)
    ensures Classified(entries) == DirListing(FilesIn(entries), DirsIn(entries))
    decreases |entries|
  {
    if entries != [] {
      var init := entries[..|entries| - 1];
      var e := entries[|entries| - 1];
      ClassifiedKeepsOrder(init);
      assert entries == init + [e];
      FilesInAppend(init, [e]);
      assert [e][1..] == [];
    }
  }

  /** Every entry lands in exactly one of the lists: the two together are as
      long as the entries, a plain entry is in `files`, and a directory entry is
      in `dirs` with its "/" removed. */
  lemma EachEntryOnce(entries: seq<string>)
    ensures |FilesIn(entries)| + |DirsIn(entries)| == |entries|
    ensures forall k :: 0 <= k < |entries| && !IsDirEntry(entries[k]) ==> entries[k] in FilesIn(entries)
    ensures forall k :: 0 <= k < |entries| && IsDirEntry(entries[k]) ==>
      entries[k][..|entries[k]| - 1] in DirsIn(entries)
    ensures forall f :: f in FilesIn(entries) ==> f in entries && !IsDirEntry(f)
    ensures forall d :: d in DirsIn(entries) ==> d + "/" in entries
  {
    EntryCount(entries);
    EntriesListed(entries);
    ListedEntries(entries);
  }

  lemma {:induction false} EntryCount(entries: seq<string>)
    ensures |FilesIn(entries)| + |DirsIn(entries)| == |entries|
    decreases |entries|
  {
    if entries != [] {
      EntryCount(entries[1..]);
    }
  }

  lemma {:induction false} EntriesListed(entries: seq<string>)
    ensures forall k :: 0 <= k < |entries| && !IsDirEntry(entries[k]) ==> entries[k] in FilesIn(entries)
    ensures forall k :: 0 <= k < |entries| && IsDirEntry(entries[k]) ==>
      entries[k][..|entries[k]| - 1] in DirsIn(entries)
    decreases |entries|
  {
    if entries != [] {
      EntriesListed(entries[1..]);
      forall k | 1 <= k < |entries| ensures entries[k] == entries[1..][k - 1] { }
    }
  }

  lemma {:induction false} ListedEntries(entries: seq<string>)
    ensures forall f :: f in FilesIn(entries) ==> f in entries && !IsDirEntry(f)
    ensures forall d :: d in DirsIn(entries) ==> d + "/" in entries
    decreases |entries|
  {
    if entries != [] {
      ListedEntries(entries[1..]);
      var e := entries[0];
      assert entries == [e] + entries[1..];
      if IsDirEntry(e) {
        assert e[..|e| - 1] + "/" == e;
      }
    }
  }

  /** The loop of the tree branch of `readDir`: push each entry onto `dirs`
      (its "/" removed) or onto `files`. */
  method Partition(entries: seq<string>) returns (listing: DirListing)
    ensures listing == Classified(entries)
    ensures listing == DirListing(FilesIn(entries), DirsIn(entries))
  {
    var files: seq<string> := [];
    var dirs: seq<string> := [];
    for i := 0 to |entries|
      invariant DirListing(files, dirs) == Classified(entries[..i])
    {
      var entry := entries[i];
      assert entries[..i + 1][..i] == entries[..i];
      if |entry| > 0 && entry[|entry| - 1] == '/' {
        dirs := dirs + [entry[..|entry| - 1]];
      } else {
        files := files + [entry];
      }
    }
    assert entries[..|entries|] == entries;
    listing := DirListing(files, dirs);
    ClassifiedKeepsOrder(entries);
  }

  /** The listing of `text`, or `None` when it is not a tree; the error that
      then reaches the callers is built by the two files' `readDir`. */
  function ParseTree(text: string): (r: Wrappers.Option<DirListing>)
    ensures r.None? <==> forall e :: !HeaderAt(text, e)
    ensures r.Some? ==> exists e :: HeaderAt(text, e) && r.value == DirListing(FilesIn(Entries(text, e)), DirsIn(Entries(text, e)))
  {
    match HeaderEnd(text)
    case None => Wrappers.None
    case Some(end) =>
      ClassifiedKeepsOrder(Entries(text, end));
      Wrappers.Some(Classified(Entries(text, end)))
  }

  /** At most one prefix of a text is a tree header. */
  lemma HeaderUnique(text: string, end: nat)
    requires HeaderAt(text, end)
    ensures forall e: nat :: e != end ==> !HeaderAt(text, e)
    ensures HeaderEnd(text) == Wrappers.Some(end)
  {
    forall e: nat | 7 <= e <= |text| && e != end ensures !HeaderAt(text, e) {
      if e < end {
        assert text[5..end - 2][e - 2 - 5] == text[e - 2];
      } else {
        assert text[5..e - 2][end - 2 - 5] == text[end - 2];
      }
    }
  }

  /** Trimming a body that neither starts nor ends with white space, followed
      by the final newline git prints, gives the body back. */
  lemma TrimFinalNewline(body: string)
    requires body != [] && !IsSpace(body[0]) && !IsSpace(body[|body| - 1])
    ensures Trim(body + "\n") == body
  {
    var s := body + "\n";
    assert TrimStart(s) == s[0..] == s;
    assert s[..|s| - 1] == body;
    assert TrailingSpace(body) == 0;
  }

  /** What git prints for a tree is parsed back into its entries: the header
      line, a blank line, the entry names one per line and a final newline give
      the names, plain ones in `files` and directories in `dirs`, in order. */
  lemma TreeRoundTrip(name: string, entries: seq<string>)
    requires OneLine(name) && |entries| >= 1
    requires SeparatorFree(entries, {'\n'})
    requires var body := JoinWith(entries, "\n");
      body != [] && !IsSpace(body[0]) && !IsSpace(body[|body| - 1])
    ensures ParseTree(TreePrefix + name + "\n\n" + JoinWith(entries, "\n") + "\n")
         == Wrappers.Some(DirListing(FilesIn(entries), DirsIn(entries)))
  {
    var body := JoinWith(entries, "\n");
    var head := TreePrefix + name + "\n\n";
    var text := head + (body + "\n");
    assert text == TreePrefix + name + "\n\n" + body + "\n";
    var end := |head|;
    assert text[..end] == head;
    assert head[..5] == TreePrefix && head[5..end - 2] == name;
    ParseTreeAt(text, end);
    assert text[end..] == body + "\n";
    PrintedEntries(entries);
    ClassifiedKeepsOrder(entries);
  }

  /** The entry lines git prints, with the final newline, trim and split back
      into the entries. */
  lemma PrintedEntries(entries: seq<string>)
    requires |entries| >= 1 && SeparatorFree(entries, {'\n'})
    requires var body := JoinWith(entries, "\n");
      body != [] && !IsSpace(body[0]) && !IsSpace(body[|body| - 1])
    ensures SplitOn(Trim(JoinWith(entries, "\n") + "\n"), {'\n'}) == entries
  {
    TrimFinalNewline(JoinWith(entries, "\n"));
    SplitJoin(entries, '\n', {'\n'});
  }

  /** An empty tree lists one file with an empty name, since "".split("\n")
      is [""]. */
  lemma EmptyTreeListsEmptyName(name: string)
    requires OneLine(name)
    ensures ParseTree(TreePrefix + name + "\n\n") == Wrappers.Some(DirListing([""], []))
  {
    var text := TreePrefix + name + "\n\n";
    var end := |text|;
    assert text[..5] == TreePrefix && text[5..end - 2] == name;
    ParseTreeAt(text, end);
    NoEntriesLeft(text, end);
    SingleFile("");
  }

  /** A header that ends the text leaves the one empty entry. */
  lemma NoEntriesLeft(text: string, end: nat)
    requires HeaderAt(text, end) && end == |text|
    ensures Entries(text, end) == [""]
  {
    assert text[end..] == "";
    TrimEmpty();
  }

  lemma TrimEmpty()
    ensures Trim("") == ""
  {
    assert TrimStart("") == "";
  }

  /** One plain entry is one file. */
  lemma SingleFile(e: string)
    requires !IsDirEntry(e)
    ensures Classified([e]) == DirListing([e], [])
  {
    assert [e][..0] == [];
  }

  /** Once the header is found, the listing is the classification of the entries. */
  lemma ParseTreeAt(text: string, end: nat)
    requires HeaderAt(text, end)
    ensures ParseTree(text) == Wrappers.Some(Classified(Entries(text, end)))
  {
    HeaderUnique(text, end);
  }

  /** Text without the header is not a tree, e.g. the contents of a file. */
  lemma BlobIsNotTree(text: string)
    requires |text| < 5 || text[..5] != TreePrefix
    ensures ParseTree(text).None?
  {
  }

  /** A method form of `ParseTree`, with the loop the source runs. */
  method ReadTree(text: string) returns (r: Wrappers.Option<DirListing>)
    ensures r == ParseTree(text)
  {
    var end := HeaderEnd(text);
    if end.None? {
      return Wrappers.None;
    }
    var entries := SplitOn(Trim(text[end.value..]), {'\n'});
    var listing := Partition(entries);
    r := Wrappers.Some(listing);
  }
}
