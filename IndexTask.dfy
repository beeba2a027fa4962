/** The `build:index` task (gulpfile.js:144-205): every post file passes through a
    stateful transform that keeps the published ones, rewrites their slug and
    date and collects their front matter; the flush step reverses the collection
    and renders it into the last kept file, which is then renamed `index.html`. */
module IndexTask {
  import opened Common
  import opened JsValues
  import opened JsStrings
  import opened Files
  import opened Slugs

  const PluginName: string := "indexFile"

  /** The error thrown when flush assigns to a property of an undefined `indexFile`. */
  const TypeError: string := "TypeError"

  /** The index's filter: a file whose published flag is loosely equal to `false`
      leaves no trace in the index. */
  predicate DroppedByIndex(f: File)
  {
    LooselyEqualsFalse(Published(f))
  }

  /** A file the transform records: read into memory and not dropped. */
  predicate Kept(f: File)
  {
    f.contents.BufferContents? && !DroppedByIndex(f)
  }

  /** A kept file after the transform has written its slug, derived from the
      file's base name, and its formatted date into its front matter. The other
      keys, the path and the contents stay. */
  function Augment(f: File, formatDate: JsValue -> string): (g: File)
    ensures g.path == f.path && g.contents == f.contents
  {
    var withSlug := f.frontMatter["slug" := Str(Slug(FullBaseName(f.path)))];
    f.(frontMatter := withSlug["date" := Str(formatDate(Get(withSlug, "date")))])
  }

  /** Augmenting adds exactly the keys `slug` and `date`: the slug derived from
      the base name and the formatted old date. Every other key keeps its value. */
  lemma AugmentWritesSlugAndDate(f: File, formatDate: JsValue -> string)
    ensures Augment(f, formatDate).frontMatter.Keys == f.frontMatter.Keys + {"slug", "date"}
    ensures Augment(f, formatDate).frontMatter["slug"] == Str(Slug(FullBaseName(f.path)))
    ensures Augment(f, formatDate).frontMatter["date"] == Str(formatDate(Get(f.frontMatter, "date")))
    ensures forall k :: k in f.frontMatter && k != "slug" && k != "date" ==>
      Augment(f, formatDate).frontMatter[k] == f.frontMatter[k]
  {
  }

  /** What the transform hands downstream for one file at the time it arrives:
      an empty entry passes through, a streamed file raises a plugin error, and
      a buffered file yields nothing until the flush. */
  function ArrivalEvents(f: File): (events: seq<Event>)
    ensures |events| <= 1
    ensures f.contents.BufferContents? <==> events == []
  {
    match f.contents
    case NoContents => [Push(f)]
    case StreamContents => [PluginError(PluginName, StreamNotSupported)]
    case BufferContents(_) => []
  }

  // ---------------------------------------------------------------------
  // The accumulator's state after a sequence of files, as functions
  // ---------------------------------------------------------------------

  /** Everything the transform has handed downstream after `files`. */
  function ArrivalLog(files: seq<File>): (events: seq<Event>)
    ensures |events| <= |files|
  {
    if files == [] then []
    else ArrivalLog(files[..|files| - 1]) + ArrivalEvents(files[|files| - 1])
  }

  /** `listOfPosts` after `files`: the augmented front matter of the kept files,
      in arrival order. */
  function KeptEntries(files: seq<File>, formatDate: JsValue -> string): (entries: seq<FrontMatter>)
    ensures |entries| <= |files|
  {
    if files == [] then []
    else
      var last := files[|files| - 1];
      KeptEntries(files[..|files| - 1], formatDate) +
        (if Kept(last) then [Augment(last, formatDate).frontMatter] else [])
  }

  /** `indexFile` after `files`: the last kept file, augmented; none exactly when
      no file was kept. */
  function LastKept(files: seq<File>, formatDate: JsValue -> string): (last: Option<File>)
    ensures last.None? <==> forall i :: 0 <= i < |files| ==> !Kept(files[i])
  {
    if files == [] then None
    else
      var n := |files| - 1;
      if Kept(files[n]) then Some(Augment(files[n], formatDate))
      else
        var r := LastKept(files[..n], formatDate);
        assert forall i :: 0 <= i < n ==> files[..n][i] == files[i];
        r
  }

  /** The two accumulator functions, one file further. */
  lemma Snoc(files: seq<File>, f: File, formatDate: JsValue -> string)
    ensures KeptEntries(files + [f], formatDate) ==
      KeptEntries(files, formatDate) + (if Kept(f) then [Augment(f, formatDate).frontMatter] else [])
    ensures LastKept(files + [f], formatDate) ==
      (if Kept(f) then Some(Augment(f, formatDate)) else LastKept(files, formatDate))
    ensures ArrivalLog(files + [f]) == ArrivalLog(files) + ArrivalEvents(f)
  {
    assert (files + [f])[..|files|] == files;
  }

  /** The index page: the last kept file carrying the render of the collected
      front matter, newest first. */
  function IndexPage(files: seq<File>, formatDate: JsValue -> string,
                     renderIndex: seq<FrontMatter> -> seq<bv8>): (page: Option<File>)
    ensures page.None? <==> LastKept(files, formatDate).None?
    ensures page.Some? ==> (page.value ==
      LastKept(files, formatDate).value.(contents :=
        BufferContents(renderIndex(Reversed(KeptEntries(files, formatDate))))))
  {
    match LastKept(files, formatDate)
    case None => None
    case Some(f) => Some(f.(contents := BufferContents(renderIndex(Reversed(KeptEntries(files, formatDate))))))
  }

  datatype FlushOutcome = Flushed | Threw(error: string)

  /** The through-stream's closure: `indexFile` and `listOfPosts` are the variables
      the transform and flush callbacks share; `output` is what the stream has
      pushed or emitted so far. The render of the index template and the date
      formatting are supplied from outside. */
  class IndexAccumulator {
    var indexFile: Option<File>
    var listOfPosts: seq<FrontMatter>
    var output: seq<Event>
    const formatDate: JsValue -> string
    const renderIndex: seq<FrontMatter> -> seq<bv8>

    /** The files received so far, and whether the flush has run. */
    ghost var received: seq<File>
    ghost var flushed: bool

    /** Before the flush, the shared variables are functions of the files received. */
    ghost predicate Collecting()
      reads this
    {
      !flushed &&
      listOfPosts == KeptEntries(received, formatDate) &&
      indexFile == LastKept(received, formatDate) &&
      output == ArrivalLog(received)
    }

    constructor (formatDate: JsValue -> string, renderIndex: seq<FrontMatter> -> seq<bv8>)
      ensures Collecting() && received == []
      ensures indexFile == None && listOfPosts == [] && output == []
      ensures this.formatDate == formatDate && this.renderIndex == renderIndex
    {
      this.formatDate := formatDate;
      this.renderIndex := renderIndex;
      indexFile := None;
      listOfPosts := [];
      output := [];
      received := [];
      flushed := false;
    }

    /** The transform callback (gulpfile.js:157-183). */
    method Transform(file: File)
      requires Collecting()
      modifies this
      ensures Collecting() && received == old(received) + [file]
      ensures output == old(output) + ArrivalEvents(file)
    {
      Snoc(received, file, formatDate);
      if file.contents.NoContents? {
        output := output + [Push(file)];
      } else if file.contents.StreamContents? {
        output := output + [PluginError(PluginName, StreamNotSupported)];
      } else if LooselyEqualsFalse(Get(file.frontMatter, "published")) {
        // an unpublished post: nothing is recorded
        assert !Kept(file);
      } else {
        assert Kept(file);
        var fm := file.frontMatter["slug" := Str(Slug(FullBaseName(file.path)))];
        fm := fm["date" := Str(formatDate(Get(fm, "date")))];
        var augmented := file.(frontMatter := fm);
        assert augmented == Augment(file, formatDate);
        indexFile := Some(augmented);
        listOfPosts := listOfPosts + [fm];
      }
      received := received + [file];
    }

    /** The flush callback (gulpfile.js:184-196): the list is reversed in place,
        rendered into the last kept file and that file is pushed. With no kept
        file, `indexFile` is undefined and the assignment to its `contents`
        throws a TypeError: nothing is pushed. */
    method Flush() returns (outcome: FlushOutcome)
      requires Collecting()
      modifies this
      ensures flushed && received == old(received)
      ensures listOfPosts == Reversed(old(listOfPosts))
      ensures old(indexFile).None? ==>
        outcome == Threw(TypeError) && indexFile == None && output == old(output)
      ensures old(indexFile).Some? ==> (outcome == Flushed &&
        indexFile == Some(old(indexFile).value.(contents := BufferContents(renderIndex(listOfPosts)))) &&
        output == old(output) + [Push(indexFile.value)])
    {
      listOfPosts := Reversed(listOfPosts);
      flushed := true;
      match indexFile
      case None =>
        outcome := Threw(TypeError);
      case Some(f) =>
        var page := f.(contents := BufferContents(renderIndex(listOfPosts)));
        indexFile := Some(page);
        output := output + [Push(page)];
        outcome := Flushed;
    }
  }

  /** How one run of the task ends: with everything it handed on to the writer,
      or with the error that stopped it after the files handed on so far. */
  datatype IndexRun = Completed(events: seq<Event>) | Crashed(events: seq<Event>, error: string)

  /** Feeds the post files, in glob order, through the transform of a fresh
      stream. */
  method TransformAll(acc: IndexAccumulator, files: seq<File>)
    requires acc.Collecting() && acc.received == []
    modifies acc
    ensures acc.Collecting() && acc.received == files
  {
    for i := 0 to |files|
      invariant acc.Collecting() && acc.received == files[..i]
    {
      acc.Transform(files[i]);
      assert files[..i + 1] == files[..i] + [files[i]];
    }
    assert files[..|files|] == files;
  }

  /** One run of the task over the post files in glob order: each file through
      the transform, then the flush, and every pushed file renamed `index.html`.
      The run crashes exactly when no file was kept; otherwise it hands on what
      the transform passed through and, last, the index page. */
  method BuildIndex(files: seq<File>, formatDate: JsValue -> string,
                    renderIndex: seq<FrontMatter> -> seq<bv8>) returns (run: IndexRun)
    ensures run.Crashed? <==> forall i :: 0 <= i < |files| ==> !Kept(files[i])
    ensures run.Crashed? ==> run == Crashed(RenamePushed(ArrivalLog(files), RenameIndex), TypeError)
    ensures run.Completed? ==> (run.events ==
      RenamePushed(ArrivalLog(files) + [Push(IndexPage(files, formatDate, renderIndex).value)], RenameIndex))
  {
    var acc := new IndexAccumulator(formatDate, renderIndex);
    TransformAll(acc, files);
    ghost var last := LastKept(files, formatDate);
    ghost var page := IndexPage(files, formatDate, renderIndex);
    assert acc.indexFile == last && acc.output == ArrivalLog(files);
    assert acc.listOfPosts == KeptEntries(files, formatDate);
    var outcome := acc.Flush();
    match outcome
    case Threw(e) =>
      assert last.None?;
      run := Crashed(RenamePushed(acc.output, RenameIndex), e);
    case Flushed =>
      assert last.Some? && page.Some?;
      assert acc.output == ArrivalLog(files) + [Push(page.value)];
      run := Completed(RenamePushed(acc.output, RenameIndex));
  }

  // ---------------------------------------------------------------------
  // Properties of the index
  // ---------------------------------------------------------------------

  /** The kept files, in arrival order. */
  function KeptFiles(files: seq<File>): (kept: seq<File>)
    ensures forall k :: 0 <= k < |kept| ==> Kept(kept[k])
  {
    if files == [] then []
    else
      var last := files[|files| - 1];
      KeptFiles(files[..|files| - 1]) + (if Kept(last) then [last] else [])
  }

  /** The collected list holds, position by position, the augmented front matter
      of the kept files in the order they arrived. */
  lemma {:induction false} EntriesFollowArrival(files: seq<File>, formatDate: JsValue -> string)
    ensures |KeptEntries(files, formatDate)| == |KeptFiles(files)|
    ensures forall k :: 0 <= k < |KeptFiles(files)| ==>
      KeptEntries(files, formatDate)[k] == Augment(KeptFiles(files)[k], formatDate).frontMatter
  {
    if files != [] {
      EntriesFollowArrival(files[..|files| - 1], formatDate);
    }
  }

  /** Position `k` of a reversed list of entries, for a caller that knows the
      entry at the mirrored position. */
  lemma ReversedEntryAt(entries: seq<FrontMatter>, k: nat, entry: FrontMatter)
    requires k < |entries| && entries[|entries| - 1 - k] == entry
    ensures Reversed(entries)[k] == entry
  {
    ReversedAt(entries, k);
  }

  /** After the flush the index lists the newest post first: position `k` of the
      rendered list is the entry of the `k`-th kept file counted from the end. */
  lemma IndexListNewestFirst(files: seq<File>, formatDate: JsValue -> string, k: nat)
    requires k < |KeptFiles(files)|
    ensures |Reversed(KeptEntries(files, formatDate))| == |KeptFiles(files)|
    ensures Reversed(KeptEntries(files, formatDate))[k] ==
      Augment(KeptFiles(files)[|KeptFiles(files)| - 1 - k], formatDate).frontMatter
  {
    var entries := KeptEntries(files, formatDate);
    var kept := KeptFiles(files);
    var j := |kept| - 1 - k;
    EntriesFollowArrival(files, formatDate);
    assert |entries| - 1 - k == j;
    assert entries[j] == Augment(kept[j], formatDate).frontMatter;
    ReversedEntryAt(entries, k, Augment(kept[j], formatDate).frontMatter);
  }

  /** A dropped file, wherever it arrives, changes neither the collected list nor
      the file the index is rendered into. */
  lemma {:induction false} DroppedFileLeavesNoTrace(before: seq<File>, f: File, after: seq<File>,
                                                    formatDate: JsValue -> string)
    requires !Kept(f)
    ensures KeptEntries(before + [f] + after, formatDate) == KeptEntries(before + after, formatDate)
    ensures LastKept(before + [f] + after, formatDate) == LastKept(before + after, formatDate)
  {
    if after == [] {
      assert before + [f] + after == before + [f];
      assert before + after == before;
      Snoc(before, f, formatDate);
    } else {
      var n := |after| - 1;
      var x := after[n];
      DroppedFileLeavesNoTrace(before, f, after[..n], formatDate);
      assert before + [f] + after == (before + [f] + after[..n]) + [x];
      assert before + after == (before + after[..n]) + [x];
      Snoc(before + [f] + after[..n], x, formatDate);
      Snoc(before + after[..n], x, formatDate);
    }
  }

  /** The file the index is rendered into carries the front matter collected for
      it: the last entry of the list before the flush. */
  lemma {:induction false} IndexFileHoldsLastEntry(files: seq<File>, formatDate: JsValue -> string)
    requires LastKept(files, formatDate).Some?
    ensures KeptEntries(files, formatDate) != []
    ensures LastKept(files, formatDate).value.frontMatter ==
      KeptEntries(files, formatDate)[|KeptEntries(files, formatDate)| - 1]
  {
    var n := |files| - 1;
    assert files == files[..n] + [files[n]];
    Snoc(files[..n], files[n], formatDate);
    if !Kept(files[n]) {
      IndexFileHoldsLastEntry(files[..n], formatDate);
    }
  }

  /** The file the index is rendered into is the kept file that arrived last. */
  lemma {:induction false} IndexFileIsLastKept(files: seq<File>, i: nat, formatDate: JsValue -> string)
    requires i < |files| && Kept(files[i])
    requires forall j :: i < j < |files| ==> !Kept(files[j])
    ensures LastKept(files, formatDate) == Some(Augment(files[i], formatDate))
  {
    var n := |files| - 1;
    if i < n {
      assert files == files[..n] + [files[n]];
      Snoc(files[..n], files[n], formatDate);
      IndexFileIsLastKept(files[..n], i, formatDate);
    }
  }

  /** Only empty entries are handed on before the flush: the index page is the one
      rendered file a run produces. */
  lemma {:induction false} OnlyEmptyEntriesPassThrough(files: seq<File>, e: Event)
    requires e in ArrivalLog(files) && e.Push?
    ensures e.file.contents.NoContents?
  {
    var n := |files| - 1;
    if e !in ArrivalEvents(files[n]) {
      OnlyEmptyEntriesPassThrough(files[..n], e);
    }
  }

  /** Every file is kept. */
  predicate AllKept(files: seq<File>)
  {
    forall i :: 0 <= i < |files| ==> Kept(files[i])
  }

  /** Every file of a prefix of an all-kept sequence is kept. */
  lemma AllKeptPrefix(files: seq<File>, n: nat)
    requires AllKept(files) && n <= |files|
    ensures AllKept(files[..n])
  {
    assert forall i :: 0 <= i < n ==> files[..n][i] == files[i];
  }

  /** When every file is kept, the kept subsequence is the whole sequence. */
  lemma {:induction false} AllKeptKeepsEach(files: seq<File>, k: nat)
    requires AllKept(files) && k < |files|
    ensures |KeptFiles(files)| == |files| && KeptFiles(files)[k] == files[k]
  {
    var n := |files| - 1;
    var prev := files[..n];
    AllKeptPrefix(files, n);
    assert Kept(files[n]);
    assert KeptFiles(files) == KeptFiles(prev) + [files[n]];
    if k < n {
      AllKeptKeepsEach(prev, k);
      assert prev[k] == files[k];
    } else if n > 0 {
      AllKeptKeepsEach(prev, 0);
    }
  }

  /** When every file is kept, the list has one entry per file. */
  lemma AllKeptAllCounted(files: seq<File>, formatDate: JsValue -> string)
    requires AllKept(files)
    ensures |KeptEntries(files, formatDate)| == |files|
  {
    EntriesFollowArrival(files, formatDate);
    if files != [] {
      AllKeptKeepsEach(files, 0);
    }
  }

  /** When every file is kept, entry `k` of the list is the `k`-th file's. */
  lemma AllKeptListedInOrder(files: seq<File>, formatDate: JsValue -> string, k: nat)
    requires AllKept(files) && k < |files|
    ensures |KeptEntries(files, formatDate)| == |files|
    ensures KeptEntries(files, formatDate)[k] == Augment(files[k], formatDate).frontMatter
  {
    EntriesFollowArrival(files, formatDate);
    AllKeptKeepsEach(files, k);
  }

  /** When every post is kept, position `k` of the rendered list carries the slug
      of the `k`-th post counted from the last. */
  lemma {:induction false} NewestSlugAt(files: seq<File>, formatDate: JsValue -> string, k: nat,
                                        prefix: string, stem: string)
    requires AllKept(files)
    requires k < |files| && '-' !in prefix && IndexOf(stem, MarkdownExt) == -1
    requires FullBaseName(files[|files| - 1 - k].path) == prefix + Hyphen + stem + MarkdownExt
    ensures k < |Reversed(KeptEntries(files, formatDate))|
    ensures "slug" in Reversed(KeptEntries(files, formatDate))[k]
    ensures Reversed(KeptEntries(files, formatDate))[k]["slug"] == Str(stem)
  {
    var entries := KeptEntries(files, formatDate);
    var j := |files| - 1 - k;
    var entry := Augment(files[j], formatDate).frontMatter;
    AllKeptListedInOrder(files, formatDate, j);
    assert entries[j] == entry;
    assert |entries| - 1 - k == j;
    ReversedEntryAt(entries, k, entry);
    EntrySlug(files[j], formatDate, prefix, stem);
  }

  /** The entry collected for a kept post named `<prefix>-<stem>.md` has slug `stem`. */
  lemma EntrySlug(f: File, formatDate: JsValue -> string, prefix: string, stem: string)
    requires '-' !in prefix && IndexOf(stem, MarkdownExt) == -1
    requires FullBaseName(f.path) == prefix + Hyphen + stem + MarkdownExt
    ensures "slug" in Augment(f, formatDate).frontMatter
    ensures Augment(f, formatDate).frontMatter["slug"] == Str(stem)
  {
    SlugOfPostName(prefix, stem);
  }

  /** Three published posts named `<p1>-<s1>.md`, `<p2>-<s2>.md`, `<p3>-<s3>.md` in
      glob order (for instance `001-a.md`, `002-b.md`, `003-c.md`) give the index
      list with slugs `s3`, `s2`, `s1`. */
  lemma ThreePostsNewestFirst(a: File, b: File, c: File, formatDate: JsValue -> string,
                              p1: string, s1: string, p2: string, s2: string, p3: string, s3: string)
    requires '-' !in p1 && '-' !in p2 && '-' !in p3
    requires IndexOf(s1, MarkdownExt) == -1 && IndexOf(s2, MarkdownExt) == -1 && IndexOf(s3, MarkdownExt) == -1
    requires FullBaseName(a.path) == p1 + Hyphen + s1 + MarkdownExt
    requires FullBaseName(b.path) == p2 + Hyphen + s2 + MarkdownExt
    requires FullBaseName(c.path) == p3 + Hyphen + s3 + MarkdownExt
    requires Kept(a) && Kept(b) && Kept(c)
    ensures var list := Reversed(KeptEntries([a, b, c], formatDate));
      |list| == 3 &&
      "slug" in list[0] && list[0]["slug"] == Str(s3) &&
      "slug" in list[1] && list[1]["slug"] == Str(s2) &&
      "slug" in list[2] && list[2]["slug"] == Str(s1)
  {
    var files := [a, b, c];
    assert files[0] == a && files[1] == b && files[2] == c;
    assert AllKept(files);
    NewestSlugAt(files, formatDate, 0, p3, s3);
    NewestSlugAt(files, formatDate, 1, p2, s2);
    NewestSlugAt(files, formatDate, 2, p1, s1);
    assert |KeptEntries(files, formatDate)| == 3 by {
      AllKeptAllCounted(files, formatDate);
    }
  }
}
