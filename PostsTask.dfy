/** The `build:posts` task (gulpfile.js:213-266): after front matter extraction
    and markdown conversion, a stateless transform renders each post into the
    post template, and every page it pushes is renamed without its ordering
    prefix. Its publication filter differs from the index's. */
module PostsTask {
  import opened JsValues
  import opened Files
  import opened Slugs
  import IndexTask

  const PluginName: string := "gulp-templatize"

  /** The posts task's filter: `published && published == false`. The `&&`
      short-circuits on a falsy flag, and a truthy flag is loosely equal to
      `false` only when it is a string that converts to zero, so the boolean
      `false` never skips a post. */
  predicate SkippedByPosts(f: File)
  {
    Truthy(Published(f)) && LooselyEqualsFalse(Published(f))
  }

  /** What the post template is rendered with: title and excerpt as they stand
      in the front matter, the formatted date, and the converted HTML body. */
  datatype PostLocals = PostLocals(title: JsValue, excerpt: JsValue, date: string, content: seq<bv8>)

  /** The page rendered for a buffered post: same path and front matter, the
      contents replaced by the rendered template. */
  function RenderedPost(f: File, formatDate: JsValue -> string,
                        renderPost: PostLocals -> seq<bv8>): (page: File)
    requires f.contents.BufferContents?
    ensures page.path == f.path && page.frontMatter == f.frontMatter
    ensures page.contents == BufferContents(renderPost(PostLocals(
      Get(f.frontMatter, "title"), Get(f.frontMatter, "excerpt"),
      formatDate(Get(f.frontMatter, "date")), f.contents.bytes)))
  {
    var fm := f.frontMatter;
    f.(contents := BufferContents(renderPost(PostLocals(
      Get(fm, "title"), Get(fm, "excerpt"), formatDate(Get(fm, "date")), f.contents.bytes))))
  }

  /** The transform callback (gulpfile.js:224-256) for one file. The filter is
      tested before the stream check, so a skipped streamed file raises nothing. */
  function PostStep(f: File, formatDate: JsValue -> string,
                    renderPost: PostLocals -> seq<bv8>): (events: seq<Event>)
    ensures |events| <= 1
  {
    if f.contents.NoContents? then [Push(f)]
    else if SkippedByPosts(f) then []
    else if f.contents.StreamContents? then [PluginError(PluginName, StreamNotSupported)]
    else [Push(RenderedPost(f, formatDate, renderPost))]
  }

  /** One pass of the task over the post files in glob order: each file through
      the transform, each pushed file through the prefix-stripping rename. */
  function BuildPosts(files: seq<File>, formatDate: JsValue -> string,
                      renderPost: PostLocals -> seq<bv8>): (events: seq<Event>)
    ensures |events| <= |files|
  {
    if files == [] then []
    else RenamePushed(PostStep(files[0], formatDate, renderPost), RenamePost) +
         BuildPosts(files[1..], formatDate, renderPost)
  }

  // ---------------------------------------------------------------------
  // Properties of the posts task
  // ---------------------------------------------------------------------

  /** The posts filter skips exactly the posts whose flag is a non-empty string
      that converts to zero, such as "0". */
  lemma SkippedOnlyForZeroStrings(f: File)
    ensures SkippedByPosts(f) <==>
      Published(f).Str? && Published(f).s != "" && StringToNumberIsZero(Published(f).s)
  {
    TruthyAndLooselyFalse(Published(f));
  }

  /** Whatever the posts filter skips, the index filter drops too; the converse
      fails. */
  lemma SkippedByPostsIsDroppedByIndex(f: File)
    ensures SkippedByPosts(f) ==> IndexTask.DroppedByIndex(f)
  {
  }

  /** The two filters disagree on `published: false`: the index leaves the post
      out, while the posts task still renders its page and renames it. */
  lemma FiltersDisagreeOnFalse(f: File, formatDate: JsValue -> string,
                               renderPost: PostLocals -> seq<bv8>)
    requires f.contents.BufferContents? && Published(f) == Bool(false)
    ensures IndexTask.DroppedByIndex(f) && !IndexTask.Kept(f)
    ensures BuildPosts([f], formatDate, renderPost) ==
      [Push(RenderedPost(f, formatDate, renderPost).(path := RenamePost(f.path)))]
  {
    assert [f][1..] == [];
  }

  /** Every post listed in the index also gets its own page. */
  lemma IndexedPostsHavePages(f: File, formatDate: JsValue -> string,
                              renderPost: PostLocals -> seq<bv8>)
    requires IndexTask.Kept(f)
    ensures PostStep(f, formatDate, renderPost) == [Push(RenderedPost(f, formatDate, renderPost))]
  {
  }

  /** The number of rendered pages among the events. */
  function PageCount(events: seq<Event>): (n: nat)
    ensures n <= |events|
  {
    if events == [] then 0
    else (if events[0].Push? && events[0].file.contents.BufferContents? then 1 else 0) +
         PageCount(events[1..])
  }

  /** The number of buffered posts the posts filter lets through. */
  function RenderablePosts(files: seq<File>): (n: nat)
    ensures n <= |files|
  {
    if files == [] then 0
    else (if files[0].contents.BufferContents? && !SkippedByPosts(files[0]) then 1 else 0) +
         RenderablePosts(files[1..])
  }

  lemma {:induction false} PageCountAppend(a: seq<Event>, b: seq<Event>)
    ensures PageCount(a + b) == PageCount(a) + PageCount(b)
  {
    if a == [] {
      assert a + b == b;
    } else {
      assert (a + b)[0] == a[0];
      assert (a + b)[1..] == a[1..] + b;
      PageCountAppend(a[1..], b);
    }
  }

  /** One page per buffered post that is not skipped, and none for the others. */
  lemma {:induction false} OnePagePerPost(files: seq<File>, formatDate: JsValue -> string,
                                          renderPost: PostLocals -> seq<bv8>)
    ensures PageCount(BuildPosts(files, formatDate, renderPost)) == RenderablePosts(files)
  {
    if files != [] {
      var head := RenamePushed(PostStep(files[0], formatDate, renderPost), RenamePost);
      PageCountAppend(head, BuildPosts(files[1..], formatDate, renderPost));
      OnePagePerPost(files[1..], formatDate, renderPost);
      assert PageCount(head) == (if files[0].contents.BufferContents? && !SkippedByPosts(files[0]) then 1 else 0) by {
        if head != [] {
          assert head[1..] == [];
        }
      }
    }
  }

  /** Every pushed page is named without its ordering prefix: the page for
      `<prefix>-<rest>.html` is `<rest>.html`. */
  lemma {:induction false} PagesRenamed(files: seq<File>, formatDate: JsValue -> string,
                                        renderPost: PostLocals -> seq<bv8>, k: nat)
    requires k < |files| && files[k].contents.BufferContents? && !SkippedByPosts(files[k])
    ensures Push(RenderedPost(files[k], formatDate, renderPost).(path := RenamePost(files[k].path)))
            in BuildPosts(files, formatDate, renderPost)
  {
    var head := RenamePushed(PostStep(files[0], formatDate, renderPost), RenamePost);
    var rest := BuildPosts(files[1..], formatDate, renderPost);
    assert BuildPosts(files, formatDate, renderPost) == head + rest;
    if k == 0 {
      assert head[0] in head + rest;
    } else {
      assert files[1..][k - 1] == files[k];
      PagesRenamed(files[1..], formatDate, renderPost, k - 1);
      assert forall e :: e in rest ==> e in head + rest;
    }
  }
}
