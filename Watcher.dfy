/** The `watch` task's change handler (gulpfile.js:289-299): a changed file's
    path, relative to the project directory and prefixed with `./`, is tested
    against three source directories, and decides between rebuilding the pages,
    rebuilding the stylesheets and telling the live-reload server. */
module Watcher {
  import opened JsStrings

  const AppViewsDir: string := "./app/views"
  const PostDir: string := "./posts"
  const AppSassDir: string := "./app/sass"

  /** The page rebuild: templates, then the index, then the posts. */
  const PageTasks: seq<string> := ["build:templates", "build:index", "build:posts"]
  const SassTasks: seq<string> := ["build:sass"]

  /** What the handler does about one change: start the named tasks in order,
      or notify the live-reload server of the changed file's absolute path. */
  datatype WatchAction = RunTasks(tasks: seq<string>) | NotifyChanged(path: string)

  /** The handler for a change to the file at `absolutePath`, whose path relative
      to the project directory is `relativePath`. */
  function OnChange(relativePath: string, absolutePath: string): (a: WatchAction)
    ensures a.RunTasks? ==> a.tasks == PageTasks || a.tasks == SassTasks
    ensures a.NotifyChanged? ==> a.path == absolutePath
  {
    var filePath := "./" + relativePath;
    if IndexOf(filePath, AppViewsDir) == 0 || IndexOf(filePath, PostDir) == 0 then
      RunTasks(PageTasks)
    else if IndexOf(filePath, AppSassDir) == 0 then
      RunTasks(SassTasks)
    else
      NotifyChanged(absolutePath)
  }

  /** The three outcomes by prefix of `./<relativePath>`: templates and posts
      rebuild the pages, otherwise stylesheets rebuild the styles, and any other
      change only reaches the live-reload server. */
  lemma DispatchByPrefix(relativePath: string, absolutePath: string)
    ensures var p := "./" + relativePath;
      && (OnChange(relativePath, absolutePath) == RunTasks(PageTasks) <==>
            IsPrefix(AppViewsDir, p) || IsPrefix(PostDir, p))
      && (OnChange(relativePath, absolutePath) == RunTasks(SassTasks) <==>
            !IsPrefix(AppViewsDir, p) && !IsPrefix(PostDir, p) && IsPrefix(AppSassDir, p))
      && (OnChange(relativePath, absolutePath) == NotifyChanged(absolutePath) <==>
            !IsPrefix(AppViewsDir, p) && !IsPrefix(PostDir, p) && !IsPrefix(AppSassDir, p))
  {
    var p := "./" + relativePath;
    IndexOfZeroIffPrefix(p, AppViewsDir);
    IndexOfZeroIffPrefix(p, PostDir);
    IndexOfZeroIffPrefix(p, AppSassDir);
  }

  /** A stylesheet change always rebuilds the styles: no stylesheet path also
      starts with the views or posts directory. */
  lemma {:induction false} SassChangesRebuildStyles(name: string, absolutePath: string)
    ensures OnChange("app/sass/" + name, absolutePath) == RunTasks(SassTasks)
  {
    var p := "./" + ("app/sass/" + name);
    assert p == AppSassDir + ("/" + name);
    assert p[..|AppSassDir|] == AppSassDir;
    assert p[6] == 's' && AppViewsDir[6] == 'v';
    assert p[2] == 'a' && PostDir[2] == 'p';
    DispatchByPrefix("app/sass/" + name, absolutePath);
  }

  /** A change under the posts directory rebuilds the pages. */
  lemma {:induction false} PostChangesRebuildPages(name: string, absolutePath: string)
    ensures OnChange("posts/" + name, absolutePath) == RunTasks(PageTasks)
  {
    var p := "./" + ("posts/" + name);
    assert p == PostDir + ("/" + name);
    assert p[..|PostDir|] == PostDir;
    DispatchByPrefix("posts/" + name, absolutePath);
  }

  /** A change to the built site only reaches the live-reload server. */
  lemma {:induction false} DistChangesReload(name: string, absolutePath: string)
    ensures OnChange("dist/" + name, absolutePath) == NotifyChanged(absolutePath)
  {
    var p := "./" + ("dist/" + name);
    assert p[2] == 'd';
    assert AppViewsDir[2] == 'a' && PostDir[2] == 'p' && AppSassDir[2] == 'a';
    DispatchByPrefix("dist/" + name, absolutePath);
  }

  /** The test is on characters, not on path components: a sibling directory
      whose name merely starts with `views`, such as `app/views-old`, also
      rebuilds the pages. */
  lemma {:induction false} PrefixIsNotDirectoryAware(name: string, absolutePath: string)
    ensures OnChange("app/views-old/" + name, absolutePath) == RunTasks(PageTasks)
  {
    var p := "./" + ("app/views-old/" + name);
    assert p == AppViewsDir + ("-old/" + name);
    assert p[..|AppViewsDir|] == AppViewsDir;
    DispatchByPrefix("app/views-old/" + name, absolutePath);
  }
}
