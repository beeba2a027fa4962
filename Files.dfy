/** The file objects that flow through the build's streams (vinyl files with the
    `frontMatter` property the front-matter stage attaches), and what a stream
    stage hands on downstream. */
module Files {
  import opened JsValues

  /** File contents: a directory or empty entry has none, a file opened in
      streaming mode carries a stream, a file read into memory carries bytes. */
  datatype Contents = NoContents | StreamContents | BufferContents(bytes: seq<bv8>)

  /** A file's path relative to its glob base, split the way a rename callback
      sees it: `posts/003-hello.md` is ("posts", "003-hello", ".md"). */
  datatype PathParts = PathParts(dirname: string, basename: string, extname: string)

  datatype File = File(path: PathParts, contents: Contents, frontMatter: FrontMatter)

  /** `file.frontMatter.published`: a missing key reads as undefined. */
  function Published(f: File): JsValue
  {
    Get(f.frontMatter, "published")
  }

  /** The message both post tasks raise for a file opened in streaming mode. */
  const StreamNotSupported: string := "Stream content is not supported"

  /** `path.basename(file.path)`: the last path component, extension included. */
  function FullBaseName(p: PathParts): (b: string)
    ensures |b| == |p.basename| + |p.extname|
  {
    p.basename + p.extname
  }

  /** One thing a stream stage does for a file: push a file downstream, or emit a
      plugin error event carrying the plugin's name and a message. */
  datatype Event = Push(file: File) | PluginError(plugin: string, message: string)

  /** A later stage that renames every pushed file and lets error events stand. */
  function RenamePushed(events: seq<Event>, rename: PathParts -> PathParts): seq<Event>
  {
    seq(|events|, k requires 0 <= k < |events| =>
      if events[k].Push? then Push(events[k].file.(path := rename(events[k].file.path)))
      else events[k])
  }
}
